/** The sans-IO usbmux client of src/usbmux/codec.rs: frames, events, tags, pending connects. */
module Usbmux {
  import opened Bytes
  import opened Wrappers
  import opened Plist
  import Ids

  const HEADER_LEN: nat := 16
  const VERSION_PLIST: u32 := 1
  const MSGTYPE_PLIST: u32 := 8

  datatype ConnectionType = Usb | Network | Unknown(name: string)

  datatype Device = Device(
    deviceId: u32, serial: string, connectionType: ConnectionType, productId: u16, locationId: u32)

  datatype ResultCode = Ok | BadCommand | BadDevice | ConnRefused | NoSuchService | BadVersion | Other(n: u32)

  datatype Event =
    | DeviceList(devices: seq<Device>)
    | DeviceAttached(device: Device)
    | DeviceDetached(deviceId: u32)
    | Connected(tag: u32)
    | RequestOk(tag: u32)
    | RequestFailed(tag: u32, code: ResultCode)
    | Buid(buid: string)
    | PairRecord(record: seq<byte>)

  function ConnectionTypeOf(s: string): ConnectionType {
    if s == "USB" then Usb else if s == "Network" then Network else Unknown(s)
  }

  function CodeOf(n: u32): ResultCode {
    if n == 0 then Ok
    else if n == 1 then BadCommand
    else if n == 2 then BadDevice
    else if n == 3 then ConnRefused
    else if n == 4 then NoSuchService
    else if n == 6 then BadVersion
    else Other(n)
  }

  // ---- the envelope that answers are decoded into ----

  datatype Properties = Properties(
    serial: Option<string>, connectionType: Option<string>, productId: Option<u16>, locationId: Option<u32>)

  datatype DeviceEntry = DeviceEntry(deviceId: u32, properties: Properties)

  datatype Envelope = Envelope(
    messageType: Option<string>,
    number: Option<u32>,
    deviceList: Option<seq<DeviceEntry>>,
    buid: Option<string>,
    deviceId: Option<u32>,
    properties: Option<Properties>,
    pairRecordData: Option<seq<byte>>)

  /** An optional field: absent, of the wrong type, or there. */
  datatype Field<+T> = Absent | Bad | Found(value: T) {
    function ToOption(): Option<T> {
      if Found? then Some(value) else None
    }
  }

  function StringField(d: seq<Entry>, key: string): Field<string> {
    match Get(d, key)
    case None => Absent
    case Some(String(s)) => Found(s)
    case Some(_) => Bad
  }

  function U32Field(d: seq<Entry>, key: string): Field<u32> {
    match Get(d, key)
    case None => Absent
    case Some(Integer(n)) => if 0 <= n < TWO_32 then Found(n) else Bad
    case Some(_) => Bad
  }

  function U16Field(d: seq<Entry>, key: string): Field<u16> {
    match Get(d, key)
    case None => Absent
    case Some(Integer(n)) => if 0 <= n < TWO_16 then Found(n) else Bad
    case Some(_) => Bad
  }

  function DataField(d: seq<Entry>, key: string): Field<seq<byte>> {
    match Get(d, key)
    case None => Absent
    case Some(Data(b)) => Found(b)
    case Some(_) => Bad
  }

  function PropertiesOf(p: Plist): Option<Properties> {
    if !p.Dict? then None
    else
      var serial, kind := StringField(p.entries, "SerialNumber"), StringField(p.entries, "ConnectionType");
      var product, location := U16Field(p.entries, "ProductID"), U32Field(p.entries, "LocationID");
      if serial.Bad? || kind.Bad? || product.Bad? || location.Bad? then None
      else Some(Properties(serial.ToOption(), kind.ToOption(), product.ToOption(), location.ToOption()))
  }

  function PropertiesField(d: seq<Entry>, key: string): Field<Properties> {
    match Get(d, key)
    case None => Absent
    case Some(p) => if PropertiesOf(p).Some? then Found(PropertiesOf(p).value) else Bad
  }

  function DeviceEntryOf(p: Plist): Option<DeviceEntry> {
    if !p.Dict? then None
    else
      var id, props := U32Field(p.entries, "DeviceID"), PropertiesField(p.entries, "Properties");
      if id.Found? && props.Found? then Some(DeviceEntry(id.value, props.value)) else None
  }

  function DeviceEntriesOf(items: seq<Plist>, i: nat): Option<seq<DeviceEntry>>
    requires i <= |items|
    decreases |items| - i
  {
    if i == |items| then Some([])
    else
      var e, rest := DeviceEntryOf(items[i]), DeviceEntriesOf(items, i + 1);
      if e.Some? && rest.Some? then Some([e.value] + rest.value) else None
  }

  function DeviceListField(d: seq<Entry>, key: string): Field<seq<DeviceEntry>> {
    match Get(d, key)
    case None => Absent
    case Some(Array(items)) =>
      var es := DeviceEntriesOf(items, 0);
      if es.Some? then Found(es.value) else Bad
    case Some(_) => Bad
  }

  function EnvelopeOf(p: Plist): Option<Envelope> {
    if !p.Dict? then None
    else
      var d := p.entries;
      var messageType, number := StringField(d, "MessageType"), U32Field(d, "Number");
      var deviceList, buid := DeviceListField(d, "DeviceList"), StringField(d, "BUID");
      var deviceId, props := U32Field(d, "DeviceID"), PropertiesField(d, "Properties");
      var data := DataField(d, "PairRecordData");
      if messageType.Bad? || number.Bad? || deviceList.Bad? || buid.Bad? || deviceId.Bad? || props.Bad? || data.Bad?
      then None
      else
        Some(Envelope(messageType.ToOption(), number.ToOption(), deviceList.ToOption(), buid.ToOption(),
          deviceId.ToOption(), props.ToOption(), data.ToOption()))
  }

  function DecodeEnvelope(lib: Library, payload: seq<byte>): Option<Envelope> {
    var p := lib.decode(payload);
    if p.None? then None else EnvelopeOf(p.value)
  }

  function GetOr<T>(o: Option<T>, default: T): T {
    if o.Some? then o.value else default
  }

  function DeviceOf(id: u32, p: Properties): Device {
    Device(id, GetOr(p.serial, ""), ConnectionTypeOf(GetOr(p.connectionType, "")),
      GetOr(p.productId, 0), GetOr(p.locationId, 0))
  }

  function DevicesOf(es: seq<DeviceEntry>): (ds: seq<Device>)
    ensures |ds| == |es|
    ensures forall i | 0 <= i < |es| :: ds[i] == DeviceOf(es[i].deviceId, es[i].properties)
  {
    seq(|es|, i requires 0 <= i < |es| => DeviceOf(es[i].deviceId, es[i].properties))
  }

  // ---- the codec's state ----

  /** `rx` and `tx` are the receive buffer and the frames to send. */
  datatype Mux = Mux(
    rx: seq<byte>,
    tx: seq<seq<byte>>,
    events: seq<Event>,
    nextTag: u32,
    pending: seq<u32>)

  const NEW: Mux := Mux([], [], [], 1, [])

  function Frame(tag: u32, body: seq<byte>): (f: seq<byte>)
    ensures |f| == HEADER_LEN + |body|
  {
    Le(HEADER_LEN + |body|, 4) + (Le(VERSION_PLIST, 4) + (Le(MSGTYPE_PLIST, 4) + (Le(tag, 4) + body)))
  }

  /** Allocates a tag and queues a request frame. */
  function Send(s: Mux, body: seq<byte>): Mux {
    s.(nextTag := Ids.Next(s.nextTag), tx := s.tx + [Frame(s.nextTag, body)])
  }

  function SendConnect(s: Mux, body: seq<byte>): Mux {
    Send(s, body).(pending := s.pending + [s.nextTag])
  }

  function Without(pending: seq<u32>, tag: u32): (r: seq<u32>)
    ensures tag !in r
    ensures multiset(r) == multiset(pending)[tag := 0]
  {
    if pending == [] then []
    else
      var rest := Without(pending[1..], tag);
      assert pending == [pending[0]] + pending[1..];
      if pending[0] == tag then rest else [pending[0]] + rest
  }

  /** The event a decoded frame gives rise to, if any. */
  function EventOf(env: Envelope, tag: u32, pending: seq<u32>): Option<Event> {
    var ty := GetOr(env.messageType, "");
    if ty == "Result" then
      var code := CodeOf(GetOr(env.number, TWO_32 - 1));
      if tag in pending && code == Ok then Some(Connected(tag))
      else if code == Ok then Some(RequestOk(tag))
      else Some(RequestFailed(tag, code))
    else if ty == "" then
      if env.deviceList.Some? then Some(DeviceList(DevicesOf(env.deviceList.value)))
      else if env.buid.Some? then Some(Buid(env.buid.value))
      else if env.pairRecordData.Some? then Some(PairRecord(env.pairRecordData.value))
      else None
    else if ty == "Attached" then
      if env.properties.None? || env.deviceId.None? then None
      else Some(DeviceAttached(DeviceOf(env.deviceId.value, env.properties.value)))
    else if ty == "Detached" then
      if env.deviceId.None? then None else Some(DeviceDetached(env.deviceId.value))
    else None
  }

  predicate IsResult(env: Option<Envelope>) {
    env.Some? && env.value.messageType == Some("Result")
  }

  /** Handles one frame: a result settles its tag, and an event may be queued. */
  function Handle(lib: Library, s: Mux, tag: u32, payload: seq<byte>): Mux {
    var env := DecodeEnvelope(lib, payload);
    var event := if env.Some? then EventOf(env.value, tag, s.pending) else None;
    s.(events := s.events + if event.Some? then [event.value] else [],
       pending := if IsResult(env) then Without(s.pending, tag) else s.pending)
  }

  /** A whole frame is at the front of the buffer; a declared length below 16 never is. */
  predicate FrameReady(rx: seq<byte>) {
    |rx| >= HEADER_LEN && HEADER_LEN <= U32At(rx, 0) <= |rx|
  }

  function TakeFrame(lib: Library, s: Mux): Mux
    requires FrameReady(s.rx)
  {
    var total := U32At(s.rx, 0);
    Handle(lib, s.(rx := s.rx[total..]), U32At(s.rx, 12), s.rx[HEADER_LEN..total])
  }

  function Drain(lib: Library, s: Mux): (r: Mux)
    ensures !FrameReady(r.rx)
    decreases |s.rx|
  {
    if FrameReady(s.rx) then Drain(lib, TakeFrame(lib, s)) else s
  }

  function Push(lib: Library, s: Mux, data: seq<byte>): Mux {
    Drain(lib, s.(rx := s.rx + data))
  }

  // ---- segmentation ----

  lemma TakeFrameAppend(lib: Library, s: Mux, b: seq<byte>)
    requires FrameReady(s.rx)
    ensures FrameReady(s.rx + b)
    ensures TakeFrame(lib, s.(rx := s.rx + b)) == TakeFrame(lib, s).(rx := TakeFrame(lib, s).rx + b)
  {
    hide Handle, ReadLe;
    var total := U32At(s.rx, 0);
    assert (s.rx + b)[0..4] == s.rx[0..4] && (s.rx + b)[12..16] == s.rx[12..16];
    assert (s.rx + b)[HEADER_LEN..total] == s.rx[HEADER_LEN..total];
    assert (s.rx + b)[total..] == s.rx[total..] + b;
    HandleKeepsRx(lib, s.(rx := s.rx[total..]), s.rx[total..] + b, U32At(s.rx, 12), s.rx[HEADER_LEN..total]);
  }

  lemma HandleKeepsRx(lib: Library, s: Mux, rx: seq<byte>, tag: u32, payload: seq<byte>)
    ensures Handle(lib, s.(rx := rx), tag, payload) == Handle(lib, s, tag, payload).(rx := rx)
    ensures Handle(lib, s, tag, payload).rx == s.rx
  {
    hide DecodeEnvelope, EventOf;
  }

  /** Draining early and then again after more bytes is draining once. */
  lemma {:induction false} DrainAppend(lib: Library, s: Mux, b: seq<byte>)
    ensures Drain(lib, Drain(lib, s).(rx := Drain(lib, s).rx + b)) == Drain(lib, s.(rx := s.rx + b))
    decreases |s.rx|
  {
    hide TakeFrame, FrameReady;
    if FrameReady(s.rx) {
      TakeFrameShrinks(lib, s);
      TakeFrameAppend(lib, s, b);
      DrainAppend(lib, TakeFrame(lib, s), b);
    }
  }

  lemma TakeFrameShrinks(lib: Library, s: Mux)
    requires FrameReady(s.rx)
    ensures |TakeFrame(lib, s).rx| < |s.rx|
  {
    hide DecodeEnvelope, EventOf, U32At;
  }

  /** Events that were queued before do not matter to a frame. */
  lemma TakeFrameEvents(lib: Library, s: Mux, front: seq<Event>)
    requires FrameReady(s.rx)
    ensures TakeFrame(lib, s.(events := front + s.events))
      == TakeFrame(lib, s).(events := front + TakeFrame(lib, s).events)
  {
    hide DecodeEnvelope, EventOf;
  }

  function PushAll(lib: Library, s: Mux, chunks: seq<seq<byte>>): Mux {
    if chunks == [] then s
    else Push(lib, PushAll(lib, s, chunks[..|chunks| - 1]), chunks[|chunks| - 1])
  }

  /** However bytes are cut into reads, buffer, events and pending connects end the same, stuck buffers included. */
  lemma {:induction false} SegmentationIndependent(lib: Library, s: Mux, chunks: seq<seq<byte>>)
    requires !FrameReady(s.rx)
    ensures PushAll(lib, s, chunks) == Push(lib, s, Concat(chunks))
    decreases |chunks|
  {
    hide FrameReady, TakeFrame;
    if chunks == [] {
      assert s.rx + [] == s.rx;
    } else {
      var front, last := chunks[..|chunks| - 1], chunks[|chunks| - 1];
      SegmentationIndependent(lib, s, front);
      ConcatSnoc(front, last);
      assert front + [last] == chunks;
      Regroup(s.rx, Concat(front), last);
      DrainAppend(lib, s.(rx := s.rx + Concat(front)), last);
      hide Drain;
    }
  }
}
