/** The simulated usbmuxd of src/usbmux/sim, and client and server composed. */
module UsbmuxSim {
  import opened Bytes
  import opened Wrappers
  import opened Stream
  import opened Plist
  import opened Usbmux
  import opened UsbmuxClient

  /** A device and the ports it has handlers for. */
  datatype SimDevice = SimDevice(serial: string, connectionType: string, productId: u16, ports: seq<u16>)

  // ---- the server's property lists ----

  function ResultPlist(code: u32): Plist {
    Dict([Entry("MessageType", String("Result")), Entry("Number", Integer(code))])
  }

  function PropertiesPlist(d: SimDevice): Plist {
    Dict([
      Entry("SerialNumber", String(d.serial)),
      Entry("ConnectionType", String(d.connectionType)),
      Entry("ProductID", Integer(d.productId)),
      Entry("LocationID", Integer(0))])
  }

  /** A device in a list, and in the event that announces it. */
  function DeviceEntryPlist(id: nat, d: SimDevice): Plist {
    Dict([
      Entry("DeviceID", Integer(id)),
      Entry("MessageType", String("Attached")),
      Entry("Properties", PropertiesPlist(d))])
  }

  /** The device table from the i-th on, numbered from 1. */
  function DeviceEntryPlists(devices: seq<SimDevice>, i: nat): (ps: seq<Plist>)
    requires i <= |devices|
    ensures |ps| == |devices| - i
    decreases |devices| - i
  {
    if i == |devices| then [] else [DeviceEntryPlist(i + 1, devices[i])] + DeviceEntryPlists(devices, i + 1)
  }

  function DeviceListPlist(devices: seq<SimDevice>): Plist {
    Dict([Entry("DeviceList", Array(DeviceEntryPlists(devices, 0)))])
  }

  const BUID: string := "DEADBEEF-0000-0000-0000-CAFECAFECAFE"

  function BuidPlist(buid: string): Plist {
    Dict([Entry("BUID", String(buid))])
  }

  // ---- requests as the server reads them ----

  function MessageType(lib: Library, payload: seq<byte>): Option<string> {
    match lib.decode(payload)
    case Some(Dict(d)) =>
      (match Get(d, "MessageType")
       case Some(String(s)) => Some(s)
       case _ => None)
    case _ => None
  }

  function Unsigned(v: Option<Plist>): Option<u64> {
    match v
    case Some(Integer(n)) => if 0 <= n < TWO_64 then Some(n) else None
    case _ => None
  }

  function ParseConnect(lib: Library, payload: seq<byte>): Option<(u32, u16)> {
    match lib.decode(payload)
    case Some(Dict(d)) =>
      var id, port := Unsigned(Get(d, "DeviceID")), Unsigned(Get(d, "PortNumber"));
      if id.None? || port.None? then None
      else Some((id.value % TWO_32, SwapBytes(port.value % TWO_16)))
    case _ => None
  }

  /** The device an id selects: counted from 1, and 0 selects the first too. */
  function Selected(devices: seq<SimDevice>, id: u32): Option<SimDevice> {
    var i := if id >= 1 then id - 1 else 0;
    if i < |devices| then Some(devices[i]) else None
  }

  /** The result code that answers a connect. */
  function ConnectCode(lib: Library, payload: seq<byte>, devices: seq<SimDevice>): u32 {
    match ParseConnect(lib, payload)
    case None => 1
    case Some((id, port)) =>
      match Selected(devices, id)
      case None => 2
      case Some(d) => if port in d.ports then 0 else 3
  }

  // ---- serving a connection ----

  function AttachedFrames(lib: Library, devices: seq<SimDevice>, i: nat): seq<byte>
    requires i <= |devices|
    decreases |devices| - i
  {
    if i == |devices| then []
    else Frame(0, lib.encode(DeviceEntryPlist(i + 1, devices[i]))) + AttachedFrames(lib, devices, i + 1)
  }

  /** A frame read off the stream: its tag, its payload, the bytes it took. */
  function ReadFrame(input: seq<byte>): (r: Option<(u32, seq<byte>, nat)>)
    ensures r.Some? ==> HEADER_LEN <= r.value.2 <= |input|
  {
    if |input| < HEADER_LEN then None
    else
      var total := U32At(input, 0);
      var len := if total >= HEADER_LEN then total - HEADER_LEN else 0;
      if |input| < HEADER_LEN + len then None
      else Some((U32At(input, 12), input[HEADER_LEN..HEADER_LEN + len], HEADER_LEN + len))
  }

  /** Everything the server writes for an input, up to where a service takes the socket over. */
  function Serve(lib: Library, devices: seq<SimDevice>, input: seq<byte>): (out: seq<byte>)
    decreases |input|
  {
    match ReadFrame(input)
    case None => []
    case Some((tag, payload, used)) =>
      match MessageType(lib, payload)
      case None => []
      case Some(ty) =>
        if ty == "ListDevices" then
          Frame(tag, lib.encode(DeviceListPlist(devices))) + Serve(lib, devices, input[used..])
        else if ty == "Listen" then
          Frame(tag, lib.encode(ResultPlist(0))) + AttachedFrames(lib, devices, 0)
        else if ty == "Connect" then
          Frame(tag, lib.encode(ResultPlist(ConnectCode(lib, payload, devices))))
        else if ty == "ReadBUID" then
          Frame(tag, lib.encode(BuidPlist(BUID))) + Serve(lib, devices, input[used..])
        else
          Frame(tag, lib.encode(ResultPlist(1)))
  }

  method HandleConnection(lib: Library, stream: Reader, out: ByteVec, devices: seq<SimDevice>)
    modifies stream, out
    ensures out.data == old(out.data) + Serve(lib, devices, old(stream.pending))
  {
    hide Frame, MessageType, ConnectCode, ReadLe;
    while true
      invariant out.data + Serve(lib, devices, stream.pending) == old(out.data) + Serve(lib, devices, old(stream.pending))
      decreases |stream.pending|
    {
      ghost var input := stream.pending;
      ghost var rest := Serve(lib, devices, input);
      var hdr := stream.ReadExact(HEADER_LEN);
      if hdr.None? {
        assert rest == [];
        return;
      }
      assert hdr.value[0..4] == input[0..4] && hdr.value[12..16] == input[12..16];
      var total, tag := U32At(hdr.value, 0), U32At(hdr.value, 12);
      var len := if total >= HEADER_LEN then total - HEADER_LEN else 0;
      var body := stream.ReadExact(len);
      if body.None? {
        assert rest == [];
        return;
      }
      var payload := body.value;
      assert payload == input[HEADER_LEN..HEADER_LEN + len];
      assert stream.pending == input[HEADER_LEN + len..];
      var ty := MessageType(lib, payload);
      if ty.None? {
        return;
      }
      if ty.value == "ListDevices" {
        Regroup(out.data, Frame(tag, lib.encode(DeviceListPlist(devices))), Serve(lib, devices, stream.pending));
        out.Extend(Frame(tag, lib.encode(DeviceListPlist(devices))));
      } else if ty.value == "Listen" {
        HandleListen(lib, out, tag, devices);
        return;
      } else if ty.value == "Connect" {
        out.Extend(Frame(tag, lib.encode(ResultPlist(ConnectCode(lib, payload, devices)))));
        return;
      } else if ty.value == "ReadBUID" {
        var f := Frame(tag, lib.encode(BuidPlist(BUID)));
        Regroup(out.data, f, Serve(lib, devices, stream.pending));
        out.Extend(f);
      } else {
        out.Extend(Frame(tag, lib.encode(ResultPlist(1))));
        return;
      }
    }
  }

  method HandleListen(lib: Library, out: ByteVec, tag: u32, devices: seq<SimDevice>)
    modifies out
    ensures out.data
      == old(out.data) + (Frame(tag, lib.encode(ResultPlist(0))) + AttachedFrames(lib, devices, 0))
  {
    hide Frame;
    out.Extend(Frame(tag, lib.encode(ResultPlist(0))));
    Regroup(old(out.data), Frame(tag, lib.encode(ResultPlist(0))), AttachedFrames(lib, devices, 0));
    for i := 0 to |devices|
      invariant out.data + AttachedFrames(lib, devices, i)
        == old(out.data) + (Frame(tag, lib.encode(ResultPlist(0))) + AttachedFrames(lib, devices, 0))
    {
      var f := Frame(0, lib.encode(DeviceEntryPlist(i + 1, devices[i])));
      Regroup(out.data, f, AttachedFrames(lib, devices, i + 1));
      out.Extend(f);
    }
  }

  // ---- client and server composed ----

  /** The frame length fits its 32-bit field. */
  predicate FrameFits(lib: Library, p: Plist) {
    HEADER_LEN + |lib.encode(p)| < TWO_32
  }

  /** Length, protocol version 1, message type 8 (a property list), tag, and the body. */
  lemma FrameFields(tag: u32, body: seq<byte>, tail: seq<byte>)
    requires HEADER_LEN + |body| < TWO_32
    ensures var s := Frame(tag, body) + tail;
      && U32At(s, 0) == HEADER_LEN + |body| && U32At(s, 4) == 1 && U32At(s, 8) == 8 && U32At(s, 12) == tag
      && s[HEADER_LEN..HEADER_LEN + |body|] == body && s[HEADER_LEN + |body|..] == tail
  {
    hide Le, U32At;
    var s := Frame(tag, body) + tail;
    assert At(s, 0, Frame(tag, body));
    AtAppend(s, 0, Le(HEADER_LEN + |body|, 4), Le(VERSION_PLIST, 4) + (Le(MSGTYPE_PLIST, 4) + (Le(tag, 4) + body)));
    AtAppend(s, 4, Le(VERSION_PLIST, 4), Le(MSGTYPE_PLIST, 4) + (Le(tag, 4) + body));
    AtAppend(s, 8, Le(MSGTYPE_PLIST, 4), Le(tag, 4) + body);
    AtAppend(s, 12, Le(tag, 4), body);
    U32OfLe(s, 0, HEADER_LEN + |body|);
    U32OfLe(s, 4, 1);
    U32OfLe(s, 8, 8);
    U32OfLe(s, 12, tag);
  }

  /** A frame that arrives first is handled first, whatever follows it. */
  lemma FirstFrame(lib: Library, s: Mux, tag: u32, body: seq<byte>, tail: seq<byte>)
    requires s.rx == [] && HEADER_LEN + |body| < TWO_32
    ensures var t := Handle(lib, s, tag, body);
      t.rx == [] && AllEvents(lib, s, Frame(tag, body) + tail) == AllEvents(lib, t, tail)
  {
    hide Frame, U32At, DecodeEnvelope, EventOf, Without;
    FrameFields(tag, body, tail);
    var t := s.(rx := Frame(tag, body) + tail);
    assert s.rx + (Frame(tag, body) + tail) == Frame(tag, body) + tail;
    assert FrameReady(t.rx);
    var u := TakeFrame(lib, t);
    var h := Handle(lib, s, tag, body);
    HandleKeepsRx(lib, s, tail, tag, body);
    assert h.rx + tail == tail;
    assert u == h.(rx := h.rx + tail);
    hide TakeFrame, Handle;
  }

  /** Its events come first. */
  lemma FirstEvents(lib: Library, s: Mux, tag: u32, body: seq<byte>, tail: seq<byte>)
    requires s.rx == [] && s.events == [] && HEADER_LEN + |body| < TWO_32
    ensures Handle(lib, s, tag, body).events <= AllEvents(lib, s, Frame(tag, body) + tail)
  {
    hide Frame, Handle;
    FirstFrame(lib, s, tag, body, tail);
    var t := Handle(lib, s, tag, body);
    var u := t.(rx := t.rx + tail);
    assert u.events + [] == u.events;
    EventsSplit(lib, u.(events := []), u.events);
    hide Drain;
  }

  /** What the server makes of a single request frame. */
  lemma ServeOne(lib: Library, devices: seq<SimDevice>, tag: u32, body: seq<byte>)
    requires HEADER_LEN + |body| < TWO_32
    ensures ReadFrame(Frame(tag, body)) == Some((tag, body, |Frame(tag, body)|))
  {
    hide Frame, U32At;
    FrameFields(tag, body, []);
    assert Frame(tag, body) + [] == Frame(tag, body);
  }

  /** The fields of a dictionary that is not one of the keys below. */
  lemma AbsentFields(d: seq<Entry>, keys: seq<string>)
    requires forall i, j | 0 <= i < |d| && 0 <= j < |keys| :: d[i].key != keys[j]
    ensures forall j | 0 <= j < |keys| :: Get(d, keys[j]) == None
  {
    forall j | 0 <= j < |keys| ensures Get(d, keys[j]) == None {
      GetNone(d, keys[j]);
    }
  }

  lemma ResultEnvelope(code: u32)
    ensures EnvelopeOf(ResultPlist(code)) == Some(Envelope(Some("Result"), Some(code), None, None, None, None, None))
  {
    var d := ResultPlist(code).entries;
    var keys := ["DeviceList", "BUID", "DeviceID", "Properties", "PairRecordData"];
    AbsentFields(d, keys);
    assert Get(d, keys[0]) == Get(d, keys[1]) == Get(d, keys[2]) == Get(d, keys[3]) == Get(d, keys[4]) == None;
    GetAt(d, 0, "MessageType");
    GetAt(d, 1, "Number");
    hide Get;
  }

  lemma ListReply(lib: Library, devices: seq<SimDevice>, tag: u32)
    requires lib.Carries(BaseRequest("ListDevices")) && FrameFits(lib, BaseRequest("ListDevices"))
    ensures Serve(lib, devices, Frame(tag, lib.encode(BaseRequest("ListDevices"))))
      == Frame(tag, lib.encode(DeviceListPlist(devices)))
  {
    hide Frame, DeviceListPlist;
    var body := lib.encode(BaseRequest("ListDevices"));
    ServeOne(lib, devices, tag, body);
    assert MessageType(lib, body) == Some("ListDevices");
    assert Frame(tag, body)[|Frame(tag, body)|..] == [];
    assert Serve(lib, devices, []) == [];
    hide MessageType, ReadFrame;
  }

  lemma ConnectParsed(lib: Library, id: u32, port: u16)
    requires lib.Carries(ConnectRequest(id, port))
    ensures MessageType(lib, lib.encode(ConnectRequest(id, port))) == Some("Connect")
    ensures ParseConnect(lib, lib.encode(ConnectRequest(id, port))) == Some((id, port))
  {
    SwapTwice(port);
    hide SwapBytes, Get;
    var d := ConnectRequest(id, port).entries;
    assert "ProgName"[0] != "DeviceID"[0];
    GetAt(d, 0, "MessageType");
    GetAt(d, 4, "DeviceID");
    GetAt(d, 5, "PortNumber");
  }

  lemma ConnectReply(lib: Library, devices: seq<SimDevice>, tag: u32, id: u32, port: u16)
    requires lib.Carries(ConnectRequest(id, port)) && FrameFits(lib, ConnectRequest(id, port))
    ensures Serve(lib, devices, Frame(tag, lib.encode(ConnectRequest(id, port))))
      == Frame(tag, lib.encode(ResultPlist(AnswerCode(devices, id, port))))
  {
    hide Frame, ConnectRequest;
    ServeOne(lib, devices, tag, lib.encode(ConnectRequest(id, port)));
    ConnectParsed(lib, id, port);
    hide MessageType, ReadFrame, ParseConnect;
  }

  /** Code 2 for no device, 3 for no handler, 0 for success; devices count from 1, and 0 is the first too. */
  function AnswerCode(devices: seq<SimDevice>, id: u32, port: u16): u32 {
    if devices == [] || id > |devices| then 2
    else if port in devices[if id == 0 then 0 else id - 1].ports then 0
    else 3
  }

  lemma TunnelAnswered(lib: Library, devices: seq<SimDevice>, s: Mux, id: u32, port: u16, service: seq<byte>)
    requires lib.Carries(ConnectRequest(id, port)) && FrameFits(lib, ConnectRequest(id, port))
    requires var result := ResultPlist(AnswerCode(devices, id, port)); lib.Carries(result) && FrameFits(lib, result)
    requires s.rx == [] && s.events == []
    ensures var reply := Serve(lib, devices, Frame(s.nextTag, lib.encode(ConnectRequest(id, port)))) + service;
      var code := AnswerCode(devices, id, port);
      AwaitConnect(AllEvents(lib, s.(pending := s.pending + [s.nextTag]), reply), s.nextTag)
      == if code == 0 then Got(()) else if code == 2 then Failed(BadDevice) else Failed(ConnRefused)
  {
    hide Frame, ConnectRequest, AllEvents, Serve, DecodeEnvelope, Without;
    ConnectReply(lib, devices, s.nextTag, id, port);
    var code := AnswerCode(devices, id, port);
    var body := lib.encode(ResultPlist(code));
    var t := s.(pending := s.pending + [s.nextTag]);
    FirstEvents(lib, t, s.nextTag, body, service);
    ResultDecoded(lib, code);
    hide ResultPlist;
    var all := AllEvents(lib, t, Frame(s.nextTag, body) + service);
    assert all[0] == if code == 0 then Connected(s.nextTag) else RequestFailed(s.nextTag, CodeOf(code));
  }

  /**
   * Opening a tunnel against the simulator: a device is reached under its number,
   * counted from 1, exactly if it has a handler for the port, and refused
   * otherwise; id 0 acts as the first device, and any other id is a bad device.
   * This holds whatever follows the answer, and however it is cut into reads.
   */
  lemma TunnelComposed(lib: Library, devices: seq<SimDevice>, s: Mux, id: u32, port: u16, service: seq<byte>)
    requires lib.Carries(ConnectRequest(id, port)) && FrameFits(lib, ConnectRequest(id, port))
    requires var result := ResultPlist(AnswerCode(devices, id, port)); lib.Carries(result) && FrameFits(lib, result)
    requires s.rx == [] && s.events == []
    ensures var reply := Serve(lib, devices, Frame(s.nextTag, lib.encode(ConnectRequest(id, port)))) + service;
      var answer := AwaitConnect(AllEvents(lib, s.(pending := s.pending + [s.nextTag]), reply), s.nextTag);
      if devices == [] || id > |devices| then answer == Failed(BadDevice)
      else if id == 0 then answer == if port in devices[0].ports then Got(()) else Failed(ConnRefused)
      else answer == if port in devices[id - 1].ports then Got(()) else Failed(ConnRefused)
  {
    hide Frame, ConnectRequest, AllEvents, Serve, AwaitConnect, ResultPlist;
    TunnelAnswered(lib, devices, s, id, port, service);
  }

  /** So every device that the client was shown is reached under the id it was shown with. */
  lemma {:induction false} ListedTunnel(
      lib: Library, devices: seq<SimDevice>, s: Mux, i: nat, port: u16, service: seq<byte>)
    requires i < |devices| < TWO_32
    requires var id := Numbered(devices)[i].deviceId;
      lib.Carries(ConnectRequest(id, port)) && FrameFits(lib, ConnectRequest(id, port))
    requires var result := ResultPlist(if port in devices[i].ports then 0 else 3);
      lib.Carries(result) && FrameFits(lib, result)
    requires s.rx == [] && s.events == []
    ensures var id := Numbered(devices)[i].deviceId;
      var reply := Serve(lib, devices, Frame(s.nextTag, lib.encode(ConnectRequest(id, port)))) + service;
      AwaitConnect(AllEvents(lib, s.(pending := s.pending + [s.nextTag]), reply), s.nextTag)
      == if port in devices[i].ports then Got(()) else Failed(ConnRefused)
  {
    hide Frame, ConnectRequest, AllEvents, Serve, AwaitConnect, ResultPlist;
    TunnelComposed(lib, devices, s, Numbered(devices)[i].deviceId, port, service);
  }

  lemma ResultDecoded(lib: Library, code: u32)
    requires lib.Carries(ResultPlist(code))
    ensures DecodeEnvelope(lib, lib.encode(ResultPlist(code)))
      == Some(Envelope(Some("Result"), Some(code), None, None, None, None, None))
  {
    ResultEnvelope(code);
    hide EnvelopeOf, ResultPlist;
  }

  // ---- device lists ----

  /** The device table as the client shows it: ids from 1. */
  function Numbered(devices: seq<SimDevice>): (ds: seq<Device>)
    requires |devices| < TWO_32
    ensures |ds| == |devices|
    ensures forall i | 0 <= i < |ds| :: ds[i] == Shown(i + 1, devices[i])
  {
    seq(|devices|, i requires 0 <= i < |devices| => Shown(i + 1, devices[i]))
  }

  /** A device as the client shows it. */
  function Shown(id: u32, d: SimDevice): Device {
    var kind := d.connectionType;
    Device(id, d.serial, if kind == "USB" then Usb else if kind == "Network" then Network else Unknown(kind),
      d.productId, 0)
  }

  function Entries(devices: seq<SimDevice>, i: nat): (es: seq<DeviceEntry>)
    requires i <= |devices| < TWO_32
    ensures |es| == |devices| - i
    decreases |devices| - i
  {
    if i == |devices| then []
    else
      var d := devices[i];
      [DeviceEntry(i + 1, Properties(Some(d.serial), Some(d.connectionType), Some(d.productId), Some(0)))]
      + Entries(devices, i + 1)
  }

  lemma PropertiesDecoded(d: SimDevice)
    ensures PropertiesOf(PropertiesPlist(d))
      == Some(Properties(Some(d.serial), Some(d.connectionType), Some(d.productId), Some(0)))
  {
    hide Get;
    var e := PropertiesPlist(d).entries;
    assert "ProductID"[0] != "LocationID"[0];
    GetAt(e, 0, "SerialNumber");
    GetAt(e, 1, "ConnectionType");
    GetAt(e, 2, "ProductID");
    GetAt(e, 3, "LocationID");
  }

  lemma EntryDecoded(id: u32, d: SimDevice)
    ensures DeviceEntryOf(DeviceEntryPlist(id, d))
      == Some(DeviceEntry(id, Properties(Some(d.serial), Some(d.connectionType), Some(d.productId), Some(0))))
  {
    PropertiesDecoded(d);
    hide Get, PropertiesOf, PropertiesPlist;
    var e := DeviceEntryPlist(id, d).entries;
    GetAt(e, 0, "DeviceID");
    GetAt(e, 2, "Properties");
  }

  lemma {:induction false} EntriesDecoded(devices: seq<SimDevice>, i: nat, ps: seq<Plist>)
    requires i <= |devices| < TWO_32
    requires |ps| == |devices| && forall k | 0 <= k < |devices| :: ps[k] == DeviceEntryPlist(k + 1, devices[k])
    ensures DeviceEntriesOf(ps, i) == Some(Entries(devices, i))
    decreases |devices| - i
  {
    hide DeviceEntryOf, DeviceEntryPlist;
    if i < |devices| {
      EntryDecoded(i + 1, devices[i]);
      EntriesDecoded(devices, i + 1, ps);
    }
  }

  lemma {:induction false} PlistsAt(devices: seq<SimDevice>, i: nat, k: nat)
    requires i + k < |devices|
    ensures DeviceEntryPlists(devices, i)[k] == DeviceEntryPlist(i + k + 1, devices[i + k])
    decreases k
  {
    hide DeviceEntryPlist;
    if k > 0 {
      PlistsAt(devices, i + 1, k - 1);
    }
  }

  lemma {:induction false} EntriesAt(devices: seq<SimDevice>, i: nat, k: nat)
    requires i + k < |devices| < TWO_32
    ensures var d := devices[i + k];
      Entries(devices, i)[k]
      == DeviceEntry(i + k + 1, Properties(Some(d.serial), Some(d.connectionType), Some(d.productId), Some(0)))
    decreases k
  {
    if k > 0 {
      EntriesAt(devices, i + 1, k - 1);
    }
  }

  lemma {:induction false} DevicesNumbered(devices: seq<SimDevice>)
    requires |devices| < TWO_32
    ensures DevicesOf(Entries(devices, 0)) == Numbered(devices)
  {
    hide Entries;
    var ds, ns := DevicesOf(Entries(devices, 0)), Numbered(devices);
    forall k | 0 <= k < |devices| ensures ds[k] == ns[k] {
      EntriesAt(devices, 0, k);
    }
  }

  lemma ListEnvelope(items: seq<Plist>, es: seq<DeviceEntry>)
    requires DeviceEntriesOf(items, 0) == Some(es)
    ensures EnvelopeOf(Dict([Entry("DeviceList", Array(items))]))
      == Some(Envelope(None, None, Some(es), None, None, None, None))
  {
    hide DeviceEntriesOf;
    var d := [Entry("DeviceList", Array(items))];
    var keys := ["MessageType", "Number", "BUID", "DeviceID", "Properties", "PairRecordData"];
    assert "Properties"[0] != "DeviceList"[0];
    AbsentFields(d, keys);
    assert Get(d, keys[0]) == Get(d, keys[1]) == Get(d, keys[2]) == Get(d, keys[3]) == Get(d, keys[4])
      == Get(d, keys[5]) == None;
    GetAt(d, 0, "DeviceList");
    hide Get;
  }

  lemma DevicesEnvelope(devices: seq<SimDevice>)
    requires |devices| < TWO_32
    ensures EnvelopeOf(DeviceListPlist(devices))
      == Some(Envelope(None, None, Some(Entries(devices, 0)), None, None, None, None))
  {
    hide DeviceEntriesOf, DeviceEntryPlists, DeviceEntryPlist, Entries, EnvelopeOf;
    var ps := DeviceEntryPlists(devices, 0);
    forall k | 0 <= k < |devices| ensures ps[k] == DeviceEntryPlist(k + 1, devices[k]) {
      PlistsAt(devices, 0, k);
    }
    EntriesDecoded(devices, 0, ps);
    ListEnvelope(ps, Entries(devices, 0));
  }

  lemma DeviceListDecoded(lib: Library, devices: seq<SimDevice>)
    requires lib.Carries(DeviceListPlist(devices)) && |devices| < TWO_32
    ensures DecodeEnvelope(lib, lib.encode(DeviceListPlist(devices)))
      == Some(Envelope(None, None, Some(Entries(devices, 0)), None, None, None, None))
  {
    hide EnvelopeOf, DeviceListPlist, Entries;
    DevicesEnvelope(devices);
  }

  /** The client's device list, asked of the simulator, is the device table numbered from 1. */
  lemma DeviceListComposed(lib: Library, devices: seq<SimDevice>, s: Mux)
    requires lib.Carries(BaseRequest("ListDevices")) && lib.Carries(DeviceListPlist(devices)) && |devices| < TWO_32
    requires FrameFits(lib, BaseRequest("ListDevices")) && FrameFits(lib, DeviceListPlist(devices))
    requires s.rx == [] && s.events == []
    ensures var reply := Serve(lib, devices, Frame(s.nextTag, lib.encode(BaseRequest("ListDevices"))));
      AwaitDevices(AllEvents(lib, s, reply), s.nextTag) == Got(Numbered(devices))
  {
    hide Frame, BaseRequest, AllEvents, Serve, DecodeEnvelope, Without, DeviceListPlist, Entries, Numbered;
    ListReply(lib, devices, s.nextTag);
    var body := lib.encode(DeviceListPlist(devices));
    FirstEvents(lib, s, s.nextTag, body, []);
    assert Frame(s.nextTag, body) + [] == Frame(s.nextTag, body);
    DeviceListDecoded(lib, devices);
    DevicesNumbered(devices);
    hide DevicesOf;
    assert AllEvents(lib, s, Frame(s.nextTag, body))[0] == DeviceList(Numbered(devices));
  }

  // ---- events ----

  lemma AttachedEnvelope(id: u32, d: SimDevice)
    ensures EnvelopeOf(DeviceEntryPlist(id, d)) == Some(Envelope(Some("Attached"), None, None, None, Some(id),
      Some(Properties(Some(d.serial), Some(d.connectionType), Some(d.productId), Some(0))), None))
  {
    PropertiesDecoded(d);
    hide PropertiesOf, PropertiesPlist;
    var e := DeviceEntryPlist(id, d).entries;
    var keys := ["Number", "DeviceList", "BUID", "PairRecordData"];
    assert "DeviceID"[6] == 'I' && "DeviceList"[6] == 'L';
    AbsentFields(e, keys);
    assert Get(e, keys[0]) == Get(e, keys[1]) == Get(e, keys[2]) == Get(e, keys[3]) == None;
    GetAt(e, 0, "DeviceID");
    GetAt(e, 1, "MessageType");
    GetAt(e, 2, "Properties");
    hide Get;
  }

  /** An announced device becomes an event that shows it. */
  lemma AttachedEvent(lib: Library, s: Mux, id: u32, d: SimDevice)
    requires lib.Carries(DeviceEntryPlist(id, d))
    ensures Handle(lib, s, 0, lib.encode(DeviceEntryPlist(id, d)))
      == s.(events := s.events + [DeviceAttached(Shown(id, d))])
  {
    hide EnvelopeOf, DeviceEntryPlist, Without;
    AttachedEnvelope(id, d);
  }

  function Announced(devices: seq<SimDevice>, i: nat): (es: seq<Event>)
    requires i <= |devices| < TWO_32
    ensures |es| == |devices| - i
    ensures forall k | 0 <= k < |es| :: es[k] == DeviceAttached(Numbered(devices)[i + k])
  {
    seq(|devices| - i, k requires 0 <= k < |devices| - i => DeviceAttached(Numbered(devices)[i + k]))
  }

  lemma {:induction false} AttachedEvents(lib: Library, devices: seq<SimDevice>, s: Mux, i: nat)
    requires i <= |devices| < TWO_32 && s.rx == []
    requires forall k | 0 <= k < |devices| ::
      lib.Carries(DeviceEntryPlist(k + 1, devices[k])) && FrameFits(lib, DeviceEntryPlist(k + 1, devices[k]))
    ensures AllEvents(lib, s, AttachedFrames(lib, devices, i)) == s.events + Announced(devices, i)
    decreases |devices| - i
  {
    hide Frame, DeviceEntryPlist, Handle, Announced, Numbered;
    if i == |devices| {
      NoBytes(lib, s);
      assert s.events + Announced(devices, i) == s.events;
    } else {
      var body := lib.encode(DeviceEntryPlist(i + 1, devices[i]));
      FirstFrame(lib, s, 0, body, AttachedFrames(lib, devices, i + 1));
      AttachedEvent(lib, s, i + 1, devices[i]);
      var t := Handle(lib, s, 0, body);
      AttachedEvents(lib, devices, t, i + 1);
      assert Announced(devices, i) == [DeviceAttached(Shown(i + 1, devices[i]))] + Announced(devices, i + 1);
    }
  }

  lemma NoBytes(lib: Library, s: Mux)
    requires s.rx == []
    ensures AllEvents(lib, s, []) == s.events
  {
    hide Handle, TakeFrame;
    assert s.rx + [] == [];
  }

  /**
   * Client and simulator together: listening is answered, and then each device of
   * the table is announced once, in order, as the device list shows it.
   */
  lemma ListenComposed(lib: Library, devices: seq<SimDevice>, s: Mux)
    requires lib.Carries(BaseRequest("Listen")) && FrameFits(lib, BaseRequest("Listen"))
    requires lib.Carries(ResultPlist(0)) && FrameFits(lib, ResultPlist(0)) && |devices| < TWO_32
    requires forall k | 0 <= k < |devices| ::
      lib.Carries(DeviceEntryPlist(k + 1, devices[k])) && FrameFits(lib, DeviceEntryPlist(k + 1, devices[k]))
    requires s.rx == [] && s.events == [] && s.nextTag !in s.pending
    ensures AllEvents(lib, s, Serve(lib, devices, Frame(s.nextTag, lib.encode(BaseRequest("Listen")))))
      == [RequestOk(s.nextTag)] + seq(|devices|, i requires 0 <= i < |devices| => DeviceAttached(Numbered(devices)[i]))
  {
    hide Frame, AttachedFrames, ResultPlist, DeviceEntryPlist, AllEvents, Numbered, DecodeEnvelope, Without;
    var body := lib.encode(BaseRequest("Listen"));
    ServeOne(lib, devices, s.nextTag, body);
    assert MessageType(lib, body) == Some("Listen");
    hide MessageType, ReadFrame, BaseRequest;
    var answer := lib.encode(ResultPlist(0));
    FirstFrame(lib, s, s.nextTag, answer, AttachedFrames(lib, devices, 0));
    ResultDecoded(lib, 0);
    var t := Handle(lib, s, s.nextTag, answer);
    assert t.events == [RequestOk(s.nextTag)];
    hide Handle;
    AttachedEvents(lib, devices, t, 0);
  }

  function PairRecordPlist(record: seq<byte>): Plist {
    Dict([Entry("PairRecordData", Data(record))])
  }

  function DetachedPlist(id: u32): Plist {
    Dict([Entry("DeviceID", Integer(id)), Entry("MessageType", String("Detached"))])
  }

  lemma BuidEnvelope(buid: string)
    ensures EnvelopeOf(BuidPlist(buid)) == Some(Envelope(None, None, None, Some(buid), None, None, None))
  {
    var d := BuidPlist(buid).entries;
    var keys := ["MessageType", "Number", "DeviceList", "DeviceID", "Properties", "PairRecordData"];
    AbsentFields(d, keys);
    assert Get(d, keys[0]) == Get(d, keys[1]) == Get(d, keys[2]) == Get(d, keys[3]) == Get(d, keys[4])
      == Get(d, keys[5]) == None;
    GetAt(d, 0, "BUID");
    hide Get;
  }

  lemma PairRecordEnvelope(record: seq<byte>)
    ensures EnvelopeOf(PairRecordPlist(record)) == Some(Envelope(None, None, None, None, None, None, Some(record)))
  {
    var d := PairRecordPlist(record).entries;
    var keys := ["MessageType", "Number", "DeviceList", "BUID", "DeviceID", "Properties"];
    AbsentFields(d, keys);
    assert Get(d, keys[0]) == Get(d, keys[1]) == Get(d, keys[2]) == Get(d, keys[3]) == Get(d, keys[4])
      == Get(d, keys[5]) == None;
    GetAt(d, 0, "PairRecordData");
    hide Get;
  }

  lemma DetachedEnvelope(id: u32)
    ensures EnvelopeOf(DetachedPlist(id)) == Some(Envelope(Some("Detached"), None, None, None, Some(id), None, None))
  {
    var d := DetachedPlist(id).entries;
    var keys := ["Number", "DeviceList", "BUID", "Properties", "PairRecordData"];
    assert "DeviceID"[6] == 'I' && "DeviceList"[6] == 'L';
    AbsentFields(d, keys);
    assert Get(d, keys[0]) == Get(d, keys[1]) == Get(d, keys[2]) == Get(d, keys[3]) == Get(d, keys[4]) == None;
    GetAt(d, 0, "DeviceID");
    GetAt(d, 1, "MessageType");
    hide Get;
  }

  /** Each answer that is no result becomes its event, under any tag, and settles nothing. */
  lemma AnswerEvents(lib: Library, s: Mux, tag: u32, buid: string, record: seq<byte>, id: u32)
    ensures lib.Carries(BuidPlist(buid)) ==>
      Handle(lib, s, tag, lib.encode(BuidPlist(buid))) == s.(events := s.events + [Buid(buid)])
    ensures lib.Carries(PairRecordPlist(record)) ==>
      Handle(lib, s, tag, lib.encode(PairRecordPlist(record))) == s.(events := s.events + [PairRecord(record)])
    ensures lib.Carries(DetachedPlist(id)) ==>
      Handle(lib, s, tag, lib.encode(DetachedPlist(id))) == s.(events := s.events + [DeviceDetached(id)])
  {
    hide EnvelopeOf, BuidPlist, PairRecordPlist, DetachedPlist, Without;
    BuidEnvelope(buid);
    PairRecordEnvelope(record);
    DetachedEnvelope(id);
  }

  /** A result settles its tag: success connects it if it is pending, and every other number is its failure. */
  lemma ResultEvents(lib: Library, s: Mux, tag: u32, n: u32)
    requires lib.Carries(ResultPlist(n))
    ensures var t := Handle(lib, s, tag, lib.encode(ResultPlist(n)));
      && t == s.(events := t.events, pending := t.pending)
      && tag !in t.pending && multiset(t.pending) == multiset(s.pending)[tag := 0]
      && t.events == s.events + [
        if n == 0 then if tag in s.pending then Connected(tag) else RequestOk(tag)
        else RequestFailed(tag,
          if n == 1 then BadCommand
          else if n == 2 then BadDevice
          else if n == 3 then ConnRefused
          else if n == 4 then NoSuchService
          else if n == 6 then BadVersion
          else Other(n))]
  {
    hide ResultPlist, DecodeEnvelope, Without;
    ResultDecoded(lib, n);
  }

  /** Client and simulator together: the bus id that the server keeps arrives as an event. */
  lemma BuidComposed(lib: Library, devices: seq<SimDevice>, s: Mux)
    requires lib.Carries(BaseRequest("ReadBUID")) && FrameFits(lib, BaseRequest("ReadBUID"))
    requires lib.Carries(BuidPlist(BUID)) && FrameFits(lib, BuidPlist(BUID))
    requires s.rx == [] && s.events == []
    ensures AllEvents(lib, s, Serve(lib, devices, Frame(s.nextTag, lib.encode(BaseRequest("ReadBUID")))))
      == [Buid("DEADBEEF-0000-0000-0000-CAFECAFECAFE")]
  {
    hide Frame, AllEvents, DecodeEnvelope, Without, DeviceListPlist, ResultPlist;
    var body := lib.encode(BaseRequest("ReadBUID"));
    ServeOne(lib, devices, s.nextTag, body);
    assert MessageType(lib, body) == Some("ReadBUID");
    assert Frame(s.nextTag, body)[|Frame(s.nextTag, body)|..] == [];
    assert Serve(lib, devices, []) == [];
    hide MessageType, ReadFrame, BaseRequest;
    var answer := lib.encode(BuidPlist(BUID));
    assert Serve(lib, devices, Frame(s.nextTag, body)) == Frame(s.nextTag, answer) + [];
    hide Serve, BuidPlist;
    FirstFrame(lib, s, s.nextTag, answer, []);
    AnswerEvents(lib, s, s.nextTag, BUID, [], 0);
    NoBytes(lib, Handle(lib, s, s.nextTag, answer));
  }

  /** A request that the server does not know fails as a bad command. */
  lemma UnknownComposed(lib: Library, devices: seq<SimDevice>, s: Mux, ty: string)
    requires ty !in {"ListDevices", "Listen", "Connect", "ReadBUID"}
    requires lib.Carries(BaseRequest(ty)) && FrameFits(lib, BaseRequest(ty))
    requires lib.Carries(ResultPlist(1)) && FrameFits(lib, ResultPlist(1))
    requires s.rx == [] && s.events == []
    ensures AllEvents(lib, s, Serve(lib, devices, Frame(s.nextTag, lib.encode(BaseRequest(ty)))))
      == [RequestFailed(s.nextTag, BadCommand)]
  {
    hide Frame, AllEvents, DecodeEnvelope, Without, DeviceListPlist, ResultPlist, BuidPlist;
    var body := lib.encode(BaseRequest(ty));
    ServeOne(lib, devices, s.nextTag, body);
    assert MessageType(lib, body) == Some(ty);
    hide MessageType, ReadFrame, BaseRequest;
    var answer := lib.encode(ResultPlist(1));
    assert Serve(lib, devices, Frame(s.nextTag, body)) == Frame(s.nextTag, answer) + [];
    hide Serve;
    FirstFrame(lib, s, s.nextTag, answer, []);
    ResultEvents(lib, s, s.nextTag, 1);
    NoBytes(lib, Handle(lib, s, s.nextTag, answer));
  }

  lemma NamelessEnvelope()
    ensures EnvelopeOf(Dict([Entry("MessageType", String("Attached")), Entry("Properties", Dict([]))]))
      == Some(Envelope(Some("Attached"), None, None, None, None, Some(Properties(None, None, None, None)), None))
  {
    var d := [Entry("MessageType", String("Attached")), Entry("Properties", Dict([]))];
    var keys := ["Number", "DeviceList", "BUID", "DeviceID", "PairRecordData"];
    AbsentFields(d, keys);
    assert Get(d, keys[0]) == Get(d, keys[1]) == Get(d, keys[2]) == Get(d, keys[3]) == Get(d, keys[4]) == None;
    GetAt(d, 0, "MessageType");
    GetAt(d, 1, "Properties");
    hide Get;
  }

  /**
   * An announcement that lacks its id or its properties is ignored; one that lacks
   * what they say shows a device without it.
   */
  lemma SparseAttached(lib: Library, s: Mux, id: u32)
    ensures var bare := Dict([Entry("DeviceID", Integer(id)), Entry("MessageType", String("Attached"))]);
      lib.Carries(bare) ==> Handle(lib, s, 0, lib.encode(bare)) == s
    ensures var sparse := Dict([
        Entry("DeviceID", Integer(id)), Entry("MessageType", String("Attached")), Entry("Properties", Dict([]))]);
      var event := DeviceAttached(Device(id, "", Unknown(""), 0, 0));
      lib.Carries(sparse) ==> Handle(lib, s, 0, lib.encode(sparse)) == s.(events := s.events + [event])
    ensures var nameless := Dict([Entry("MessageType", String("Attached")), Entry("Properties", Dict([]))]);
      lib.Carries(nameless) ==> Handle(lib, s, 0, lib.encode(nameless)) == s
  {
    SparseEnvelope(id);
    NamelessEnvelope();
    hide EnvelopeOf, Without;
    assert s.events + [] == s.events;
  }

  lemma SparseEnvelope(id: u32)
    ensures EnvelopeOf(Dict([Entry("DeviceID", Integer(id)), Entry("MessageType", String("Attached"))]))
      == Some(Envelope(Some("Attached"), None, None, None, Some(id), None, None))
    ensures EnvelopeOf(Dict([
        Entry("DeviceID", Integer(id)), Entry("MessageType", String("Attached")), Entry("Properties", Dict([]))]))
      == Some(Envelope(Some("Attached"), None, None, None, Some(id), Some(Properties(None, None, None, None)), None))
  {
    var d := [Entry("DeviceID", Integer(id)), Entry("MessageType", String("Attached"))];
    var e := d + [Entry("Properties", Dict([]))];
    assert e == [
      Entry("DeviceID", Integer(id)), Entry("MessageType", String("Attached")), Entry("Properties", Dict([]))];
    var keys := ["Number", "DeviceList", "BUID", "PairRecordData"];
    assert "DeviceID"[6] == 'I' && "DeviceList"[6] == 'L';
    AbsentFields(d, keys);
    AbsentFields(e, keys);
    assert Get(d, keys[0]) == Get(d, keys[1]) == Get(d, keys[2]) == Get(d, keys[3]) == None;
    assert Get(e, keys[0]) == Get(e, keys[1]) == Get(e, keys[2]) == Get(e, keys[3]) == None;
    GetNone(d, "Properties");
    GetAt(d, 0, "DeviceID");
    GetAt(d, 1, "MessageType");
    GetAt(e, 0, "DeviceID");
    GetAt(e, 1, "MessageType");
    GetAt(e, 2, "Properties");
    hide Get;
  }

  /** A field that is absent or of its type. */
  predicate Typed(v: Option<Plist>, f: Plist -> bool) {
    v.Some? ==> f(v.value)
  }

  predicate IsU32(p: Plist) {
    p.Integer? && 0 <= p.n < 0x1_0000_0000
  }

  /** An answer counts exactly if it is a dictionary and every field that it has is of its type. */
  lemma EnvelopeExactly(p: Plist)
    ensures EnvelopeOf(p).Some? <==>
      && p.Dict?
      && Typed(Get(p.entries, "MessageType"), (v: Plist) => v.String?)
      && Typed(Get(p.entries, "Number"), IsU32)
      && Typed(Get(p.entries, "DeviceList"), (v: Plist) => v.Array? && DeviceEntriesOf(v.items, 0).Some?)
      && Typed(Get(p.entries, "BUID"), (v: Plist) => v.String?)
      && Typed(Get(p.entries, "DeviceID"), IsU32)
      && Typed(Get(p.entries, "Properties"), (v: Plist) => PropertiesOf(v).Some?)
      && Typed(Get(p.entries, "PairRecordData"), (v: Plist) => v.Data?)
  {
    hide Get, DeviceEntriesOf, PropertiesOf;
  }

  /** Likewise the properties of a device. */
  lemma PropertiesExactly(p: Plist)
    ensures PropertiesOf(p).Some? <==>
      && p.Dict?
      && Typed(Get(p.entries, "SerialNumber"), (v: Plist) => v.String?)
      && Typed(Get(p.entries, "ConnectionType"), (v: Plist) => v.String?)
      && Typed(Get(p.entries, "ProductID"), (v: Plist) => v.Integer? && 0 <= v.n < 0x1_0000)
      && Typed(Get(p.entries, "LocationID"), IsU32)
  {
    hide Get;
  }

  /**
   * What any connect request is answered with: a bad command without a device id
   * or a port that are unsigned integers; otherwise their low 32 and 16 bits count,
   * the port's in network order.
   */
  lemma ConnectExactly(lib: Library, devices: seq<SimDevice>, d: seq<Entry>)
    requires lib.Carries(Dict(d))
    ensures ConnectCode(lib, lib.encode(Dict(d)), devices) ==
      match (Get(d, "DeviceID"), Get(d, "PortNumber"))
      case (Some(Integer(id)), Some(Integer(port))) =>
        if 0 <= id < 0x1_0000_0000_0000_0000 && 0 <= port < 0x1_0000_0000_0000_0000 then
          AnswerCode(devices, id % 0x1_0000_0000, port % 256 * 256 + port / 256 % 256)
        else 1
      case _ => 1
  {
    hide Get;
    match (Get(d, "DeviceID"), Get(d, "PortNumber"))
    case (Some(Integer(id)), Some(Integer(port))) =>
      LowBytes(port);
    case _ =>
  }

  lemma LowBytes(n: int)
    ensures n % 0x1_0000 % 256 == n % 256 && n % 0x1_0000 / 256 == n / 256 % 256
  {}
}
