/** The usbmux codec and blocking connection as objects. */
module UsbmuxClient {
  import opened Bytes
  import opened Wrappers
  import opened Stream
  import opened Plist
  import opened Usbmux
  import Ids

  // ---- requests ----

  const VERSION_STRING: string := "devicelink-0.1.0"
  const PROG_NAME: string := "devicelink"

  function BaseRequest(messageType: string): Plist {
    Dict([
      Entry("MessageType", String(messageType)),
      Entry("ClientVersionString", String(VERSION_STRING)),
      Entry("ProgName", String(PROG_NAME)),
      Entry("kLibUSBMuxVersion", Integer(3))])
  }

  /** The port number is sent with its bytes swapped. */
  function SwapBytes(port: u16): (r: u16) {
    port % 256 * 256 + port / 256
  }

  /** So the port's bytes arrive most significant first, the order of the network. */
  lemma NetworkOrder(port: u16)
    ensures Le(SwapBytes(port), 2) == Be(port, 2)
  {
    assert Le(SwapBytes(port), 2) == [port / 256, port % 256];
    assert Be(port / 256, 1) == [port / 256];
  }

  lemma SwapTwice(port: u16)
    ensures SwapBytes(SwapBytes(port)) == port
  {}

  function ConnectRequest(deviceId: u32, port: u16): Plist {
    Dict([
      Entry("MessageType", String("Connect")),
      Entry("ClientVersionString", String(VERSION_STRING)),
      Entry("ProgName", String(PROG_NAME)),
      Entry("kLibUSBMuxVersion", Integer(3)),
      Entry("DeviceID", Integer(deviceId)),
      Entry("PortNumber", Integer(SwapBytes(port)))])
  }

  lemma WithoutFrom(pending: seq<u32>, i: nat, tag: u32)
    requires i <= |pending|
    ensures i == |pending| ==> Without(pending[i..], tag) == []
    ensures i < |pending| ==>
      Without(pending[i..], tag) == (if pending[i] == tag then [] else [pending[i]]) + Without(pending[i + 1..], tag)
  {
    if i < |pending| {
      assert pending[i..][1..] == pending[i + 1..];
    }
  }

  // ---- the codec ----

  class Codec {
    const lib: Library
    var rx: seq<byte>
    var tx: seq<seq<byte>>
    var events: seq<Event>
    var nextTag: u32
    var pendingConnects: seq<u32>

    ghost function State(): Mux
      reads this
    {
      Mux(rx, tx, events, nextTag, pendingConnects)
    }

    /** No whole frame waits in the receive buffer between calls. */
    ghost predicate Valid()
      reads this
    {
      !FrameReady(rx)
    }

    constructor (lib: Library)
      ensures this.lib == lib && State() == NEW && Valid()
    {
      this.lib := lib;
      rx, tx, events, nextTag, pendingConnects := [], [], [], 1, [];
    }

    method AllocTag() returns (tag: u32)
      modifies this`nextTag
      ensures tag == old(nextTag) && nextTag == Ids.Next(old(nextTag))
    {
      tag := nextTag;
      var w := (nextTag + 1) % TWO_32;
      nextTag := if w > 1 then w else 1;
    }

    method EnqueueFrame(body: seq<byte>, tag: u32)
      modifies this`tx
      ensures tx == old(tx) + [Frame(tag, body)]
    {
      hide Le;
      var total := HEADER_LEN + |body|;
      var frame := Le(total, 4);
      frame := frame + Le(VERSION_PLIST, 4);
      frame := frame + Le(MSGTYPE_PLIST, 4);
      frame := frame + Le(tag, 4);
      frame := frame + body;
      tx := tx + [frame];
      assert frame == Frame(tag, body);
    }

    method ListDevices() returns (tag: u32)
      modifies this
      ensures tag == old(nextTag)
      ensures State() == Send(old(State()), lib.encode(BaseRequest("ListDevices")))
    {
      hide Frame;
      tag := AllocTag();
      EnqueueFrame(lib.encode(BaseRequest("ListDevices")), tag);
    }

    method Connect(deviceId: u32, port: u16) returns (tag: u32)
      modifies this
      ensures tag == old(nextTag)
      ensures State() == SendConnect(old(State()), lib.encode(ConnectRequest(deviceId, port)))
    {
      hide Frame;
      tag := AllocTag();
      pendingConnects := pendingConnects + [tag];
      EnqueueFrame(lib.encode(ConnectRequest(deviceId, port)), tag);
    }

    method PushData(data: seq<byte>)
      modifies this
      ensures Valid() && State() == Push(lib, old(State()), data)
    {
      rx := rx + data;
      ProcessRx();
    }

    /** Takes frames off the front of the buffer while whole ones are there. */
    method ProcessRx()
      modifies this
      ensures Valid() && State() == Drain(lib, old(State()))
    {
      hide ReadLe, DecodeEnvelope, EventOf, Without;
      while |rx| >= HEADER_LEN
        invariant Drain(lib, State()) == Drain(lib, old(State()))
        decreases |rx|
      {
        var total := U32At(rx, 0);
        if total < HEADER_LEN || |rx| < total {
          return;
        }
        ghost var before := State();
        var tag, payload := U32At(rx, 12), rx[HEADER_LEN..total];
        rx := rx[total..];
        var event := DecodeFrame(tag, payload);
        if event.Some? {
          events := events + [event.value];
        }
        assert State() == TakeFrame(lib, before) by {
          assert before.(events := before.events + []) == before;
        }
      }
    }

    /** Decodes one frame's payload; a result settles its tag. */
    method DecodeFrame(tag: u32, payload: seq<byte>) returns (event: Option<Event>)
      modifies this`pendingConnects
      ensures var s := Handle(lib, old(State()), tag, payload);
        && pendingConnects == s.pending
        && s.events == old(events) + if event.Some? then [event.value] else []
    {
      hide EnvelopeOf, EventOf, Without;
      var env := DecodeEnvelope(lib, payload);
      if env.None? {
        return None;
      }
      event := EventOf(env.value, tag, pendingConnects);
      if env.value.messageType == Some("Result") {
        Retain(tag);
      }
    }

    /** Removes every occurrence of a tag from the pending connects. */
    method Retain(tag: u32)
      modifies this`pendingConnects
      ensures pendingConnects == Without(old(pendingConnects), tag)
    {
      hide Without;
      var kept, was := [], pendingConnects;
      assert was[0..] == was;
      for i := 0 to |was|
        invariant kept + Without(was[i..], tag) == Without(was, tag)
      {
        WithoutFrom(was, i, tag);
        if was[i] != tag {
          kept := kept + [was[i]];
        }
      }
      WithoutFrom(was, |was|, tag);
      pendingConnects := kept;
    }

    method PollWrite() returns (frame: Option<seq<byte>>)
      modifies this`tx
      ensures old(tx) == [] ==> frame == None && tx == []
      ensures old(tx) != [] ==> frame == Some(old(tx)[0]) && tx == old(tx)[1..]
    {
      if tx == [] {
        return None;
      }
      frame, tx := Some(tx[0]), tx[1..];
    }

    method PollEvent() returns (event: Option<Event>)
      modifies this`events
      ensures old(events) == [] ==> event == None && events == []
      ensures old(events) != [] ==> event == Some(old(events)[0]) && events == old(events)[1..]
    {
      if events == [] {
        return None;
      }
      event, events := Some(events[0]), events[1..];
    }
  }

  // ---- the connection ----

  /** All events the codec holds or will hold once the rest of the input is read. */
  function AllEvents(lib: Library, s: Mux, input: seq<byte>): seq<Event> {
    Push(lib, s, input).events
  }

  lemma {:induction false} EventsSplit(lib: Library, s: Mux, front: seq<Event>)
    ensures Drain(lib, s.(events := front + s.events))
      == Drain(lib, s).(events := front + Drain(lib, s).events)
    decreases |s.rx|
  {
    hide TakeFrame, FrameReady;
    if FrameReady(s.rx) {
      TakeFrameShrinks(lib, s);
      TakeFrameEvents(lib, s, front);
      EventsSplit(lib, TakeFrame(lib, s), front);
    }
  }

  datatype Answer<+T> = Got(value: T) | Failed(code: ResultCode) | ConnectionClosed

  /** The first event that settles a device list request. */
  function AwaitDevices(events: seq<Event>, tag: u32): Answer<seq<Device>> {
    if events == [] then ConnectionClosed
    else if events[0].DeviceList? then Got(events[0].devices)
    else if events[0].RequestFailed? && events[0].tag == tag then Failed(BadDevice)
    else AwaitDevices(events[1..], tag)
  }

  /** The first event that settles a connect; a failure of any request counts. */
  function AwaitConnect(events: seq<Event>, tag: u32): Answer<()> {
    if events == [] then ConnectionClosed
    else if events[0] == Connected(tag) then Got(())
    else if events[0].RequestFailed? then Failed(events[0].code)
    else AwaitConnect(events[1..], tag)
  }

  class Connection {
    const codec: Codec
    const incoming: Reader
    const outgoing: ByteVec

    constructor (codec: Codec, incoming: Reader, outgoing: ByteVec)
      ensures this.codec == codec && this.incoming == incoming && this.outgoing == outgoing
    {
      this.codec, this.incoming, this.outgoing := codec, incoming, outgoing;
    }

    /** Writes out the queued frames. */
    method Flush()
      modifies codec`tx, outgoing
      ensures codec.tx == []
      ensures outgoing.data == old(outgoing.data) + Concat(old(codec.tx))
    {
      assert outgoing.data + Concat(codec.tx) == old(outgoing.data) + Concat(old(codec.tx));
      while true
        invariant outgoing.data + Concat(codec.tx) == old(outgoing.data) + Concat(old(codec.tx))
        decreases |codec.tx|
      {
        ghost var queued := codec.tx;
        var frame := codec.PollWrite();
        if frame.None? {
          return;
        }
        Regroup(outgoing.data, frame.value, Concat(codec.tx));
        outgoing.Extend(frame.value);
      }
    }

    /** Pops an event, reading up to 4096 bytes at a time until there is one. */
    method NextEvent() returns (event: Option<Event>)
      requires codec.Valid()
      modifies codec, incoming
      ensures codec.Valid()
      ensures codec.tx == old(codec.tx) && codec.nextTag == old(codec.nextTag)
      ensures var all := AllEvents(codec.lib, old(codec.State()), old(incoming.pending));
        var now := AllEvents(codec.lib, codec.State(), incoming.pending);
        if event.None? then all == [] else all == [event.value] + now
    {
      hide Drain;
      ghost var lib := codec.lib;
      ghost var all := AllEvents(lib, codec.State(), incoming.pending);
      while true
        invariant codec.Valid() && all == AllEvents(lib, codec.State(), incoming.pending)
        invariant codec.tx == old(codec.tx) && codec.nextTag == old(codec.nextTag)
        decreases |incoming.pending|
      {
        ghost var s := codec.State();
        if s.events != [] {
          PopCommutes(lib, s, incoming.pending);
        }
        event := codec.PollEvent();
        if event.Some? {
          return;
        }
        var chunk := incoming.Read(4096);
        if chunk == [] {
          NothingLeft(lib, s);
          return None;
        }
        ReadCommutes(lib, s, chunk, incoming.pending);
        PushKeeps(lib, s, chunk);
        codec.PushData(chunk);
      }
    }

    /** Asks for the device list and waits for the event that settles the request. */
    method ListDevices() returns (r: Answer<seq<Device>>)
      requires codec.Valid()
      modifies codec, incoming, outgoing
      ensures outgoing.data == old(outgoing.data) + Concat(old(codec.tx))
        + Frame(old(codec.nextTag), codec.lib.encode(BaseRequest("ListDevices")))
      ensures r == AwaitDevices(
        AllEvents(codec.lib, old(codec.State()), old(incoming.pending)), old(codec.nextTag))
    {
      hide Frame, Drain;
      ghost var s := codec.State();
      var tag := codec.ListDevices();
      ConcatSnoc(s.tx, Frame(tag, codec.lib.encode(BaseRequest("ListDevices"))));
      Flush();
      IrrelevantFields(codec.lib, s, codec.State(), incoming.pending);
      ghost var sent := outgoing.data;
      ghost var first := AllEvents(codec.lib, codec.State(), incoming.pending);
      while true
        invariant codec.Valid() && outgoing.data == sent
        invariant AwaitDevices(AllEvents(codec.lib, codec.State(), incoming.pending), tag) == AwaitDevices(first, tag)
        decreases |AllEvents(codec.lib, codec.State(), incoming.pending)|
      {
        ghost var all := AllEvents(codec.lib, codec.State(), incoming.pending);
        var event := NextEvent();
        hide AllEvents;
        if event.None? {
          return ConnectionClosed;
        }
        assert all[1..] == AllEvents(codec.lib, codec.State(), incoming.pending);
        match event.value
        case DeviceList(devices) =>
          return Got(devices);
        case RequestFailed(t, _) =>
          if t == tag {
            return Failed(BadDevice);
          }
        case _ =>
      }
    }

    /** Asks for a tunnel and waits for the event that settles the request. */
    method OpenTunnel(deviceId: u32, port: u16) returns (r: Answer<()>)
      requires codec.Valid()
      modifies codec, incoming, outgoing
      ensures outgoing.data == old(outgoing.data) + Concat(old(codec.tx))
        + Frame(old(codec.nextTag), codec.lib.encode(ConnectRequest(deviceId, port)))
      ensures r == AwaitConnect(
        AllEvents(codec.lib, old(codec.State()).(pending := old(codec.pendingConnects) + [old(codec.nextTag)]),
          old(incoming.pending)),
        old(codec.nextTag))
    {
      hide Frame, Drain;
      ghost var s := codec.State();
      var tag := codec.Connect(deviceId, port);
      ConcatSnoc(s.tx, Frame(tag, codec.lib.encode(ConnectRequest(deviceId, port))));
      Flush();
      IrrelevantFields(codec.lib, s.(pending := s.pending + [tag]), codec.State(), incoming.pending);
      ghost var sent := outgoing.data;
      ghost var first := AllEvents(codec.lib, codec.State(), incoming.pending);
      while true
        invariant codec.Valid() && outgoing.data == sent
        invariant AwaitConnect(AllEvents(codec.lib, codec.State(), incoming.pending), tag) == AwaitConnect(first, tag)
        decreases |AllEvents(codec.lib, codec.State(), incoming.pending)|
      {
        ghost var all := AllEvents(codec.lib, codec.State(), incoming.pending);
        var event := NextEvent();
        hide AllEvents;
        if event.None? {
          return ConnectionClosed;
        }
        assert all[1..] == AllEvents(codec.lib, codec.State(), incoming.pending);
        match event.value
        case Connected(t) =>
          if t == tag {
            return Got(());
          }
        case RequestFailed(_, code) =>
          return Failed(code);
        case _ =>
      }
    }
  }

  /** Popping the first event now or after everything is read makes no difference. */
  lemma PopCommutes(lib: Library, s: Mux, input: seq<byte>)
    requires s.events != []
    ensures AllEvents(lib, s, input) == [s.events[0]] + AllEvents(lib, s.(events := s.events[1..]), input)
  {
    var t := s.(events := s.events[1..], rx := s.rx + input);
    EventsSplit(lib, t, [s.events[0]]);
    assert [s.events[0]] + s.events[1..] == s.events;
    hide Drain;
  }

  lemma ReadCommutes(lib: Library, s: Mux, chunk: seq<byte>, rest: seq<byte>)
    ensures AllEvents(lib, Push(lib, s, chunk), rest) == AllEvents(lib, s, chunk + rest)
  {
    DrainAppend(lib, s.(rx := s.rx + chunk), rest);
    Regroup(s.rx, chunk, rest);
    hide Drain;
  }

  lemma {:induction false} DrainKeeps(lib: Library, s: Mux)
    ensures Drain(lib, s).tx == s.tx && Drain(lib, s).nextTag == s.nextTag
    decreases |s.rx|
  {
    if FrameReady(s.rx) {
      TakeFrameShrinks(lib, s);
      HandleKeepsRx(lib, s, s.rx, 0, []);
      DrainKeeps(lib, TakeFrame(lib, s));
    }
    hide DecodeEnvelope, EventOf;
  }

  lemma PushKeeps(lib: Library, s: Mux, data: seq<byte>)
    ensures Push(lib, s, data).tx == s.tx && Push(lib, s, data).nextTag == s.nextTag
  {
    DrainKeeps(lib, s.(rx := s.rx + data));
    hide Drain;
  }

  lemma NothingLeft(lib: Library, s: Mux)
    requires !FrameReady(s.rx)
    ensures AllEvents(lib, s, []) == s.events
  {
    assert s.rx + [] == s.rx;
  }

  /** Frames to send and the tag counter do not matter to what is received. */
  lemma {:induction false} DrainIgnores(lib: Library, s: Mux, tx: seq<seq<byte>>, nextTag: u32)
    ensures Drain(lib, s.(tx := tx, nextTag := nextTag)) == Drain(lib, s).(tx := tx, nextTag := nextTag)
    decreases |s.rx|
  {
    if FrameReady(s.rx) {
      TakeFrameShrinks(lib, s);
      DrainIgnores(lib, TakeFrame(lib, s), tx, nextTag);
    }
    hide DecodeEnvelope, EventOf;
  }

  lemma IrrelevantFields(lib: Library, s: Mux, t: Mux, input: seq<byte>)
    requires s.rx == t.rx && s.events == t.events && s.pending == t.pending
    ensures AllEvents(lib, s, input) == AllEvents(lib, t, input)
  {
    DrainIgnores(lib, s.(rx := s.rx + input), t.tx, t.nextTag);
    hide Drain;
  }
}
