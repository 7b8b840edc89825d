/** What every run of the usbmux codec keeps: tags, pending connects, and the order of its events. */
module UsbmuxRuns {
  import opened Bytes
  import opened Usbmux
  import Plist
  import Ids

  /** History: a request returned its tag, or an event was queued. */
  datatype Item =
    | Tagged(tag: u32, connect: bool)
    | Emitted(event: Event)

  datatype Hist = Hist(mux: Mux, log: seq<Item>)

  const START: Hist := Hist(NEW, [])

  datatype Op =
    | Request(body: seq<byte>)
    | Connect(body: seq<byte>)
    | PushData(data: seq<byte>)
    | PollWrite
    | PollEvent

  function TakeLogged(lib: Plist.Library, h: Hist): Hist
    requires FrameReady(h.mux.rx)
  {
    var after := TakeFrame(lib, h.mux.(events := []));
    Hist(after.(events := h.mux.events + after.events),
      h.log + seq(|after.events|, i requires 0 <= i < |after.events| => Emitted(after.events[i])))
  }

  function DrainLogged(lib: Plist.Library, h: Hist): Hist
    decreases |h.mux.rx|
  {
    if FrameReady(h.mux.rx) then
      TakeFrameShrinks(lib, h.mux.(events := []));
      DrainLogged(lib, TakeLogged(lib, h))
    else h
  }

  function Do(lib: Plist.Library, h: Hist, op: Op): Hist {
    match op
    case Request(body) => Hist(Send(h.mux, body), h.log + [Tagged(h.mux.nextTag, false)])
    case Connect(body) => Hist(SendConnect(h.mux, body), h.log + [Tagged(h.mux.nextTag, true)])
    case PushData(data) => DrainLogged(lib, h.(mux := h.mux.(rx := h.mux.rx + data)))
    case PollWrite => h.(mux := h.mux.(tx := if h.mux.tx == [] then [] else h.mux.tx[1..]))
    case PollEvent => h.(mux := h.mux.(events := if h.mux.events == [] then [] else h.mux.events[1..]))
  }

  function Run(lib: Plist.Library, ops: seq<Op>): Hist {
    if ops == [] then START else Do(lib, Run(lib, ops[..|ops| - 1]), ops[|ops| - 1])
  }

  /** The history changes nothing in what the codec does. */
  lemma {:induction false} LogIsHistory(lib: Plist.Library, h: Hist)
    ensures DrainLogged(lib, h).mux == Drain(lib, h.mux)
    decreases |h.mux.rx|
  {
    hide TakeFrame, FrameReady;
    if FrameReady(h.mux.rx) {
      TakeFrameShrinks(lib, h.mux.(events := []));
      TakeFrameEvents(lib, h.mux.(events := []), h.mux.events);
      assert h.mux.events + [] == h.mux.events;
      LogIsHistory(lib, TakeLogged(lib, h));
    }
  }

  // ---- accounting ----

  /** Connects that returned `tag`. */
  function Connects(log: seq<Item>, tag: u32): nat {
    if log == [] then 0
    else Connects(log[..|log| - 1], tag) + if log[|log| - 1] == Tagged(tag, true) then 1 else 0
  }

  /** Times `Connected` was queued for `tag`. */
  function Opened(log: seq<Item>, tag: u32): nat {
    if log == [] then 0
    else Opened(log[..|log| - 1], tag) + if log[|log| - 1] == Emitted(Connected(tag)) then 1 else 0
  }

  function Requests(log: seq<Item>): nat {
    if log == [] then 0 else Requests(log[..|log| - 1]) + if log[|log| - 1].Tagged? then 1 else 0
  }

  predicate Failure(x: Item, tag: u32) {
    x.Emitted? && x.event.RequestFailed? && x.event.tag == tag
  }

  predicate ConnectedSince(log: seq<Item>, i: nat, j: nat, tag: u32) {
    exists k :: i < k < j && k < |log| && log[k] == Tagged(tag, true)
  }

  /** A tag answered by a failure is connected again only after another connect returned it. */
  predicate FailuresFinal(log: seq<Item>) {
    forall i, j, tag | 0 <= i < j < |log| && Failure(log[i], tag) && log[j] == Emitted(Connected(tag)) ::
      ConnectedSince(log, i, j, tag)
  }

  predicate Settled(h: Hist) {
    forall i, tag | 0 <= i < |h.log| && Failure(h.log[i], tag) && tag in h.mux.pending ::
      ConnectedSince(h.log, i, |h.log|, tag)
  }

  ghost predicate Balanced(h: Hist) {
    forall tag: u32 :: Opened(h.log, tag) + multiset(h.mux.pending)[tag] <= Connects(h.log, tag)
  }

  predicate TagsInOrder(log: seq<Item>) {
    forall i | 0 <= i < |log| && log[i].Tagged? :: log[i].tag == Ids.Allocation(1, Requests(log[..i]))
  }

  ghost predicate Inv(h: Hist) {
    && Balanced(h)
    && FailuresFinal(h.log)
    && Settled(h)
    && TagsInOrder(h.log)
    && h.mux.nextTag == Ids.Allocation(1, Requests(h.log))
  }

  lemma CountsSnoc(log: seq<Item>, x: Item, tag: u32)
    ensures Connects(log + [x], tag) == Connects(log, tag) + if x == Tagged(tag, true) then 1 else 0
    ensures Opened(log + [x], tag) == Opened(log, tag) + if x == Emitted(Connected(tag)) then 1 else 0
    ensures Requests(log + [x]) == Requests(log) + if x.Tagged? then 1 else 0
  {
    assert (log + [x])[..|log|] == log;
  }

  lemma OrderSnoc(log: seq<Item>, x: Item)
    requires FailuresFinal(log)
    requires x.Emitted? && x.event.Connected? ==>
      forall i | 0 <= i < |log| && Failure(log[i], x.event.tag) :: ConnectedSince(log, i, |log|, x.event.tag)
    ensures FailuresFinal(log + [x])
  {
    var after := log + [x];
    forall i, j, tag | 0 <= i < j < |after| && Failure(after[i], tag) && after[j] == Emitted(Connected(tag))
      ensures ConnectedSince(after, i, j, tag)
    {
      assert Failure(log[i], tag);
      assert ConnectedSince(log, i, j, tag);
      var k :| i < k < j && k < |log| && log[k] == Tagged(tag, true);
      assert after[k] == Tagged(tag, true);
    }
  }

  lemma TagsSnoc(log: seq<Item>, x: Item)
    requires TagsInOrder(log) && (x.Tagged? ==> x.tag == Ids.Allocation(1, Requests(log)))
    ensures TagsInOrder(log + [x])
  {
    hide Ids.Allocation, Requests;
    var after := log + [x];
    forall i | 0 <= i < |after| && after[i].Tagged?
      ensures after[i].tag == Ids.Allocation(1, Requests(after[..i]))
    {
      assert after[..i] == log[..i];
      assert i == |log| ==> log[..i] == log;
    }
  }

  lemma SettledSnoc(h: Hist, x: Item, pending: seq<u32>, mux: Mux)
    requires Settled(h) && mux.pending == pending
    requires forall tag | tag in pending :: tag in h.mux.pending || x == Tagged(tag, true)
    requires x.Emitted? && x.event.RequestFailed? ==> x.event.tag !in pending
    ensures Settled(Hist(mux, h.log + [x]))
  {
    var after := h.log + [x];
    forall i, tag | 0 <= i < |after| && Failure(after[i], tag) && tag in pending
      ensures ConnectedSince(after, i, |after|, tag)
    {
      assert i < |h.log| && Failure(h.log[i], tag);
      if tag in h.mux.pending {
        assert ConnectedSince(h.log, i, |h.log|, tag);
        var k :| i < k < |h.log| && h.log[k] == Tagged(tag, true);
        assert after[k] == Tagged(tag, true);
      } else {
        assert after[|h.log|] == Tagged(tag, true);
      }
    }
  }

  /** The effect of one request on the history. */
  lemma TaggedKeeps(lib: Plist.Library, h: Hist, op: Op)
    requires Inv(h) && (op.Request? || op.Connect?)
    ensures Inv(Do(lib, h, op))
  {
    hide Ids.Next, Connects, Opened, Requests;
    var after := Do(lib, h, op);
    var x := Tagged(h.mux.nextTag, op.Connect?);
    forall tag: u32
      ensures Opened(after.log, tag) + multiset(after.mux.pending)[tag] <= Connects(after.log, tag)
    {
      CountsSnoc(h.log, x, tag);
    }
    CountsSnoc(h.log, x, 0);
    OrderSnoc(h.log, x);
    TagsSnoc(h.log, x);
    SettledSnoc(h, x, after.mux.pending, after.mux);
  }

  /** What a frame may change: at most one event, and pending connects only shrink. */
  lemma HandleEffect(lib: Plist.Library, s: Mux, tag: u32, payload: seq<byte>)
    requires s.events == []
    ensures var t := Handle(lib, s, tag, payload);
      && |t.events| <= 1
      && t.nextTag == s.nextTag
      && (forall p | p in t.pending :: p in s.pending)
      && (forall p: u32 :: multiset(t.pending)[p] <= multiset(s.pending)[p])
      && (t.events != [] && t.events[0].Connected? ==>
        var p := t.events[0].tag; p in s.pending && p !in t.pending)
      && (t.events != [] && t.events[0].RequestFailed? ==> t.events[0].tag !in t.pending)
  {
    hide DecodeEnvelope;
    var env := DecodeEnvelope(lib, payload);
    var t := Handle(lib, s, tag, payload);
    if IsResult(env) {
      assert multiset(t.pending) == multiset(s.pending)[tag := 0];
      forall p | p in t.pending ensures p in s.pending {
        assert multiset(t.pending)[p] > 0;
      }
    }
  }

  lemma TakeKeeps(lib: Plist.Library, h: Hist)
    requires Inv(h) && FrameReady(h.mux.rx)
    ensures Inv(TakeLogged(lib, h))
  {
    hide Handle, Ids.Allocation, Connects, Opened, Requests;
    var total := U32At(h.mux.rx, 0);
    var s := h.mux.(events := [], rx := h.mux.rx[total..]);
    HandleEffect(lib, s, U32At(h.mux.rx, 12), h.mux.rx[HEADER_LEN..total]);
    var t := TakeFrame(lib, h.mux.(events := []));
    assert t == Handle(lib, s, U32At(h.mux.rx, 12), h.mux.rx[HEADER_LEN..total]);
    var after := TakeLogged(lib, h);
    hide TakeFrame, U32At;
    if t.events == [] {
      assert after.log == h.log;
    } else {
      var x := Emitted(t.events[0]);
      assert after.log == h.log + [x];
      EmitKeeps(h, x, after.mux);
    }
  }

  lemma EmitKeeps(h: Hist, x: Item, mux: Mux)
    requires Inv(h) && x.Emitted? && mux.nextTag == h.mux.nextTag
    requires forall p | p in mux.pending :: p in h.mux.pending
    requires forall p: u32 :: multiset(mux.pending)[p] <= multiset(h.mux.pending)[p]
    requires x.event.Connected? ==> x.event.tag in h.mux.pending && x.event.tag !in mux.pending
    requires x.event.RequestFailed? ==> x.event.tag !in mux.pending
    ensures Inv(Hist(mux, h.log + [x]))
  {
    hide Ids.Allocation, Connects, Opened, Requests;
    forall tag: u32
      ensures Opened(h.log + [x], tag) + multiset(mux.pending)[tag] <= Connects(h.log + [x], tag)
    {
      CountsSnoc(h.log, x, tag);
      assert tag in h.mux.pending ==> multiset(h.mux.pending)[tag] >= 1;
    }
    CountsSnoc(h.log, x, 0);
    OrderSnoc(h.log, x);
    TagsSnoc(h.log, x);
    SettledSnoc(h, x, mux.pending, mux);
  }

  lemma {:induction false} DrainKeeps(lib: Plist.Library, h: Hist)
    requires Inv(h)
    ensures Inv(DrainLogged(lib, h))
    decreases |h.mux.rx|
  {
    hide Inv, FrameReady, TakeLogged;
    if FrameReady(h.mux.rx) {
      TakeFrameShrinks(lib, h.mux.(events := []));
      TakeLoggedShrinks(lib, h);
      TakeKeeps(lib, h);
      DrainKeeps(lib, TakeLogged(lib, h));
    }
  }

  lemma TakeLoggedShrinks(lib: Plist.Library, h: Hist)
    requires FrameReady(h.mux.rx)
    ensures |TakeLogged(lib, h).mux.rx| < |h.mux.rx|
  {
    TakeFrameShrinks(lib, h.mux.(events := []));
    hide TakeFrame;
  }

  /** Everything above holds after any sequence of calls and received bytes. */
  lemma {:induction false} RunKeeps(lib: Plist.Library, ops: seq<Op>)
    ensures Inv(Run(lib, ops))
    decreases |ops|
  {
    hide DrainLogged;
    if ops != [] {
      var h, op := Run(lib, ops[..|ops| - 1]), ops[|ops| - 1];
      RunKeeps(lib, ops[..|ops| - 1]);
      match op
      case Request(_) => TaggedKeeps(lib, h, op);
      case Connect(_) => TaggedKeeps(lib, h, op);
      case PushData(data) => DrainKeeps(lib, h.(mux := h.mux.(rx := h.mux.rx + data)));
      case PollWrite =>
      case PollEvent =>
    }
  }

  /** `Connected` is queued for a tag no more often than `connect` returned it. */
  lemma NoMoreThanConnects(lib: Plist.Library, ops: seq<Op>, tag: u32)
    ensures var log := Run(lib, ops).log; Opened(log, tag) <= Connects(log, tag)
  {
    hide Run;
    RunKeeps(lib, ops);
  }

  /** After a failed answer, `Connected` follows only if another connect returned the same tag in between. */
  lemma FailureIsFinal(lib: Plist.Library, ops: seq<Op>)
    ensures FailuresFinal(Run(lib, ops).log)
  {
    hide Run;
    RunKeeps(lib, ops);
  }

  /** No tag is zero, and two requests share a tag exactly when a multiple of 2^32 - 1 allocations lies between them. */
  lemma TagsRepeatAtPeriod(lib: Plist.Library, ops: seq<Op>, i: nat, j: nat)
    requires i < j < |Run(lib, ops).log|
    requires Run(lib, ops).log[i].Tagged? && Run(lib, ops).log[j].Tagged?
    ensures var log := Run(lib, ops).log;
      && log[i].tag != 0
      && (log[i].tag == log[j].tag <==> (Requests(log[..j]) - Requests(log[..i])) % Ids.PERIOD == 0)
  {
    hide Run, Ids.Allocation, Balanced, FailuresFinal, Settled;
    RunKeeps(lib, ops);
    var log := Run(lib, ops).log;
    RequestsGrow(log, i, j);
    Ids.RepeatsAtPeriod(1, Requests(log[..i]), Requests(log[..j]));
  }

  lemma {:induction false} RequestsGrow(log: seq<Item>, i: nat, j: nat)
    requires i <= j <= |log|
    ensures Requests(log[..i]) <= Requests(log[..j])
    decreases j
  {
    if i < j {
      assert log[..j][..j - 1] == log[..j - 1];
      RequestsGrow(log, i, j - 1);
    }
  }
}
