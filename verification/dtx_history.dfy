/** What the states of a DTX connection owe to the steps that led there. */
module DtxHistory {
  import opened Bytes
  import opened Wrappers
  import opened DtxConn
  import Ids

  // ---- read off the steps ----

  function Registrations(steps: seq<Step>): nat {
    if steps == [] then 0
    else
      var n := |steps| - 1;
      Registrations(steps[..n]) + if steps[n].RegisterChannel? then 1 else 0
  }

  /** Each channel registered so far, with the queue of its last registration; queues are numbered in order. */
  function Table(steps: seq<Step>): map<i32, nat> {
    if steps == [] then map[]
    else
      var n := |steps| - 1;
      if steps[n].RegisterChannel? then Table(steps[..n])[steps[n].channel := Registrations(steps[..n])]
      else Table(steps[..n])
  }

  lemma {:induction false} TableHolds(steps: seq<Step>, ch: i32)
    ensures ch in Table(steps) <==> RegisterChannel(ch) in steps
  {
    if steps != [] {
      var n := |steps| - 1;
      TableHolds(steps[..n], ch);
      assert steps == steps[..n] + [steps[n]];
    }
  }

  /** The messages read. */
  function Arrivals(steps: seq<Step>): seq<Msg> {
    if steps == [] then []
    else
      var n := |steps| - 1;
      Arrivals(steps[..n]) + if steps[n].Read? then [steps[n].m] else []
  }

  /** Where a step was taken, in order. */
  function Places(steps: seq<Step>, t: Step): (ps: seq<nat>)
    ensures forall i | 0 <= i < |ps| :: ps[i] < |steps| && steps[ps[i]] == t
  {
    if steps == [] then []
    else
      var n := |steps| - 1;
      Places(steps[..n], t) + if steps[n] == t then [n] else []
  }

  // ---- the states follow ----

  /** The verdict at a look, a second look and a last step of the reader. */
  predicate JudgedAt(steps: seq<Step>, v: Verdict, first: nat, second: nat) {
    && first < second < |steps|
    && v.atCheck == Table(steps[..first]).Keys && v.atDispatch == Table(steps[..second]).Keys
    && match v.offer
       case NoHandler => v.m.channel !in v.atDispatch
       case Gone(q) => OfferedAt(steps, v.m.channel, second, q) && HandlerDrops(q) in steps[..SentAt(steps, second)]
       case Put(q) => OfferedAt(steps, v.m.channel, second, q) && HandlerDrops(q) !in steps[..SentAt(steps, second)]
  }

  /** The reader's next send to a handler, or the end if there is none yet. */
  function SentAt(steps: seq<Step>, from: nat): (e: nat)
    requires from <= |steps|
    ensures from <= e <= |steps|
    decreases |steps| - from
  {
    if from == |steps| || steps[from] == SendToHandler then from else SentAt(steps, from + 1)
  }

  predicate OfferedAt(steps: seq<Step>, ch: i32, second: nat, q: nat)
    requires second < |steps|
  {
    && ch in Table(steps[..second]) && q == Table(steps[..second])[ch]
    && SentAt(steps, second) < |steps|
  }

  /** The reader has looked once, or twice, at the table for the invocation it is working on. */
  predicate LookedOnce(r: Reader) {
    r.Checked? || r.Dispatching? || r.Offering?
  }

  ghost predicate TableOk(steps: seq<Step>, s: State) {
    && s.dispatchers == Table(steps) && |s.queues| == Registrations(steps)
    && s.arrived == Arrivals(steps)
    && (forall q | 0 <= q < |s.queues| :: s.queues[q].alive <==> HandlerDrops(q) !in steps)
    && (forall q: nat :: HandlerDrops(q) in steps ==> q < |s.queues|)
    && (s.reader.Stopped? <==> Fail in steps)
  }

  predicate ReaderOk(steps: seq<Step>, s: State) {
    var checks, looks := Places(steps, CheckHandler), Places(steps, LookUpHandler);
    && |checks| == |s.log| + (if LookedOnce(s.reader) then 1 else 0)
    && |looks| == |s.log| + (if s.reader.Offering? then 1 else 0)
    && (LookedOnce(s.reader) ==> s.reader.atCheck == Table(steps[..checks[|s.log|]]).Keys)
    && (s.reader.Offering? ==>
      && checks[|s.log|] < looks[|s.log|]
      && Table(steps[..looks[|s.log|]]) == Table(steps)
      && SentAt(steps, looks[|s.log|]) == |steps|
      && s.reader.m.channel in Table(steps) && s.reader.queue == Table(steps)[s.reader.m.channel])
  }

  predicate LogOk(steps: seq<Step>, s: State) {
    var checks, looks := Places(steps, CheckHandler), Places(steps, LookUpHandler);
    && |checks| >= |s.log| && |looks| >= |s.log|
    && forall i | 0 <= i < |s.log| :: JudgedAt(steps, s.log[i], checks[i], looks[i])
  }

  lemma Snoc(steps: seq<Step>, t: Step)
    ensures var all := steps + [t];
      && all[..|steps|] == steps && all[|steps|] == t
      && Registrations(all) == Registrations(steps) + (if t.RegisterChannel? then 1 else 0)
      && Table(all) == (if t.RegisterChannel? then Table(steps)[t.channel := Registrations(steps)] else Table(steps))
      && Arrivals(all) == Arrivals(steps) + (if t.Read? then [t.m] else [])
      && (forall u :: Places(all, u) == Places(steps, u) + if t == u then [|steps|] else [])
  {
    assert (steps + [t])[..|steps|] == steps;
  }

  lemma {:induction false} SentSnoc(steps: seq<Step>, t: Step, from: nat)
    requires from <= |steps|
    ensures var e := SentAt(steps, from);
      SentAt(steps + [t], from) == if e == |steps| && t != SendToHandler then e + 1 else e
    decreases |steps| - from
  {
    var all := steps + [t];
    if from == |steps| {
      assert t != SendToHandler ==> SentAt(all, from) == SentAt(all, |all|);
    } else {
      assert all[from] == steps[from];
      if steps[from] != SendToHandler {
        SentSnoc(steps, t, from + 1);
      }
    }
  }

  lemma JudgedStays(steps: seq<Step>, t: Step, v: Verdict, first: nat, second: nat)
    requires JudgedAt(steps, v, first, second)
    ensures JudgedAt(steps + [t], v, first, second)
  {
    hide Table;
    var all := steps + [t];
    assert all[..first] == steps[..first] && all[..second] == steps[..second];
    SentSnoc(steps, t, second);
    var e := SentAt(steps, second);
    assert all[..e] == steps[..e];
  }

  lemma TableStep(steps: seq<Step>, s: State, t: Step)
    requires TableOk(steps, s) && Enabled(s, t)
    ensures TableOk(steps + [t], Apply(s, t))
  {
    hide Table, Registrations, Arrivals, Ids.Next;
    Snoc(steps, t);
    var all, s' := steps + [t], Apply(s, t);
  }

  lemma ReaderStep(steps: seq<Step>, s: State, t: Step)
    requires DispatchOk(s) && TableOk(steps, s) && ReaderOk(steps, s) && Enabled(s, t)
    ensures ReaderOk(steps + [t], Apply(s, t))
  {
    hide Table, Registrations, Arrivals, Places, SentAt, Ids.Next, Invocations, Judged, VerdictOk;
    Snoc(steps, t);
    var all := steps + [t];
    var checks, looks := Places(steps, CheckHandler), Places(steps, LookUpHandler);
    if LookedOnce(s.reader) {
      assert all[..checks[|s.log|]] == steps[..checks[|s.log|]];
    }
    if s.reader.Offering? {
      var l := looks[|s.log|];
      assert all[..l] == steps[..l];
      SentSnoc(steps, t, l);
    }
    if t.LookUpHandler? {
      LookUnsent(steps);
    }
  }

  lemma LookUnsent(steps: seq<Step>)
    ensures SentAt(steps + [LookUpHandler], |steps|) == |steps| + 1
  {
    assert (steps + [LookUpHandler])[|steps|] == LookUpHandler;
    assert SentAt(steps + [LookUpHandler], |steps| + 1) == |steps| + 1;
  }

  lemma LogStep(steps: seq<Step>, s: State, t: Step)
    requires DispatchOk(s) && TableOk(steps, s) && ReaderOk(steps, s) && LogOk(steps, s) && Enabled(s, t)
    ensures LogOk(steps + [t], Apply(s, t))
  {
    hide Table, Registrations, Arrivals, Places, SentAt, Ids.Next, Invocations, Judged, VerdictOk, JudgedAt;
    Snoc(steps, t);
    var all, s' := steps + [t], Apply(s, t);
    var checks, looks := Places(all, CheckHandler), Places(all, LookUpHandler);
    forall i | 0 <= i < |s'.log| ensures JudgedAt(all, s'.log[i], checks[i], looks[i]) {
      if i < |s.log| {
        JudgedStays(steps, t, s.log[i], checks[i], looks[i]);
      } else {
        NewVerdict(steps, s, t);
      }
    }
  }

  lemma NewVerdict(steps: seq<Step>, s: State, t: Step)
    requires DispatchOk(s) && TableOk(steps, s) && ReaderOk(steps, s) && Enabled(s, t)
    requires |Apply(s, t).log| == |s.log| + 1
    ensures var all, n := steps + [t], |s.log|;
      var checks, looks := Places(all, CheckHandler), Places(all, LookUpHandler);
      n < |checks| && n < |looks| && JudgedAt(all, Apply(s, t).log[n], checks[n], looks[n])
  {
    hide Table, Registrations, Arrivals, Places, SentAt, Ids.Next, Invocations, Judged, VerdictOk;
    Snoc(steps, t);
    var all, n := steps + [t], |s.log|;
    var checks, looks := Places(all, CheckHandler), Places(all, LookUpHandler);
    assert all[..checks[n]] == steps[..checks[n]] && all[..looks[n]] == steps[..looks[n]];
    if t.SendToHandler? {
      SentSnoc(steps, t, looks[n]);
    }
  }

  ghost predicate HistoryOk(steps: seq<Step>, s: State) {
    TableOk(steps, s) && ReaderOk(steps, s) && LogOk(steps, s)
  }

  lemma {:induction false} RunKeepsHistory(steps: seq<Step>)
    requires Run(steps).Some?
    ensures HistoryOk(steps, Run(steps).value)
    decreases |steps|
  {
    hide TableOk, ReaderOk, LogOk, DispatchOk, Apply, Enabled;
    if steps == [] {
      InitHistoryOk();
    } else {
      var front, t := steps[..|steps| - 1], steps[|steps| - 1];
      var s := Run(front).value;
      RunKeepsHistory(front);
      RunKeepsDispatch(front);
      assert front + [t] == steps;
      TableStep(front, s, t);
      ReaderStep(front, s, t);
      LogStep(front, s, t);
    }
  }

  lemma InitHistoryOk()
    ensures HistoryOk([], INIT)
  {}

  // ---- how calls end ----

  /** How far a call has come, of the steps alone. */
  predicate CallFollows(steps: seq<Step>, k: Call, c: nat) {
    && (k.phase.Allocated? <==> Register(c) !in steps)
    && (k.phase.Allocated? ==> Write(c) !in steps)
    && (k.phase.Registered? <==> Register(c) in steps && Write(c) !in steps && WriteFails(c) !in steps)
    && (k.phase.Abandoned? <==> WriteFails(c) in steps || TimeOut(c) in steps)
    && (k.phase.Returned? <==> TakeReply(c) in steps)
  }

  ghost predicate CallsFollow(steps: seq<Step>, s: State) {
    && (forall c | 0 <= c < |s.calls| :: CallFollows(steps, s.calls[c], c))
    && (forall c: nat | c >= |s.calls| :: Untouched(steps, c))
  }

  predicate Untouched(steps: seq<Step>, c: nat) {
    && Register(c) !in steps && Write(c) !in steps && WriteFails(c) !in steps
    && TakeReply(c) !in steps && TimeOut(c) !in steps
  }

  lemma CallsStep(steps: seq<Step>, s: State, t: Step)
    requires CallsFollow(steps, s) && Enabled(s, t)
    ensures CallsFollow(steps + [t], Apply(s, t))
  {
    hide Ids.Next;
    var all, s' := steps + [t], Apply(s, t);
    forall c | 0 <= c < |s'.calls| ensures CallFollows(all, s'.calls[c], c) {
      if c < |s.calls| {
        assert CallFollows(steps, s.calls[c], c);
      } else {
        assert Untouched(steps, c);
      }
    }
    forall c: nat | c >= |s'.calls| ensures Untouched(all, c) {
      assert Untouched(steps, c);
    }
  }

  lemma {:induction false} RunKeepsCalls(steps: seq<Step>)
    requires Run(steps).Some?
    ensures CallsFollow(steps, Run(steps).value)
    decreases |steps|
  {
    hide CallFollows, Untouched, Apply, Enabled;
    if steps != [] {
      var front, t := steps[..|steps| - 1], steps[|steps| - 1];
      RunKeepsCalls(front);
      assert front + [t] == steps;
      CallsStep(front, Run(front).value, t);
    } else {
      InitCallsFollow();
    }
  }

  lemma InitCallsFollow()
    ensures CallsFollow([], INIT)
  {}

  /**
   * Under every interleaving a call is given up exactly by a failed write or a
   * timeout and returns exactly by taking its reply, and none is ever stuck: one
   * that is allocated can register, one that is registered can write or fail to,
   * and one that has written can take its reply if that is there and time out if
   * it is not, and nothing else.
   */
  lemma CallsEnd(steps: seq<Step>, c: nat)
    requires Run(steps).Some? && c < |Run(steps).value.calls|
    ensures var s := Run(steps).value; var k := s.calls[c];
      && CallFollows(steps, k, c)
      && (Enabled(s, Register(c)) <==> Register(c) !in steps)
      && (Enabled(s, Write(c)) <==> Enabled(s, WriteFails(c)))
      && (Enabled(s, Write(c)) <==> Register(c) in steps && Write(c) !in steps && WriteFails(c) !in steps)
      && (Enabled(s, TakeReply(c)) <==> k.phase.Written? && k.slot.Some?)
      && (Enabled(s, TimeOut(c)) <==> k.phase.Written? && k.slot.None?)
  {
    hide Run;
    RunKeepsCalls(steps);
  }

  /** How many steps the reader may still take before it reads again. */
  function ReaderLeft(r: Reader): nat {
    match r
    case Holding(_) => 4
    case Checked(_, _) => 3
    case Dispatching(_, _, _) => 2
    case Offering(_, _, _, _) => 1
    case Replying(_, _) => 1
    case _ => 0
  }

  /**
   * Every step of the reader brings it nearer to its next read, and nobody else's
   * step changes where it is: at most four steps after a message it is done.
   */
  lemma ReaderProceeds(s: State, t: Step)
    requires Enabled(s, t)
    ensures var s' := Apply(s, t);
      if t.Read? then ReaderLeft(s'.reader) == 4 && s.reader.Reading?
      else if t.Fail? then s'.reader.Stopped? && s.reader.Reading?
      else if IsReaderStep(t) then ReaderLeft(s'.reader) < ReaderLeft(s.reader) && !s'.reader.Stopped?
      else s'.reader == s.reader
  {
    hide Ids.Next;
  }

  /**
   * Under every interleaving a handler can take what is queued, and drop its
   * receiver, as long as it has not; and channels can be registered except while
   * the reader sends to a handler.
   */
  lemma HandlersProceed(steps: seq<Step>, q: nat, ch: i32)
    requires Run(steps).Some?
    ensures var s := Run(steps).value;
      && (Enabled(s, HandlerDrops(q)) <==> q < Registrations(steps) && HandlerDrops(q) !in steps)
      && (Enabled(s, HandlerTakes(q)) <==>
        q < Registrations(steps) && HandlerDrops(q) !in steps && s.queues[q].items != [])
      && (Enabled(s, RegisterChannel(ch)) <==> !s.reader.Offering?)
  {
    hide Run;
    RunKeepsHistory(steps);
    hide Table, Arrivals;
  }

  // ---- the dispatch theorem ----

  /** The channel was registered by one of these steps. */
  predicate Registered(steps: seq<Step>, ch: i32) {
    RegisterChannel(ch) in steps
  }

  /**
   * Under every interleaving, and of the steps alone: the invocations judged are
   * those read, in order, up to the one in hand. The i-th, with its two looks at
   * the handler table, is acknowledged exactly if it expects a reply and its
   * channel was not registered before the first look; it is offered exactly if
   * its channel was registered before the second, to the channel's last queue
   * then; and it goes into that queue exactly if the receiver was not dropped
   * before it was sent. So it is neither exactly if it expects a reply, its
   * channel was registered before the first look, and the receiver was dropped.
   */
  lemma NeverNeither(steps: seq<Step>, i: nat)
    requires Run(steps).Some? && i < |Run(steps).value.log|
    ensures var s := Run(steps).value;
      var v, checks, looks := s.log[i], Places(steps, CheckHandler), Places(steps, LookUpHandler);
      && Invocations(Arrivals(steps)) == Judged(s.log) + Underway(s.reader)
      && i < |checks| && i < |looks| && checks[i] < looks[i]
      && var first, second := Registered(steps[..checks[i]], v.m.channel), Registered(steps[..looks[i]], v.m.channel);
        var sent := SentAt(steps, looks[i]);
        && (first ==> second)
        && (v.acked <==> v.m.expectsReply && !first)
        && (v.offer.NoHandler? <==> !second)
        && (second ==>
          && v.m.channel in Table(steps[..looks[i]]) && sent < |steps|
          && var q := Table(steps[..looks[i]])[v.m.channel];
            v.offer == if HandlerDrops(q) in steps[..sent] then Gone(q) else Put(q))
        && (!v.acked && !v.offer.Put? && v.m.expectsReply <==> v.m.expectsReply && first && v.offer.Gone?)
        && (v.acked && v.offer.Put? <==> v.m.expectsReply && !first && second && !v.offer.Gone?)
        && v.m.convId == 0 && v.m.msgType != 0
  {
    hide Run, Invocations, Judged, Underway, Places, SentAt;
    RunKeepsHistory(steps);
    RunKeepsDispatch(steps);
    var s := Run(steps).value;
    var v, checks, looks := s.log[i], Places(steps, CheckHandler), Places(steps, LookUpHandler);
    assert VerdictOk(v) && JudgedAt(steps, v, checks[i], looks[i]);
    TableHolds(steps[..checks[i]], v.m.channel);
    TableHolds(steps[..looks[i]], v.m.channel);
    hide Table;
  }

  /** The table of the running connection, and what has been read, of the steps alone. */
  lemma TableFollows(steps: seq<Step>)
    requires Run(steps).Some?
    ensures var s := Run(steps).value;
      && s.dispatchers == Table(steps)
      && (forall ch :: ch in s.dispatchers <==> RegisterChannel(ch) in steps)
      && s.arrived == Arrivals(steps)
      && (s.reader.Stopped? <==> Fail in steps)
      && forall q | 0 <= q < |s.queues| :: s.queues[q].alive <==> HandlerDrops(q) !in steps
  {
    hide Run;
    RunKeepsHistory(steps);
    forall ch ensures ch in Table(steps) <==> RegisterChannel(ch) in steps {
      TableHolds(steps, ch);
    }
    hide Table, Arrivals;
  }
}
