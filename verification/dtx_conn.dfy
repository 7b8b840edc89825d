/**
 * The DTX connection of src/dtx/mod.rs as interleaved steps: any number of
 * callers, channel registrations and handlers, and the one reader thread. A
 * step is what happens under one lock acquisition, one write or one channel
 * operation.
 */
module DtxConn {
  import opened Bytes
  import opened Wrappers
  import Ids
  import Dtx

  type Msg = Dtx.DtxMessage<seq<byte>>

  const FIRST_ID: u32 := 5
  const QUEUE_CAPACITY: nat := 32

  // ---- state ----

  /** Abandoned: the write failed or the wait timed out, so the receiver is gone. */
  datatype Phase = Allocated | Registered | Written | Returned(reply: Msg) | Abandoned

  /**
   * One `call`: its id and its capacity-1 reply channel. `serial` and `order`
   * are its places among all allocations and all registrations.
   */
  datatype Call = Call(serial: nat, id: u32, phase: Phase, slot: Option<Msg>, order: nat)

  /**
   * A handler's capacity-32 channel; not alive once the handler dropped the
   * receiver. `taken` and `dropped` are history: what the handler received, and
   * what was still queued when it dropped the receiver.
   */
  datatype Queue = Queue(channel: i32, items: seq<Msg>, alive: bool, taken: seq<Msg>, dropped: seq<Msg>)

  /**
   * Where the reader is. For an invocation it carries the channels that had a
   * handler when it looked, and whether it acknowledged by itself.
   */
  datatype Reader =
    | Reading
    | Holding(m: Msg)
    | Replying(m: Msg, call: nat)
    | Checked(m: Msg, atCheck: set<i32>)
    | Dispatching(m: Msg, atCheck: set<i32>, acked: bool)
    | Offering(m: Msg, atCheck: set<i32>, acked: bool, queue: nat)
    | Stopped

  /** Whether an invocation went into a queue; it cannot if the receiver is gone. */
  datatype Offer = NoHandler | Gone(queue: nat) | Put(queue: nat)

  /** What became of one invocation. */
  datatype Verdict = Verdict(m: Msg, acked: bool, offer: Offer, atCheck: set<i32>, atDispatch: set<i32>)

  /** `arrived`, `sends` and `log` are the history: messages read, calls sent a reply, verdicts. */
  datatype State = State(
    nextId: u32,
    allocs: nat,
    registers: nat,
    calls: seq<Call>,
    waiters: map<u32, nat>,
    dispatchers: map<i32, nat>,
    queues: seq<Queue>,
    reader: Reader,
    arrived: seq<Msg>,
    sends: seq<nat>,
    log: seq<Verdict>)

  const INIT: State := State(FIRST_ID, 0, 0, [], map[], map[], [], Reading, [], [], [])

  // ---- steps ----

  datatype Step =
    | CallAsync
    | Alloc
    | Register(call: nat)
    | Write(call: nat)
    | WriteFails(call: nat)
    | TakeReply(call: nat)
    | TimeOut(call: nat)
    | RegisterChannel(channel: i32)
    | HandlerTakes(queue: nat)
    | HandlerDrops(queue: nat)
    | Read(m: Msg)
    | Fail
    | LookUpWaiter
    | SendReply
    | DropAck
    | CheckHandler
    | AutoAck
    | LookUpHandler
    | SendToHandler

  predicate IsReaderStep(t: Step) {
    t.Read? || t.Fail? || t.LookUpWaiter? || t.SendReply? || t.DropAck? || t.CheckHandler? || t.AutoAck?
    || t.LookUpHandler? || t.SendToHandler?
  }

  predicate InPhase(s: State, c: nat, p: Phase) {
    c < |s.calls| && s.calls[c].phase == p
  }

  /** The receiver of the call's reply channel exists. */
  predicate Listening(k: Call) {
    k.phase.Registered? || k.phase.Written?
  }

  /** A step is enabled when its thread is at that point and does not block. */
  predicate Enabled(s: State, t: Step) {
    match t
    case CallAsync => true
    case Alloc => true
    case Register(c) => InPhase(s, c, Allocated)
    case Write(c) => InPhase(s, c, Registered)
    case WriteFails(c) => InPhase(s, c, Registered)
    case TakeReply(c) => InPhase(s, c, Written) && s.calls[c].slot.Some?
    case TimeOut(c) => InPhase(s, c, Written) && s.calls[c].slot.None?
    case RegisterChannel(_) => !s.reader.Offering?  // the reader holds the table's lock while it sends
    case HandlerTakes(q) => q < |s.queues| && s.queues[q].alive && s.queues[q].items != []
    case HandlerDrops(q) => q < |s.queues| && s.queues[q].alive
    case Read(_) => s.reader.Reading?
    case Fail => s.reader.Reading?
    case LookUpWaiter => s.reader.Holding? && s.reader.m.convId > 0
    case SendReply =>
      && s.reader.Replying? && s.reader.call < |s.calls|
      && (Listening(s.calls[s.reader.call]) ==> s.calls[s.reader.call].slot.None?)
    case DropAck => s.reader.Holding? && s.reader.m.convId == 0 && s.reader.m.msgType == Dtx.ACK
    case CheckHandler => s.reader.Holding? && s.reader.m.convId == 0 && s.reader.m.msgType != Dtx.ACK
    case AutoAck => s.reader.Checked?
    case LookUpHandler => s.reader.Dispatching?
    case SendToHandler =>
      && s.reader.Offering? && s.reader.queue < |s.queues|
      && (s.queues[s.reader.queue].alive ==> |s.queues[s.reader.queue].items| < QUEUE_CAPACITY)
  }

  function SetPhase(s: State, c: nat, p: Phase): State
    requires c < |s.calls|
  {
    s.(calls := s.calls[c := s.calls[c].(phase := p)])
  }

  function Apply(s: State, t: Step): State
    requires Enabled(s, t)
  {
    match t
    case CallAsync => s.(nextId := Ids.Next(s.nextId), allocs := s.allocs + 1)
    case Alloc =>
      s.(nextId := Ids.Next(s.nextId), allocs := s.allocs + 1,
         calls := s.calls + [Call(s.allocs, s.nextId, Allocated, None, 0)])
    case Register(c) =>
      s.(registers := s.registers + 1,
         calls := s.calls[c := s.calls[c].(phase := Registered, order := s.registers)],
         waiters := s.waiters[s.calls[c].id := c])
    case Write(c) => SetPhase(s, c, Written)
    case WriteFails(c) => SetPhase(s, c, Abandoned)
    case TakeReply(c) =>
      s.(calls := s.calls[c := s.calls[c].(phase := Returned(s.calls[c].slot.value), slot := None)])
    case TimeOut(c) => SetPhase(s, c, Abandoned)
    case RegisterChannel(ch) =>
      s.(dispatchers := s.dispatchers[ch := |s.queues|], queues := s.queues + [Queue(ch, [], true, [], [])])
    case HandlerTakes(q) =>
      var queue := s.queues[q];
      s.(queues := s.queues[q := queue.(items := queue.items[1..], taken := queue.taken + [queue.items[0]])])
    case HandlerDrops(q) =>
      s.(queues := s.queues[q := s.queues[q].(items := [], alive := false, dropped := s.queues[q].items)])
    case Read(m) => s.(reader := Holding(m), arrived := s.arrived + [m])
    case Fail => s.(reader := Stopped)
    case LookUpWaiter =>
      var m := s.reader.m;
      if m.msgId in s.waiters then
        s.(waiters := s.waiters - {m.msgId}, reader := Replying(m, s.waiters[m.msgId]))
      else s.(reader := Reading)
    case SendReply =>
      var c := s.reader.call;
      var k := s.calls[c];
      s.(calls := if Listening(k) then s.calls[c := k.(slot := Some(s.reader.m))] else s.calls,
         sends := s.sends + [c], reader := Reading)
    case DropAck => s.(reader := Reading)
    case CheckHandler => s.(reader := Checked(s.reader.m, s.dispatchers.Keys))
    case AutoAck =>
      var m := s.reader.m;
      var has := m.channel in s.reader.atCheck;
      s.(reader := Dispatching(m, s.reader.atCheck, m.expectsReply && !has))
    case LookUpHandler =>
      var r := s.reader;
      if r.m.channel in s.dispatchers then
        s.(reader := Offering(r.m, r.atCheck, r.acked, s.dispatchers[r.m.channel]))
      else
        s.(reader := Reading, log := s.log + [Verdict(r.m, r.acked, NoHandler, r.atCheck, s.dispatchers.Keys)])
    case SendToHandler =>
      var r := s.reader;
      var q := s.queues[r.queue];
      s.(queues := if q.alive then s.queues[r.queue := q.(items := q.items + [r.m])] else s.queues,
         reader := Reading,
         log := s.log + [Verdict(r.m, r.acked, if q.alive then Put(r.queue) else Gone(r.queue),
                               r.atCheck, s.dispatchers.Keys)])
  }

  /** The state after the steps, if each was enabled in its turn. */
  function Run(steps: seq<Step>): Option<State> {
    if steps == [] then Some(INIT)
    else
      var before := Run(steps[..|steps| - 1]);
      var t := steps[|steps| - 1];
      if before.Some? && Enabled(before.value, t) then Some(Apply(before.value, t)) else None
  }

  // ---- replies: what holds over every run ----

  predicate Own(k: Call, m: Msg) {
    m.msgId == k.id && m.convId > 0
  }

  predicate Waiting(s: State, c: nat)
    requires c < |s.calls|
  {
    s.calls[c].id in s.waiters && s.waiters[s.calls[c].id] == c
  }

  /** The reader has taken the call's sender out of the table and is about to use it. */
  predicate InHand(s: State, c: nat) {
    s.reader.Replying? && s.reader.call == c
  }

  /** Another call was registered under the same id after this one. */
  predicate Superseded(s: State, c: nat)
    requires c < |s.calls|
  {
    exists d :: 0 <= d < |s.calls| && Supersedes(s.calls[d], s.calls[c])
  }

  predicate Supersedes(k: Call, l: Call) {
    !k.phase.Allocated? && k.id == l.id && l.order < k.order
  }

  /** A call whose reply was not sent, so that its channel is empty. */
  predicate Unsent(s: State, c: nat) {
    c < |s.calls| && !s.calls[c].phase.Allocated? && c !in s.sends
  }

  predicate CallOk(s: State, c: nat)
    requires c < |s.calls|
  {
    var k := s.calls[c];
    && (k.slot.Some? ==> Own(k, k.slot.value) && k.slot.value in s.arrived && c in s.sends)
    && (k.phase.Returned? ==> Own(k, k.phase.reply) && k.phase.reply in s.arrived && c in s.sends)
    && (k.phase.Allocated? ==> c !in s.sends)
    && (!k.phase.Allocated? ==> k.order < s.registers)
    && (Unsent(s, c) && !InHand(s, c) ==> (Waiting(s, c) <==> !Superseded(s, c)))
  }

  predicate RepliesOk(s: State) {
    && (forall c | 0 <= c < |s.calls| :: CallOk(s, c))
    && (forall id | id in s.waiters :: Unsent(s, s.waiters[id]) && s.calls[s.waiters[id]].id == id)
    && (s.reader.Replying? ==>
      && Unsent(s, s.reader.call) && Own(s.calls[s.reader.call], s.reader.m) && s.reader.m in s.arrived
      && !Waiting(s, s.reader.call))
    && (s.reader.Holding? ==> s.reader.m in s.arrived)
    && (forall i | 0 <= i < |s.sends| :: s.sends[i] < |s.calls|)
    && (forall i, j | 0 <= i < j < |s.sends| :: s.sends[i] != s.sends[j])
  }

  lemma AllocKeeps(s: State)
    requires RepliesOk(s)
    ensures RepliesOk(Apply(s, Alloc))
  {
    hide Ids.Next;
    var s' := Apply(s, Alloc);
    var n := |s.calls|;
    forall c | 0 <= c < |s'.calls| ensures CallOk(s', c) {
      if c < n {
        assert CallOk(s, c);
        SameSuperseded(s, s', c);
      }
    }
    forall id | id in s'.waiters ensures Unsent(s', s'.waiters[id]) && s'.calls[s'.waiters[id]].id == id {
      assert Unsent(s, s.waiters[id]) && s.calls[s.waiters[id]].id == id;
    }
  }

  /** A call that has not registered, and new phases of the others, change nothing about who was superseded. */
  lemma SameSuperseded(s: State, s': State, c: nat)
    requires c < |s.calls| <= |s'.calls|
    requires forall d | 0 <= d < |s.calls| ::
      && s'.calls[d].id == s.calls[d].id && s'.calls[d].order == s.calls[d].order
      && s'.calls[d].phase.Allocated? == s.calls[d].phase.Allocated?
    requires forall d | |s.calls| <= d < |s'.calls| :: s'.calls[d].phase.Allocated?
    ensures Superseded(s', c) <==> Superseded(s, c)
  {
    if Superseded(s, c) {
      var d :| 0 <= d < |s.calls| && Supersedes(s.calls[d], s.calls[c]);
      assert Supersedes(s'.calls[d], s'.calls[c]);
    }
    if Superseded(s', c) {
      var d :| 0 <= d < |s'.calls| && Supersedes(s'.calls[d], s'.calls[c]);
      assert Supersedes(s.calls[d], s.calls[c]);
    }
  }

  /** Registering a call supersedes exactly the registered ones with its id. */
  lemma RegisterSupersedes(s: State, c: nat, d: nat)
    requires RepliesOk(s) && Enabled(s, Register(c)) && d < |s.calls|
    ensures var s' := Apply(s, Register(c));
      if d == c then !Superseded(s', c)
      else if s.calls[d].phase.Allocated? then true
      else Superseded(s', d) <==> Superseded(s, d) || s.calls[d].id == s.calls[c].id
  {
    var s' := Apply(s, Register(c));
    assert CallOk(s, d);
    if Superseded(s', d) {
      var e :| 0 <= e < |s'.calls| && Supersedes(s'.calls[e], s'.calls[d]);
      assert CallOk(s, e);
      assert e != c && d != c ==> Supersedes(s.calls[e], s.calls[d]);
    }
    if d != c && Superseded(s, d) {
      var e :| 0 <= e < |s.calls| && Supersedes(s.calls[e], s.calls[d]);
      assert Supersedes(s'.calls[e], s'.calls[d]);
    }
    if d != c && !s.calls[d].phase.Allocated? && s.calls[d].id == s.calls[c].id {
      assert Supersedes(s'.calls[c], s'.calls[d]);
    }
  }

  lemma RegisterKeeps(s: State, c: nat)
    requires RepliesOk(s) && Enabled(s, Register(c))
    ensures RepliesOk(Apply(s, Register(c)))
  {
    var s' := Apply(s, Register(c));
    assert CallOk(s, c);
    forall d | 0 <= d < |s'.calls| ensures CallOk(s', d) {
      assert CallOk(s, d);
      RegisterSupersedes(s, c, d);
      hide Superseded;
    }
    forall id | id in s'.waiters ensures Unsent(s', s'.waiters[id]) && s'.calls[s'.waiters[id]].id == id {
      assert id in s.waiters ==> Unsent(s, s.waiters[id]) && s.calls[s.waiters[id]].id == id;
    }
  }

  /** A registered call may change its phase and slot as long as it is itself in order. */
  lemma CallChanges(s: State, c: nat, k: Call)
    requires RepliesOk(s) && c < |s.calls| && !s.calls[c].phase.Allocated? && !k.phase.Allocated?
    requires k.id == s.calls[c].id && k.order == s.calls[c].order
    requires CallOk(s.(calls := s.calls[c := k]), c)
    ensures RepliesOk(s.(calls := s.calls[c := k]))
  {
    var s' := s.(calls := s.calls[c := k]);
    forall d | 0 <= d < |s'.calls| ensures CallOk(s', d) {
      assert CallOk(s, d);
      SameSuperseded(s, s', d);
    }
    forall id | id in s'.waiters ensures Unsent(s', s'.waiters[id]) && s'.calls[s'.waiters[id]].id == id {
      assert Unsent(s, s.waiters[id]) && s.calls[s.waiters[id]].id == id;
    }
  }

  lemma CallerKeeps(s: State, t: Step)
    requires RepliesOk(s) && Enabled(s, t)
    requires t.Write? || t.WriteFails? || t.TakeReply? || t.TimeOut?
    ensures RepliesOk(Apply(s, t))
  {
    var c, s' := t.call, Apply(s, t);
    assert CallOk(s, c);
    SameSuperseded(s, s', c);
    assert CallOk(s', c);
    CallChanges(s, c, s'.calls[c]);
    hide RepliesOk, CallOk;
  }

  lemma LookUpWaiterKeeps(s: State)
    requires RepliesOk(s) && Enabled(s, LookUpWaiter)
    ensures RepliesOk(Apply(s, LookUpWaiter))
  {
    var s' := Apply(s, LookUpWaiter);
    forall d | 0 <= d < |s'.calls| ensures CallOk(s', d) {
      assert CallOk(s, d);
      SameSuperseded(s, s', d);
      hide Superseded;
    }
    forall id | id in s'.waiters ensures Unsent(s', s'.waiters[id]) && s'.calls[s'.waiters[id]].id == id {
      assert Unsent(s, s.waiters[id]) && s.calls[s.waiters[id]].id == id;
    }
  }

  lemma SendReplyKeeps(s: State)
    requires RepliesOk(s) && Enabled(s, SendReply)
    ensures RepliesOk(Apply(s, SendReply))
  {
    var s' := Apply(s, SendReply);
    var c := s.reader.call;
    forall d | 0 <= d < |s'.calls| ensures CallOk(s', d) {
      assert CallOk(s, d);
      SameSuperseded(s, s', d);
      hide Superseded;
    }
    forall id | id in s'.waiters ensures Unsent(s', s'.waiters[id]) && s'.calls[s'.waiters[id]].id == id {
      assert Unsent(s, s.waiters[id]) && s.calls[s.waiters[id]].id == id;
    }
  }

  /** Steps that touch neither the calls nor the waiters. */
  lemma SameCalls(s: State, s': State)
    requires RepliesOk(s)
    requires s'.calls == s.calls && s'.waiters == s.waiters && s'.sends == s.sends && s'.registers == s.registers
    requires s.arrived <= s'.arrived
    requires s.reader.Replying? || s'.reader.Replying? ==> s.reader == s'.reader
    requires s'.reader.Holding? ==> s'.reader.m in s'.arrived
    ensures RepliesOk(s')
  {
    forall d | 0 <= d < |s'.calls| ensures CallOk(s', d) {
      assert CallOk(s, d);
      SameSuperseded(s, s', d);
      hide Superseded;
    }
  }

  lemma OtherKeeps(s: State, t: Step)
    requires RepliesOk(s) && Enabled(s, t)
    requires t.CallAsync? || t.RegisterChannel? || t.HandlerTakes? || t.HandlerDrops?
      || (IsReaderStep(t) && !t.LookUpWaiter? && !t.SendReply?)
    ensures RepliesOk(Apply(s, t))
  {
    SameCalls(s, Apply(s, t));
    hide RepliesOk;
  }

  lemma StepKeepsReplies(s: State, t: Step)
    requires RepliesOk(s) && Enabled(s, t)
    ensures RepliesOk(Apply(s, t))
  {
    hide RepliesOk, Enabled, Apply;
    match t
    case Alloc => AllocKeeps(s);
    case Register(c) => RegisterKeeps(s, c);
    case Write(_) => CallerKeeps(s, t);
    case WriteFails(_) => CallerKeeps(s, t);
    case TakeReply(_) => CallerKeeps(s, t);
    case TimeOut(_) => CallerKeeps(s, t);
    case LookUpWaiter => LookUpWaiterKeeps(s);
    case SendReply => SendReplyKeeps(s);
    case _ => OtherKeeps(s, t);
  }

  /** Every interleaving keeps `RepliesOk`, however many ids were allocated. */
  lemma {:induction false} RunKeepsReplies(steps: seq<Step>)
    requires Run(steps).Some?
    ensures RepliesOk(Run(steps).value)
    decreases |steps|
  {
    hide RepliesOk, Apply, Enabled;
    if steps == [] {
      InitOk();
    } else {
      RunKeepsReplies(steps[..|steps| - 1]);
      StepKeepsReplies(Run(steps[..|steps| - 1]).value, steps[|steps| - 1]);
    }
  }

  lemma InitOk()
    ensures RepliesOk(INIT)
  {}

  /** A caller only ever gets a message that arrived, with its own id and a conversation number above zero. */
  lemma OwnReply(steps: seq<Step>, c: nat)
    requires Run(steps).Some?
    requires var s := Run(steps).value; c < |s.calls| && s.calls[c].phase.Returned?
    ensures var s := Run(steps).value; var m := s.calls[c].phase.reply;
      m.msgId == s.calls[c].id && m.convId > 0 && m in s.arrived
  {
    hide Run, Superseded;
    RunKeepsReplies(steps);
    assert CallOk(Run(steps).value, c);
  }

  /** Each waiter is sent at most one reply, and that send never blocks. */
  lemma SendsOnceNeverBlocks(steps: seq<Step>)
    requires Run(steps).Some?
    ensures var s := Run(steps).value;
      && (forall i, j | 0 <= i < j < |s.sends| :: s.sends[i] != s.sends[j])
      && (s.reader.Replying? ==> Enabled(s, SendReply) && s.reader.call !in s.sends)
  {
    hide Run, Superseded;
    RunKeepsReplies(steps);
    var s := Run(steps).value;
    if s.reader.Replying? {
      assert CallOk(s, s.reader.call);
    }
  }

  /**
   * A registered call whose reply was not sent is in the table exactly if no
   * other call was registered under its id after it and the reader has not
   * taken its sender already.
   */
  lemma InTableExactly(steps: seq<Step>, c: nat)
    requires Run(steps).Some? && Unsent(Run(steps).value, c)
    ensures var s := Run(steps).value;
      Waiting(s, c) <==> !Superseded(s, c) && !InHand(s, c)
  {
    hide Run, Superseded;
    RunKeepsReplies(steps);
    assert CallOk(Run(steps).value, c);
  }

  // ---- replies: which are delivered ----

  function ReaderSteps(steps: seq<Step>): nat {
    if steps == [] then 0
    else ReaderSteps(steps[..|steps| - 1]) + if IsReaderStep(steps[|steps| - 1]) then 1 else 0
  }

  /** How far reply `m` has come on its way to call `c` after `n` steps of the reader. */
  predicate OnItsWay(s: State, c: nat, m: Msg, n: nat) {
    && c < |s.calls|
    && Own(s.calls[c], m)
    && if n == 0 then s.reader == Holding(m) && s.calls[c].phase.Written? && c !in s.sends
       else if n == 1 then s.reader == Replying(m, c) && s.calls[c].phase.Written?
       else
         || (s.calls[c].phase.Written? && s.calls[c].slot == Some(m))
         || s.calls[c].phase == Returned(m)
  }

  /** A written call that no reader step will ever answer. */
  predicate Lost(s: State, c: nat) {
    Unsent(s, c) && s.calls[c].phase.Written? && !Waiting(s, c) && !InHand(s, c)
  }

  /** The reader's look into the table takes the call's sender exactly if the call was not superseded. */
  lemma LookUpFinds(s: State, t: Step, c: nat, m: Msg)
    requires RepliesOk(s) && Enabled(s, t) && IsReaderStep(t) && OnItsWay(s, c, m, 0)
    ensures if Superseded(s, c) then Lost(Apply(s, t), c) else OnItsWay(Apply(s, t), c, m, 1)
  {
    hide Superseded;
    assert CallOk(s, c);
    assert t.LookUpWaiter?;
  }

  lemma ReaderAdvances(s: State, t: Step, c: nat, m: Msg, n: nat)
    requires RepliesOk(s) && Enabled(s, t) && IsReaderStep(t)
    requires OnItsWay(s, c, m, n) && n > 0
    ensures OnItsWay(Apply(s, t), c, m, n + 1)
  {
    hide Superseded;
    assert CallOk(s, c);
  }

  lemma OthersLeaveIt(s: State, t: Step, c: nat, m: Msg, n: nat)
    requires RepliesOk(s) && Enabled(s, t) && !IsReaderStep(t) && t != TimeOut(c)
    requires OnItsWay(s, c, m, n)
    ensures OnItsWay(Apply(s, t), c, m, n)
  {
    hide Ids.Next, Superseded;
    assert CallOk(s, c);
  }

  /** A lost call stays lost. */
  lemma LostStays(s: State, t: Step, c: nat)
    requires RepliesOk(s) && Enabled(s, t) && t != TimeOut(c) && Lost(s, c)
    ensures Lost(Apply(s, t), c)
  {
    hide Ids.Next, Superseded;
    assert CallOk(s, c);
  }

  lemma LostIsNotOnItsWay(s: State, c: nat, m: Msg, n: nat)
    requires RepliesOk(s) && Lost(s, c) && n > 0
    ensures !OnItsWay(s, c, m, n)
  {
    hide Superseded;
    assert CallOk(s, c);
  }

  lemma RunSnoc(steps: seq<Step>, t: Step)
    ensures Run(steps + [t]) ==
      if Run(steps).Some? && Enabled(Run(steps).value, t) then Some(Apply(Run(steps).value, t)) else None
  {
    assert (steps + [t])[..|steps|] == steps;
  }

  /** The steps before the reader's first. */
  function BeforeReader(more: seq<Step>): (front: seq<Step>)
    ensures front <= more
  {
    if more == [] then []
    else
      var front := BeforeReader(more[..|more| - 1]);
      if |front| == |more| - 1 && !IsReaderStep(more[|more| - 1]) then more else front
  }

  lemma {:induction false} BeforeReaderSteps(more: seq<Step>)
    ensures ReaderSteps(more) == 0 <==> BeforeReader(more) == more
    decreases |more|
  {
    hide IsReaderStep;
    if more != [] {
      BeforeReaderSteps(more[..|more| - 1]);
    }
  }

  /**
   * A reply to a written request that the reader holds is delivered exactly if
   * the call is not superseded when the reader looks into the table: then the
   * reader's next two steps put it in the caller's channel, whatever the other
   * threads do meanwhile, unless the caller gives up; otherwise it never gets
   * there.
   */
  lemma {:induction false} ReplyDelivered(steps: seq<Step>, more: seq<Step>, c: nat, m: Msg)
    requires Run(steps).Some? && Run(steps + more).Some?
    requires OnItsWay(Run(steps).value, c, m, 0)
    requires TimeOut(c) !in more
    ensures Run(steps + BeforeReader(more)).Some? && c < |Run(steps + BeforeReader(more)).value.calls|
    ensures OnItsWay(Run(steps + more).value, c, m, ReaderSteps(more))
      <==> ReaderSteps(more) == 0 || !Superseded(Run(steps + BeforeReader(more)).value, c)
    decreases |more|
  {
    DeliveredOrLost(steps, more, c, m);
    RunKeepsReplies(steps + more);
    hide Run, RepliesOk, OnItsWay, Lost, Superseded, ReaderSteps, BeforeReader;
    if ReaderSteps(more) > 0 && Superseded(Run(steps + BeforeReader(more)).value, c) {
      LostIsNotOnItsWay(Run(steps + more).value, c, m, ReaderSteps(more));
    }
  }

  lemma {:induction false} DeliveredOrLost(steps: seq<Step>, more: seq<Step>, c: nat, m: Msg)
    requires Run(steps).Some? && Run(steps + more).Some?
    requires OnItsWay(Run(steps).value, c, m, 0)
    requires TimeOut(c) !in more
    ensures Run(steps + BeforeReader(more)).Some? && c < |Run(steps + BeforeReader(more)).value.calls|
    ensures var s := Run(steps + more).value;
      if ReaderSteps(more) == 0 || !Superseded(Run(steps + BeforeReader(more)).value, c)
      then OnItsWay(s, c, m, ReaderSteps(more)) else Lost(s, c)
    decreases |more|
  {
    hide RepliesOk, Apply, Enabled, OnItsWay, Lost, IsReaderStep, Superseded;
    if more == [] {
      assert steps + more == steps;
      HasCall(Run(steps).value, c, m);
    } else {
      var front, t := more[..|more| - 1], more[|more| - 1];
      assert steps + more == steps + front + [t];
      RunSnoc(steps + front, t);
      hide Run;
      var before := Run(steps + front).value;
      DeliveredOrLost(steps, front, c, m);
      RunKeepsReplies(steps + front);
      BeforeReaderSteps(front);
      DeliveryStep(before, t, c, m, ReaderSteps(front), Superseded(Run(steps + BeforeReader(front)).value, c));
      BeforeReaderSteps(more);
      if ReaderSteps(more) == 0 {
        HasCall(Apply(before, t), c, m);
      }
    }
  }

  lemma HasCall(s: State, c: nat, m: Msg)
    requires OnItsWay(s, c, m, 0)
    ensures c < |s.calls|
  {}

  lemma DeliveryStep(s: State, t: Step, c: nat, m: Msg, n: nat, superseded: bool)
    requires RepliesOk(s) && Enabled(s, t) && t != TimeOut(c)
    requires n == 0 ==> c < |s.calls| && superseded == Superseded(s, c)
    requires if n == 0 || !superseded then OnItsWay(s, c, m, n) else Lost(s, c)
    ensures var n' := if IsReaderStep(t) then n + 1 else n;
      if n' == 0 || !superseded then OnItsWay(Apply(s, t), c, m, n')
      else Lost(Apply(s, t), c)
  {
    hide RepliesOk, Enabled, Apply, OnItsWay, Lost, Superseded, IsReaderStep;
    if n > 0 && superseded {
      LostStays(s, t, c);
    } else if !IsReaderStep(t) {
      OthersLeaveIt(s, t, c, m, n);
    } else if n == 0 {
      LookUpFinds(s, t, c, m);
    } else {
      ReaderAdvances(s, t, c, m, n);
    }
  }

  // ---- no call is superseded before ids have run once around ----

  /** Ids come from the allocator, in the order of the calls. */
  predicate IdsOk(s: State) {
    && s.nextId == Ids.Allocation(5, s.allocs)
    && (forall c | 0 <= c < |s.calls| ::
      s.calls[c].serial < s.allocs && s.calls[c].id == Ids.Allocation(5, s.calls[c].serial))
    && (forall c, d | 0 <= c < d < |s.calls| :: s.calls[c].serial < s.calls[d].serial)
  }

  lemma StepKeepsIds(s: State, t: Step)
    requires IdsOk(s) && Enabled(s, t)
    ensures IdsOk(Apply(s, t))
  {
    hide Ids.Next;
    var s' := Apply(s, t);
    assert s'.nextId == Ids.Allocation(FIRST_ID, s'.allocs);
    hide Ids.Allocation;
    assert forall c | 0 <= c < |s.calls| :: s'.calls[c].serial == s.calls[c].serial && s'.calls[c].id == s.calls[c].id;
  }

  lemma {:induction false} RunKeepsIds(steps: seq<Step>)
    requires Run(steps).Some?
    ensures IdsOk(Run(steps).value)
    decreases |steps|
  {
    hide Apply, Enabled, IdsOk;
    if steps == [] {
      InitIdsOk();
    } else {
      RunKeepsIds(steps[..|steps| - 1]);
      StepKeepsIds(Run(steps[..|steps| - 1]).value, steps[|steps| - 1]);
    }
  }

  lemma InitIdsOk()
    ensures IdsOk(INIT)
  {}

  lemma IdsDistinct(s: State, c: nat, d: nat)
    requires IdsOk(s) && s.allocs <= Ids.PERIOD && c < d < |s.calls|
    ensures s.calls[c].id != s.calls[d].id
  {
    hide Ids.Allocation;
    Ids.RepeatsAtPeriod(FIRST_ID, s.calls[c].serial, s.calls[d].serial);
  }

  /** With at most 2^32 - 1 allocations all ids differ, so no call is superseded. */
  lemma NeverSuperseded(steps: seq<Step>, c: nat)
    requires Run(steps).Some? && Run(steps).value.allocs <= Ids.PERIOD && c < |Run(steps).value.calls|
    ensures !Superseded(Run(steps).value, c)
  {
    RunKeepsIds(steps);
    hide Run, IdsOk;
    var s := Run(steps).value;
    forall d | 0 <= d < |s.calls| ensures !Supersedes(s.calls[d], s.calls[c]) {
      if c < d {
        IdsDistinct(s, c, d);
      } else if d < c {
        IdsDistinct(s, d, c);
      }
    }
  }

  lemma AllocsGrow(s: State, t: Step)
    requires Enabled(s, t)
    ensures s.allocs <= Apply(s, t).allocs
  {}

  lemma {:induction false} PrefixAllocs(steps: seq<Step>, n: nat)
    requires n <= |steps| && Run(steps).Some?
    ensures Run(steps[..n]).Some? && Run(steps[..n]).value.allocs <= Run(steps).value.allocs
    decreases |steps|
  {
    hide Apply, Enabled;
    if n == |steps| {
      assert steps[..n] == steps;
    } else {
      AllocsGrow(Run(steps[..|steps| - 1]).value, steps[|steps| - 1]);
      assert steps[..|steps| - 1][..n] == steps[..n];
      PrefixAllocs(steps[..|steps| - 1], n);
    }
  }

  /** So until ids have run once around no reply to a written request is lost. */
  lemma DeliveredWithinPeriod(steps: seq<Step>, more: seq<Step>, c: nat, m: Msg)
    requires Run(steps).Some? && Run(steps + more).Some? && Run(steps + more).value.allocs <= Ids.PERIOD
    requires OnItsWay(Run(steps).value, c, m, 0)
    requires TimeOut(c) !in more
    ensures OnItsWay(Run(steps + more).value, c, m, ReaderSteps(more))
  {
    hide Run, OnItsWay, Superseded, ReaderSteps, BeforeReader;
    ReplyDelivered(steps, more, c, m);
    var front := BeforeReader(more);
    assert (steps + more)[..|steps + front|] == steps + front;
    PrefixAllocs(steps + more, |steps + front|);
    NeverSuperseded(steps + front, c);
  }

  function Asyncs(n: nat): seq<Step> {
    if n == 0 then [] else Asyncs(n - 1) + [CallAsync]
  }

  lemma {:induction false} ManyAsync(steps: seq<Step>, n: nat)
    requires Run(steps).Some?
    requires Run(steps).value.nextId == Ids.Allocation(FIRST_ID, Run(steps).value.allocs)
    ensures var s := Run(steps).value;
      Run(steps + Asyncs(n)) == Some(s.(nextId := Ids.Allocation(FIRST_ID, s.allocs + n), allocs := s.allocs + n))
    decreases n
  {
    hide Run, Ids.Next;
    if n == 0 {
      assert steps + Asyncs(n) == steps;
    } else {
      ManyAsync(steps, n - 1);
      assert steps + Asyncs(n) == steps + Asyncs(n - 1) + [CallAsync];
      RunSnoc(steps + Asyncs(n - 1), CallAsync);
    }
  }

  /** A first call, written and waiting. */
  lemma FirstCall() returns (steps: seq<Step>)
    ensures Run(steps) == Some(INIT.(
      nextId := Ids.Allocation(FIRST_ID, 1), allocs := 1, registers := 1,
      calls := [Call(0, FIRST_ID, Written, None, 0)], waiters := map[FIRST_ID := 0]))
  {
    hide Ids.Next;
    assert Ids.Allocation(FIRST_ID, 1) == Ids.Next(Ids.Allocation(FIRST_ID, 0)) == Ids.Next(FIRST_ID);
    var a, b := [Alloc], [Alloc, Register(0)];
    assert a == [] + [Alloc] && b == a + [Register(0)];
    steps := b + [Write(0)];
    RunSnoc([], Alloc);
    RunSnoc(a, Register(0));
    RunSnoc(b, Write(0));
    assert Run([]) == Some(INIT);
    hide Run, Ids.Allocation;
    var s1 := Run(a).value;
    assert s1 == INIT.(nextId := Ids.Next(FIRST_ID), allocs := 1, calls := [Call(0, FIRST_ID, Allocated, None, 0)]);
    var s2 := Run(b).value;
    assert s2 == s1.(registers := 1, calls := [Call(0, FIRST_ID, Registered, None, 0)], waiters := map[FIRST_ID := 0]);
    assert Run(steps).value == s2.(calls := [Call(0, FIRST_ID, Written, None, 0)]);
  }

  /** With one allocation more a pending call can be superseded, and then no longer is in the table. */
  lemma WaiterReplaced() returns (steps: seq<Step>)
    ensures Run(steps).Some?
    ensures var s := Run(steps).value;
      && s.allocs == Ids.PERIOD + 1 && |s.calls| == 2
      && s.calls[0].phase == Written && s.calls[0].id == s.calls[1].id && 0 !in s.sends
      && s.waiters == map[s.calls[0].id := 1] && Superseded(s, 0)
  {
    hide Run, Ids.Next;
    var first := FirstCall();
    var n := Ids.PERIOD - 1;
    ManyAsync(first, n);
    Ids.RepeatsAtPeriod(FIRST_ID, 0, Ids.PERIOD);
    assert Ids.Allocation(FIRST_ID, 0) == FIRST_ID;
    hide Ids.Allocation, Asyncs;
    var d := first + Asyncs(n);
    var e := d + [Alloc];
    steps := e + [Register(1)];
    RunSnoc(d, Alloc);
    RunSnoc(e, Register(1));
    var s := Run(d).value;
    assert s.nextId == FIRST_ID && s.allocs == Ids.PERIOD;
    assert Run(e).value.calls == [Call(0, FIRST_ID, Written, None, 0), Call(Ids.PERIOD, FIRST_ID, Allocated, None, 0)];
  }

  // ---- invocations ----

  predicate Invocation(m: Msg) {
    m.convId == 0 && m.msgType != 0
  }

  function Invocations(ms: seq<Msg>): seq<Msg> {
    if ms == [] then []
    else Invocations(ms[..|ms| - 1]) + if Invocation(ms[|ms| - 1]) then [ms[|ms| - 1]] else []
  }

  function Judged(log: seq<Verdict>): seq<Msg> {
    if log == [] then [] else Judged(log[..|log| - 1]) + [log[|log| - 1].m]
  }

  /** The invocation the reader is working on. */
  function Underway(r: Reader): seq<Msg> {
    match r
    case Holding(m) => if Invocation(m) then [m] else []
    case Checked(m, _) => [m]
    case Dispatching(m, _, _) => [m]
    case Offering(m, _, _, _) => [m]
    case _ => []
  }

  predicate VerdictOk(v: Verdict) {
    && Invocation(v.m)
    && (v.acked <==> v.m.expectsReply && v.m.channel !in v.atCheck)
    && (v.offer.NoHandler? <==> v.m.channel !in v.atDispatch)
    && v.atCheck <= v.atDispatch
  }

  predicate DispatchOk(s: State) {
    && Invocations(s.arrived) == Judged(s.log) + Underway(s.reader)
    && (forall i | 0 <= i < |s.log| :: VerdictOk(s.log[i]) && s.log[i].atDispatch <= s.dispatchers.Keys)
    && (forall ch | ch in s.dispatchers :: s.dispatchers[ch] < |s.queues|)
    && match s.reader
       case Checked(m, at) => Invocation(m) && at <= s.dispatchers.Keys
       case Dispatching(m, at, acked) =>
         && Invocation(m) && at <= s.dispatchers.Keys
         && (acked <==> m.expectsReply && m.channel !in at)
       case Offering(m, at, acked, q) =>
         && Invocation(m) && at <= s.dispatchers.Keys && m.channel in s.dispatchers && q < |s.queues|
         && (acked <==> m.expectsReply && m.channel !in at)
       case _ => true
  }

  lemma JudgedSnoc(log: seq<Verdict>, v: Verdict)
    ensures Judged(log + [v]) == Judged(log) + [v.m]
  {
    assert (log + [v])[..|log|] == log;
  }

  /** The verdict that sending to a handler ends in. */
  function SendVerdict(s: State): (v: Verdict)
    requires Enabled(s, SendToHandler)
    ensures Apply(s, SendToHandler).log == s.log + [v]
  {
    var q := s.reader.queue;
    Verdict(s.reader.m, s.reader.acked, if s.queues[q].alive then Put(q) else Gone(q),
            s.reader.atCheck, s.dispatchers.Keys)
  }

  lemma InvocationsSnoc(ms: seq<Msg>, m: Msg)
    ensures Invocations(ms + [m]) == Invocations(ms) + if Invocation(m) then [m] else []
  {
    assert (ms + [m])[..|ms|] == ms;
  }

  lemma StepKeepsDispatch(s: State, t: Step)
    requires DispatchOk(s) && Enabled(s, t)
    ensures DispatchOk(Apply(s, t))
  {
    hide Invocations, Judged, Ids.Next;
    match t
    case Read(m) => InvocationsSnoc(s.arrived, m);
    case LookUpHandler =>
      if s.reader.m.channel !in s.dispatchers {
        var v := Verdict(s.reader.m, s.reader.acked, NoHandler, s.reader.atCheck, s.dispatchers.Keys);
        JudgedSnoc(s.log, v);
      }
    case SendToHandler =>
      JudgedSnoc(s.log, SendVerdict(s));
    case _ =>
  }

  lemma {:induction false} RunKeepsDispatch(steps: seq<Step>)
    requires Run(steps).Some?
    ensures DispatchOk(Run(steps).value)
    decreases |steps|
  {
    hide DispatchOk, Apply, Enabled;
    if steps == [] {
      InitDispatchOk();
    } else {
      RunKeepsDispatch(steps[..|steps| - 1]);
      StepKeepsDispatch(Run(steps[..|steps| - 1]).value, steps[|steps| - 1]);
    }
  }

  lemma InitDispatchOk()
    ensures DispatchOk(INIT)
  {}

  // ---- what handlers receive ----

  /** The messages that were put into a queue. */
  function PutInto(log: seq<Verdict>, q: nat): seq<Msg> {
    if log == [] then []
    else
      var last := log[|log| - 1];
      PutInto(log[..|log| - 1], q) + if last.offer == Put(q) then [last.m] else []
  }

  lemma PutSnoc(log: seq<Verdict>, v: Verdict, q: nat)
    ensures PutInto(log + [v], q) == PutInto(log, q) + if v.offer == Put(q) then [v.m] else []
  {
    assert (log + [v])[..|log|] == log;
  }

  /** What was put into a queue was received, is queued or was dropped with the receiver, in this order. */
  predicate QueueOk(k: Queue, put: seq<Msg>) {
    && k.taken + k.items + k.dropped == put
    && (k.alive ==> k.dropped == [])
    && (!k.alive ==> k.items == [])
    && |k.items| <= QUEUE_CAPACITY
  }

  predicate OfferOk(v: Verdict, queues: seq<Queue>) {
    match v.offer
    case NoHandler => true
    case Gone(q) => q < |queues| && queues[q].channel == v.m.channel && !queues[q].alive
    case Put(q) => q < |queues| && queues[q].channel == v.m.channel
  }

  predicate QueuesOk(s: State) {
    && (forall q | 0 <= q < |s.queues| :: QueueOk(s.queues[q], PutInto(s.log, q)))
    && (forall i | 0 <= i < |s.log| :: OfferOk(s.log[i], s.queues))
    && (forall ch | ch in s.dispatchers ::
      s.dispatchers[ch] < |s.queues| && s.queues[s.dispatchers[ch]].channel == ch)
    && (s.reader.Offering? ==>
      s.reader.queue < |s.queues| && s.queues[s.reader.queue].channel == s.reader.m.channel)
  }

  lemma {:induction false} PutNothing(log: seq<Verdict>, queues: seq<Queue>, q: nat)
    requires q >= |queues| && forall i | 0 <= i < |log| :: OfferOk(log[i], queues)
    ensures PutInto(log, q) == []
  {
    if log != [] {
      PutNothing(log[..|log| - 1], queues, q);
    }
  }

  /** Verdicts stay right as queues are added and receivers dropped. */
  lemma OffersStay(log: seq<Verdict>, queues: seq<Queue>, queues': seq<Queue>)
    requires forall i | 0 <= i < |log| :: OfferOk(log[i], queues)
    requires |queues| <= |queues'|
    requires forall q | 0 <= q < |queues| ::
      queues'[q].channel == queues[q].channel && (queues'[q].alive ==> queues[q].alive)
    ensures forall i | 0 <= i < |log| :: OfferOk(log[i], queues')
  {
    forall i | 0 <= i < |log| ensures OfferOk(log[i], queues') {
      assert OfferOk(log[i], queues);
    }
  }

  lemma RegisterKeepsQueues(s: State, t: Step)
    requires QueuesOk(s) && Enabled(s, t) && t.RegisterChannel?
    ensures QueuesOk(Apply(s, t))
  {
    hide PutInto, OfferOk;
    var s' := Apply(s, t);
    PutNothing(s.log, s.queues, |s.queues|);
    OffersStay(s.log, s.queues, s'.queues);
  }

  lemma HandlerKeepsQueues(s: State, t: Step)
    requires QueuesOk(s) && Enabled(s, t) && (t.HandlerTakes? || t.HandlerDrops?)
    ensures QueuesOk(Apply(s, t))
  {
    hide PutInto, OfferOk;
    var s' := Apply(s, t);
    var k := s.queues[t.queue];
    if t.HandlerTakes? {
      assert [k.items[0]] + k.items[1..] == k.items;
      Regrouped(k.taken, [k.items[0]], k.items[1..]);
    }
    assert QueueOk(k, PutInto(s.log, t.queue));
    assert QueueOk(s'.queues[t.queue], PutInto(s.log, t.queue));
    hide QueueOk;
    OffersStay(s.log, s.queues, s'.queues);
  }

  lemma Regrouped(a: seq<Msg>, b: seq<Msg>, c: seq<Msg>)
    ensures a + b + c == a + (b + c)
  {}

  lemma VerdictKeepsQueues(s: State, t: Step)
    requires QueuesOk(s) && Enabled(s, t) && (t.LookUpHandler? || t.SendToHandler?)
    ensures QueuesOk(Apply(s, t))
  {
    hide PutInto;
    var s' := Apply(s, t);
    forall q: nat {
      PutSnoc(s.log, if t.SendToHandler? then SendVerdict(s) else
        Verdict(s.reader.m, s.reader.acked, NoHandler, s.reader.atCheck, s.dispatchers.Keys), q);
    }
    forall i | 0 <= i < |s'.log| ensures OfferOk(s'.log[i], s'.queues) {
      assert i < |s.log| ==> OfferOk(s.log[i], s.queues);
    }
  }

  lemma StepKeepsQueues(s: State, t: Step)
    requires QueuesOk(s) && Enabled(s, t)
    ensures QueuesOk(Apply(s, t))
  {
    hide PutInto, QueueOk, OfferOk, Ids.Next;
    if t.RegisterChannel? {
      RegisterKeepsQueues(s, t);
    } else if t.HandlerTakes? || t.HandlerDrops? {
      HandlerKeepsQueues(s, t);
    } else if t.LookUpHandler? || t.SendToHandler? {
      VerdictKeepsQueues(s, t);
    }
  }

  lemma {:induction false} RunKeepsQueues(steps: seq<Step>)
    requires Run(steps).Some?
    ensures QueuesOk(Run(steps).value)
    decreases |steps|
  {
    hide QueuesOk, Apply, Enabled;
    if steps == [] {
      InitQueuesOk();
    } else {
      RunKeepsQueues(steps[..|steps| - 1]);
      StepKeepsQueues(Run(steps[..|steps| - 1]).value, steps[|steps| - 1]);
    }
  }

  lemma InitQueuesOk()
    ensures QueuesOk(INIT)
  {}

  /**
   * Under every interleaving: what a handler received, what waits for it and what
   * it dropped with its receiver are, in this order, what was put into its queue,
   * all of its channel. Only a queue whose receiver is gone gets nothing.
   */
  lemma HandlersReceive(steps: seq<Step>)
    requires Run(steps).Some?
    ensures var s := Run(steps).value;
      && (forall q | 0 <= q < |s.queues| ::
        var k := s.queues[q];
        && k.taken + k.items + k.dropped == PutInto(s.log, q)
        && (k.alive ==> k.dropped == [])
        && forall m | m in PutInto(s.log, q) :: m.channel == k.channel)
      && forall i | 0 <= i < |s.log| && s.log[i].offer.Gone? ::
        s.log[i].offer.queue < |s.queues| && !s.queues[s.log[i].offer.queue].alive
  {
    hide Run, PutInto;
    RunKeepsQueues(steps);
    var s := Run(steps).value;
    forall q, m | 0 <= q < |s.queues| && m in PutInto(s.log, q) ensures m.channel == s.queues[q].channel {
      PutOfChannel(s.log, s.queues, q, m);
    }
    forall i | 0 <= i < |s.log| ensures OfferOk(s.log[i], s.queues) {}
  }

  lemma {:induction false} PutOfChannel(log: seq<Verdict>, queues: seq<Queue>, q: nat, m: Msg)
    requires q < |queues| && m in PutInto(log, q) && forall i | 0 <= i < |log| :: OfferOk(log[i], queues)
    ensures m.channel == queues[q].channel
  {
    var last := log[|log| - 1];
    if !(last.offer == Put(q) && last.m == m) {
      PutOfChannel(log[..|log| - 1], queues, q, m);
    }
  }

  /** The reader waits, other than for input, exactly while a live handler's queue is full. */
  lemma BlocksOnlyOnFullQueue(steps: seq<Step>)
    requires Run(steps).Some? && !Run(steps).value.reader.Stopped?
    ensures var s := Run(steps).value;
      (exists t :: IsReaderStep(t) && Enabled(s, t)) <==>
      !(&& s.reader.Offering? && s.reader.queue < |s.queues| && s.queues[s.reader.queue].alive
        && |s.queues[s.reader.queue].items| >= 32)
  {
    hide Run, Invocations, Judged, RepliesOk;
    RunKeepsDispatch(steps);
    SendsOnceNeverBlocks(steps);
    var s := Run(steps).value;
    var t := match s.reader
      case Reading => Fail
      case Holding(m) => if m.convId > 0 then LookUpWaiter else if m.msgType == Dtx.ACK then DropAck else CheckHandler
      case Replying(_, _) => SendReply
      case Checked(_, _) => AutoAck
      case Dispatching(_, _, _) => LookUpHandler
      case Offering(_, _, _, _) => SendToHandler
      case Stopped => Fail;
    assert IsReaderStep(t);
    if !(s.reader.Offering? && s.queues[s.reader.queue].alive
        && |s.queues[s.reader.queue].items| >= QUEUE_CAPACITY) {
      assert Enabled(s, t);
    }
  }
}
