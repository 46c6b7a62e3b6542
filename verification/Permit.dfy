/** The provisioning permit of `src/gateway.c`: a binary semaphore that travels from the gateway
    thread through a delayed timeout, the request queue and a Bluetooth callback. Each step below
    is what one context does between two points where another may run. */
module Permit {
  import opened Util

  datatype Item = Request(uuid: Uuid) | TimeoutReply | Other

  /** Where the gateway thread is: outside a provisioning request, blocked in `k_sem_take`, or
      holding the permit up to the point where it is passed on or given back. */
  datatype Thread =
    | Idle
    | Waiting(uuid: Uuid)
    | Provisioning(uuid: Uuid)
    | Started(uuid: Uuid)
    | Recorded(uuid: Uuid)
    | Reporting(uuid: Uuid)

  /** The node-added callback: idle, past the comparison, past the cancellation. */
  datatype Callback = Quiet | Matched(uuid: Uuid) | Cancelled(uuid: Uuid)

  /** What an observer sees: permits obtained and results reported. */
  datatype Entry = Took(uuid: Uuid) | Result(uuid: Uuid)

  datatype State = State(
    sem: nat, thread: Thread, fifo: seq<Item>, provUuid: Uuid,
    pending: bool, running: bool, callback: Callback, log: seq<Entry>)

  datatype Event =
    | Post(uuid: Uuid) | PostOther        // a cloud request is queued
    | Dequeue | DequeueBad                // the thread takes an item; its arguments may not parse
    | Take | TakeTimesOut
    | OpFails | OpSucceeds | Record | Reschedule
    | Report
    | Expire | QueueReply | NoMemory      // the timeout work item
    | NodeAdded(uuid: Uuid) | Cancel | GiveBack

  function Init(): State {
    State(1, Idle, [], 0, false, false, Quiet, [])
  }

  /** `k_sem_give` on a semaphore with limit 1. */
  function Give(sem: nat): nat {
    if sem < 1 then sem + 1 else sem
  }

  predicate Enabled(s: State, e: Event) {
    match e
    case Post(_) | PostOther => true
    case Dequeue => s.thread.Idle? && s.fifo != []
    case DequeueBad => s.thread.Idle? && s.fifo != [] && s.fifo[0].Request?
    case Take => s.thread.Waiting? && s.sem > 0
    case TakeTimesOut => s.thread.Waiting? && s.sem == 0
    case OpFails | OpSucceeds => s.thread.Provisioning?
    case Record => s.thread.Started?
    case Reschedule => s.thread.Recorded?
    case Report => s.thread.Reporting?
    case Expire => s.pending && !s.running
    case QueueReply | NoMemory => s.running
    case NodeAdded(_) => s.callback.Quiet?
    case Cancel => s.callback.Matched?
    case GiveBack => s.callback.Cancelled?
  }

  function Step(s: State, e: Event): State
    requires Enabled(s, e)
  {
    match e
    case Post(u) => s.(fifo := s.fifo + [Request(u)])
    case PostOther => s.(fifo := s.fifo + [Other])
    case Dequeue =>
      s.(fifo := s.fifo[1..],
         thread := match s.fifo[0]
                   case Request(u) => Waiting(u)
                   case TimeoutReply => Reporting(s.provUuid)
                   case Other => Idle)
    case DequeueBad => s.(fifo := s.fifo[1..])
    case Take => s.(sem := s.sem - 1, thread := Provisioning(s.thread.uuid), log := s.log + [Took(s.thread.uuid)])
    case TakeTimesOut => s.(thread := Reporting(s.thread.uuid))
    case OpFails => s.(thread := Reporting(s.thread.uuid))
    case OpSucceeds => s.(thread := Started(s.thread.uuid))
    case Record => s.(thread := Recorded(s.thread.uuid), provUuid := s.thread.uuid)
    case Reschedule => s.(thread := Idle, pending := true)
    case Report => s.(sem := Give(s.sem), thread := Idle, log := s.log + [Result(s.thread.uuid)])
    case Expire => s.(pending := false, running := true)
    case QueueReply => s.(running := false, fifo := s.fifo + [TimeoutReply])
    case NoMemory => s.(running := false, sem := Give(s.sem))
    case NodeAdded(u) => if u == s.provUuid then s.(callback := Matched(u)) else s
    case Cancel => s.(pending := false, callback := Cancelled(s.callback.uuid))
    case GiveBack => s.(sem := Give(s.sem), callback := Quiet, log := s.log + [Result(s.callback.uuid)])
  }

  predicate Runs(s: State, es: seq<Event>)
    decreases |es|
  {
    es == [] || (Enabled(s, es[0]) && Runs(Step(s, es[0]), es[1..]))
  }

  function Run(s: State, es: seq<Event>): State
    requires Runs(s, es)
    decreases |es|
  {
    if es == [] then s else Run(Step(s, es[0]), es[1..])
  }

  // ---------------------------------------------------------------- the permit is never lost

  predicate Holds(t: Thread) {
    t.Provisioning? || t.Started? || t.Recorded? || t.Reporting?
  }

  /** Somebody is on the way to giving the permit back. */
  predicate Outstanding(s: State) {
    Holds(s.thread) || s.pending || s.running || TimeoutReply in s.fifo || s.callback.Cancelled?
  }

  predicate Inv(s: State) {
    s.sem <= 1 && (s.sem == 0 ==> Outstanding(s))
  }

  lemma StepKeepsInv(s: State, e: Event)
    requires Inv(s) && Enabled(s, e)
    ensures Inv(Step(s, e))
  {
  }

  /** In every interleaving the semaphore stays binary, and while the permit is taken some
      releaser is outstanding. */
  lemma {:induction false} PermitIsNeverLost(s: State, es: seq<Event>)
    requires Inv(s) && Runs(s, es)
    ensures Inv(Run(s, es))
    decreases |es|
  {
    if es != [] {
      StepKeepsInv(s, es[0]);
      PermitIsNeverLost(Step(s, es[0]), es[1..]);
    }
  }

  /** Steps the system takes by itself, with memory available. */
  predicate Internal(e: Event) {
    !e.Post? && !e.PostOther? && !e.NodeAdded? && !e.NoMemory?
  }

  predicate AllInternal(es: seq<Event>) {
    forall i | 0 <= i < |es| :: Internal(es[i])
  }

  /** `es` is a way back to a free permit. */
  predicate Frees(s: State, es: seq<Event>) {
    AllInternal(es) && Runs(s, es) && Run(s, es).sem == 1
  }

  lemma Prefix(s: State, e: Event, es: seq<Event>)
    requires Internal(e) && Enabled(s, e) && Frees(Step(s, e), es)
    ensures Frees(s, [e] + es)
  {
  }

  lemma HolderFrees(s: State, e: Event)
    requires Internal(e) && Enabled(s, e) && s.sem <= 1 && Step(s, e).thread.Reporting? && Step(s, e).sem <= 1
    ensures Frees(s, [e, Report])
  {
    var r := Step(s, e);
    assert Frees(Step(r, Report), []);
    Prefix(r, Report, []);
    Prefix(s, e, [Report]);
    assert [e] + ([Report] + []) == [e, Report];
  }

  lemma {:induction false} QueueFrees(s: State) returns (es: seq<Event>)
    requires Inv(s) && s.sem == 0 && s.thread.Idle? && TimeoutReply in s.fifo
    ensures Frees(s, es) && |es| <= |s.fifo| + 2
    decreases |s.fifo|
  {
    var r := Step(s, Dequeue);
    assert s.fifo == [s.fifo[0]] + r.fifo;
    match s.fifo[0]
    case Request(_) =>
      HolderFrees(r, TakeTimesOut);
      Prefix(s, Dequeue, [TakeTimesOut, Report]);
      es := [Dequeue] + [TakeTimesOut, Report];
    case TimeoutReply =>
      HolderFrees(s, Dequeue);
      es := [Dequeue, Report];
    case Other =>
      var rest := QueueFrees(r);
      Prefix(s, Dequeue, rest);
      es := [Dequeue] + rest;
  }

  lemma RunningFrees(s: State) returns (es: seq<Event>)
    requires Inv(s) && s.sem == 0 && s.thread.Idle? && s.running
    ensures Frees(s, es) && |es| <= |s.fifo| + 4
  {
    var r := Step(s, QueueReply);
    assert r.fifo[|s.fifo|] == TimeoutReply;
    var rest := QueueFrees(r);
    Prefix(s, QueueReply, rest);
    es := [QueueReply] + rest;
  }

  lemma PendingFrees(s: State) returns (es: seq<Event>)
    requires Inv(s) && s.sem == 0 && s.thread.Idle? && s.pending
    ensures Frees(s, es) && |es| <= |s.fifo| + 5
  {
    if s.running {
      es := RunningFrees(s);
    } else {
      var rest := RunningFrees(Step(s, Expire));
      Prefix(s, Expire, rest);
      es := [Expire] + rest;
    }
  }

  lemma RecordedFrees(s: State) returns (es: seq<Event>)
    requires Inv(s) && s.sem == 0 && s.thread.Recorded?
    ensures Frees(s, es) && |es| <= |s.fifo| + 6
  {
    var rest := PendingFrees(Step(s, Reschedule));
    Prefix(s, Reschedule, rest);
    es := [Reschedule] + rest;
  }

  lemma CallbackFrees(s: State)
    requires s.sem == 0 && s.callback.Cancelled?
    ensures Frees(s, [GiveBack])
  {
  }

  /** From every state in which the permit is taken, the system can free it by itself, without
      another request, a node, or a failing allocation, in a bounded number of steps. */
  lemma PermitCanBeFreed(s: State) returns (es: seq<Event>)
    requires Inv(s) && s.sem == 0
    ensures Frees(s, es) && |es| <= |s.fifo| + 7
  {
    match s.thread
    case Waiting(_) =>
      HolderFrees(s, TakeTimesOut);
      es := [TakeTimesOut, Report];
    case Provisioning(_) =>
      HolderFrees(s, OpFails);
      es := [OpFails, Report];
    case Reporting(_) =>
      assert Frees(Step(s, Report), []);
      Prefix(s, Report, []);
      es := [Report] + [];
    case Recorded(_) =>
      es := RecordedFrees(s);
    case Started(_) =>
      var rest := RecordedFrees(Step(s, Record));
      Prefix(s, Record, rest);
      es := [Record] + rest;
    case Idle =>
      if s.callback.Cancelled? {
        CallbackFrees(s);
        es := [GiveBack];
      } else if TimeoutReply in s.fifo {
        es := QueueFrees(s);
      } else if s.pending {
        es := PendingFrees(s);
      } else {
        es := RunningFrees(s);
      }
  }

  // ---------------------------------------------------------------- one provisioning at a time

  /** What must hold for the permit to mean anything: no take times out, the timeout finds
      memory, and a cancellation stops a pending timeout of the very request it reports. The code
      ignores the result of `k_work_cancel_delayable`, which tells whether it stopped one. */
  predicate Orderly(s: State, e: Event) {
    && !e.TakeTimesOut? && !e.NoMemory?
    && (e.Cancel? && s.callback.Matched? ==> s.pending && s.callback.uuid == s.provUuid)
  }

  predicate OrderlyRun(s: State, es: seq<Event>)
    requires Runs(s, es)
    decreases |es|
  {
    es == [] || (Orderly(s, es[0]) && OrderlyRun(Step(s, es[0]), es[1..]))
  }

  function Replies(fifo: seq<Item>): nat {
    if fifo == [] then 0 else Bit(fifo[0].TimeoutReply?) + Replies(fifo[1..])
  }

  /** The number of contexts that will give the permit back. */
  function Tokens(s: State): nat {
    Bit(Holds(s.thread)) + Bit(s.pending) + Bit(s.running) + Replies(s.fifo) + Bit(s.callback.Cancelled?)
  }

  /** Whom the outstanding permit was taken for. */
  function Holder(s: State): Uuid {
    if Holds(s.thread) then s.thread.uuid
    else if s.callback.Cancelled? then s.callback.uuid
    else s.provUuid
  }

  /** Permits and results alternate, and each result answers the request before it. */
  predicate Paired(log: seq<Entry>) {
    && (forall i | 0 <= i < |log| && i % 2 == 0 :: log[i].Took?)
    && (forall i | 0 < i < |log| && i % 2 == 1 :: log[i] == Result(log[i - 1].uuid))
  }

  predicate Single(s: State) {
    && s.sem + Tokens(s) == 1
    && Paired(s.log) && |s.log| % 2 == Tokens(s)
    && (Tokens(s) == 1 ==> s.log[|s.log| - 1] == Took(Holder(s)))
    && (s.thread.Recorded? ==> s.thread.uuid == s.provUuid)
  }

  lemma {:induction false} RepliesAppend(fifo: seq<Item>, x: Item)
    ensures Replies(fifo + [x]) == Replies(fifo) + Bit(x.TimeoutReply?)
  {
    if fifo == [] {
      assert [x][1..] == [];
    } else {
      RepliesAppend(fifo[1..], x);
      assert (fifo + [x])[1..] == fifo[1..] + [x];
    }
  }

  lemma PairedAppend(log: seq<Entry>, x: Entry)
    requires Paired(log)
    requires if |log| % 2 == 0 then x.Took? else x == Result(log[|log| - 1].uuid)
    ensures Paired(log + [x])
  {
  }

  /** A step keeps provisioning single exactly when it is an orderly one. */
  lemma StepKeepsSingleIff(s: State, e: Event)
    requires Single(s) && Enabled(s, e)
    ensures Single(Step(s, e)) <==> Orderly(s, e)
  {
    if e.Take? || e.Report? || e.GiveBack? {
      LoggedStepKeepsSingle(s, e);
    } else {
      hide Paired;
      hide Replies;
      match e
      case Post(u) => RepliesAppend(s.fifo, Request(u));
      case PostOther => RepliesAppend(s.fifo, Other);
      case QueueReply => RepliesAppend(s.fifo, TimeoutReply);
      case Dequeue => RepliesHead(s.fifo);
      case _ =>
    }
  }

  lemma RepliesHead(fifo: seq<Item>)
    requires fifo != []
    ensures Replies(fifo) == Replies(fifo[1..]) + Bit(fifo[0].TimeoutReply?)
  {
  }

  lemma LoggedStepKeepsSingle(s: State, e: Event)
    requires Single(s) && Enabled(s, e) && (e.Take? || e.Report? || e.GiveBack?)
    ensures Single(Step(s, e)) && Orderly(s, e)
  {
    hide Paired;
    hide Replies;
    match e
    case Take => PairedAppend(s.log, Took(s.thread.uuid));
    case Report => PairedAppend(s.log, Result(s.thread.uuid));
    case GiveBack => PairedAppend(s.log, Result(s.callback.uuid));
  }

  /** Who comes to hold a permit, and who gives one back, in every state: a take that succeeds or
      times out, and a cancellation that stops nothing, make a holder; a reported result and a
      failed allocation end one; and a timeout that is started anew replaces one. */
  lemma HoldersAreAccounted(s: State, e: Event)
    requires Enabled(s, e)
    ensures Tokens(Step(s, e)) + Bit(e.Report? || e.GiveBack? || e.NoMemory?) + Bit(e.Reschedule? && s.pending) ==
            Tokens(s) + Bit(e.Take? || e.TakeTimesOut?) + Bit(e.Cancel? && !s.pending)
    ensures Step(s, e).sem == if e.Take? then s.sem - 1
                              else if e.Report? || e.GiveBack? || e.NoMemory? then (if s.sem == 0 then 1 else s.sem)
                              else s.sem
  {
    hide Replies;
    match e
    case Post(u) => RepliesAppend(s.fifo, Request(u));
    case PostOther => RepliesAppend(s.fifo, Other);
    case QueueReply => RepliesAppend(s.fifo, TimeoutReply);
    case Dequeue => RepliesHead(s.fifo);
    case DequeueBad => RepliesHead(s.fifo);
    case _ =>
  }

  /** Provisioning is single before, between and after the steps of a run. */
  predicate SingleThroughout(s: State, es: seq<Event>)
    requires Runs(s, es)
    decreases |es|
  {
    Single(s) && (es == [] || SingleThroughout(Step(s, es[0]), es[1..]))
  }

  /** Exactly in orderly runs is at most one provisioning in flight throughout: the semaphore and
      the outstanding releasers always make up one permit, and each request that obtains it ends
      in exactly one result, reported for the device it was taken for, before the next one
      starts. */
  lemma {:induction false} OneProvisioningAtATimeIff(s: State, es: seq<Event>)
    requires Single(s) && Runs(s, es)
    ensures SingleThroughout(s, es) <==> OrderlyRun(s, es)
    ensures OrderlyRun(s, es) ==> Single(Run(s, es))
    decreases |es|
  {
    if es != [] {
      StepKeepsSingleIff(s, es[0]);
      if Orderly(s, es[0]) {
        OneProvisioningAtATimeIff(Step(s, es[0]), es[1..]);
      }
    }
  }

  /** Both hold of the runs of the system from power-on. */
  lemma RunsFromPowerOn(es: seq<Event>)
    requires Runs(Init(), es)
    ensures Inv(Run(Init(), es))
    ensures SingleThroughout(Init(), es) <==> OrderlyRun(Init(), es)
  {
    InitIsSound();
    hide Init;
    hide Inv;
    hide Single;
    hide Runs;
    hide Run;
    hide OrderlyRun;
    hide SingleThroughout;
    PermitIsNeverLost(Init(), es);
    OneProvisioningAtATimeIff(Init(), es);
  }

  lemma InitIsSound()
    ensures Inv(Init()) && Single(Init())
  {
  }

  // ---------------------------------------------------------------- whose node was added

  /** The callback goes on exactly for the device that was recorded last; any other node that joins
      changes nothing. */
  lemma OnlyRecordedDeviceMatches(s: State, u: Uuid)
    requires s.callback.Quiet?
    ensures Step(s, NodeAdded(u)) == if u == s.provUuid then s.(callback := Matched(s.provUuid)) else s
  {
  }

  /** The node-added callback is at work for the recorded device. */
  predicate Matching(s: State) {
    s.callback.Matched? ==> s.callback.uuid == s.provUuid
  }

  predicate MatchingThroughout(s: State, es: seq<Event>)
    requires Runs(s, es)
    decreases |es|
  {
    Matching(s) && (es == [] || MatchingThroughout(Step(s, es[0]), es[1..]))
  }

  /** Another device is recorded between the comparison and the cancellation of the timeout. */
  predicate Overtaken(s: State, es: seq<Event>)
    requires Runs(s, es)
    decreases |es|
  {
    es != [] &&
    ((es[0].Record? && s.callback.Matched? && s.callback.uuid != s.thread.uuid) ||
     Overtaken(Step(s, es[0]), es[1..]))
  }

  /** Throughout a run the callback cancels the timeout of the device it reports, if and only if it
      is never overtaken. */
  lemma {:induction false} CancelsItsOwnIff(s: State, es: seq<Event>)
    requires Runs(s, es) && Matching(s)
    ensures MatchingThroughout(s, es) <==> !Overtaken(s, es)
    decreases |es|
  {
    if es != [] {
      var e, r := es[0], Step(s, es[0]);
      if e.NodeAdded? {
        OnlyRecordedDeviceMatches(s, e.uuid);
      }
      if Matching(r) {
        CancelsItsOwnIff(r, es[1..]);
      } else if es[1..] == [] {
        assert !MatchingThroughout(r, es[1..]);
      }
    }
  }

  // ---------------------------------------------------------------- the order of requests

  /** What an event puts into the queue. */
  function Queued(e: Event): seq<Item> {
    match e
    case Post(u) => [Request(u)]
    case PostOther => [Other]
    case QueueReply => [TimeoutReply]
    case _ => []
  }

  function AllQueued(es: seq<Event>): seq<Item> {
    if es == [] then [] else Queued(es[0]) + AllQueued(es[1..])
  }

  /** What the thread takes out. */
  function Taken(s: State, e: Event): seq<Item>
    requires Enabled(s, e)
  {
    if e.Dequeue? || e.DequeueBad? then [s.fifo[0]] else []
  }

  function AllTaken(s: State, es: seq<Event>): seq<Item>
    requires Runs(s, es)
    decreases |es|
  {
    if es == [] then [] else Taken(s, es[0]) + AllTaken(Step(s, es[0]), es[1..])
  }

  lemma StepIsFifo(s: State, e: Event)
    requires Enabled(s, e)
    ensures s.fifo + Queued(e) == Taken(s, e) + Step(s, e).fifo
  {
  }

  lemma Chained<T>(a: seq<T>, b: seq<T>, later: seq<T>, c: seq<T>, d: seq<T>, taken: seq<T>, left: seq<T>)
    requires a + b == c + d && d + later == taken + left
    ensures a + (b + later) == (c + taken) + left
  {
    assert a + (b + later) == (a + b) + later == c + (d + later);
  }

  /** Nothing gets lost in the queue, and nothing overtakes. */
  lemma {:induction false} QueueIsFifo(s: State, es: seq<Event>)
    requires Runs(s, es)
    ensures s.fifo + AllQueued(es) == AllTaken(s, es) + Run(s, es).fifo
    decreases |es|
  {
    if es != [] {
      var e, r, rest := es[0], Step(s, es[0]), es[1..];
      QueueIsFifo(r, rest);
      StepIsFifo(s, e);
      Chained(s.fifo, Queued(e), AllQueued(rest), Taken(s, e), r.fifo, AllTaken(r, rest), Run(r, rest).fifo);
      hide Step;
      hide Queued;
      hide Taken;
    }
  }

  /** The device of a request the thread begins to serve. */
  function Begun(s: State, e: Event): seq<Uuid>
    requires Enabled(s, e)
  {
    if e.Dequeue? && s.fifo[0].Request? then [s.fifo[0].uuid] else []
  }

  function AllBegun(s: State, es: seq<Event>): seq<Uuid>
    requires Runs(s, es)
    decreases |es|
  {
    if es == [] then [] else Begun(s, es[0]) + AllBegun(Step(s, es[0]), es[1..])
  }

  function Tooks(log: seq<Entry>): seq<Uuid> {
    if log == [] then []
    else Tooks(log[..|log| - 1]) + (if log[|log| - 1].Took? then [log[|log| - 1].uuid] else [])
  }

  /** The devices the permit was taken for, and the one it is awaited for. */
  function Served(s: State): seq<Uuid> {
    Tooks(s.log) + (if s.thread.Waiting? then [s.thread.uuid] else [])
  }

  lemma TooksAppend(log: seq<Entry>, x: Entry)
    ensures Tooks(log + [x]) == Tooks(log) + (if x.Took? then [x.uuid] else [])
  {
    assert (log + [x])[..|log|] == log;
  }

  predicate NoTimeout(es: seq<Event>) {
    forall i | 0 <= i < |es| :: !es[i].TakeTimesOut?
  }

  lemma StepServes(s: State, e: Event)
    requires Enabled(s, e) && !e.TakeTimesOut?
    ensures Served(Step(s, e)) == Served(s) + Begun(s, e)
  {
    hide Tooks;
    match e
    case Take => TooksAppend(s.log, Took(s.thread.uuid));
    case Report => TooksAppend(s.log, Result(s.thread.uuid));
    case GiveBack => TooksAppend(s.log, Result(s.callback.uuid));
    case _ =>
  }

  /** As long as no take times out, the permit is taken exactly once for each request that begins,
      in the order in which they begin. */
  lemma {:induction false} ServedInOrder(s: State, es: seq<Event>)
    requires Runs(s, es) && NoTimeout(es)
    ensures Served(Run(s, es)) == Served(s) + AllBegun(s, es)
    decreases |es|
  {
    if es != [] {
      var e, r, rest := es[0], Step(s, es[0]), es[1..];
      StepServes(s, e);
      assert NoTimeout(rest) by {
        assert forall i | 0 <= i < |rest| :: rest[i] == es[i + 1];
      }
      hide NoTimeout;
      ServedInOrder(r, rest);
      assert Served(s) + (Begun(s, e) + AllBegun(r, rest)) == (Served(s) + Begun(s, e)) + AllBegun(r, rest);
      hide Step;
      hide Served;
      hide Begun;
    }
  }

  // ---------------------------------------------------------------- how it goes wrong

  /** A run in two parts. */
  lemma {:induction false} RunsInParts(s: State, es: seq<Event>, fs: seq<Event>)
    requires Runs(s, es) && Runs(Run(s, es), fs)
    ensures Runs(s, es + fs) && Run(s, es + fs) == Run(Run(s, es), fs)
    decreases |es|
  {
    if es == [] {
      assert es + fs == fs;
    } else {
      RunsInParts(Step(s, es[0]), es[1..], fs);
      assert (es + fs)[1..] == es[1..] + fs;
    }
  }

  lemma RunOne(s: State, e: Event)
    requires Enabled(s, e)
    ensures Runs(s, [e]) && Run(s, [e]) == Step(s, e)
  {
    var es := [e];
    assert es[1..] == [];
    assert Runs(Step(s, e), es[1..]) && Run(Step(s, e), es[1..]) == Step(s, e);
  }

  lemma OneStep(s: State, es: seq<Event>, e: Event)
    requires Runs(s, es) && Enabled(Run(s, es), e)
    ensures Runs(s, es + [e]) && Run(s, es + [e]) == Step(Run(s, es), e)
  {
    RunOne(Run(s, es), e);
    RunsInParts(s, es, [e]);
  }

  /** A request arrives at an idle gateway, gets the permit and is handed over to the timeout. */
  lemma RequestIsUnderWay(s: State, u: Uuid) returns (es: seq<Event>)
    requires s.thread.Idle? && s.fifo == [] && s.sem == 1
    ensures Runs(s, es)
    ensures Run(s, es) == s.(sem := 0, provUuid := u, pending := true, log := s.log + [Took(u)])
  {
    es := [];
    OneStep(s, es, Post(u));
    es := es + [Post(u)];
    OneStep(s, es, Dequeue);
    es := es + [Dequeue];
    OneStep(s, es, Take);
    es := es + [Take];
    OneStep(s, es, OpSucceeds);
    es := es + [OpSucceeds];
    OneStep(s, es, Record);
    es := es + [Record];
    OneStep(s, es, Reschedule);
    es := es + [Reschedule];
  }

  /** A request whose node is added in time. */
  lemma RequestSucceeds(s: State, u: Uuid) returns (es: seq<Event>)
    requires s.thread.Idle? && s.fifo == [] && s.sem == 1 && s.callback.Quiet?
    ensures Runs(s, es)
    ensures Run(s, es) == s.(sem := 1, provUuid := u, pending := false, log := s.log + [Took(u), Result(u)])
  {
    es := RequestIsUnderWay(s, u);
    hide Runs;
    hide Run;
    OneStep(s, es, NodeAdded(u));
    es := es + [NodeAdded(u)];
    OneStep(s, es, Cancel);
    es := es + [Cancel];
    OneStep(s, es, GiveBack);
    es := es + [GiveBack];
  }

  /** A second request arrives meanwhile and the thread blocks on it. */
  lemma NextRequestWaits(s: State, u: Uuid) returns (es: seq<Event>)
    requires s.thread.Idle? && s.fifo == []
    ensures Runs(s, es) && Run(s, es) == s.(thread := Waiting(u))
  {
    es := [];
    OneStep(s, es, Post(u));
    es := es + [Post(u)];
    OneStep(s, es, Dequeue);
    es := es + [Dequeue];
  }

  /** A take that times out reports an error and, with it, gives back a permit it never had:
      afterwards the permit is free although its owner is still outstanding. */
  lemma TimedOutTakeGivesForeignPermit(s: State)
    requires Single(s) && s.thread.Waiting? && s.sem == 0
    ensures Runs(s, [TakeTimesOut, Report])
    ensures var r := Run(s, [TakeTimesOut, Report]); r.sem == 1 && Tokens(r) == 1 && !Single(r)
  {
    OneStep(s, [], TakeTimesOut);
    OneStep(s, [TakeTimesOut], Report);
    assert [] + [TakeTimesOut] == [TakeTimesOut] && [TakeTimesOut] + [Report] == [TakeTimesOut, Report];
  }

  /** Two requests in a row get there. */
  lemma TimedOutTakeIsReached(a: Uuid, b: Uuid) returns (es: seq<Event>)
    ensures Runs(Init(), es)
    ensures var s := Run(Init(), es);
      && Single(s) && s.thread == Waiting(b) && s.sem == 0
      && s == Init().(sem := 0, thread := Waiting(b), provUuid := a, pending := true, log := [Took(a)])
  {
    es := RequestIsUnderWay(Init(), a);
    var s := Run(Init(), es);
    var more := NextRequestWaits(s, b);
    RunsInParts(Init(), es, more);
    es := es + more;
  }

  /** A matching node-added event without a pending timeout (the device of an earlier request
      joins again) gives the permit a second time. */
  lemma StaleNodeAddedGivesForeignPermit(s: State)
    requires Single(s) && s.callback.Quiet? && !s.pending && s.sem == 0
    ensures var es := [NodeAdded(s.provUuid), Cancel, GiveBack];
      Runs(s, es) && Run(s, es).sem == 1 && Tokens(Run(s, es)) == 1 && !Single(Run(s, es))
  {
    var u := s.provUuid;
    OneStep(s, [], NodeAdded(u));
    OneStep(s, [NodeAdded(u)], Cancel);
    OneStep(s, [NodeAdded(u), Cancel], GiveBack);
    assert [] + [NodeAdded(u)] == [NodeAdded(u)];
    assert [NodeAdded(u)] + [Cancel] == [NodeAdded(u), Cancel];
    assert [NodeAdded(u), Cancel] + [GiveBack] == [NodeAdded(u), Cancel, GiveBack];
  }

  /** After one device has joined, the next request gets there as soon as it has the permit. */
  lemma StaleNodeAddedIsReached(a: Uuid, b: Uuid) returns (es: seq<Event>)
    ensures Runs(Init(), es)
    ensures var s := Run(Init(), es);
      Single(s) && s.callback.Quiet? && !s.pending && s.sem == 0 && s.provUuid == a && s.thread == Provisioning(b)
  {
    es := RequestSucceeds(Init(), a);
    var s := Run(Init(), es);
    var more := NextRequestWaits(s, b);
    RunsInParts(Init(), es, more);
    es := es + more;
    OneStep(Init(), es, Take);
    es := es + [Take];
  }

  // ---------------------------------------------------------------- waiting behind one's own reply

  /** The thread waits for a permit that only an item in its own queue can give back. */
  predicate SelfBlocked(s: State) {
    Single(s) && s.thread.Waiting? && s.sem == 0 && TimeoutReply in s.fifo
  }

  lemma {:induction false} ReplyCounts(fifo: seq<Item>)
    requires TimeoutReply in fifo
    ensures Replies(fifo) >= 1
  {
    if !fifo[0].TimeoutReply? {
      ReplyCounts(fifo[1..]);
    }
  }

  /** Once the timeout of one request is queued while the thread is blocked on the next request,
      no orderly run gets that request its permit: it can only end in a timed-out take. */
  lemma {:induction false} SelfBlockedStays(s: State, es: seq<Event>)
    requires SelfBlocked(s) && Runs(s, es) && OrderlyRun(s, es)
    ensures SelfBlocked(Run(s, es)) && Run(s, es).thread == s.thread && Run(s, es).log == s.log
    decreases |es|
  {
    if es != [] {
      var e := es[0];
      StepKeepsSingleIff(s, e);
      ReplyCounts(s.fifo);
      var r := Step(s, e);
      assert TimeoutReply in r.fifo by {
        var i :| 0 <= i < |s.fifo| && s.fifo[i] == TimeoutReply;
        assert r.fifo[i] == TimeoutReply;
      }
      SelfBlockedStays(r, es[1..]);
    }
  }

  /** The second of two requests gets there when the first one times out. */
  lemma SelfBlockedIsReached(a: Uuid, b: Uuid) returns (es: seq<Event>)
    ensures Runs(Init(), es)
    ensures SelfBlocked(Run(Init(), es)) && Run(Init(), es).thread == Waiting(b)
  {
    es := TimedOutTakeIsReached(a, b);
    StepKeepsSingleIff(Run(Init(), es), Expire);
    OneStep(Init(), es, Expire);
    es := es + [Expire];
    StepKeepsSingleIff(Run(Init(), es), QueueReply);
    OneStep(Init(), es, QueueReply);
    es := es + [QueueReply];
  }
}
