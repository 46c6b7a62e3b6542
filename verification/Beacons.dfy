/** The unprovisioned beacon list, its pool of one-shot timers, the deferred removal pass and
    the block list, as one state machine whose events interleave freely. */
module Beacons {
  import opened Util
  import opened SortedTable
  import Counting

  /** A kernel timer. `status` counts expiries since it was last read or started, `userData` is
      the pointer the program uses as an "in use" mark, and `starts` counts the start calls. */
  datatype Timer = Timer(running: bool, status: nat, userData: Option<nat>, starts: nat)

  datatype Info = Info(oob: int, uriHash: int, timer: nat)

  type Beacon = Entry<Info>

  type Blocked = Entry<()>

  /** `pending`: the removal work item is queued; `cursor`: how far a running pass has come. */
  datatype State = State(
    listed: seq<Beacon>, timers: seq<Timer>, blocked: seq<Blocked>, maxBlocked: nat,
    pending: bool, cursor: Option<nat>)

  datatype Event =
    | Recv(uuid: Uuid, oob: int, uriHash: int)
    | Fire(timer: nat)
    | Begin
    | Visit
    | Block(uuid: Uuid)
    | Unblock(uuid: Uuid)

  datatype Code = Ok | Full | AlreadyBlocked | NotBlocked

  // ---------------------------------------------------------------- the invariant

  ghost predicate Owned(listed: seq<Beacon>, t: nat) {
    exists i | 0 <= i < |listed| :: listed[i].info.timer == t
  }

  ghost predicate TimersInPool(s: State) {
    forall i | 0 <= i < |s.listed| :: s.listed[i].info.timer < |s.timers|
  }

  ghost predicate TimersDistinct(listed: seq<Beacon>) {
    forall i, j | 0 <= i < j < |listed| :: listed[i].info.timer != listed[j].info.timer
  }

  ghost predicate MarksMatch(s: State) {
    forall t: nat | t < |s.timers| :: s.timers[t].userData.Some? <==> Owned(s.listed, t)
  }

  ghost predicate TimersOwned(s: State) {
    |s.listed| <= |s.timers| && TimersInPool(s) && TimersDistinct(s.listed) && MarksMatch(s)
  }

  /** A timer in use runs or has expired; a free one does neither. */
  ghost predicate TimerSound(t: Timer) {
    if t.userData.Some? then t.running <==> t.status == 0 else !t.running && t.status == 0
  }

  predicate Expired(s: State, i: nat)
    requires i < |s.listed|
  {
    s.listed[i].info.timer < |s.timers| && s.timers[s.listed[i].info.timer].status > 0
  }

  /** No lost expiry: an expired beacon will still be looked at. */
  ghost predicate NoLostExpiry(s: State) {
    forall i | 0 <= i < |s.listed| && Expired(s, i) ::
      s.pending || (s.cursor.Some? && s.cursor.value <= i)
  }

  ghost predicate TimersSound(s: State) {
    forall t: nat | t < |s.timers| :: TimerSound(s.timers[t])
  }

  ghost predicate BlockListSound(s: State) {
    Sorted(s.blocked) && Printed(s.blocked) && |s.blocked| <= s.maxBlocked
  }

  ghost predicate PassSound(s: State) {
    && (s.cursor.Some? ==> s.cursor.value <= |s.listed|)
    && NoLostExpiry(s)
  }

  ghost predicate Inv(s: State) {
    && Sorted(s.listed) && Printed(s.listed)
    && TimersOwned(s)
    && TimersSound(s)
    && BlockListSound(s)
    && PassSound(s)
  }

  // ---------------------------------------------------------------- the steps

  function Started(t: Timer): Timer {
    t.(running := true, status := 0, starts := t.starts + 1)
  }

  /** The first timer whose user data is NULL, or the size of the pool. */
  function FirstFree(timers: seq<Timer>): (t: nat)
    ensures t <= |timers|
    ensures forall k | 0 <= k < t :: timers[k].userData.Some?
    ensures t < |timers| ==> timers[t].userData.None?
  {
    if timers == [] || timers[0].userData.None? then 0
    else
      var r := FirstFree(timers[1..]);
      assert forall k | 0 < k < r + 1 :: timers[k] == timers[1..][k - 1];
      1 + r
  }

  /** By pigeonhole the scan for a free timer stops inside the pool whenever the list is not
      full, so it needs no bound of its own. */
  lemma FreeTimerExists(s: State)
    requires TimersOwned(s) && |s.listed| < |s.timers|
    ensures FirstFree(s.timers) < |s.timers|
  {
    if FirstFree(s.timers) == |s.timers| {
      var owners := seq(|s.listed|, i requires 0 <= i < |s.listed| => s.listed[i].info.timer);
      forall t: nat | t < |s.timers| ensures t in owners {
        assert s.timers[t].userData.Some?;
        var i :| 0 <= i < |s.listed| && s.listed[i].info.timer == t;
        assert owners[i] == t;
      }
      Counting.Pigeonhole(owners, |s.timers|);
    }
  }

  function Restart(s: State, t: nat): State
    requires t < |s.timers|
  {
    s.(timers := s.timers[t := Started(s.timers[t])])
  }

  function NewBeacon(s: State, u: Uuid, oob: int, uriHash: int, t: nat): State
    requires t < |s.timers|
  {
    var e := Entry(u, UuidText(u), Info(oob, uriHash, t));
    s.(listed := Insert(s.listed, e),
       timers := s.timers[t := Started(s.timers[t].(userData := Some(Position(s.listed, u))))])
  }

  /** `beacon_recv`. The full-table test comes first, so a full table refreshes nothing. */
  function Receive(s: State, u: Uuid, oob: int, uriHash: int): (r: State)
    requires Inv(s)
    ensures |r.timers| == |s.timers| && r.maxBlocked == s.maxBlocked
  {
    if |s.listed| == |s.timers| || Has(s.blocked, u) then s
    else
      var i := Find(s.listed, u);
      if i < |s.listed| then Restart(s, s.listed[i].info.timer)
      else
        FreeTimerExists(s);
        NewBeacon(s, u, oob, uriHash, FirstFree(s.timers))
  }

  /** A timer expires and its handler queues the removal work. */
  function FireTimer(s: State, t: nat): State {
    if t < |s.timers| && s.timers[t].running then
      s.(timers := s.timers[t := s.timers[t].(running := false, status := s.timers[t].status + 1)],
         pending := true)
    else s
  }

  /** The work queue starts the removal pass. */
  function BeginPass(s: State): State {
    if s.pending && s.cursor.None? then s.(pending := false, cursor := Some(0)) else s
  }

  function RemoveExpired(s: State, i: nat): State
    requires i < |s.listed| && s.listed[i].info.timer < |s.timers|
  {
    var t := s.listed[i].info.timer;
    s.(listed := RemoveAt(s.listed, i), timers := s.timers[t := s.timers[t].(status := 0, userData := None)])
  }

  /** One turn of the loop in `beacon_remove_inactive`; the turn at the tail ends the pass. */
  function VisitNext(s: State): State
    requires Inv(s)
  {
    match s.cursor
    case None => s
    case Some(i) =>
      if i == |s.listed| then s.(cursor := None)
      else if Expired(s, i) then RemoveExpired(s, i)
      else s.(cursor := Some(i + 1))
  }

  /** `btmesh_block_beacon` */
  function BlockBeacon(s: State, u: Uuid): (State, Code) {
    if |s.blocked| == s.maxBlocked then (s, Full)
    else if Has(s.blocked, u) then (s, AlreadyBlocked)
    else (s.(blocked := Insert(s.blocked, Entry(u, UuidText(u), ()))), Ok)
  }

  /** `btmesh_unblock_beacon` */
  function UnblockBeacon(s: State, u: Uuid): (State, Code) {
    var i := Find(s.blocked, u);
    if i < |s.blocked| then (s.(blocked := RemoveAt(s.blocked, i)), Ok) else (s, NotBlocked)
  }

  function Step(s: State, e: Event): State
    requires Inv(s)
  {
    match e
    case Recv(u, oob, uriHash) => Receive(s, u, oob, uriHash)
    case Fire(t) => FireTimer(s, t)
    case Begin => BeginPass(s)
    case Visit => VisitNext(s)
    case Block(u) => BlockBeacon(s, u).0
    case Unblock(u) => UnblockBeacon(s, u).0
  }

  // ---------------------------------------------------------------- every step keeps the invariant

  lemma RestartKeepsInv(s: State, i: nat)
    requires Inv(s) && i < |s.listed|
    ensures Inv(Restart(s, s.listed[i].info.timer))
  {
    var r := Restart(s, s.listed[i].info.timer);
    assert forall k | 0 <= k < |r.listed| :: Expired(r, k) ==> Expired(s, k);
  }

  lemma InsertOwners(s: seq<Beacon>, e: Beacon, t: nat)
    ensures Owned(Insert(s, e), t) <==> t == e.info.timer || Owned(s, t)
  {
    InsertSlots(s, e);
    var r, p := Insert(s, e), Position(s, e.uuid);
    if Owned(s, t) {
      var i :| 0 <= i < |s| && s[i].info.timer == t;
      assert r[if i < p then i else i + 1].info.timer == t;
    }
    assert r[p].info.timer == e.info.timer;
  }

  lemma InsertKeepsDistinct(s: seq<Beacon>, e: Beacon)
    requires TimersDistinct(s) && !Owned(s, e.info.timer)
    ensures TimersDistinct(Insert(s, e))
  {
  }

  lemma NewBeaconKeepsMarks(s: State, u: Uuid, oob: int, uriHash: int, t: nat)
    requires MarksMatch(s) && t < |s.timers|
    ensures MarksMatch(NewBeacon(s, u, oob, uriHash, t))
  {
    var r := NewBeacon(s, u, oob, uriHash, t);
    forall k: nat | k < |r.timers| ensures r.timers[k].userData.Some? <==> Owned(r.listed, k) {
      InsertOwners(s.listed, Entry(u, UuidText(u), Info(oob, uriHash, t)), k);
    }
  }

  lemma NewBeaconKeepsOwnership(s: State, u: Uuid, oob: int, uriHash: int, t: nat)
    requires TimersOwned(s) && |s.listed| < |s.timers|
    requires t < |s.timers| && s.timers[t].userData.None?
    ensures TimersOwned(NewBeacon(s, u, oob, uriHash, t))
  {
    var e := Entry(u, UuidText(u), Info(oob, uriHash, t));
    InsertSlots(s.listed, e);
    InsertKeepsDistinct(s.listed, e);
    NewBeaconKeepsMarks(s, u, oob, uriHash, t);
    assert TimersInPool(NewBeacon(s, u, oob, uriHash, t));
  }

  lemma NewBeaconKeepsPass(s: State, u: Uuid, oob: int, uriHash: int, t: nat)
    requires TimersOwned(s) && PassSound(s)
    requires t < |s.timers| && s.timers[t].userData.None?
    ensures PassSound(NewBeacon(s, u, oob, uriHash, t))
  {
    var r := NewBeacon(s, u, oob, uriHash, t);
    var p := Position(s.listed, u);
    InsertSlots(s.listed, r.listed[p]);
    assert !Owned(s.listed, t);
    forall i | 0 <= i < |r.listed| && Expired(r, i)
      ensures r.pending || (r.cursor.Some? && r.cursor.value <= i)
    {
      assert i != p;
      assert if i < p then Expired(s, i) else Expired(s, i - 1);
    }
  }

  lemma NewBeaconKeepsInv(s: State, u: Uuid, oob: int, uriHash: int)
    requires Inv(s) && |s.listed| < |s.timers| && !Has(s.listed, u)
    ensures FirstFree(s.timers) < |s.timers|
    ensures Inv(NewBeacon(s, u, oob, uriHash, FirstFree(s.timers)))
  {
    FreeTimerExists(s);
    var t := FirstFree(s.timers);
    var e := Entry(u, UuidText(u), Info(oob, uriHash, t));
    InsertKeepsPrinted(s.listed, e);
    InsertKeepsOrder(s.listed, e);
    NewBeaconKeepsOwnership(s, u, oob, uriHash, t);
    NewBeaconKeepsPass(s, u, oob, uriHash, t);
  }

  lemma RemoveExpiredKeepsOwnership(s: State, i: nat)
    requires TimersOwned(s) && i < |s.listed|
    ensures TimersOwned(RemoveExpired(s, i))
  {
    var r := RemoveExpired(s, i);
    forall t: nat | t < |r.timers| ensures r.timers[t].userData.Some? <==> Owned(r.listed, t) {
      if Owned(s.listed, t) && t != s.listed[i].info.timer {
        var k :| 0 <= k < |s.listed| && s.listed[k].info.timer == t;
        assert r.listed[if k < i then k else k - 1].info.timer == t;
      }
    }
  }

  lemma RemoveExpiredKeepsPass(s: State, i: nat)
    requires TimersOwned(s) && PassSound(s) && s.cursor == Some(i) && i < |s.listed|
    ensures PassSound(RemoveExpired(s, i))
  {
    var r := RemoveExpired(s, i);
    forall k | 0 <= k < |r.listed| && Expired(r, k)
      ensures r.pending || (r.cursor.Some? && r.cursor.value <= k)
    {
      assert if k < i then Expired(s, k) else Expired(s, k + 1);
    }
  }

  lemma RemoveExpiredKeepsInv(s: State, i: nat)
    requires Inv(s) && s.cursor == Some(i) && i < |s.listed| && Expired(s, i)
    ensures Inv(RemoveExpired(s, i))
  {
    RemoveKeepsOrder(s.listed, i);
    RemoveExpiredKeepsOwnership(s, i);
    RemoveExpiredKeepsPass(s, i);
    assert TimersSound(RemoveExpired(s, i));
  }

  lemma BlockKeepsOrder(s: State, u: Uuid)
    requires BlockListSound(s)
    ensures BlockListSound(BlockBeacon(s, u).0)
  {
    var e := Entry(u, UuidText(u), ());
    if |s.blocked| < s.maxBlocked && !Has(s.blocked, u) {
      InsertKeepsOrder(s.blocked, e);
      InsertKeepsPrinted(s.blocked, e);
    }
  }

  lemma UnblockKeepsOrder(s: State, u: Uuid)
    requires BlockListSound(s)
    ensures BlockListSound(UnblockBeacon(s, u).0)
  {
  }

  /** Nothing else looks at the block list. */
  lemma OtherBlocksKeepInv(s: State, r: State)
    requires Inv(s) && BlockListSound(r) && r == s.(blocked := r.blocked)
    ensures Inv(r)
  {
    assert forall k | 0 <= k < |r.listed| :: Expired(r, k) ==> Expired(s, k);
  }

  lemma FireKeepsInv(s: State, t: nat)
    requires Inv(s)
    ensures Inv(FireTimer(s, t))
  {
  }

  lemma VisitKeepsInv(s: State)
    requires Inv(s)
    ensures Inv(VisitNext(s))
  {
    if s.cursor.Some? {
      var i := s.cursor.value;
      if i < |s.listed| && Expired(s, i) {
        RemoveExpiredKeepsInv(s, i);
      } else {
        var r := VisitNext(s);
        assert forall k | 0 <= k < |r.listed| :: Expired(r, k) ==> Expired(s, k);
      }
    }
  }

  lemma ReceiveKeepsInv(s: State, u: Uuid, oob: int, uriHash: int)
    requires Inv(s)
    ensures Inv(Receive(s, u, oob, uriHash))
  {
    if |s.listed| < |s.timers| && !Has(s.blocked, u) {
      var i := Find(s.listed, u);
      if i < |s.listed| {
        RestartKeepsInv(s, i);
      } else {
        NewBeaconKeepsInv(s, u, oob, uriHash);
      }
    }
  }

  lemma BeginKeepsInv(s: State)
    requires Inv(s)
    ensures Inv(BeginPass(s))
  {
  }

  lemma StepKeepsInv(s: State, e: Event)
    requires Inv(s)
    ensures Inv(Step(s, e))
  {
    match e
    case Recv(u, oob, uriHash) => ReceiveKeepsInv(s, u, oob, uriHash);
    case Fire(t) => FireKeepsInv(s, t);
    case Begin => BeginKeepsInv(s);
    case Visit => VisitKeepsInv(s);
    case Block(u) =>
      BlockKeepsOrder(s, u);
      OtherBlocksKeepInv(s, Step(s, e));
    case Unblock(u) =>
      UnblockKeepsOrder(s, u);
      OtherBlocksKeepInv(s, Step(s, e));
  }

  lemma StepKeepsSizes(s: State, e: Event)
    requires Inv(s)
    ensures |Step(s, e).timers| == |s.timers| && Step(s, e).maxBlocked == s.maxBlocked
  {
  }

  // ---------------------------------------------------------------- whole runs

  /** `btmesh_init` */
  function Init(maxBeacon: nat, maxBlocked: nat): (s: State)
    ensures Inv(s)
  {
    State([], seq(maxBeacon, _ => Timer(false, 0, None, 0)), [], maxBlocked, false, None)
  }

  /** In every interleaving, from any reachable state, the invariant holds again. */
  function Run(s: State, es: seq<Event>): (r: State)
    requires Inv(s)
    ensures Inv(r)
    ensures |r.timers| == |s.timers| && r.maxBlocked == s.maxBlocked
    decreases |es|
  {
    if es == [] then s else
      StepKeepsInv(s, es[0]);
      StepKeepsSizes(s, es[0]);
      Run(Step(s, es[0]), es[1..])
  }

  /** What the invariant says of every interleaving of events, from power-on. */
  lemma EveryRunIsSound(maxBeacon: nat, maxBlocked: nat, es: seq<Event>)
    ensures var s := Run(Init(maxBeacon, maxBlocked), es);
      && |s.timers| == maxBeacon && s.maxBlocked == maxBlocked
      && |s.listed| <= maxBeacon && |s.blocked| <= maxBlocked
      && (forall i, j | 0 <= i < j < |s.listed| ::
            && s.listed[i].uuid < s.listed[j].uuid
            && s.listed[i].info.timer != s.listed[j].info.timer)
      && (forall t: nat | t < maxBeacon :: s.timers[t].userData.Some? <==> Owned(s.listed, t))
      && (|s.listed| < maxBeacon ==> FirstFree(s.timers) < maxBeacon)
      && (forall i | 0 <= i < |s.listed| :: s.timers[s.listed[i].info.timer].running <==> !Expired(s, i))
      && (forall i | 0 <= i < |s.listed| && Expired(s, i) ::
            s.pending || (s.cursor.Some? && s.cursor.value <= i))
  {
    var s := Run(Init(maxBeacon, maxBlocked), es);
    if |s.listed| < maxBeacon {
      FreeTimerExists(s);
    }
    forall i | 0 <= i < |s.listed| ensures s.timers[s.listed[i].info.timer].running <==> !Expired(s, i) {
      assert Owned(s.listed, s.listed[i].info.timer);
    }
  }

  lemma RunCons(s: State, e: Event, es: seq<Event>)
    requires Inv(s)
    ensures Inv(Step(s, e)) && Run(s, [e] + es) == Run(Step(s, e), es)
  {
    StepKeepsInv(s, e);
    assert ([e] + es)[1..] == es;
  }

  /** `r` is `s` with one more beacon, in slot `i`, running on a timer `t` nobody had. */
  ghost predicate ListsAlso(s: State, r: State, u: Uuid, oob: int, uriHash: int, i: nat, t: nat) {
    && i < |r.listed| && t < |s.timers| && t < |r.timers|
    && r.listed[i] == Entry(u, UuidText(u), Info(oob, uriHash, t)) && RemoveAt(r.listed, i) == s.listed
    && !Owned(s.listed, t) && r.timers[t].running && r.timers[t].status == 0 && r.timers[t].userData == Some(i)
    && r == s.(listed := r.listed, timers := s.timers[t := r.timers[t]])
  }

  lemma NewBeaconListsAlso(s: State, u: Uuid, oob: int, uriHash: int, t: nat)
    requires t < |s.timers| && !Owned(s.listed, t)
    ensures ListsAlso(s, NewBeacon(s, u, oob, uriHash, t), u, oob, uriHash, Position(s.listed, u), t)
  {
  }

  /** Hearing a new beacon that is not blocked, with room in the table, adds its entry, gives it
      a running timer no listed beacon had, and changes nothing else. */
  lemma HearingListsBeacon(s: State, u: Uuid, oob: int, uriHash: int)
    requires Inv(s) && |s.listed| < |s.timers| && !Has(s.blocked, u) && !Has(s.listed, u)
    ensures exists i: nat, t: nat :: ListsAlso(s, Receive(s, u, oob, uriHash), u, oob, uriHash, i, t)
  {
    hide Sorted;
    hide NoLostExpiry;
    hide ListsAlso;
    FreeTimerExists(s);
    var r, t := Receive(s, u, oob, uriHash), FirstFree(s.timers);
    assert !Owned(s.listed, t);
    NewBeaconListsAlso(s, u, oob, uriHash, t);
    assert ListsAlso(s, r, u, oob, uriHash, Position(s.listed, u), t);
  }

  // ---------------------------------------------------------------- expired beacons leave

  /** How one event changes the list: not at all, by one new beacon that got the first free
      timer, or by the expired beacon the running pass is looking at. */
  datatype Change = Same | Added(timer: nat) | Removed(slot: nat)

  function ChangeOf(s: State, e: Event): Change
    requires Inv(s)
  {
    if e.Recv? && |s.listed| < |s.timers| && !Has(s.blocked, e.uuid) && !Has(s.listed, e.uuid)
    then Added(FirstFree(s.timers))
    else if e.Visit? && s.cursor.Some? && s.cursor.value < |s.listed| && Expired(s, s.cursor.value)
    then Removed(s.cursor.value)
    else Same
  }

  lemma ReceiveChanges(s: State, u: Uuid, oob: int, uriHash: int)
    requires Inv(s)
    ensures var r := Receive(s, u, oob, uriHash);
      match ChangeOf(s, Recv(u, oob, uriHash))
      case Added(t) => t < |s.timers| && s.timers[t].userData.None? && r == NewBeacon(s, u, oob, uriHash, t)
      case _ => r.listed == s.listed
  {
    if |s.listed| < |s.timers| {
      FreeTimerExists(s);
    }
  }

  lemma ListChanges(s: State, e: Event)
    requires Inv(s)
    ensures match ChangeOf(s, e)
      case Same => Step(s, e).listed == s.listed
      case Added(t) =>
        t < |s.timers| && s.timers[t].userData.None? && Step(s, e) == NewBeacon(s, e.uuid, e.oob, e.uriHash, t)
      case Removed(i) => Step(s, e) == RemoveExpired(s, i)
  {
    if e.Recv? {
      ReceiveChanges(s, e.uuid, e.oob, e.uriHash);
    }
  }

  /** Only hearing a beacon that is not blocked lists it. */
  lemma UnlistedStays(s: State, e: Event, u: Uuid)
    requires Inv(s) && !Has(s.listed, u)
    requires !(e.Recv? && e.uuid == u) || Has(s.blocked, u)
    ensures !Has(Step(s, e).listed, u)
  {
    ListChanges(s, e);
    match ChangeOf(s, e)
    case Same =>
    case Added(t) => InsertHas(s.listed, Entry(e.uuid, UuidText(e.uuid), Info(e.oob, e.uriHash, t)), u);
    case Removed(i) => RemoveHas(s.listed, i, u);
  }

  /** Nothing but a visit to an expired entry takes a beacon off the list. */
  lemma OnlyExpiredLeave(s: State, e: Event, u: Uuid)
    requires Inv(s) && Has(s.listed, u) && !Has(Step(s, e).listed, u)
    ensures e.Visit? && s.cursor.Some? && s.cursor.value < |s.listed|
    ensures s.listed[s.cursor.value].uuid == u && Expired(s, s.cursor.value)
  {
    hide Inv;
    ListChanges(s, e);
    match ChangeOf(s, e)
    case Same =>
    case Added(t) => InsertHas(s.listed, Entry(e.uuid, UuidText(e.uuid), Info(e.oob, e.uriHash, t)), u);
    case Removed(i) => RemoveHas(s.listed, i, u);
  }

  /** Slot `i` lists the beacon, and its timer has expired. */
  ghost predicate DueAt(s: State, u: Uuid, i: nat) {
    i < |s.listed| && s.listed[i].uuid == u && Expired(s, i)
  }

  ghost predicate Due(s: State, u: Uuid) {
    exists i: nat :: DueAt(s, u, i)
  }

  /** It is moreover ahead of the running pass. */
  ghost predicate OverdueAt(s: State, u: Uuid, i: nat) {
    DueAt(s, u, i) && s.cursor.Some? && s.cursor.value <= i
  }

  ghost predicate Overdue(s: State, u: Uuid) {
    exists i: nat :: OverdueAt(s, u, i)
  }

  /** When the timer of a listed beacon expires, the beacon is due and the removal work queued,
      whether it was queued before or not; no other beacon is concerned. */
  lemma ExpiryIsNoticed(s: State, i: nat)
    requires Inv(s) && i < |s.listed| && s.timers[s.listed[i].info.timer].running
    ensures var r := Step(s, Fire(s.listed[i].info.timer));
      && r.listed == s.listed && r.blocked == s.blocked && r.cursor == s.cursor && r.pending
      && (forall k | 0 <= k < |s.listed| :: Expired(r, k) <==> Expired(s, k) || k == i)
      && DueAt(r, s.listed[i].uuid, i)
  {
  }

  lemma InsertKeepsDue(s: State, u: Uuid, v: Uuid, oob: int, uriHash: int, t: nat, i: nat)
    requires TimersOwned(s) && DueAt(s, u, i) && t < |s.timers| && s.timers[t].userData.None?
    ensures DueAt(NewBeacon(s, v, oob, uriHash, t), u, if i < Position(s.listed, v) then i else i + 1)
  {
    var r := NewBeacon(s, v, oob, uriHash, t);
    InsertSlots(s.listed, r.listed[Position(s.listed, v)]);
    assert Owned(s.listed, s.listed[i].info.timer);
  }

  lemma RemoveKeepsDue(s: State, u: Uuid, c: nat, i: nat)
    requires TimersOwned(s) && Sorted(s.listed) && DueAt(s, u, i) && c < |s.listed|
    ensures var r := RemoveExpired(s, c);
            if c == i then !Has(r.listed, u) else DueAt(r, u, if c < i then i - 1 else i)
  {
    if c == i {
      RemoveHas(s.listed, c, u);
    }
  }

  lemma RestartKeepsDue(s: State, u: Uuid, i: nat, k: nat)
    requires TimersOwned(s) && DueAt(s, u, i) && k < |s.listed| && s.listed[k].uuid != u
    ensures DueAt(Restart(s, s.listed[k].info.timer), u, i)
  {
  }

  lemma QuietKeepsDue(s: State, e: Event, u: Uuid, i: nat)
    requires Inv(s) && DueAt(s, u, i) && Step(s, e).listed == s.listed
    requires e.Recv? ==> Step(s, e) == s
    ensures DueAt(Step(s, e), u, i)
  {
    hide Receive;
    hide Sorted;
    hide Printed;
    hide TimersDistinct;
    hide MarksMatch;
    hide TimersSound;
    hide BlockListSound;
  }

  /** A beacon that is due stays due until it leaves the list or is heard, and moves up a slot only
      when the running pass removes one before it. */
  lemma DueStays(s: State, e: Event, u: Uuid, i: nat)
    requires Inv(s) && DueAt(s, u, i) && !(e.Recv? && e.uuid == u)
    ensures var r := Step(s, e);
      !Has(r.listed, u) || DueAt(r, u, i) || (DueAt(r, u, i + 1) && r.cursor == s.cursor) ||
      (i > 0 && DueAt(r, u, i - 1) && s.cursor.Some? && s.cursor.value < i && r.cursor == s.cursor)
  {
    ListChanges(s, e);
    match ChangeOf(s, e)
    case Added(t) => InsertKeepsDue(s, u, e.uuid, e.oob, e.uriHash, t, i);
    case Removed(c) => RemoveKeepsDue(s, u, c, i);
    case Same =>
      if e.Recv? && Step(s, e) != s {
        RestartKeepsDue(s, u, i, Find(s.listed, e.uuid));
      } else {
        QuietKeepsDue(s, e, u, i);
      }
  }

  /** The pass does not step over an expired beacon. */
  lemma CursorWaits(s: State, e: Event, i: nat)
    requires Inv(s) && i < |s.listed| && Expired(s, i) && s.cursor.Some? && s.cursor.value <= i
    ensures Step(s, e).cursor.Some?
    ensures Step(s, e).cursor == s.cursor || (Step(s, e).cursor.value == s.cursor.value + 1 <= i)
  {
  }

  lemma OverdueStays(s: State, e: Event, u: Uuid)
    requires Inv(s) && Overdue(s, u) && !(e.Recv? && e.uuid == u)
    ensures !Has(Step(s, e).listed, u) || Overdue(Step(s, e), u)
  {
    var i: nat :| OverdueAt(s, u, i);
    DueStays(s, e, u, i);
    CursorWaits(s, e, i);
    hide Inv;
    hide DueAt;
    hide Step;
    var r := Step(s, e);
    assert DueAt(r, u, i) ==> OverdueAt(r, u, i);
    assert DueAt(r, u, i + 1) && r.cursor == s.cursor ==> OverdueAt(r, u, i + 1);
    assert i > 0 && DueAt(r, u, i - 1) && s.cursor.value < i && r.cursor == s.cursor ==> OverdueAt(r, u, i - 1);
  }

  predicate Hears(es: seq<Event>, u: Uuid) {
    exists i | 0 <= i < |es| :: es[i].Recv? && es[i].uuid == u
  }

  /** However a removal pass is interleaved with other events, an expired beacon it has not
      reached, and that is not heard again, is unlisted by the time the pass is over. */
  lemma {:induction false} PassRemovesExpired(s: State, es: seq<Event>, u: Uuid)
    requires Inv(s) && !Hears(es, u)
    requires Overdue(s, u) || !Has(s.listed, u)
    ensures !Has(Run(s, es).listed, u) || Overdue(Run(s, es), u)
    ensures Run(s, es).cursor.None? ==> !Has(Run(s, es).listed, u)
    decreases |es|
  {
    if es != [] {
      StepKeepsInv(s, es[0]);
      if Overdue(s, u) {
        OverdueStays(s, es[0], u);
      } else {
        UnlistedStays(s, es[0], u);
      }
      assert forall i | 0 <= i < |es[1..]| :: es[1..][i] == es[i + 1];
      PassRemovesExpired(Step(s, es[0]), es[1..], u);
    }
  }

  lemma {:induction false} DueUntilUnlisted(s: State, es: seq<Event>, u: Uuid)
    requires Inv(s) && !Hears(es, u)
    requires Due(s, u) || !Has(s.listed, u)
    ensures Due(Run(s, es), u) || !Has(Run(s, es).listed, u)
    decreases |es|
  {
    hide Inv;
    if es != [] {
      StepKeepsInv(s, es[0]);
      if i: nat :| DueAt(s, u, i) {
        DueStays(s, es[0], u, i);
      } else {
        UnlistedStays(s, es[0], u);
      }
      assert !(es[0].Recv? && es[0].uuid == u);
      assert forall i | 0 <= i < |es[1..]| :: es[1..][i] == es[i + 1];
      DueUntilUnlisted(Step(s, es[0]), es[1..], u);
    }
  }

  /** A beacon whose timer expires and that is not heard again is unlisted when the next removal
      pass is over, whatever happens between the expiry and the start of the pass, and during the
      pass. */
  lemma ExpiredBeaconLeaves(s: State, i: nat, before: seq<Event>, during: seq<Event>)
    requires Inv(s) && i < |s.listed| && s.timers[s.listed[i].info.timer].running
    requires var u := s.listed[i].uuid; !Hears(before, u) && !Hears(during, u)
    ensures var start := Run(Step(s, Fire(s.listed[i].info.timer)), before);
      var end := Run(Step(start, Begin), during);
      start.pending && start.cursor.None? && end.cursor.None? ==> !Has(end.listed, s.listed[i].uuid)
  {
    var u, fire := s.listed[i].uuid, Fire(s.listed[i].info.timer);
    ExpiryIsNoticed(s, i);
    StepKeepsInv(s, fire);
    DueUntilUnlisted(Step(s, fire), before, u);
    var start := Run(Step(s, fire), before);
    StepKeepsInv(start, Begin);
    if start.pending && start.cursor.None? {
      PassStarts(start, u);
      PassRemovesExpired(Step(start, Begin), during, u);
    }
  }

  /** When the pass starts, all that is due is ahead of it. */
  lemma PassStarts(s: State, u: Uuid)
    requires Inv(s) && s.pending && s.cursor.None?
    ensures var r := Step(s, Begin);
      r.listed == s.listed && !r.pending && (Due(s, u) ==> Overdue(r, u))
  {
    var r := Step(s, Begin);
    if i: nat :| DueAt(s, u, i) {
      assert OverdueAt(r, u, i);
    }
  }

  /** The beacons whose timers have not expired, in the same order. */
  function Unexpired(listed: seq<Beacon>, timers: seq<Timer>): seq<Beacon>
    requires forall i | 0 <= i < |listed| :: listed[i].info.timer < |timers|
  {
    if listed == [] then []
    else (if timers[listed[0].info.timer].status > 0 then [] else [listed[0]]) + Unexpired(listed[1..], timers)
  }

  lemma {:induction false} UnexpiredFrame(listed: seq<Beacon>, a: seq<Timer>, b: seq<Timer>)
    requires |a| == |b|
    requires forall i | 0 <= i < |listed| ::
      listed[i].info.timer < |a| && a[listed[i].info.timer] == b[listed[i].info.timer]
    ensures Unexpired(listed, a) == Unexpired(listed, b)
  {
    if listed != [] {
      UnexpiredFrame(listed[1..], a, b);
    }
  }

  function Visits(n: nat): seq<Event> {
    seq(n, _ => Visit)
  }

  /** The list a pass that has come to slot `i` will leave behind. */
  function Remaining(s: State, i: nat): seq<Beacon>
    requires i <= |s.listed| && TimersInPool(s)
  {
    s.listed[..i] + Unexpired(s.listed[i..], s.timers)
  }

  lemma RestKeepsTimers(s: State, i: nat)
    requires TimersOwned(s) && i < |s.listed|
    ensures var rest, r := s.listed[i + 1..], RemoveExpired(s, i);
      forall k | 0 <= k < |rest| ::
        rest[k].info.timer < |s.timers| && s.timers[rest[k].info.timer] == r.timers[rest[k].info.timer]
  {
  }

  lemma RemoveKeepsRemaining(s: State, i: nat)
    requires TimersOwned(s) && i < |s.listed| && Expired(s, i)
    ensures TimersInPool(RemoveExpired(s, i))
    ensures Remaining(RemoveExpired(s, i), i) == Remaining(s, i)
  {
    var r := RemoveExpired(s, i);
    var rest := s.listed[i + 1..];
    assert r.listed[..i] == s.listed[..i] && r.listed[i..] == rest;
    assert s.listed[i..][1..] == rest;
    RestKeepsTimers(s, i);
    UnexpiredFrame(rest, s.timers, r.timers);
    assert Unexpired(s.listed[i..], s.timers) == Unexpired(rest, s.timers);
  }

  lemma SkipKeepsRemaining(s: State, i: nat)
    requires TimersOwned(s) && i < |s.listed| && !Expired(s, i)
    ensures Remaining(s, i + 1) == Remaining(s, i)
  {
  }

  /** `r` is what an uninterrupted pass makes of `s` from slot `i` on. */
  ghost predicate Filtered(s: State, i: nat, r: State) {
    && TimersInPool(s) && i <= |s.listed|
    && r.cursor.None? && r.pending == s.pending && r.listed == Remaining(s, i)
  }

  lemma VisitKeepsFiltered(s: State, i: nat, r: State)
    requires Inv(s) && s.cursor == Some(i) && i < |s.listed|
    ensures var v := VisitNext(s);
      && Inv(v) && v.cursor.Some? && |v.listed| - v.cursor.value == |s.listed| - i - 1
      && (Filtered(v, v.cursor.value, r) ==> Filtered(s, i, r))
  {
    VisitKeepsInv(s);
    if Expired(s, i) {
      RemoveKeepsRemaining(s, i);
    } else {
      SkipKeepsRemaining(s, i);
    }
  }

  /** How many turns of the loop a pass still takes when nothing interrupts it. */
  function Turns(s: State): nat
    requires s.cursor.Some? ==> s.cursor.value <= |s.listed|
  {
    if s.cursor.Some? then |s.listed| - s.cursor.value + 1 else 0
  }

  lemma TurnCons(s: State)
    requires Inv(s) && s.cursor.Some?
    ensures Inv(VisitNext(s)) && Turns(VisitNext(s)) == Turns(s) - 1
    ensures Run(s, Visits(Turns(s))) == Run(VisitNext(s), Visits(Turns(VisitNext(s))))
  {
    hide Run;
    VisitCons(s, Turns(s) - 1);
    VisitTakesTurn(s);
    hide Inv;
    hide VisitNext;
  }

  lemma VisitTakesTurn(s: State)
    requires Inv(s) && s.cursor.Some?
    ensures Inv(VisitNext(s)) && Turns(VisitNext(s)) == Turns(s) - 1
  {
    VisitKeepsInv(s);
    hide Sorted;
    hide Printed;
    hide TimersOwned;
    hide TimersSound;
    hide BlockListSound;
  }

  lemma PassEnds(s: State, i: nat)
    requires Inv(s) && s.cursor == Some(i) && i == |s.listed|
    ensures Inv(VisitNext(s)) && Filtered(s, i, Run(VisitNext(s), Visits(0)))
  {
    VisitKeepsInv(s);
    assert VisitNext(s) == s.(cursor := None);
    assert Run(VisitNext(s), Visits(0)) == VisitNext(s);
    assert s.listed[i..] == [];
    assert Unexpired([], s.timers) == [];
  }

  lemma VisitCons(s: State, n: nat)
    requires Inv(s)
    ensures Inv(VisitNext(s)) && Run(s, Visits(n + 1)) == Run(VisitNext(s), Visits(n))
  {
    RunCons(s, Visit, Visits(n));
    assert Visits(n + 1) == [Visit] + Visits(n);
  }

  /** A removal pass that nothing interrupts is a stable filter, and it looks at every entry
      exactly once although reading a timer's status clears it. */
  lemma {:induction false} PassIsStableFilter(s: State, i: nat)
    requires Inv(s) && s.cursor == Some(i)
    ensures Filtered(s, i, Run(s, Visits(Turns(s))))
    decreases |s.listed| - i
  {
    hide Sorted;
    hide TimersOwned;
    hide NoLostExpiry;
    hide Run;
    hide Filtered;
    var n := |s.listed| - i;
    VisitCons(s, n);
    if n > 0 {
      VisitKeepsFiltered(s, i, Run(s, Visits(n + 1)));
      PassIsStableFilter(VisitNext(s), VisitNext(s).cursor.value);
    } else {
      PassEnds(s, i);
    }
  }

  // ---------------------------------------------------------------- blocking

  lemma BlockListChanges(s: State, e: Event)
    requires Inv(s)
    ensures !e.Block? && !e.Unblock? ==> Step(s, e).blocked == s.blocked
  {
  }

  lemma BlockedStays(s: State, e: Event, u: Uuid)
    requires Inv(s) && Has(s.blocked, u) && e != Unblock(u)
    ensures Has(Step(s, e).blocked, u)
  {
    hide Inv;
    BlockListChanges(s, e);
    if e.Block? {
      InsertHas(s.blocked, Entry(e.uuid, UuidText(e.uuid), ()), u);
    } else if e.Unblock? && Has(s.blocked, e.uuid) {
      RemoveHas(s.blocked, Find(s.blocked, e.uuid), u);
    }
  }

  ghost predicate ListedAt(s: State, i: nat, u: Uuid, t: nat, n: nat) {
    && i < |s.listed| && s.listed[i].uuid == u && s.listed[i].info.timer == t
    && t < |s.timers| && s.timers[t].starts == n
  }

  /** `u` is listed with timer `t`, which has been started `n` times. */
  ghost predicate ListedWith(s: State, u: Uuid, t: nat, n: nat) {
    exists i: nat :: ListedAt(s, i, u, t, n)
  }

  lemma InsertKeepsTimer(s: State, u: Uuid, v: Uuid, oob: int, uriHash: int, f: nat, i: nat, t: nat, n: nat)
    requires TimersOwned(s) && ListedAt(s, i, u, t, n) && f < |s.timers| && s.timers[f].userData.None?
    ensures ListedWith(NewBeacon(s, v, oob, uriHash, f), u, t, n)
  {
    hide Position;
    var r := NewBeacon(s, v, oob, uriHash, f);
    var p := Position(s.listed, v);
    InsertSlots(s.listed, r.listed[p]);
    assert Owned(s.listed, t);
    assert ListedAt(r, if i < p then i else i + 1, u, t, n);
  }

  lemma RemoveKeepsTimer(s: State, u: Uuid, c: nat, i: nat, t: nat, n: nat)
    requires TimersOwned(s) && Sorted(s.listed) && ListedAt(s, i, u, t, n) && c < |s.listed|
    ensures var r := RemoveExpired(s, c); Has(r.listed, u) ==> ListedWith(r, u, t, n)
  {
    if c == i {
      RemoveHas(s.listed, c, u);
    } else {
      assert ListedAt(RemoveExpired(s, c), if i < c then i else i - 1, u, t, n);
    }
  }

  lemma RestartKeepsTimer(s: State, u: Uuid, k: nat, i: nat, t: nat, n: nat)
    requires TimersOwned(s) && ListedAt(s, i, u, t, n) && k < |s.listed| && s.listed[k].uuid != u
    ensures ListedAt(Restart(s, s.listed[k].info.timer), i, u, t, n)
  {
  }

  lemma BlockedKeepsTimer(s: State, e: Event, u: Uuid, t: nat, n: nat)
    requires Inv(s) && Has(s.blocked, u) && ListedWith(s, u, t, n)
    ensures Has(Step(s, e).listed, u) ==> ListedWith(Step(s, e), u, t, n)
  {
    var i: nat :| ListedAt(s, i, u, t, n);
    ListChanges(s, e);
    match ChangeOf(s, e)
    case Added(f) => InsertKeepsTimer(s, u, e.uuid, e.oob, e.uriHash, f, i, t, n);
    case Removed(c) => RemoveKeepsTimer(s, u, c, i, t, n);
    case Same =>
      if e.Recv? && Step(s, e) != s {
        RestartKeepsTimer(s, u, Find(s.listed, e.uuid), i, t, n);
      }
      assert ListedAt(Step(s, e), i, u, t, n);
  }

  /** While a UUID stays blocked it is never listed anew, and a listing it had before keeps the
      timer it had, which is never restarted: it can only run out. */
  lemma {:induction false} BlockedRunsOut(s: State, es: seq<Event>, u: Uuid, t: nat, n: nat)
    requires Inv(s) && Has(s.blocked, u) && Unblock(u) !in es
    ensures Has(Run(s, es).blocked, u)
    ensures !Has(s.listed, u) ==> !Has(Run(s, es).listed, u)
    ensures ListedWith(s, u, t, n) && Has(Run(s, es).listed, u) ==> ListedWith(Run(s, es), u, t, n)
    decreases |es|
  {
    if es != [] {
      var r := Step(s, es[0]);
      StepKeepsInv(s, es[0]);
      BlockedStays(s, es[0], u);
      BlockedRunsOut(r, es[1..], u, t, n);
      if !Has(s.listed, u) {
        UnlistedStays(s, es[0], u);
      } else if ListedWith(s, u, t, n) {
        BlockedKeepsTimer(s, es[0], u, t, n);
      }
    }
  }

  /** Hearing a listed beacon restarts its timer exactly when the table has room and the beacon
      is not blocked. */
  lemma RefreshedIff(s: State, i: nat, oob: int, uriHash: int)
    requires Inv(s) && i < |s.listed|
    ensures var r, t := Receive(s, s.listed[i].uuid, oob, uriHash), s.listed[i].info.timer;
      && r.listed == s.listed
      && (r.timers[t].starts == s.timers[t].starts + 1 <==>
          |s.listed| < |s.timers| && !Has(s.blocked, s.listed[i].uuid))
      && (r.timers[t].starts == s.timers[t].starts ==> r == s)
  {
  }

  lemma {:induction false} UnexpiredKeeps(listed: seq<Beacon>, timers: seq<Timer>, k: nat)
    requires forall i | 0 <= i < |listed| :: listed[i].info.timer < |timers|
    requires k < |listed| && timers[listed[k].info.timer].status == 0
    ensures listed[k] in Unexpired(listed, timers)
  {
    if k > 0 {
      UnexpiredKeeps(listed[1..], timers, k - 1);
    }
  }

  /** A pass keeps a listed beacon whose timer was restarted in time. */
  lemma RestartedSurvives(s: State, i: nat)
    requires Inv(s) && s.cursor.Some? && s.cursor.value <= i < |s.listed|
    ensures var r := Restart(s, s.listed[i].info.timer);
      Inv(r) && Has(Run(r, Visits(Turns(s))).listed, s.listed[i].uuid)
  {
    hide Sorted;
    hide TimersDistinct;
    hide NoLostExpiry;
    hide Run;
    RestartKeepsInv(s, i);
    var r, c := Restart(s, s.listed[i].info.timer), s.cursor.value;
    PassIsStableFilter(r, c);
    var left := Remaining(r, c);
    var rest := r.listed[c..];
    assert rest[i - c] == s.listed[i];
    UnexpiredKeeps(rest, r.timers, i - c);
    var k :| 0 <= k < |Unexpired(rest, r.timers)| && Unexpired(rest, r.timers)[k] == s.listed[i];
    assert left[c + k] == s.listed[i];
  }

  /** An expired beacon that is heard again before the pass reaches it survives the pass exactly
      when the table has room and the beacon is not blocked: a full table drops beacons that are
      still being heard. */
  lemma HeardAgainSurvivesIff(s: State, u: Uuid, oob: int, uriHash: int)
    requires Inv(s) && Overdue(s, u)
    ensures Has(Run(s, [Recv(u, oob, uriHash)] + Visits(Turns(s))).listed, u) <==>
            |s.listed| < |s.timers| && !Has(s.blocked, u)
  {
    hide Inv;
    hide Run;
    var i: nat :| OverdueAt(s, u, i);
    RunCons(s, Recv(u, oob, uriHash), Visits(Turns(s)));
    if |s.listed| < |s.timers| && !Has(s.blocked, u) {
      HeardRestarts(s, u, oob, uriHash, i);
      RestartedSurvives(s, i);
    } else {
      NotHeard(s, u, oob, uriHash);
      UndisturbedPassRemoves(s, u);
    }
  }

  lemma HeardRestarts(s: State, u: Uuid, oob: int, uriHash: int, i: nat)
    requires Inv(s) && OverdueAt(s, u, i) && |s.listed| < |s.timers| && !Has(s.blocked, u)
    ensures s.cursor.Some? && s.cursor.value <= i
    ensures Receive(s, u, oob, uriHash) == Restart(s, s.listed[i].info.timer)
  {
    assert Has(s.listed, u);
    assert Find(s.listed, u) == i;
  }

  lemma NotHeard(s: State, u: Uuid, oob: int, uriHash: int)
    requires Inv(s) && (|s.listed| >= |s.timers| || Has(s.blocked, u))
    ensures Receive(s, u, oob, uriHash) == s
  {
  }

  lemma UndisturbedPassRemoves(s: State, u: Uuid)
    requires Inv(s) && Overdue(s, u)
    ensures !Has(Run(s, Visits(Turns(s))).listed, u)
  {
    var i: nat :| OverdueAt(s, u, i);
    PassIsStableFilter(s, s.cursor.value);
    PassRemovesExpired(s, Visits(Turns(s)), u);
  }

  /** With room for a single beacon this is three events away from power-on. */
  lemma FullTableIsReached(u: Uuid)
    ensures var s := Run(Init(1, 0), [Recv(u, 0, 0), Fire(0), Begin]);
            Inv(s) && |s.listed| == |s.timers| && Overdue(s, u)
  {
    FirstBeacon(u);
    FirstBeaconExpires(u);
    hide Inv;
    hide Run;
    hide Init;
    hide Step;
    var s0 := Init(1, 0);
    var s1 := Step(s0, Recv(u, 0, 0));
    var s2 := Step(s1, Fire(0));
    assert [Recv(u, 0, 0)] + ([Fire(0)] + ([Begin] + [])) == [Recv(u, 0, 0), Fire(0), Begin];
    RunCons(s0, Recv(u, 0, 0), [Fire(0)] + ([Begin] + []));
    RunCons(s1, Fire(0), [Begin] + []);
    RunCons(s2, Begin, []);
    RunNothing(Step(s2, Begin));
    assert OverdueAt(Step(s2, Begin), u, 0);
  }

  lemma FirstBeaconExpires(u: Uuid)
    ensures var s := FirstListed(u);
      && Inv(s) && Inv(Step(s, Fire(0)))
      && Step(Step(s, Fire(0)), Begin) == s.(timers := [Timer(false, 1, Some(0), 1)], cursor := Some(0))
  {
    FirstBeacon(u);
    var s := FirstListed(u);
    StepKeepsInv(Init(1, 0), Recv(u, 0, 0));
    StepKeepsInv(s, Fire(0));
    hide Inv;
  }

  /** The state after the first beacon. */
  function FirstListed(u: Uuid): State {
    State([Entry(u, UuidText(u), Info(0, 0, 0))], [Timer(true, 0, Some(0), 1)], [], 0, false, None)
  }

  lemma RunNothing(s: State)
    requires Inv(s)
    ensures Run(s, []) == s
  {
  }

  lemma FirstBeacon(u: Uuid)
    ensures Step(Init(1, 0), Recv(u, 0, 0)) == FirstListed(u)
  {
    var s := Init(1, 0);
    FreeTimerExists(s);
    assert s.timers == [Timer(false, 0, None, 0)];
    assert Position<Info>([], u) == 0;
  }

  lemma {:induction false} DistinctUuids<T>(s: seq<Entry<T>>)
    requires Sorted(s)
    ensures |Uuids(s)| == |s|
  {
    if s == [] {
      EmptyHasNoUuids(s);
    } else {
      var last := |s| - 1;
      RemoveKeepsOrder(s, last);
      assert RemoveAt(s, last) == s[..last];
      DistinctUuids(s[..last]);
      assert s[last].uuid in Uuids(s);
    }
  }

  /** Blocking and unblocking act on the set of blocked UUIDs, with these error codes. */
  lemma BlockListRefinesSet(s: State, u: Uuid)
    requires Inv(s)
    ensures |Uuids(s.blocked)| <= s.maxBlocked
    ensures var (r, code) := BlockBeacon(s, u);
      if |Uuids(s.blocked)| == s.maxBlocked then code == Full && r == s
      else if u in Uuids(s.blocked) then code == AlreadyBlocked && r == s
      else code == Ok && Uuids(r.blocked) == Uuids(s.blocked) + {u} && r == s.(blocked := r.blocked)
    ensures var (r, code) := UnblockBeacon(s, u);
      if u in Uuids(s.blocked)
      then code == Ok && Uuids(r.blocked) == Uuids(s.blocked) - {u} && r == s.(blocked := r.blocked)
      else code == NotBlocked && r == s
  {
    DistinctUuids(s.blocked);
    if Has(s.blocked, u) {
      RemoveKeepsOrder(s.blocked, Find(s.blocked, u));
    } else {
      InsertAddsOne(s.blocked, Entry(u, UuidText(u), ()));
    }
  }

  /** The table depends on the set of blocked UUIDs and on nothing else in the history. */
  lemma BlockListIsCanonical(s: State, es: seq<Event>, t: State, fs: seq<Event>)
    requires Inv(s) && Inv(t)
    requires Uuids(Run(s, es).blocked) == Uuids(Run(t, fs).blocked)
    ensures Run(s, es).blocked == Run(t, fs).blocked
  {
    var a, b := Run(s, es).blocked, Run(t, fs).blocked;
    SortedIsCanonical(a, b);
    assert forall i | 0 <= i < |a| :: a[i].info == b[i].info;
  }

  /** Unblocking a UUID that was just blocked restores the table exactly. */
  lemma UnblockUndoesBlock(s: State, u: Uuid)
    requires Inv(s) && BlockBeacon(s, u).1 == Ok
    ensures UnblockBeacon(BlockBeacon(s, u).0, u) == (s, Ok)
  {
    RemoveUndoesInsert(s.blocked, Entry(u, UuidText(u), ()));
  }
}
