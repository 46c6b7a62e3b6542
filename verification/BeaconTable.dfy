/** The static arrays of `src/btmesh.c` and the functions that change them in place. Every
    operation is proved to take the state of `Beacons` through the step of the same name. */
module BeaconTable {
  import opened Util
  import opened SortedTable
  import opened Beacons

  class Table {
    const beacons: array<Beacon>
    const timers: array<Timer>
    /** One spare cell: unblocking copies the slot at the tail too. */
    const blocked: array<Blocked>
    const maxBlocked: nat
    var beaconTail: nat
    var blockedTail: nat
    var workPending: bool
    var passAt: Option<nat>

    ghost predicate Shaped()
      reads this
    {
      && beacons.Length == timers.Length && blocked.Length == maxBlocked + 1
      && beaconTail <= beacons.Length && blockedTail <= maxBlocked
      && (beacons as object) != timers && (beacons as object) != blocked && (timers as object) != blocked
    }

    ghost function Model(): State
      requires Shaped()
      reads this, beacons, timers, blocked
    {
      State(beacons[..beaconTail], timers[..], blocked[..blockedTail], maxBlocked, workPending, passAt)
    }

    ghost predicate Valid()
      reads this, beacons, timers, blocked
    {
      Shaped() && Inv(Model())
    }

    /** An operation that amounts to a step of the state machine leaves a valid table. */
    lemma StillValid(s: State, e: Event)
      requires Shaped() && Inv(s) && Model() == Step(s, e)
      ensures Valid()
    {
      StepKeepsInv(s, e);
    }

    /** `btmesh_init`, over arrays that start out zeroed. */
    constructor (maxBeacon: nat, maxBlocked: nat)
      ensures Valid() && fresh(beacons) && fresh(timers) && fresh(blocked)
      ensures Model() == Init(maxBeacon, maxBlocked)
    {
      beacons := new Beacon[maxBeacon](_ => Entry(0, [], Info(0, 0, 0)));
      timers := new Timer[maxBeacon](_ => Timer(false, 0, None, 0));
      blocked := new Blocked[maxBlocked + 1](_ => Entry(0, [], ()));
      this.maxBlocked := maxBlocked;
      beaconTail, blockedTail, workPending, passAt := 0, 0, false, None;
      new;
      assert Model().timers == Init(maxBeacon, maxBlocked).timers;
    }

    /** The unbounded scan for a timer whose user data is NULL. */
    method FindFreeTimer() returns (t: nat)
      requires Valid() && beaconTail < beacons.Length
      ensures t < timers.Length && t == FirstFree(timers[..])
    {
      FreeTimerExists(Model());
      t := 0;
      while timers[t].userData.Some?
        invariant t <= FirstFree(timers[..])
        decreases timers.Length - t
      {
        assert timers[..][t].userData.Some?;
        t := t + 1;
      }
      assert timers[..][t].userData.None?;
    }

    /** `k_timer_start` */
    method StartTimer(t: nat)
      requires t < timers.Length
      modifies timers
      ensures timers[..] == old(timers[..])[t := Started(old(timers[..])[t])]
    {
      timers[t] := timers[t].(running := true, status := 0, starts := timers[t].starts + 1);
    }

    /** `beacon_recv` */
    method Recv(uuid: Uuid, oob: int, uriHash: int)
      requires Valid()
      modifies this`beaconTail, beacons, timers
      ensures Valid() && Model() == Receive(old(Model()), uuid, oob, uriHash)
    {
      hide NewBeacon;
      ghost var s := Model();
      ReceiveKeepsInv(s, uuid, oob, uriHash);
      assert TimersInPool(s);
      hide Inv;
      if beaconTail == beacons.Length {
        return;
      }
      var k := Search(blocked, blockedTail, uuid);
      if k != blockedTail {
        return;
      }
      var i := Search(beacons, beaconTail, uuid);
      if i != beaconTail {
        StartTimer(beacons[i].info.timer);
        return;
      }
      AddBeacon(uuid, oob, uriHash);
    }

    /** The part of `beacon_recv` that lists a new beacon. */
    method AddBeacon(uuid: Uuid, oob: int, uriHash: int)
      requires Valid() && beaconTail < beacons.Length && !Has(beacons[..beaconTail], uuid)
      modifies this`beaconTail, beacons, timers
      ensures Shaped()
      ensures FirstFree(old(timers[..])) < timers.Length
      ensures Model() == NewBeacon(old(Model()), uuid, oob, uriHash, FirstFree(old(timers[..])))
    {
      hide Inv;
      ghost var listed := beacons[..beaconTail];
      var t := FindFreeTimer();
      var p := ShiftInsert(beacons, beaconTail, Entry(uuid, UuidText(uuid), Info(oob, uriHash, t)));
      beaconTail := beaconTail + 1;
      timers[t] := timers[t].(userData := Some(p));
      StartTimer(t);
    }

    /** A timer runs out: `beacon_timer_handler` queues the removal work. */
    method TimerExpires(t: nat)
      requires Valid() && t < timers.Length && timers[t].running
      modifies this`workPending, timers
      ensures Valid() && Model() == FireTimer(old(Model()), t)
    {
      FireKeepsInv(Model(), t);
      timers[t] := timers[t].(running := false, status := timers[t].status + 1);
      workPending := true;
    }

    /** The work queue picks the removal item up. */
    method WorkStarts()
      requires Valid() && workPending && passAt.None?
      modifies this`workPending, this`passAt
      ensures Valid() && Model() == BeginPass(old(Model()))
    {
      BeginKeepsInv(Model());
      workPending, passAt := false, Some(0);
    }

    /** The inner loop of `beacon_remove_inactive`: closes the gap at slot `i`. */
    method CloseGap(i: nat)
      requires Shaped() && i < beaconTail
      modifies this`beaconTail, beacons
      ensures Shaped() && beacons[..beaconTail] == RemoveAt(old(beacons[..beaconTail]), i)
    {
      hide RemoveAt;
      ghost var s := beacons[..beaconTail];
      var j := i;
      while j + 1 != beaconTail
        invariant Shaped() && beaconTail == old(beaconTail) && i <= j < beaconTail
        invariant forall k | 0 <= k < i :: beacons[k] == s[k]
        invariant forall k | i <= k < j :: beacons[k] == s[k + 1]
        invariant forall k | j < k < beaconTail :: beacons[k] == s[k]
        decreases beaconTail - j
      {
        beacons[j] := beacons[j + 1];
        j := j + 1;
      }
      beaconTail := beaconTail - 1;
      ghost var r := beacons[..beaconTail];
      assert forall k | 0 <= k < i :: r[k] == s[k];
      assert forall k | i <= k < |r| :: r[k] == s[k + 1];
      ClosedUp(s, i, r);
    }

    /** `k_timer_status_get`: reading the status clears it. */
    method ReadStatus(t: nat) returns (status: nat)
      requires t < timers.Length
      modifies timers
      ensures status == old(timers[t].status)
      ensures timers[..] == old(timers[..])[t := old(timers[t]).(status := 0)]
    {
      status := timers[t].status;
      timers[t] := timers[t].(status := 0);
    }

    /** `k_timer_user_data_set` with NULL. */
    method ReleaseTimer(t: nat)
      requires t < timers.Length
      modifies timers
      ensures timers[..] == old(timers[..])[t := old(timers[t]).(userData := None)]
    {
      timers[t] := timers[t].(userData := None);
    }

    /** One turn of the outer loop of `beacon_remove_inactive`. */
    method VisitOne()
      requires Valid() && passAt.Some?
      modifies this`beaconTail, this`passAt, beacons, timers
      ensures Valid() && Model() == VisitNext(old(Model()))
    {
      ghost var s := Model();
      if passAt.value == beaconTail {
        passAt := None;
      } else {
        LookAt(passAt.value);
      }
      StillValid(s, Visit);
    }

    method LookAt(i: nat)
      requires Shaped() && i < beaconTail && beacons[i].info.timer < timers.Length
      requires passAt == Some(i)
      modifies this`beaconTail, this`passAt, beacons, timers
      ensures Shaped()
      ensures Model() == if Expired(old(Model()), i) then RemoveExpired(old(Model()), i)
                         else old(Model()).(cursor := Some(i + 1))
    {
      ghost var s := Model();
      assert beacons[i] == s.listed[i];
      var t := beacons[i].info.timer;
      var status := ReadStatus(t);
      if status > 0 {
        ReleaseTimer(t);
        CloseGap(i);
      } else {
        assert timers[..] == s.timers;
        passAt := Some(i + 1);
      }
    }

    /** `beacon_remove_inactive` run to its end without interruption. */
    method RemoveInactive()
      requires Valid() && workPending && passAt.None?
      modifies this, beacons, timers
      ensures Valid() && passAt.None? && !workPending
      ensures beacons[..beaconTail] == Unexpired(old(beacons[..beaconTail]), old(timers[..]))
    {
      ghost var listed := beacons[..beaconTail];
      assert listed[..0] + listed[0..] == listed;
      WorkStarts();
      assert beacons[..beaconTail] == listed;
      FilterPass();
    }

    method FilterPass()
      requires Valid() && passAt.Some?
      modifies this`beaconTail, this`passAt, beacons, timers
      ensures Valid() && Filtered(old(Model()), old(passAt.value), Model())
    {
      PassIsStableFilter(Model(), passAt.value);
      FinishPass();
    }

    /** The outer loop: as many turns as there are entries, and one to see the tail. */
    method FinishPass()
      requires Valid() && passAt.Some?
      modifies this`beaconTail, this`passAt, beacons, timers
      ensures Valid() && Model() == Run(old(Model()), Visits(Turns(old(Model()))))
    {
      ghost var r := Run(Model(), Visits(Turns(Model())));
      while passAt.Some?
        invariant Valid() && r == Run(Model(), Visits(Turns(Model())))
        decreases Turns(Model())
      {
        TurnCons(Model());
        VisitOne();
      }
    }

    method IsBlocked(uuid: Uuid) returns (found: bool)
      requires Valid()
      ensures found <==> uuid in Uuids(Model().blocked)
    {
      var k := Search(blocked, blockedTail, uuid);
      return k != blockedTail;
    }

    /** `btmesh_block_beacon` */
    method BlockUuid(uuid: Uuid) returns (code: Code)
      requires Valid()
      modifies this`blockedTail, blocked
      ensures Valid() && (Model(), code) == BlockBeacon(old(Model()), uuid)
    {
      ghost var s := Model();
      code := AddBlocked(uuid);
      StillValid(s, Block(uuid));
    }

    method AddBlocked(uuid: Uuid) returns (code: Code)
      requires Shaped()
      modifies this`blockedTail, blocked
      ensures Shaped() && (Model(), code) == BlockBeacon(old(Model()), uuid)
    {
      if blockedTail == maxBlocked {
        return Full;
      }
      var k := Search(blocked, blockedTail, uuid);
      if k != blockedTail {
        return AlreadyBlocked;
      }
      var p := ShiftInsert(blocked, blockedTail, Entry(uuid, UuidText(uuid), ()));
      blockedTail := blockedTail + 1;
      return Ok;
    }

    /** `btmesh_unblock_beacon`. It reads the slot behind the list, the spare cell, exactly when the
        list is full and holds the UUID. */
    method UnblockUuid(uuid: Uuid) returns (code: Code, ghost behind: bool)
      requires Valid()
      modifies this`blockedTail, blocked
      ensures Valid() && (Model(), code) == UnblockBeacon(old(Model()), uuid)
      ensures behind <==> old(blockedTail) == maxBlocked && Has(old(blocked[..blockedTail]), uuid)
    {
      ghost var s := Model();
      code, behind := DropBlocked(uuid);
      StillValid(s, Unblock(uuid));
    }

    method DropBlocked(uuid: Uuid) returns (code: Code, ghost behind: bool)
      requires Shaped()
      modifies this`blockedTail, blocked
      ensures Shaped() && (Model(), code) == UnblockBeacon(old(Model()), uuid)
      ensures behind <==> old(blockedTail) == maxBlocked && Has(old(blocked[..blockedTail]), uuid)
    {
      hide Find;
      hide RemoveAt;
      hide Has;
      var found;
      ghost var reach;
      found, reach := ShiftOver(blocked, blockedTail, uuid);
      behind := reach > maxBlocked;
      code := NotBlocked;
      if found {
        blockedTail := blockedTail - 1;
        code := Ok;
      }
    }

    /** `btmesh_get_beacon_uuid`: the listing by index, NULL past the tail. */
    method BeaconText(idx: nat) returns (text: Option<string>)
      requires Valid()
      ensures text == if idx < beaconTail then Some(UuidText(beacons[idx].uuid)) else None
    {
      if idx >= beaconTail {
        return None;
      }
      assert beacons[idx] == Model().listed[idx];
      return Some(beacons[idx].text);
    }
  }
}
