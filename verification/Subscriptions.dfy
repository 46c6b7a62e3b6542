/** The two subscription tables and the delivery of messages to their clients (`src/btmesh.c`). */
module Subscriptions {
  import opened Util
  import opened Counting

  const UNASSIGNED: Uint16 := 0

  datatype Code = Ok | NoMemory | Invalid

  /** The addresses a table holds; unassigned slots are holes. */
  ghost function Members(s: seq<Uint16>): set<Uint16> {
    set a | a in s && a != UNASSIGNED
  }

  /** The first slot that holds the address or nothing. */
  function Stop(s: seq<Uint16>, addr: Uint16): (i: nat)
    ensures i <= |s|
    ensures i < |s| ==> s[i] == addr || s[i] == UNASSIGNED
    ensures forall k | 0 <= k < i :: s[k] != addr && s[k] != UNASSIGNED
  {
    if s == [] || s[0] == addr || s[0] == UNASSIGNED then 0
    else
      var r := Stop(s[1..], addr);
      assert forall k | 0 < k < r + 1 :: s[k] == s[1..][k - 1];
      1 + r
  }

  function Subscribed(s: seq<Uint16>, addr: Uint16): (seq<Uint16>, Code) {
    var i := Stop(s, addr);
    if i < |s| then (s[i := addr], Ok) else (s, NoMemory)
  }

  function Unsubscribed(s: seq<Uint16>, addr: Uint16): (r: seq<Uint16>)
    ensures |r| == |s|
  {
    seq(|s|, i requires 0 <= i < |s| => if s[i] == addr then UNASSIGNED else s[i])
  }

  /** Subscribing adds exactly the address; it fails exactly when the table has no hole and does
      not hold the address. */
  lemma SubscribeRefinesSet(s: seq<Uint16>, addr: Uint16)
    requires addr != UNASSIGNED
    ensures var (r, code) := Subscribed(s, addr);
      && (code == NoMemory <==> UNASSIGNED !in s && addr !in s)
      && (code == NoMemory ==> r == s)
      && (code == Ok ==> Members(r) == Members(s) + {addr})
  {
    var i := Stop(s, addr);
    if i < |s| {
      var r := s[i := addr];
      assert r[i] == addr;
      forall a | a in Members(s) ensures a in Members(r) {
        var k :| 0 <= k < |s| && s[k] == a;
        assert k != i ==> r[k] == a;
      }
    }
  }

  /** Unsubscribing removes every copy of the address and nothing else. */
  lemma UnsubscribeRefinesSet(s: seq<Uint16>, addr: Uint16)
    requires addr != UNASSIGNED
    ensures Members(Unsubscribed(s, addr)) == Members(s) - {addr}
  {
    var r := Unsubscribed(s, addr);
    forall a | a in Members(s) - {addr} ensures a in Members(r) {
      var k :| 0 <= k < |s| && s[k] == a;
      assert r[k] == a;
    }
    forall a | a in Members(r) ensures a in Members(s) - {addr} {
      var k :| 0 <= k < |r| && r[k] == a;
      assert s[k] == a;
    }
  }

  // ---------------------------------------------------------------- duplicates

  /** No address has two slots. */
  ghost predicate Single(s: seq<Uint16>) {
    forall i, j | 0 <= i < j < |s| && s[i] != UNASSIGNED :: s[i] != s[j]
  }

  lemma {:induction false} OccursAtMostOnce(s: seq<Uint16>, addr: Uint16)
    requires Single(s) && addr != UNASSIGNED
    ensures Occurrences(s, addr) <= 1
  {
    if s != [] {
      assert forall k | 0 <= k < |s[1..]| :: s[1..][k] == s[k + 1];
      OccursAtMostOnce(s[1..], addr);
      OccurrencesOf(s[1..], addr);
    }
  }

  /** A subscription keeps addresses single exactly when the address is new or no hole comes
      before it: re-subscribing past a hole makes a second copy. */
  lemma SubscribeKeepsSingleIff(s: seq<Uint16>, addr: Uint16)
    requires Single(s) && addr != UNASSIGNED
    ensures Single(Subscribed(s, addr).0) <==>
            addr !in s || UNASSIGNED !in s || s[Stop(s, addr)] == addr
  {
    var i := Stop(s, addr);
    if i < |s| {
      var r := s[i := addr];
      assert r[i] == addr;
      if addr in s && s[i] != addr {
        var k :| 0 <= k < |s| && s[k] == addr;
        assert r[k] == addr && i < k;
      } else {
        assert s[i] == addr ==> r == s;
      }
    }
  }

  /** Four calls on an empty table are enough. */
  lemma DuplicateIsReached(a: Uint16, b: Uint16)
    requires a != b && a != UNASSIGNED && b != UNASSIGNED
    ensures Replay([UNASSIGNED, UNASSIGNED], [Sub(a), Sub(b), Unsub(a), Sub(b)]) == [b, b]
  {
    assert [a, 0][1..] == [0];
    assert Subscribed([0, 0], a).0 == [a, 0] && Subscribed([a, 0], b).0 == [a, b];
    assert Unsubscribed([a, b], a) == [0, b] && Subscribed([0, b], b).0 == [b, b];
    hide Subscribed;
    hide Unsubscribed;
    var ops := [Sub(a), Sub(b), Unsub(a), Sub(b)];
    var rest := ops[1..];
    assert rest == [Sub(b), Unsub(a), Sub(b)];
    assert rest[1..] == [Unsub(a), Sub(b)] && rest[1..][1..] == [Sub(b)] && rest[1..][1..][1..] == [];
    assert Replay([0, b], rest[1..][1..]) == [b, b];
    assert Replay([a, b], rest[1..]) == [b, b];
    assert Replay([a, 0], rest) == [b, b];
  }

  lemma UnsubscribeKeepsSingle(s: seq<Uint16>, addr: Uint16)
    requires Single(s)
    ensures Single(Unsubscribed(s, addr))
  {
  }

  // ---------------------------------------------------------------- whole runs

  datatype Op = Sub(addr: Uint16) | Unsub(addr: Uint16)

  function Replay(s: seq<Uint16>, ops: seq<Op>): seq<Uint16>
    decreases |ops|
  {
    if ops == [] then s
    else if ops[0].Sub? then Replay(Subscribed(s, ops[0].addr).0, ops[1..])
    else Replay(Unsubscribed(s, ops[0].addr), ops[1..])
  }

  /** The same run on a set, driven by the codes the table returns. */
  ghost function ReplayCodes(s: seq<Uint16>, m: set<Uint16>, ops: seq<Op>): set<Uint16>
    decreases |ops|
  {
    if ops == [] then m
    else
      var a := ops[0].addr;
      if ops[0].Unsub? then ReplayCodes(Unsubscribed(s, a), m - {a}, ops[1..])
      else
        var (r, code) := Subscribed(s, a);
        ReplayCodes(r, if code == Ok then m + {a} else m, ops[1..])
  }

  /** Over every run of nonzero addresses, with present addresses re-subscribed or not, the table
      holds the set of addresses subscribed with success and not unsubscribed since. */
  lemma {:induction false} RunRefinesSet(s: seq<Uint16>, ops: seq<Op>)
    requires forall i | 0 <= i < |ops| :: ops[i].addr != UNASSIGNED
    ensures Members(Replay(s, ops)) == ReplayCodes(s, Members(s), ops)
    decreases |ops|
  {
    if ops != [] {
      var a := ops[0].addr;
      SubscribeRefinesSet(s, a);
      UnsubscribeRefinesSet(s, a);
      assert forall i | 0 <= i < |ops[1..]| :: ops[1..][i] == ops[i + 1];
      RunRefinesSet(if ops[0].Sub? then Subscribed(s, a).0 else Unsubscribed(s, a), ops[1..]);
    }
  }

  /** The same run on a set with room for `room` addresses. */
  ghost function ReplaySet(m: set<Uint16>, room: nat, ops: seq<Op>): set<Uint16>
    decreases |ops|
  {
    if ops == [] then m
    else if ops[0].Unsub? then ReplaySet(m - {ops[0].addr}, room, ops[1..])
    else if |m| < room then ReplaySet(m + {ops[0].addr}, room, ops[1..])
    else ReplaySet(m, room, ops[1..])
  }

  /** No address is subscribed while it is present, and 0 is never used. */
  ghost predicate Fresh(s: seq<Uint16>, ops: seq<Op>)
    decreases |ops|
  {
    ops == [] ||
    (&& ops[0].addr != UNASSIGNED
     && (ops[0].Sub? ==> ops[0].addr !in s)
     && Fresh(if ops[0].Sub? then Subscribed(s, ops[0].addr).0 else Unsubscribed(s, ops[0].addr), ops[1..]))
  }

  /** With single addresses a table is full exactly when it holds as many as it has slots. */
  lemma {:induction false} FullIffAllSlots(s: seq<Uint16>)
    requires Single(s)
    ensures |Members(s)| <= |s|
    ensures |Members(s)| == |s| <==> UNASSIGNED !in s
  {
    if s == [] {
      assert Members(s) == {};
    } else {
      SingleTail(s);
      FullIffAllSlots(s[1..]);
    }
  }

  lemma SingleTail(s: seq<Uint16>)
    requires Single(s) && s != []
    ensures Single(s[1..])
    ensures UNASSIGNED in s <==> s[0] == UNASSIGNED || UNASSIGNED in s[1..]
    ensures if s[0] == UNASSIGNED then Members(s) == Members(s[1..])
            else s[0] !in Members(s[1..]) && Members(s) == Members(s[1..]) + {s[0]}
  {
  }

  /** Over every run that re-subscribes no present address, the table is the set such a run
      yields, bounded by its slots, with each address in one slot. */
  lemma {:induction false} FreshRunRefinesBoundedSet(s: seq<Uint16>, ops: seq<Op>)
    requires Single(s) && Fresh(s, ops)
    ensures Single(Replay(s, ops))
    ensures Members(Replay(s, ops)) == ReplaySet(Members(s), |s|, ops)
    decreases |ops|
  {
    if ops != [] {
      var a := ops[0].addr;
      if ops[0].Sub? {
        SubscribeRefinesSet(s, a);
        SubscribeKeepsSingleIff(s, a);
        FullIffAllSlots(s);
        FreshRunRefinesBoundedSet(Subscribed(s, a).0, ops[1..]);
      } else {
        UnsubscribeRefinesSet(s, a);
        UnsubscribeKeepsSingle(s, a);
        FreshRunRefinesBoundedSet(Unsubscribed(s, a), ops[1..]);
      }
    }
  }

  // ---------------------------------------------------------------- the tables

  datatype Client = Cli | Gateway | Unknown

  /** Configuration and health messages are left to the models that handle them. */
  predicate Filtered(opcode: nat) {
    opcode / 256 % 256 == 0x80 || opcode <= 0x06
  }

  /** Of the opcodes of one and two bytes those of the health and configuration models are left
      out, and of those of three bytes the ones whose company lies in the same range. */
  lemma FilteredIff(opcode: nat)
    requires opcode < 0x100_0000
    ensures opcode < 0x1_0000 ==> (Filtered(opcode) <==> opcode <= 6 || 0x8000 <= opcode < 0x8100)
    ensures opcode >= 0x1_0000 ==> (Filtered(opcode) <==> 0x8000 <= opcode % 0x1_0000 < 0x8100)
  {
    HighByte(opcode / 0x1_0000, opcode % 0x1_0000);
  }

  lemma HighByte(top: nat, low: nat)
    requires low < 0x1_0000
    ensures (0x1_0000 * top + low) / 256 % 256 == low / 256
  {
    assert (0x1_0000 * top + low) / 256 == 256 * top + low / 256;
  }

  class Tables {
    const cli: array<Uint16>
    const gateway: array<Uint16>

    ghost predicate Valid() {
      cli.Length == gateway.Length && cli != gateway
    }

    constructor (slots: nat)
      ensures Valid() && fresh(cli) && fresh(gateway) && cli.Length == slots
      ensures Members(cli[..]) == {} && Members(gateway[..]) == {}
    {
      cli := new Uint16[slots](_ => UNASSIGNED);
      gateway := new Uint16[slots](_ => UNASSIGNED);
    }

    /** `btmesh_subscribe` */
    method Subscribe(client: Client, addr: Uint16) returns (code: Code)
      requires Valid()
      modifies cli, gateway
      ensures client == Cli ==> (cli[..], code) == Subscribed(old(cli[..]), addr) && gateway[..] == old(gateway[..])
      ensures client == Gateway ==> (gateway[..], code) == Subscribed(old(gateway[..]), addr) && cli[..] == old(cli[..])
      ensures client == Unknown ==> code == Invalid && cli[..] == old(cli[..]) && gateway[..] == old(gateway[..])
    {
      if client == Unknown {
        return Invalid;
      }
      code := SubscribeIn(if client == Cli then cli else gateway, addr);
    }

    method SubscribeIn(list: array<Uint16>, addr: Uint16) returns (code: Code)
      modifies list
      ensures (list[..], code) == Subscribed(old(list[..]), addr)
    {
      ghost var s := list[..];
      for i := 0 to list.Length
        invariant list[..] == s && i <= Stop(s, addr)
      {
        assert list[i] == s[i];
        if list[i] == addr {
          assert s[i := addr] == s;
          return Ok;
        }
        if list[i] == UNASSIGNED {
          list[i] := addr;
          return Ok;
        }
      }
      code := NoMemory;
    }

    /** `btmesh_unsubscribe` */
    method Unsubscribe(client: Client, addr: Uint16)
      requires Valid()
      modifies cli, gateway
      ensures cli[..] == if client == Cli then Unsubscribed(old(cli[..]), addr) else old(cli[..])
      ensures gateway[..] == if client == Gateway then Unsubscribed(old(gateway[..]), addr) else old(gateway[..])
    {
      if client == Unknown {
        return;
      }
      UnsubscribeIn(if client == Cli then cli else gateway, addr);
    }

    method UnsubscribeIn(list: array<Uint16>, addr: Uint16)
      modifies list
      ensures list[..] == Unsubscribed(old(list[..]), addr)
    {
      for i := 0 to list.Length
        invariant forall k | 0 <= k < i :: list[k] == Unsubscribed(old(list[..]), addr)[k]
        invariant forall k | i <= k < list.Length :: list[k] == old(list[k])
      {
        if list[i] == addr {
          list[i] := UNASSIGNED;
        }
      }
    }

    /** `btmesh_msg_cb`: how often each client's callback is called for a message. */
    method Deliver(opcode: nat, dst: Uint16) returns (toCli: nat, toGateway: nat)
      requires Valid()
      ensures Filtered(opcode) ==> toCli == 0 && toGateway == 0
      ensures !Filtered(opcode) ==>
        toCli == Occurrences(cli[..], dst) && toGateway == Occurrences(gateway[..], dst)
      ensures !Filtered(opcode) && dst != UNASSIGNED ==>
        && (toCli > 0 <==> dst in Members(cli[..])) && (toGateway > 0 <==> dst in Members(gateway[..]))
        && (Single(cli[..]) ==> toCli <= 1) && (Single(gateway[..]) ==> toGateway <= 1)
    {
      toCli, toGateway := 0, 0;
      if opcode / 256 % 256 == 0x80 {
        return;
      }
      if opcode <= 0x06 {
        return;
      }
      assert cli[0..] == cli[..] && gateway[0..] == gateway[..];
      for i := 0 to cli.Length
        invariant toCli + Occurrences(cli[i..], dst) == Occurrences(cli[..], dst)
        invariant toGateway + Occurrences(gateway[i..], dst) == Occurrences(gateway[..], dst)
      {
        assert cli[i..][1..] == cli[i + 1..] && gateway[i..][1..] == gateway[i + 1..];
        if cli[i] == dst {
          toCli := toCli + 1;
        }
        if gateway[i] == dst {
          toGateway := toGateway + 1;
        }
      }
      OccurrencesOf(cli[..], dst);
      OccurrencesOf(gateway[..], dst);
      if dst != UNASSIGNED && Single(cli[..]) {
        OccursAtMostOnce(cli[..], dst);
      }
      if dst != UNASSIGNED && Single(gateway[..]) {
        OccursAtMostOnce(gateway[..], dst);
      }
    }
  }
}
