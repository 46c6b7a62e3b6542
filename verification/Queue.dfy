/** The request queue of `src/gateway.c` and who owns the memory that travels through it: JSON
    trees, copied payloads and queue items. The cloud handler, the mesh callbacks and the gateway
    thread interleave between the steps below. */
module Queue {
  import opened Util
  import opened Counting

  // ---------------------------------------------------------------- cloud messages

  datatype Field = Missing | NotString | Text(text: string)

  /** A cloud message, as far as `gateway_handler` looks into it. */
  datatype Message =
    | Shadow
    | NotJson
    | Json(kind: Field, operation: Option<Field>)

  datatype Code = Accepted | NoEntry | InvalidArg | NoMemory

  /** What the gateway thread is asked to do. */
  datatype Proc =
    BeaconRequest | Provision | SubnetAdd | SubnetGenerate | SubnetDelete | SubnetRequest |
    AppKeyAdd | AppKeyGenerate | AppKeyDelete | AppKeyRequest | NodeReset | NodeRequest |
    NodeDiscover | NodeConfigure | Subscribe | Unsubscribe | SubscribeListRequest |
    SendModelMessage | HealthFaultGet | HealthFaultClear | HealthFaultTest | HealthPeriodGet |
    HealthPeriodSet | HealthAttentionGet | HealthAttentionSet | HealthClientTimeoutGet |
    HealthClientTimeoutSet

  /** The name of an operation in a cloud message. */
  function NameOf(p: Proc): string {
    match p
    case BeaconRequest => "beacon_request"
    case Provision => "provision"
    case SubnetAdd => "subnet_add"
    case SubnetGenerate => "subnet_generate"
    case SubnetDelete => "subnet_delete"
    case SubnetRequest => "subnet_request"
    case AppKeyAdd => "app_key_add"
    case AppKeyGenerate => "app_key_generate"
    case AppKeyDelete => "app_key_delete"
    case AppKeyRequest => "app_key_request"
    case NodeReset => "node_reset"
    case NodeRequest => "node_request"
    case NodeDiscover => "node_discover"
    case NodeConfigure => "node_configure"
    case Subscribe => "subscribe"
    case Unsubscribe => "unsubscribe"
    case SubscribeListRequest => "subscribe_list_request"
    case SendModelMessage => "send_model_message"
    case HealthFaultGet => "health_fault_get"
    case HealthFaultClear => "health_fault_clear"
    case HealthFaultTest => "health_fault_test"
    case HealthPeriodGet => "health_period_get"
    case HealthPeriodSet => "health_period_set"
    case HealthAttentionGet => "health_attention_get"
    case HealthAttentionSet => "health_attention_set"
    case HealthClientTimeoutGet => "health_client_timeout_get"
    case HealthClientTimeoutSet => "health_client_timeout_set"
  }

  /** The comparisons in `gateway_handler`, in their order. */
  const OPERATIONS: seq<(string, Proc)> := [
    ("beacon_request", BeaconRequest),
    ("provision", Provision),
    ("subnet_add", SubnetAdd),
    ("subnet_generate", SubnetGenerate),
    ("subnet_delete", SubnetDelete),
    ("subnet_request", SubnetRequest),
    ("app_key_add", AppKeyAdd),
    ("app_key_generate", AppKeyGenerate),
    ("app_key_delete", AppKeyDelete),
    ("app_key_request", AppKeyRequest),
    ("node_reset", NodeReset),
    ("node_request", NodeRequest),
    ("node_discover", NodeDiscover),
    ("node_configure", NodeConfigure),
    ("subscribe", Subscribe),
    ("unsubscribe", Unsubscribe),
    ("subscribe_list_request", SubscribeListRequest),
    ("send_model_message", SendModelMessage),
    ("health_fault_get", HealthFaultGet),
    ("health_fault_clear", HealthFaultClear),
    ("health_fault_test", HealthFaultTest),
    ("health_period_get", HealthPeriodGet),
    ("health_period_set", HealthPeriodSet),
    ("health_attention_get", HealthAttentionGet),
    ("health_attention_set", HealthAttentionSet),
    ("health_client_timeout_get", HealthClientTimeoutGet),
    ("health_client_timeout_set", HealthClientTimeoutSet)]

  /** The first comparison that succeeds. */
  function Lookup(ops: seq<(string, Proc)>, text: string): (p: Option<Proc>)
    ensures p.Some? ==> (text, p.value) in ops
    ensures p.None? ==> forall q :: (text, q) !in ops
  {
    if ops == [] then None
    else
      assert ops == [ops[0]] + ops[1..];
      if ops[0].0 == text then
        assert ops[0] == (text, ops[0].1);
        Some(ops[0].1)
      else Lookup(ops[1..], text)
  }

  function ProcOf(text: string): Option<Proc> {
    Lookup(OPERATIONS, text)
  }

  /** Length, first and last but two letters tell the names apart. */
  function Mark(p: Proc): (nat, char, char) {
    match p
    case BeaconRequest => (14, 'b', 'e')
    case Provision => (9, 'p', 'i')
    case SubnetAdd => (10, 's', 'a')
    case SubnetGenerate => (15, 's', 'a')
    case SubnetDelete => (13, 's', 'e')
    case SubnetRequest => (14, 's', 'e')
    case AppKeyAdd => (11, 'a', 'a')
    case AppKeyGenerate => (16, 'a', 'a')
    case AppKeyDelete => (14, 'a', 'e')
    case AppKeyRequest => (15, 'a', 'e')
    case NodeReset => (10, 'n', 's')
    case NodeRequest => (12, 'n', 'e')
    case NodeDiscover => (13, 'n', 'v')
    case NodeConfigure => (14, 'n', 'u')
    case Subscribe => (9, 's', 'i')
    case Unsubscribe => (11, 'u', 'i')
    case SubscribeListRequest => (22, 's', 'e')
    case SendModelMessage => (18, 's', 'a')
    case HealthFaultGet => (16, 'h', 'g')
    case HealthFaultClear => (18, 'h', 'e')
    case HealthFaultTest => (17, 'h', 'e')
    case HealthPeriodGet => (17, 'h', 'g')
    case HealthPeriodSet => (17, 'h', 's')
    case HealthAttentionGet => (20, 'h', 'g')
    case HealthAttentionSet => (20, 'h', 's')
    case HealthClientTimeoutGet => (25, 'h', 'g')
    case HealthClientTimeoutSet => (25, 'h', 's')
  }

  lemma MarksAreRight(p: Proc)
    ensures var s, m := NameOf(p), Mark(p); |s| == m.0 >= 3 && s[0] == m.1 && s[|s| - 3] == m.2
  {
  }

  lemma MarksDiffer(p: Proc, q: Proc)
    requires Mark(p) == Mark(q)
    ensures p == q
  {
  }

  lemma NamesDiffer(p: Proc, q: Proc)
    requires NameOf(p) == NameOf(q)
    ensures p == q
  {
    MarksAreRight(p);
    MarksAreRight(q);
    hide NameOf;
    MarksDiffer(p, q);
  }

  function Row(p: Proc): nat {
    match p
    case BeaconRequest => 0
    case Provision => 1
    case SubnetAdd => 2
    case SubnetGenerate => 3
    case SubnetDelete => 4
    case SubnetRequest => 5
    case AppKeyAdd => 6
    case AppKeyGenerate => 7
    case AppKeyDelete => 8
    case AppKeyRequest => 9
    case NodeReset => 10
    case NodeRequest => 11
    case NodeDiscover => 12
    case NodeConfigure => 13
    case Subscribe => 14
    case Unsubscribe => 15
    case SubscribeListRequest => 16
    case SendModelMessage => 17
    case HealthFaultGet => 18
    case HealthFaultClear => 19
    case HealthFaultTest => 20
    case HealthPeriodGet => 21
    case HealthPeriodSet => 22
    case HealthAttentionGet => 23
    case HealthAttentionSet => 24
    case HealthClientTimeoutGet => 25
    case HealthClientTimeoutSet => 26
  }

  lemma RowsAreNamed(p: Proc)
    ensures Row(p) < |OPERATIONS| && OPERATIONS[Row(p)] == (NameOf(p), p)
  {
  }

  lemma RowsAreAll(k: nat)
    requires k < |OPERATIONS|
    ensures Row(OPERATIONS[k].1) == k
  {
  }

  /** Every operation has its name, and no other text is one. */
  lemma ProcsAreNamed(text: string, p: Proc)
    ensures ProcOf(text) == Some(p) <==> text == NameOf(p)
  {
    hide NameOf;
    hide OPERATIONS;
    hide Row;
    RowsAreNamed(p);
    if ProcOf(text).Some? {
      var k :| 0 <= k < |OPERATIONS| && OPERATIONS[k] == (text, ProcOf(text).value);
      RowsAreAll(k);
      RowsAreNamed(ProcOf(text).value);
    }
    if text == NameOf(p) {
      NamesDiffer(p, ProcOf(text).value);
    }
  }

  /** The tests between parsing and allocation, in their order. */
  function Check(m: Message): Code
    requires m.Json?
  {
    if !m.kind.Text? then NoEntry
    else if m.kind.text != "operation" then InvalidArg
    else if m.operation.None? then NoEntry
    else if !m.operation.value.Text? then NoEntry
    else Accepted
  }

  predicate Known(m: Message)
    requires m.Json? && Check(m) == Accepted
  {
    ProcOf(m.operation.value.text).Some?
  }

  // ---------------------------------------------------------------- state

  datatype Source = Cloud(proc: Proc) | MeshMessage | HealthStatus

  /** A queued `gateway_proc_data` block with the JSON root or the copied payload it refers to. */
  datatype Item = Item(block: nat, root: Option<nat>, data: Option<nat>, source: Source)

  datatype Handler = Off | Parsed(message: Message, root: nat) | Allocated(message: Message, root: nat, block: nat)

  datatype Callback = Quiet | Copied(data: nat, source: Source)

  datatype State = State(
    live: set<nat>, next: nat, handler: Handler, callback: Callback,
    fifo: seq<Item>, current: Option<Item>, arrived: seq<Item>, processed: seq<Item>)

  datatype Event =
    | Receive(message: Message)          // gateway_handler up to the parse
    | Examine(memory: bool)              // its checks and the allocation of the item
    | Dispatch                           // its comparison with the known operations
    | MeshCopies(source: Source)         // a callback copies its payload
    | MeshQueues
    | Dequeue
    | Finish                             // the end of one turn of gateway_process

  predicate Enabled(s: State, e: Event) {
    match e
    case Receive(_) => s.handler.Off?
    case Examine(_) => s.handler.Parsed?
    case Dispatch => s.handler.Allocated?
    case MeshCopies(source) => s.callback.Quiet? && !source.Cloud?
    case MeshQueues => s.callback.Copied?
    case Dequeue => s.current.None? && s.fifo != []
    case Finish => s.current.Some?
  }

  function Put(s: State, item: Item): State {
    s.(fifo := s.fifo + [item], arrived := s.arrived + [item])
  }

  function OptSeq(b: Option<nat>): seq<nat> {
    if b.Some? then [b.value] else []
  }

  /** The blocks an event frees, in the order of the calls. Freeing NULL does nothing. */
  function Freed(s: State, e: Event): seq<nat>
    requires Enabled(s, e) && HandlerSound(s)
  {
    match e
    case Examine(memory) =>
      if Check(s.handler.message) != Accepted || !memory then [s.handler.root] else []
    case Dispatch => if Known(s.handler.message) then [] else [s.handler.block, s.handler.root]
    case Finish => OptSeq(s.current.value.data) + OptSeq(s.current.value.root) + [s.current.value.block]
    case _ => []
  }

  /** Whether an event allocates the next block. */
  predicate Allocates(s: State, e: Event)
    requires Enabled(s, e) && HandlerSound(s)
  {
    match e
    case Receive(m) => m.Json?
    case Examine(memory) => Check(s.handler.message) == Accepted && memory
    case MeshCopies(_) | MeshQueues => true
    case _ => false
  }

  predicate HandlerSound(s: State) {
    && (!s.handler.Off? ==> s.handler.message.Json?)
    && (s.handler.Allocated? ==> Check(s.handler.message) == Accepted)
  }

  function Step(s: State, e: Event): State
    requires Enabled(s, e) && HandlerSound(s)
  {
    var kept := s.live - (set b | b in Freed(s, e));
    var t := s.(live := if Allocates(s, e) then kept + {s.next} else kept,
                next := if Allocates(s, e) then s.next + 1 else s.next);
    match e
    case Receive(m) => if m.Json? then t.(handler := Parsed(m, s.next)) else t
    case Examine(_) =>
      if Allocates(s, e) then t.(handler := Allocated(s.handler.message, s.handler.root, s.next))
      else t.(handler := Off)
    case Dispatch =>
      var h := s.handler;
      if Known(h.message) then
        Put(t.(handler := Off), Item(h.block, Some(h.root), None, Cloud(ProcOf(h.message.operation.value.text).value)))
      else t.(handler := Off)
    case MeshCopies(source) => t.(callback := Copied(s.next, source))
    case MeshQueues =>
      Put(t.(callback := Quiet), Item(s.next, None, Some(s.callback.data), s.callback.source))
    case Dequeue => t.(current := Some(s.fifo[0]), fifo := s.fifo[1..])
    case Finish => t.(current := None, processed := s.processed + [s.current.value])
  }

  // ---------------------------------------------------------------- ownership

  /** How often an item refers to block `b`, its own memory included. */
  function ItemRefs(item: Item, b: nat): nat {
    Bit(item.block == b) + Bit(item.root == Some(b)) + Bit(item.data == Some(b))
  }

  function FifoRefs(fifo: seq<Item>, b: nat): nat {
    if fifo == [] then 0 else ItemRefs(fifo[0], b) + FifoRefs(fifo[1..], b)
  }

  function HandlerRefs(h: Handler, b: nat): nat {
    match h
    case Off => 0
    case Parsed(_, root) => Bit(root == b)
    case Allocated(_, root, block) => Bit(root == b) + Bit(block == b)
  }

  /** How many references to `b` the handler, the callback, the gateway thread and the queue have. */
  function Refs(s: State, b: nat): nat {
    HandlerRefs(s.handler, b)
     + Bit(s.callback.Copied? && s.callback.data == b)
     + (if s.current.Some? then ItemRefs(s.current.value, b) else 0)
     + FifoRefs(s.fifo, b)
  }

  function Unprocessed(s: State): seq<Item> {
    (if s.current.Some? then [s.current.value] else []) + s.fifo
  }

  /** The live blocks are exactly the referenced ones, each referenced once. */
  ghost predicate Owned(s: State) {
    && (forall b: nat :: Refs(s, b) == Bit(b in s.live))
    && (forall b | b in s.live :: b < s.next)
  }

  ghost predicate Inv(s: State) {
    HandlerSound(s) && Owned(s) && s.arrived == s.processed + Unprocessed(s)
  }

  function Init(): State {
    State({}, 0, Off, Quiet, [], None, [], [])
  }

  lemma {:induction false} FifoRefsAppend(fifo: seq<Item>, x: Item, b: nat)
    ensures FifoRefs(fifo + [x], b) == FifoRefs(fifo, b) + ItemRefs(x, b)
  {
    if fifo == [] {
      assert [x][1..] == [];
    } else {
      FifoRefsAppend(fifo[1..], x, b);
      assert (fifo + [x])[1..] == fifo[1..] + [x];
    }
  }

  /** An event adds a reference to the block it allocates and drops those to the blocks it frees. */
  lemma RefsAfter(s: State, e: Event, b: nat)
    requires Enabled(s, e) && HandlerSound(s)
    ensures Refs(Step(s, e), b) + Occurrences(Freed(s, e), b) ==
            Refs(s, b) + Bit(Allocates(s, e) && b == s.next)
  {
    hide Check;
    hide Known;
    var r := Step(s, e);
    if |r.fifo| > |s.fifo| {
      FifoRefsAppend(s.fifo, r.fifo[|s.fifo|], b);
    }
    FreedCounts(s, e, b);
  }

  lemma FreedCounts(s: State, e: Event, b: nat)
    requires Enabled(s, e) && HandlerSound(s)
    ensures e.Finish? ==> Occurrences(Freed(s, e), b) == ItemRefs(s.current.value, b)
    ensures e.Dispatch? && Freed(s, e) != [] ==> Occurrences(Freed(s, e), b) == HandlerRefs(s.handler, b)
    ensures e.Examine? && Freed(s, e) != [] ==> Occurrences(Freed(s, e), b) == HandlerRefs(s.handler, b)
  {
    hide Check;
    hide Known;
    if e.Finish? {
      var item := s.current.value;
      OccurrencesAppend(OptSeq(item.data) + OptSeq(item.root), [item.block], b);
      OccurrencesAppend(OptSeq(item.data), OptSeq(item.root), b);
      OccursOnce(item.block, b);
      OccursOnce(if item.data.Some? then item.data.value else 0, b);
      OccursOnce(if item.root.Some? then item.root.value else 0, b);
    } else if e.Dispatch? {
      OccurrencesAppend([s.handler.block], [s.handler.root], b);
      OccursOnce(s.handler.block, b);
      OccursOnce(s.handler.root, b);
    } else if e.Examine? {
      OccursOnce(s.handler.root, b);
    }
  }

  /** Every block an event frees is live, and it frees it once. */
  ghost predicate FreesLiveOnce(s: State, e: Event)
    requires Enabled(s, e) && HandlerSound(s)
  {
    forall b: nat :: Occurrences(Freed(s, e), b) <= Bit(b in s.live)
  }

  lemma StepKeepsOwned(s: State, e: Event)
    requires HandlerSound(s) && Owned(s) && Enabled(s, e)
    ensures FreesLiveOnce(s, e) && Owned(Step(s, e))
  {
    var r := Step(s, e);
    hide Refs;
    forall b: nat
      ensures Occurrences(Freed(s, e), b) <= Bit(b in s.live) && Refs(r, b) == Bit(b in r.live)
    {
      RefsAfter(s, e, b);
      OccurrencesOf(Freed(s, e), b);
      LiveAfter(s, e, b);
    }
  }

  lemma LiveAfter(s: State, e: Event, b: nat)
    requires Enabled(s, e) && HandlerSound(s)
    ensures b in Step(s, e).live <==> (b in s.live && b !in Freed(s, e)) || (Allocates(s, e) && b == s.next)
    ensures Step(s, e).next == s.next + Bit(Allocates(s, e))
  {
  }

  lemma StepKeepsOrder(s: State, e: Event)
    requires Inv(s) && Enabled(s, e)
    ensures var r := Step(s, e); HandlerSound(r) && r.arrived == r.processed + Unprocessed(r)
  {
  }

  /** The step frees only what is live, each block once, and ownership and order stay exact. */
  lemma StepKeepsInv(s: State, e: Event)
    requires Inv(s) && Enabled(s, e)
    ensures FreesLiveOnce(s, e) && Inv(Step(s, e))
  {
    StepKeepsOwned(s, e);
    StepKeepsOrder(s, e);
  }

  predicate Runs(s: State, es: seq<Event>)
    decreases |es|
  {
    es == [] || (HandlerSound(s) && Enabled(s, es[0]) && Runs(Step(s, es[0]), es[1..]))
  }

  function Run(s: State, es: seq<Event>): State
    requires Runs(s, es)
    decreases |es|
  {
    if es == [] then s else Run(Step(s, es[0]), es[1..])
  }

  /** Over every interleaving, a JSON tree, payload copy or item is live exactly while one of the
      handler, a callback, the queue or the gateway thread refers to it, never two of them; and
      items are processed in the order they arrived. */
  lemma {:induction false} EveryRunOwnsExactly(s: State, es: seq<Event>)
    requires Inv(s) && Runs(s, es)
    ensures Inv(Run(s, es))
    ensures Run(s, es).processed <= Run(s, es).arrived
    decreases |es|
  {
    if es != [] {
      StepKeepsInv(s, es[0]);
      EveryRunOwnsExactly(Step(s, es[0]), es[1..]);
    }
  }

  /** When nobody is busy and the queue is empty, nothing is left allocated. */
  lemma QuiescentRunsLeakNothing(es: seq<Event>)
    requires Runs(Init(), es)
    requires var s := Run(Init(), es);
      s.handler.Off? && s.callback.Quiet? && s.current.None? && s.fifo == []
    ensures Run(Init(), es).live == {} && Run(Init(), es).processed == Run(Init(), es).arrived
  {
    EveryRunOwnsExactly(Init(), es);
    var s := Run(Init(), es);
    assert forall b: nat :: Refs(s, b) == 0;
  }

  // ---------------------------------------------------------------- what becomes of a message

  /** A message that asks for the operation `p`. */
  predicate Asks(m: Message, p: Proc) {
    m.Json? && m.kind == Text("operation") && m.operation == Some(Text(NameOf(p)))
  }

  /** `gateway_handler` from its call to its return, undisturbed. */
  function Handled(s: State, m: Message, memory: bool): State
    requires s.handler.Off? && HandlerSound(s)
  {
    var a := Step(s, Receive(m));
    if a.handler.Off? then a
    else
      var b := Step(a, Examine(memory));
      if b.handler.Off? then b else Step(b, Dispatch)
  }

  /** What it returns. */
  function Verdict(m: Message, memory: bool): Code {
    match m
    case Shadow => Accepted
    case NotJson => NoEntry
    case Json(_, _) =>
      if Check(m) != Accepted then Check(m)
      else if !memory then NoMemory
      else if Known(m) then Accepted
      else InvalidArg
  }

  /** Passing all the tests is asking for an operation. */
  lemma PassesIffAsks(m: Message, p: Proc)
    ensures Asks(m, p) <==>
            m.Json? && Check(m) == Accepted && Known(m) && ProcOf(m.operation.value.text) == Some(p)
  {
    hide NameOf;
    hide ProcOf;
    if m.Json? && Check(m) == Accepted {
      ProcsAreNamed(m.operation.value.text, p);
    }
  }

  /** A message that asks for an operation is queued behind all others, with its tree, if there is
      memory for the item; it is accepted. */
  lemma OperationIsQueued(s: State, m: Message, p: Proc)
    requires Inv(s) && s.handler.Off? && Asks(m, p)
    ensures var r, item := Handled(s, m, true), Item(s.next + 1, Some(s.next), None, Cloud(p));
      && r.fifo == s.fifo + [item] && r.arrived == s.arrived + [item]
      && r.live == s.live + {s.next, s.next + 1} && r.handler.Off?
      && Verdict(m, true) == Accepted
  {
    PassesIffAsks(m, p);
    hide Check;
    hide Known;
    hide ProcOf;
    var a := Step(s, Receive(m));
    StepKeepsInv(s, Receive(m));
    var b := Step(a, Examine(true));
    assert b.handler == Allocated(m, s.next, s.next + 1);
  }

  /** Every other message leaves nothing behind, and so does any without memory. It is refused
      unless it is about the shadow. */
  lemma OthersAreDropped(s: State, m: Message, memory: bool)
    requires Inv(s) && s.handler.Off? && (!memory || forall p :: !Asks(m, p))
    ensures var r := Handled(s, m, memory); r == s.(next := r.next)
    ensures Verdict(m, memory) == Accepted <==> m.Shadow?
  {
    if m.Json? && Check(m) == Accepted && Known(m) {
      PassesIffAsks(m, ProcOf(m.operation.value.text).value);
    }
    hide Check;
    hide Known;
    hide ProcOf;
    hide Handled;
    if m.Json? && Check(m) == Accepted && memory {
      DroppedAtDispatch(s, m);
    } else {
      DroppedEarly(s, m, memory);
    }
  }

  lemma DroppedEarly(s: State, m: Message, memory: bool)
    requires Inv(s) && s.handler.Off? && (m.Json? && Check(m) == Accepted ==> !memory)
    ensures var r := Handled(s, m, memory); r == s.(next := r.next)
  {
    hide Check;
    hide Known;
    assert s.next !in s.live;
  }

  lemma DroppedAtDispatch(s: State, m: Message)
    requires Inv(s) && s.handler.Off? && m.Json? && Check(m) == Accepted && !Known(m)
    ensures var r := Handled(s, m, true); r == s.(next := r.next)
  {
    hide Check;
    hide Known;
    assert s.next !in s.live && s.next + 1 !in s.live;
    var a := Step(s, Receive(m));
    assert a == s.(live := s.live + {s.next}, next := s.next + 1, handler := Parsed(m, s.next));
    var b := Step(a, Examine(true));
    assert b == s.(live := s.live + {s.next} + {s.next + 1}, next := s.next + 2,
                   handler := Allocated(m, s.next, s.next + 1));
    assert Freed(b, Dispatch) == [s.next + 1, s.next];
    assert Step(b, Dispatch).live == s.live;
  }

  /** Which refusal a message gets: a field that is missing or no string, a type or an operation
      that is not known, no memory. */
  lemma VerdictIs(m: Message, memory: bool)
    ensures var wellFormed := m.Json? && m.kind == Text("operation") && m.operation.Some? && m.operation.value.Text?;
      && (Verdict(m, memory) == NoMemory <==> wellFormed && !memory)
      && (Verdict(m, memory) == InvalidArg <==>
            || (m.Json? && m.kind.Text? && m.kind.text != "operation")
            || (wellFormed && memory && forall p :: !Asks(m, p)))
  {
    if m.Json? && Check(m) == Accepted && Known(m) {
      PassesIffAsks(m, ProcOf(m.operation.value.text).value);
    }
    if p :| Asks(m, p) {
      PassesIffAsks(m, p);
    }
    hide Known;
    hide ProcOf;
    hide Asks;
  }

  /** A message from the mesh is queued behind all others, with a copy of its payload. */
  lemma MeshMessageIsQueued(s: State, source: Source)
    requires Inv(s) && s.callback.Quiet? && !source.Cloud?
    ensures var copied := Step(s, MeshCopies(source));
      Enabled(copied, MeshQueues) &&
      var r, item := Step(copied, MeshQueues), Item(s.next + 1, None, Some(s.next), source);
      && r.fifo == s.fifo + [item] && r.arrived == s.arrived + [item]
      && r.live == s.live + {s.next, s.next + 1} && r.callback.Quiet?
  {
  }
}
