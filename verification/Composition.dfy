/** Composition Data Page 0 (section 4.2.1.1 of the Mesh Profile specification): its bytes, the
    element list they encode, and the buffer both walkers of `src/btmesh.c` consume. */
module Composition {
  import opened Util

  datatype ModelId = Sig(id: Uint16) | Vnd(company: Uint16, id: Uint16)

  datatype Element = Element(loc: Uint16, sig: seq<ModelId>, vnd: seq<ModelId>)

  /** The element counts are single bytes. */
  predicate Encodable(e: Element) {
    && |e.sig| < 256 && |e.vnd| < 256
    && (forall i | 0 <= i < |e.sig| :: e.sig[i].Sig?)
    && (forall i | 0 <= i < |e.vnd| :: e.vnd[i].Vnd?)
  }

  predicate AllEncodable(es: seq<Element>) {
    forall i | 0 <= i < |es| :: Encodable(es[i])
  }

  const HEADER_LEN := 10
  const COMP_DATA_BUF_SIZE := 64

  /** The unicast address of the i-th element, a 16-bit sum. */
  function ElemAddr(addr: Uint16, i: nat): Uint16 {
    (addr + i) % 0x1_0000
  }

  /** The elements count up from the node's address, and the address after 0xFFFF is 0. */
  lemma AddressesCount(addr: Uint16, i: nat)
    ensures ElemAddr(addr, 0) == addr
    ensures ElemAddr(addr, i + 1) == if ElemAddr(addr, i) == 0xFFFF then 0 else ElemAddr(addr, i) + 1
  {
  }

  function Le16(n: Uint16): (b: seq<Byte>)
    ensures |b| == 2
  {
    [n % 256, n / 256]
  }

  function FromLe16(lo: Byte, hi: Byte): Uint16 {
    256 * hi + lo
  }

  function EncodeId(m: ModelId): seq<Byte> {
    if m.Sig? then Le16(m.id) else Le16(m.company) + Le16(m.id)
  }

  function EncodeIds(ids: seq<ModelId>): seq<Byte> {
    if ids == [] then [] else EncodeId(ids[0]) + EncodeIds(ids[1..])
  }

  function EncodeElement(e: Element): seq<Byte>
    requires Encodable(e)
  {
    Le16(e.loc) + [|e.sig|, |e.vnd|] + EncodeIds(e.sig) + EncodeIds(e.vnd)
  }

  function EncodeElements(es: seq<Element>): seq<Byte>
    requires AllEncodable(es)
  {
    if es == [] then [] else EncodeElement(es[0]) + EncodeElements(es[1..])
  }

  function ElementSize(e: Element): nat {
    4 + |EncodeIds(e.sig)| + |EncodeIds(e.vnd)|
  }

  lemma EncodeFrom(es: seq<Element>, i: nat, tail: seq<Byte>)
    requires AllEncodable(es) && i <= |es|
    ensures EncodeElements(es[i..]) + tail ==
            if i == |es| then tail else EncodeElement(es[i]) + (EncodeElements(es[i + 1..]) + tail)
  {
  }

  lemma ElementFirst(es: seq<Element>, i: nat)
    requires AllEncodable(es) && i <= |es|
    ensures EncodeElements(es[i..]) == if i == |es| then [] else EncodeElement(es[i]) + EncodeElements(es[i + 1..])
  {
    EncodeFrom(es, i, []);
  }

  // ---------------------------------------------------------------- decoding

  /** Reads `n` model identifiers; `None` when the bytes run out. */
  function ParseIds(b: seq<Byte>, n: nat, vendor: bool): (r: Option<(seq<ModelId>, seq<Byte>)>)
    ensures r.Some? ==> |r.value.0| == n
  {
    var size := if vendor then 4 else 2;
    if n == 0 then Some(([], b))
    else if |b| < size then None
    else
      var id := if vendor then Vnd(FromLe16(b[0], b[1]), FromLe16(b[2], b[3])) else Sig(FromLe16(b[0], b[1]));
      match ParseIds(b[size..], n - 1, vendor)
      case None => None
      case Some((ids, rest)) => Some(([id] + ids, rest))
  }

  function ParseElement(b: seq<Byte>): Option<(Element, seq<Byte>)> {
    if |b| < 4 then None
    else
      match ParseIds(b[4..], b[2], false)
      case None => None
      case Some((sig, rest)) =>
        match ParseIds(rest, b[3], true)
        case None => None
        case Some((vnd, rest')) => Some((Element(FromLe16(b[0], b[1]), sig, vnd), rest'))
  }

  function ParseElements(b: seq<Byte>, n: nat): Option<(seq<Element>, seq<Byte>)>
    decreases n
  {
    if n == 0 then Some(([], b))
    else
      match ParseElement(b)
      case None => None
      case Some((e, rest)) =>
        match ParseElements(rest, n - 1)
        case None => None
        case Some((es, rest')) => Some(([e] + es, rest'))
  }

  lemma ParseFirstId(m: ModelId, rest: seq<Byte>, n: nat)
    requires n > 0
    ensures ParseIds(EncodeId(m) + rest, n, m.Vnd?) ==
            match ParseIds(rest, n - 1, m.Vnd?)
            case None => None
            case Some((ids, rest')) => Some(([m] + ids, rest'))
  {
    assert (EncodeId(m) + rest)[|EncodeId(m)|..] == rest;
  }

  lemma {:induction false} ParseIdsUndoesEncode(ids: seq<ModelId>, vendor: bool, tail: seq<Byte>)
    requires forall i | 0 <= i < |ids| :: ids[i].Vnd? == vendor
    ensures ParseIds(EncodeIds(ids) + tail, |ids|, vendor) == Some((ids, tail))
  {
    if ids == [] {
      assert EncodeIds(ids) + tail == tail;
    } else {
      var rest := EncodeIds(ids[1..]) + tail;
      assert EncodeIds(ids) + tail == EncodeId(ids[0]) + rest;
      ParseFirstId(ids[0], rest, |ids|);
      ParseIdsUndoesEncode(ids[1..], vendor, tail);
      assert ids == [ids[0]] + ids[1..];
    }
  }

  /** A model identifier: sixteen bits, least significant byte first, and for a vendor model the
      company before them. */
  lemma IdBytes(m: ModelId)
    ensures var b := EncodeId(m);
      if m.Sig? then |b| == 2 && b[0] + 256 * b[1] as int == m.id
      else |b| == 4 && b[0] + 256 * b[1] as int == m.company && b[2] + 256 * b[3] as int == m.id
  {
  }

  /** The header of an encoded element, location and numbers of models, and what follows it. */
  lemma ElementBytes(e: Element, tail: seq<Byte>)
    requires Encodable(e)
    ensures var b := EncodeElement(e) + tail;
      && |b| >= 4 && b[0] + 256 * b[1] as int == FromLe16(b[0], b[1]) == e.loc && b[2] == |e.sig| && b[3] == |e.vnd|
      && b[4..] == EncodeIds(e.sig) + (EncodeIds(e.vnd) + tail)
  {
    hide EncodeIds;
  }

  lemma ParseElementUndoesEncode(e: Element, tail: seq<Byte>)
    requires Encodable(e)
    ensures ParseElement(EncodeElement(e) + tail) == Some((e, tail))
  {
    ElementBytes(e, tail);
    ParseIdsUndoesEncode(e.sig, false, EncodeIds(e.vnd) + tail);
    ParseIdsUndoesEncode(e.vnd, true, tail);
    hide EncodeElement;
    hide EncodeIds;
    hide ParseIds;
    hide FromLe16;
  }

  /** Parsing undoes encoding, whatever follows the encoded elements. */
  lemma {:induction false} ParseUndoesEncode(es: seq<Element>, tail: seq<Byte>)
    requires AllEncodable(es)
    ensures ParseElements(EncodeElements(es) + tail, |es|) == Some((es, tail))
  {
    hide ParseElement;
    hide EncodeElement;
    if es == [] {
      assert EncodeElements(es) + tail == tail;
    } else {
      var rest := EncodeElements(es[1..]) + tail;
      assert EncodeElements(es) + tail == EncodeElement(es[0]) + rest;
      ParseElementUndoesEncode(es[0], rest);
      ParseUndoesEncode(es[1..], tail);
      assert es == [es[0]] + es[1..];
    }
  }

  lemma EncodeIdsHead(ids: seq<ModelId>, tail: seq<Byte>)
    requires ids != []
    ensures EncodeIds(ids) + tail == EncodeId(ids[0]) + (EncodeIds(ids[1..]) + tail)
  {
  }

  lemma EncodeVndHead(ids: seq<ModelId>, tail: seq<Byte>)
    requires ids != [] && ids[0].Vnd?
    ensures EncodeIds(ids) + tail ==
            Le16(ids[0].company) + (Le16(ids[0].id) + (EncodeIds(ids[1..]) + tail))
  {
    EncodeIdsHead(ids, tail);
    hide EncodeIds;
    hide Le16;
  }

  lemma ParseIdsHead(b: seq<Byte>, n: nat, vendor: bool)
    requires n > 0 && ParseIds(b, n, vendor).Some?
    ensures var size := if vendor then 4 else 2;
      var (ids, rest) := ParseIds(b, n, vendor).value;
      && |b| >= size && ids[0].Vnd? == vendor && EncodeId(ids[0]) == b[..size]
      && ParseIds(b[size..], n - 1, vendor) == Some((ids[1..], rest))
  {
    hide FromLe16;
    hide EncodeId;
    EncodeFirstId(b, vendor);
  }

  lemma EncodeFirstId(b: seq<Byte>, vendor: bool)
    requires |b| >= if vendor then 4 else 2
    ensures if vendor then EncodeId(Vnd(FromLe16(b[0], b[1]), FromLe16(b[2], b[3]))) == b[..4]
            else EncodeId(Sig(FromLe16(b[0], b[1]))) == b[..2]
  {
  }

  lemma {:induction false} EncodeIdsUndoesParse(b: seq<Byte>, n: nat, vendor: bool)
    requires ParseIds(b, n, vendor).Some?
    ensures var (ids, rest) := ParseIds(b, n, vendor).value;
      (forall i | 0 <= i < |ids| :: ids[i].Vnd? == vendor) && b == EncodeIds(ids) + rest
    decreases n
  {
    if n > 0 {
      var size := if vendor then 4 else 2;
      ParseIdsHead(b, n, vendor);
      EncodeIdsUndoesParse(b[size..], n - 1, vendor);
      hide ParseIds;
      hide EncodeId;
      var (all, rest) := ParseIds(b, n, vendor).value;
      EncodeIdsHead(all, rest);
      assert b == b[..size] + b[size..];
    }
  }

  lemma EncodeElementUndoesParse(b: seq<Byte>)
    requires ParseElement(b).Some?
    ensures var (e, rest) := ParseElement(b).value; Encodable(e) && b == EncodeElement(e) + rest
  {
    hide ParseIds;
    hide EncodeIds;
    var (sig, rest) := ParseIds(b[4..], b[2], false).value;
    EncodeIdsUndoesParse(b[4..], b[2], false);
    EncodeIdsUndoesParse(rest, b[3], true);
    assert b == b[..4] + b[4..];
    assert b[..4] == Le16(FromLe16(b[0], b[1])) + [b[2], b[3]];
  }

  /** Every byte string the walkers can get through is the encoding of what they read. */
  lemma {:induction false} EncodeUndoesParse(b: seq<Byte>, n: nat)
    requires ParseElements(b, n).Some?
    ensures var (es, rest) := ParseElements(b, n).value;
      |es| == n && AllEncodable(es) && b == EncodeElements(es) + rest
    decreases n
  {
    if n > 0 {
      var (e, rest) := ParseElement(b).value;
      EncodeElementUndoesParse(b);
      EncodeUndoesParse(rest, n - 1);
      var es := ParseElements(rest, n - 1).value.0;
      assert ([e] + es)[1..] == es;
    }
  }

  /** Composition data that is cut off does not parse: the walkers need every byte. */
  lemma CutNeverParses(es: seq<Element>, k: nat)
    requires AllEncodable(es) && k <= |EncodeElements(es)|
    ensures ParseElements(EncodeElements(es)[..k], |es|).Some? <==> k == |EncodeElements(es)|
  {
    hide EncodeElements;
    hide ParseElements;
    var full := EncodeElements(es);
    ParseUndoesEncode(es, []);
    assert full + [] == full && full[..|full|] == full;
    if ParseElements(full[..k], |es|).Some? {
      assert full[..k] + full[k..] == full;
      ParsedMeansWhole(full[..k], full[k..], es);
    }
  }

  lemma ParsedMeansWhole(b: seq<Byte>, cut: seq<Byte>, es: seq<Element>)
    requires ParseElements(b, |es|).Some? && ParseElements(b + cut, |es|) == Some((es, []))
    ensures cut == []
  {
    hide EncodeElements;
    hide ParseElements;
    hide AllEncodable;
    EncodeUndoesParse(b, |es|);
    var (read, rest) := ParseElements(b, |es|).value;
    ParseUndoesEncode(read, rest + cut);
    assert b + cut == EncodeElements(read) + (rest + cut);
  }

  // ---------------------------------------------------------------- the buffer

  lemma PulledFirst(b: seq<Byte>, n: Uint16, after: seq<Byte>)
    requires b == Le16(n) + after
    ensures |b| >= 2 && FromLe16(b[0], b[1]) == n && b[2..] == after
  {
  }

  /** A `net_buf_simple` that is only read from: pulling drops bytes from the front. What did not
      fit when it was filled is lost. Pulling more than is left fails an assertion; the callers
      of the single pulls report that as a failed read. */
  class Buffer {
    var rest: seq<Byte>
    ghost const lost: seq<Byte>

    /** What would be left to read had nothing been lost. */
    ghost function All(): seq<Byte>
      reads this
    {
      rest + lost
    }

    constructor (data: seq<Byte>, size: nat)
      ensures All() == data
      ensures if |data| <= size then rest == data else rest == data[..size]
    {
      rest := if |data| <= size then data else data[..size];
      lost := if |data| <= size then [] else data[size..];
    }

    method PullMem(n: nat)
      requires n <= |rest|
      modifies this
      ensures rest == old(rest)[n..]
    {
      rest := rest[n..];
    }

    method PullU8() returns (n: Byte)
      requires |rest| >= 1
      modifies this
      ensures n == old(rest)[0] && rest == old(rest)[1..]
    {
      n := rest[0];
      rest := rest[1..];
    }

    method PullLe16() returns (n: Uint16)
      requires |rest| >= 2
      modifies this
      ensures n == FromLe16(old(rest)[0], old(rest)[1]) && rest == old(rest)[2..]
    {
      n := FromLe16(rest[0], rest[1]);
      rest := rest[2..];
    }

    /** Pulls a number known to come first. */
    method PullKnown(ghost known: Uint16, ghost after: seq<Byte>) returns (n: Uint16)
      requires |rest| >= 2 && All() == Le16(known) + after
      modifies this
      ensures n == known && All() == after && |rest| == old(|rest|) - 2
    {
      PulledFirst(All(), known, after);
      assert All()[0] == rest[0] && All()[1] == rest[1] && All()[2..] == rest[2..] + lost;
      n := PullLe16();
    }

    /** The element header both walkers read first. */
    method PullCounts(ghost e: Element, ghost tail: seq<Byte>)
      returns (ok: bool, loc: Uint16, sigCount: Byte, vndCount: Byte)
      requires Encodable(e) && All() == EncodeElement(e) + tail
      modifies this
      ensures ok <==> old(|rest|) >= 4
      ensures ok ==>
        && loc == e.loc && sigCount == |e.sig| && vndCount == |e.vnd|
        && All() == EncodeIds(e.sig) + (EncodeIds(e.vnd) + tail) && |rest| == old(|rest|) - 4
    {
      hide EncodeIds;
      hide Le16;
      if |rest| < 4 {
        return false, 0, 0, 0;
      }
      ghost var models := EncodeIds(e.sig) + (EncodeIds(e.vnd) + tail);
      assert EncodeElement(e) + tail == Le16(e.loc) + ([|e.sig|, |e.vnd|] + models);
      loc := PullKnown(e.loc, [|e.sig|, |e.vnd|] + models);
      assert rest[0] == All()[0] && rest[1] == All()[1] && rest[2..] + lost == All()[2..] == models;
      sigCount := PullU8();
      vndCount := PullU8();
      ok := true;
    }

    method PullSigId(ghost ids: seq<ModelId>, ghost tail: seq<Byte>) returns (ok: bool, m: ModelId)
      requires ids != [] && ids[0].Sig? && All() == EncodeIds(ids) + tail
      modifies this
      ensures ok <==> old(|rest|) >= 2
      ensures ok ==> m == ids[0] && All() == EncodeIds(ids[1..]) + tail && |rest| == old(|rest|) - 2
    {
      if |rest| < 2 {
        return false, Sig(0);
      }
      EncodeIdsHead(ids, tail);
      hide EncodeIds;
      hide Le16;
      var id := PullKnown(ids[0].id, EncodeIds(ids[1..]) + tail);
      return true, Sig(id);
    }

    method PullVndId(ghost ids: seq<ModelId>, ghost tail: seq<Byte>) returns (ok: bool, m: ModelId)
      requires ids != [] && ids[0].Vnd? && All() == EncodeIds(ids) + tail
      modifies this
      ensures ok <==> old(|rest|) >= 4
      ensures ok ==> m == ids[0] && All() == EncodeIds(ids[1..]) + tail && |rest| == old(|rest|) - 4
    {
      if |rest| < 4 {
        return false, Sig(0);
      }
      EncodeVndHead(ids, tail);
      hide EncodeIds;
      hide EncodeId;
      hide Le16;
      ghost var after := EncodeIds(ids[1..]) + tail;
      var company := PullKnown(ids[0].company, Le16(ids[0].id) + after);
      var id := PullKnown(ids[0].id, after);
      return true, Vnd(company, id);
    }

    /** The identifier of a model, one number or two. */
    method PullId(vendor: bool, ghost ids: seq<ModelId>, ghost tail: seq<Byte>) returns (ok: bool, m: ModelId)
      requires ids != [] && ids[0].Vnd? == vendor && All() == EncodeIds(ids) + tail
      modifies this
      ensures ok <==> old(|rest|) >= |EncodeId(ids[0])|
      ensures ok ==>
        && m == ids[0] && All() == EncodeIds(ids[1..]) + tail
        && |rest| == old(|rest|) - |EncodeId(ids[0])|
    {
      hide EncodeIds;
      if vendor {
        ok, m := PullVndId(ids, tail);
      } else {
        ok, m := PullSigId(ids, tail);
      }
    }
  }
}
