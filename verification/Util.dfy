/** Byte strings of fixed length, their hexadecimal text and their order (`src/util.c`). */
module Util {

  datatype Option<+T> = None | Some(value: T)

  type Byte = b: int | 0 <= b < 256

  type Uint16 = n: int | 0 <= n < 0x1_0000

  function Bit(b: bool): nat {
    if b then 1 else 0
  }

  const LEN := 16

  // ---------------------------------------------------------------- order

  /** `memcmp`: the difference of the first pair of bytes that differ. */
  function MemCmp(a: seq<Byte>, b: seq<Byte>): int
    requires |a| == |b|
  {
    if a == [] then 0
    else if a[0] != b[0] then a[0] - b[0]
    else MemCmp(a[1..], b[1..])
  }

  /** The number a byte string denotes when it is read most significant byte first. */
  function Rank(a: seq<Byte>): nat {
    if a == [] then 0 else 256 * Rank(a[..|a| - 1]) + a[|a| - 1]
  }

  lemma {:induction false} MemCmpLast(a: seq<Byte>, b: seq<Byte>)
    requires |a| == |b| > 0
    ensures var c := MemCmp(a[..|a| - 1], b[..|b| - 1]);
            MemCmp(a, b) == if c != 0 then c else a[|a| - 1] as int - b[|b| - 1]
  {
    if |a| > 1 {
      MemCmpLast(a[1..], b[1..]);
      assert a[1..][..|a| - 2] == a[..|a| - 1][1..];
      assert b[1..][..|b| - 2] == b[..|b| - 1][1..];
    }
  }

  /** `memcmp` orders byte strings of one length as the numbers they denote. */
  lemma {:induction false} MemCmpIsRankOrder(a: seq<Byte>, b: seq<Byte>)
    requires |a| == |b|
    ensures MemCmp(a, b) < 0 <==> Rank(a) < Rank(b)
    ensures MemCmp(a, b) == 0 <==> Rank(a) == Rank(b)
    ensures MemCmp(a, b) == 0 <==> a == b
  {
    if a != [] {
      var m := |a| - 1;
      MemCmpLast(a, b);
      MemCmpIsRankOrder(a[..m], b[..m]);
      assert a == a[..m] + [a[m]] && b == b[..m] + [b[m]];
    }
  }

  function Pow256(n: nat): (p: nat)
    ensures p > 0
  {
    if n == 0 then 1 else 256 * Pow256(n - 1)
  }

  /** The low `len` bytes of a number, most significant byte first. */
  function BytesOf(n: nat, len: nat): (a: seq<Byte>)
    ensures |a| == len
  {
    if len == 0 then [] else BytesOf(n / 256, len - 1) + [n % 256]
  }

  lemma {:induction false} RankOfBytes(n: nat, len: nat)
    requires n < Pow256(len)
    ensures Rank(BytesOf(n, len)) == n
  {
    if len > 0 {
      RankOfBytes(n / 256, len - 1);
      assert BytesOf(n, len)[..len - 1] == BytesOf(n / 256, len - 1);
    }
  }

  lemma {:induction false} BytesOfRank(a: seq<Byte>)
    ensures Rank(a) < Pow256(|a|) && BytesOf(Rank(a), |a|) == a
  {
    if a != [] {
      BytesOfRank(a[..|a| - 1]);
      assert a == a[..|a| - 1] + [a[|a| - 1]];
    }
  }

  /** A 16-byte UUID, represented by the number its bytes denote. By `MemCmpIsRankOrder`
      comparing two UUIDs with `memcmp` is comparing these numbers. */
  type Uuid = n: nat | n < 0x1_0000_0000_0000_0000_0000_0000_0000_0000

  function UuidBytes(u: Uuid): seq<Byte> {
    BytesOf(u, LEN)
  }

  /** The 16-byte strings and the UUIDs correspond one to one, and `util_uuid_cmp` on the bytes
      is the order of the numbers. */
  lemma UuidsAreByteStrings(a: seq<Byte>, b: seq<Byte>)
    requires |a| == |b| == LEN
    ensures Rank(a) < 0x1_0000_0000_0000_0000_0000_0000_0000_0000
    ensures UuidBytes(Rank(a)) == a
    ensures MemCmp(a, b) < 0 <==> Rank(a) < Rank(b)
    ensures MemCmp(a, b) == 0 <==> Rank(a) == Rank(b)
  {
    UuidLimit();
    BytesOfRank(a);
    MemCmpIsRankOrder(a, b);
  }

  lemma UuidLimit()
    ensures Pow256(LEN) == 0x1_0000_0000_0000_0000_0000_0000_0000_0000
  {
    assert Pow256(4) == 0x1_0000_0000;
    assert Pow256(8) == 0x1_0000_0000_0000_0000;
    assert Pow256(12) == 0x1_0000_0000_0000_0000_0000_0000;
  }

  // ---------------------------------------------------------------- hexadecimal text

  function Digit(nibble: int): char
    requires 0 <= nibble < 16
  {
    if nibble < 10 then (nibble + 48) as char else (nibble + 87) as char
  }

  predicate IsHex(c: char) {
    '0' <= c <= '9' || 'A' <= c <= 'F' || 'a' <= c <= 'f'
  }

  function Nibble(c: char): (n: int)
    requires IsHex(c)
    ensures 0 <= n < 16
  {
    if '0' <= c <= '9' then c as int - 48
    else if 'A' <= c <= 'F' then c as int - 55
    else c as int - 87
  }

  function Lower(c: char): char {
    if 'A' <= c <= 'Z' then (c as int + 32) as char else c
  }

  predicate AllHex(s: string) {
    forall i | 0 <= i < |s| :: IsHex(s[i])
  }

  /** A string the program accepts as a UUID or a key. */
  predicate ValidText(s: string) {
    |s| == 2 * LEN && AllHex(s)
  }

  /** Two lower-case digits a byte, most significant nibble first. */
  function HexText(a: seq<Byte>): (s: string)
    ensures |s| == 2 * |a|
  {
    if a == [] then [] else [Digit(a[0] / 16), Digit(a[0] % 16)] + HexText(a[1..])
  }

  predicate IsSpace(c: char) {
    c == ' ' || 9 <= c as int <= 13
  }

  /** The six blanks of `isspace`. */
  lemma BlanksAre(c: char)
    ensures IsSpace(c) <==> c in [' ', '\t', '\n', '\U{0B}', '\U{0C}', '\r']
  {
  }

  const ULONG_MAX := 0xFFFF_FFFF

  /** The digits at the front of a string, behind a number already read. */
  function HexNumber(s: string, acc: nat): nat {
    if s == [] || !IsHex(s[0]) then acc else HexNumber(s[1..], 16 * acc + Nibble(s[0]))
  }

  /** A number with or without the prefix "0x". */
  function Magnitude(s: string): nat {
    var prefixed := |s| > 2 && s[0] == '0' && Lower(s[1]) == 'x' && IsHex(s[2]);
    HexNumber(if prefixed then s[2..] else s, 0)
  }

  /** `strtoul` with base 16: blanks and a sign may come first, reading stops at the first
      character that is no digit, a minus wraps around, and numbers too large saturate. */
  function Strtoul16(s: string): (n: nat)
    ensures n <= ULONG_MAX
  {
    if s == [] then 0
    else if IsSpace(s[0]) then Strtoul16(s[1..])
    else
      var m := Magnitude(if s[0] in "+-" then s[1..] else s);
      if m > ULONG_MAX then ULONG_MAX
      else if s[0] == '-' && m > 0 then ULONG_MAX + 1 - m
      else m
  }

  /** The byte `util_str2` reads from an array of two characters that has no terminator: reading
      may go on in whatever lies behind the array. */
  function ReadByte(hi: char, lo: char, behind: string): Byte {
    Strtoul16([hi, lo] + behind) % 256
  }

  /** What lies behind the array ends the number. */
  predicate Stops(behind: string) {
    behind == [] || !IsHex(behind[0])
  }

  predicate AlwaysStops(behind: nat -> string) {
    forall i | 0 <= i < LEN :: Stops(behind(i))
  }

  /** The bytes of a text, where `behind(i)` lies behind the array when byte `i` is read. */
  function FromText(s: string, behind: nat -> string): (a: seq<Byte>)
    requires |s| % 2 == 0
    ensures |a| == |s| / 2
  {
    seq<Byte>(|s| / 2, i requires 0 <= i < |s| / 2 => ReadByte(s[2 * i], s[2 * i + 1], behind(i)))
  }

  function LowerText(s: string): string {
    seq(|s|, i requires 0 <= i < |s| => Lower(s[i]))
  }

  /** Printed text is always accepted by the validity check. */
  lemma {:induction false} PrintedTextIsValid(a: seq<Byte>)
    ensures AllHex(HexText(a))
    ensures |a| == LEN ==> ValidText(HexText(a))
  {
    if a != [] {
      PrintedTextIsValid(a[1..]);
    }
  }

  lemma ReadHexPair(hi: char, lo: char, behind: string)
    requires IsHex(hi) && IsHex(lo) && Stops(behind)
    ensures ReadByte(hi, lo, behind) == 16 * Nibble(hi) + Nibble(lo)
  {
    var s := [hi, lo] + behind;
    assert s[1..][1..] == behind;
    assert HexNumber(s, 0) == HexNumber(s[1..], Nibble(hi)) == HexNumber(behind, 16 * Nibble(hi) + Nibble(lo));
  }

  lemma {:induction false} SameLowByte(s: string, a: nat, k: nat)
    ensures HexNumber(s, a + 256 * k) % 256 == HexNumber(s, a) % 256
  {
    if s != [] && IsHex(s[0]) {
      var d := Nibble(s[0]);
      SameLowByte(s[1..], 16 * a + d, 16 * k);
      assert 16 * (a + 256 * k) + d == 16 * a + d + 256 * (16 * k);
    }
  }

  /** What a terminated array of two characters reads as: a digit alone or after a blank or a plus
      counts as one, a minus wraps around, and what starts with no number is zero. */
  lemma ReadAnyPair(hi: char, lo: char)
    ensures ReadByte(hi, lo, "") ==
      if IsHex(hi) then (if IsHex(lo) then 16 * Nibble(hi) + Nibble(lo) else Nibble(hi))
      else if !IsHex(lo) then 0
      else if IsSpace(hi) || hi == '+' then Nibble(lo)
      else if hi == '-' then (256 - Nibble(lo)) % 256
      else 0
  {
    OneCharacter(lo);
    TwoCharacters(hi, lo);
    var s := [hi, lo] + "";
    assert s == [hi, lo] && s[0] == hi && s[1..] == [lo];
    hide HexNumber;
    hide Nibble;
    hide IsHex;
    hide Magnitude;
  }

  lemma OneCharacter(c: char)
    ensures Strtoul16([c]) == Magnitude([c]) == if IsHex(c) then Nibble(c) else 0
    ensures IsHex(c) ==> !IsSpace(c) && c !in "+-"
  {
    var s := [c];
    var rest := s[1..];
    assert rest == [] && HexNumber(rest, 0) == 0;
    assert IsHex(c) ==> HexNumber(s, 0) == HexNumber(rest, Nibble(c)) == Nibble(c);
    assert Strtoul16(rest) == 0 && Magnitude(rest) == 0;
    assert Magnitude(s) == HexNumber(s, 0);
  }

  lemma TwoCharacters(hi: char, lo: char)
    ensures Magnitude([hi, lo]) ==
            if !IsHex(hi) then 0 else if !IsHex(lo) then Nibble(hi) else 16 * Nibble(hi) + Nibble(lo)
    ensures IsHex(hi) ==> !IsSpace(hi) && hi !in "+-"
  {
    var s := [hi, lo];
    var rest := s[1..];
    assert rest == [lo] && rest[1..] == [];
    if IsHex(hi) && IsHex(lo) {
      assert HexNumber(rest, Nibble(hi)) == HexNumber([], 16 * Nibble(hi) + Nibble(lo));
    }
  }

  function Pow16(n: nat): nat {
    if n == 0 then 1 else 16 * Pow16(n - 1)
  }

  lemma {:induction false} NumbersGrow(s: string, acc: nat)
    ensures HexNumber(s, acc) >= acc
  {
    if s != [] && IsHex(s[0]) {
      NumbersGrow(s[1..], 16 * acc + Nibble(s[0]));
    }
  }

  lemma Sixteenfold(acc: nat, d: nat, p: nat)
    ensures (16 * acc + d) * p >= acc * (16 * p)
  {
    assert (16 * acc + d) * p == acc * (16 * p) + d * p;
  }

  lemma {:induction false} DigitsMultiply(s: string, acc: nat, digits: nat)
    requires digits <= |s| && forall i | 0 <= i < digits :: IsHex(s[i])
    ensures HexNumber(s, acc) >= acc * Pow16(digits)
  {
    hide IsHex;
    hide Nibble;
    if digits == 0 {
      NumbersGrow(s, acc);
    } else {
      var d := Nibble(s[0]);
      DigitsMultiply(s[1..], 16 * acc + d, digits - 1);
      Sixteenfold(acc, d, Pow16(digits - 1));
    }
  }

  lemma PlainNumber(s: string)
    requires s != [] && IsHex(s[0])
    ensures var m := Magnitude(s); Strtoul16(s) == if m > ULONG_MAX then ULONG_MAX else m
  {
    hide Magnitude;
  }

  lemma TwoDigitsFirst(hi: char, lo: char, behind: string)
    requires IsHex(hi) && IsHex(lo)
    ensures Magnitude([hi, lo] + behind) == HexNumber(behind, 16 * Nibble(hi) + Nibble(lo))
  {
    var s := [hi, lo] + behind;
    assert s[1] == lo && s[1..][1..] == behind;
    assert HexNumber(s, 0) == HexNumber(s[1..], Nibble(hi));
  }

  /** A number of nine digits or more saturates, and reads as 0xFF. */
  lemma LongNumbersSaturate(hi: char, lo: char, behind: string)
    requires IsHex(hi) && hi != '0' && IsHex(lo)
    requires |behind| >= 7 && forall i | 0 <= i < 7 :: IsHex(behind[i])
    ensures ReadByte(hi, lo, behind) == 0xFF
  {
    var s, n := [hi, lo] + behind, 16 * Nibble(hi) + Nibble(lo);
    TwoDigitsFirst(hi, lo, behind);
    DigitsMultiply(behind, n, 7);
    PlainNumber(s);
    assert Pow16(7) == 0x1000_0000;
    assert n >= 16;
    hide HexNumber;
    hide IsHex;
    hide Strtoul16;
    hide Magnitude;
  }

  lemma PrefixedNumber(s: string)
    requires |s| > 2 && s[0] == '0' && (s[1] == 'x' || s[1] == 'X') && IsHex(s[2])
    ensures var n := HexNumber(s[2..], 0); Strtoul16(s) == if n > ULONG_MAX then ULONG_MAX else n
  {
    PlainNumber(s);
    hide HexNumber;
    hide Strtoul16;
  }

  /** The prefix "0x" is skipped when digits lie behind it. */
  lemma PrefixIsSkipped(x: char, behind: string)
    requires (x == 'x' || x == 'X') && behind != [] && IsHex(behind[0])
    ensures var n := HexNumber(behind, 0); ReadByte('0', x, behind) == if n > 0xFFFF_FFFF then 0xFF else n % 256
  {
    hide HexNumber;
    hide Strtoul16;
    hide IsHex;
    var s := ['0', x] + behind;
    assert s[2] == behind[0] && s[2..] == behind;
    PrefixedNumber(s);
  }

  /** A digit behind the array garbles 0x10 or 0x20: it pushes both out of the low byte. */
  lemma DigitBehindGarbles(behind: string)
    requires !Stops(behind)
    ensures ReadByte('1', '0', behind) != 0x10 || ReadByte('2', '0', behind) != 0x20
  {
    var s, t := "10" + behind, "20" + behind;
    assert s[1..][1..] == t[1..][1..] == behind;
    assert HexNumber(s, 0) == HexNumber(s[1..], 1) == HexNumber(behind, 16);
    assert HexNumber(t, 0) == HexNumber(t[1..], 2) == HexNumber(behind, 32);
    var d := Nibble(behind[0]);
    SameLowByte(behind[1..], 16 * 16 + d, 1);
  }

  predicate BytesSurvive(a: seq<Byte>, behind: nat -> string) {
    FromText(HexText(a), behind) == a
  }

  /** Bytes to text to bytes is the identity on all keys and UUIDs exactly when no digit ever lies
      behind the array that is read. */
  lemma BytesRoundTripIff(behind: nat -> string)
    ensures (forall a: seq<Byte> | |a| == LEN :: BytesSurvive(a, behind)) <==> AlwaysStops(behind)
  {
    if AlwaysStops(behind) {
      forall a: seq<Byte> | |a| == LEN ensures BytesSurvive(a, behind) {
        StoppedBytesSurvive(a, behind);
      }
    } else {
      var i :| 0 <= i < LEN && !Stops(behind(i));
      GarbledAt(behind, i);
    }
  }

  lemma StoppedBytesSurvive(a: seq<Byte>, behind: nat -> string)
    requires |a| == LEN && AlwaysStops(behind)
    ensures BytesSurvive(a, behind)
  {
    hide ReadByte;
    var s := HexText(a);
    PrintedTextIsValid(a);
    forall i | 0 <= i < LEN ensures FromText(s, behind)[i] == a[i] {
      HexTextAt(a, i);
      ReadHexPair(s[2 * i], s[2 * i + 1], behind(i));
    }
  }

  lemma GarbledAt(behind: nat -> string, i: nat)
    requires i < LEN && !Stops(behind(i))
    ensures exists a: seq<Byte> :: |a| == LEN && !BytesSurvive(a, behind)
  {
    hide ReadByte;
    var a, b := seq(LEN, k => 0x10), seq(LEN, k => 0x20);
    DigitBehindGarbles(behind(i));
    HexTextAt(a, i);
    HexTextAt(b, i);
    assert FromText(HexText(a), behind)[i] != a[i] || FromText(HexText(b), behind)[i] != b[i];
    assert |a| == |b| == LEN && (!BytesSurvive(a, behind) || !BytesSurvive(b, behind));
  }

  lemma PairRoundTrip(hi: char, lo: char)
    requires IsHex(hi) && IsHex(lo)
    ensures var b := 16 * Nibble(hi) + Nibble(lo); Digit(b / 16) == Lower(hi) && Digit(b % 16) == Lower(lo)
  {
  }

  /** Printing the bytes read from a text gives the text in lower case. */
  predicate TextSurvives(s: string, behind: nat -> string)
    requires |s| % 2 == 0
  {
    HexText(FromText(s, behind)) == LowerText(s)
  }

  lemma HexTextSurvives(s: string, behind: nat -> string)
    requires ValidText(s) && AlwaysStops(behind)
    ensures TextSurvives(s, behind)
  {
    hide ReadByte;
    hide Digit;
    hide Nibble;
    hide Lower;
    var a := FromText(s, behind);
    forall k | 0 <= k < 2 * LEN ensures HexText(a)[k] == LowerText(s)[k] {
      var i := k / 2;
      HexTextAt(a, i);
      ReadHexPair(s[2 * i], s[2 * i + 1], behind(i));
      PairRoundTrip(s[2 * i], s[2 * i + 1]);
    }
  }

  lemma SurvivorsAreHex(s: string, behind: nat -> string)
    requires |s| % 2 == 0 && TextSurvives(s, behind)
    ensures AllHex(s)
  {
    hide FromText;
    hide HexText;
    PrintedTextIsValid(FromText(s, behind));
    forall i | 0 <= i < |s| ensures IsHex(s[i]) {
      assert IsHex(LowerText(s)[i]);
    }
  }

  /** Text to bytes to text is lower-casing on all the texts the validity check lets through
      exactly when no digit ever lies behind the array; it then is on no other text. */
  lemma TextRoundTripIff(behind: nat -> string)
    ensures (forall s | ValidText(s) :: TextSurvives(s, behind)) <==> AlwaysStops(behind)
    ensures forall s | |s| == 2 * LEN && TextSurvives(s, behind) :: ValidText(s)
  {
    hide FromText;
    forall s | |s| == 2 * LEN && TextSurvives(s, behind) ensures ValidText(s) {
      SurvivorsAreHex(s, behind);
    }
    if AlwaysStops(behind) {
      forall s | ValidText(s) ensures TextSurvives(s, behind) {
        HexTextSurvives(s, behind);
      }
    } else if forall s | ValidText(s) :: TextSurvives(s, behind) {
      BytesRoundTripIff(behind);
      var a: seq<Byte> :| |a| == LEN && !BytesSurvive(a, behind);
      PrintedTextIsValid(a);
      LowerIsPrinted(a);
      assert TextSurvives(HexText(a), behind);
      HexTextInjective(FromText(HexText(a), behind), a);
    }
  }

  /** Printed text has no upper-case letters. */
  lemma {:induction false} LowerIsPrinted(a: seq<Byte>)
    ensures LowerText(HexText(a)) == HexText(a)
  {
    if a != [] {
      LowerIsPrinted(a[1..]);
      assert LowerText(HexText(a))[2..] == LowerText(HexText(a[1..]));
      assert HexText(a) == HexText(a)[..2] + HexText(a[1..]);
    }
  }

  lemma HexTextInjective(a: seq<Byte>, b: seq<Byte>)
    requires HexText(a) == HexText(b)
    ensures a == b
  {
    forall i | 0 <= i < |a| ensures a[i] == b[i] {
      HexTextAt(a, i);
      HexTextAt(b, i);
    }
  }

  /** `strcmp` on strings of one length. */
  function TextCmp(a: string, b: string): int
    requires |a| == |b|
  {
    if a == [] then 0
    else if a[0] != b[0] then a[0] as int - b[0] as int
    else TextCmp(a[1..], b[1..])
  }

  /** Comparing the bytes and comparing the printed strings agree, so a table kept in byte order
      is in the order of its stored strings. */
  lemma {:induction false} TextOrderIsByteOrder(a: seq<Byte>, b: seq<Byte>)
    requires |a| == |b|
    ensures MemCmp(a, b) < 0 <==> TextCmp(HexText(a), HexText(b)) < 0
    ensures MemCmp(a, b) == 0 <==> TextCmp(HexText(a), HexText(b)) == 0
  {
    if a != [] {
      TextOrderIsByteOrder(a[1..], b[1..]);
      var s, t := HexText(a), HexText(b);
      assert s[1..][1..] == HexText(a[1..]) && t[1..][1..] == HexText(b[1..]);
      assert a[0] < b[0] <==> a[0] / 16 < b[0] / 16 || (a[0] / 16 == b[0] / 16 && a[0] % 16 < b[0] % 16);
      assert s[0] == t[0] ==> TextCmp(s, t) == TextCmp(s[1..], t[1..]);
    }
  }

  function UuidText(u: Uuid): string {
    HexText(UuidBytes(u))
  }

  lemma UuidTextOrder(u: Uuid, v: Uuid)
    ensures |UuidText(u)| == |UuidText(v)| == 2 * LEN
    ensures u < v <==> TextCmp(UuidText(u), UuidText(v)) < 0
    ensures ValidText(UuidText(u))
  {
    UuidLimit();
    RankOfBytes(u, LEN);
    RankOfBytes(v, LEN);
    MemCmpIsRankOrder(UuidBytes(u), UuidBytes(v));
    TextOrderIsByteOrder(UuidBytes(u), UuidBytes(v));
    PrintedTextIsValid(UuidBytes(u));
  }

  // ---------------------------------------------------------------- the loops

  lemma {:induction false} HexTextAt(a: seq<Byte>, i: nat)
    requires i < |a|
    ensures HexText(a)[2 * i] == Digit(a[i] / 16) && HexText(a)[2 * i + 1] == Digit(a[i] % 16)
  {
    if i > 0 {
      HexTextAt(a[1..], i - 1);
    }
  }

  /** `util_2str`: fills the caller's 33 characters, terminator included. */
  method ToText(arr: array<Byte>, str: array<char>)
    requires arr.Length == LEN && str.Length == 2 * LEN + 1
    modifies str
    ensures str[..2 * LEN] == HexText(arr[..]) && str[2 * LEN] == '\0'
  {
    for i := 0 to LEN
      invariant forall k | 0 <= k < 2 * i :: str[k] == HexText(arr[..])[k]
    {
      HexTextAt(arr[..], i);
      str[2 * i] := Digit(arr[i] / 16);
      str[2 * i + 1] := Digit(arr[i] % 16);
    }
    str[2 * LEN] := '\0';
  }

  /** `util_str2`: fills the caller's 16 bytes from two characters each, valid or not. */
  method ToBytes(str: string, arr: array<Byte>, behind: nat -> string)
    requires |str| == 2 * LEN && arr.Length == LEN
    modifies arr
    ensures arr[..] == FromText(str, behind)
  {
    for i := 0 to LEN
      invariant forall k | 0 <= k < i :: arr[k] == FromText(str, behind)[k]
    {
      hide ReadByte;
      arr[i] := ReadByte(str[2 * i], str[2 * i + 1], behind(i));
    }
  }

  /** The characters before the terminator of a C string. */
  function CString(buffer: seq<char>): (s: string)
    requires '\0' in buffer
    ensures |s| < |buffer| && s == buffer[..|s|] && buffer[|s|] == '\0' && '\0' !in s
  {
    if buffer[0] == '\0' then [] else [buffer[0]] + CString(buffer[1..])
  }

  /** `util_valid`: true exactly for 32 hexadecimal digits, and never reads past the terminator. */
  method IsValid(str: seq<char>) returns (valid: bool)
    requires '\0' in str
    ensures valid <==> ValidText(CString(str))
  {
    var s := CString(str);
    var i := 0;
    while i < 2 * LEN
      invariant 0 <= i <= 2 * LEN && i <= |s|
      invariant forall k | 0 <= k < i :: IsHex(s[k])
    {
      if '0' <= str[i] <= '9' {
      } else if 'A' <= str[i] <= 'F' {
      } else if 'a' <= str[i] <= 'f' {
      } else {
        assert i < |s| ==> !IsHex(s[i]);
        return false;
      }
      i := i + 1;
    }
    return str[i] == '\0';
  }
}
