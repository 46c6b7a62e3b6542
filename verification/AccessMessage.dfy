/** Access messages: the opcode and payload the gateway puts into a buffer (`src/codec.c` and the
    message command of `src/cli.c`), against the opcode format of section 3.7.3.1 of the Mesh
    Profile specification, and the payload argument of the command line. */
module AccessMessage {
  import opened Util

  type Uint32 = n: int | 0 <= n < 0x1_0000_0000

  const MAX_PAYLOAD_LEN := 32

  // ---------------------------------------------------------------- opcodes

  /** The bytes of an opcode, least significant first. */
  function Byte0(op: Uint32): Byte { op % 256 }
  function Byte1(op: Uint32): Byte { op / 256 % 256 }
  function Byte2(op: Uint32): Byte { op / 0x1_0000 % 256 }
  function Byte3(op: Uint32): Byte { op / 0x100_0000 }

  lemma BytesMakeUp(op: Uint32)
    ensures op == 0x100_0000 * Byte3(op) + 0x1_0000 * Byte2(op) + 256 * Byte1(op) + Byte0(op)
  {
    assert op / 0x1_0000 == op / 256 / 256;
    assert op / 0x100_0000 == op / 0x1_0000 / 256;
  }

  /** The low sixteen bits, as the 16-bit adds of the buffer take them apart. */
  lemma LowHalf(op: Uint32)
    ensures op % 0x1_0000 / 256 == Byte1(op) && op % 0x1_0000 % 256 == Byte0(op)
  {
    assert op / 0x1_0000 == op / 256 / 256;
  }

  /** The opcode bytes, chosen by the highest of the three low bytes that is not zero. */
  function EncodeOpcode(op: Uint32): (b: seq<Byte>)
    ensures |b| <= 3
  {
    if Byte2(op) != 0 then [Byte2(op), Byte0(op), Byte1(op)]
    else if Byte1(op) != 0 then [Byte1(op), Byte0(op)]
    else if Byte0(op) != 0 then [Byte0(op)]
    else []
  }

  /** How a receiver splits a message: the two leading bits of the first byte give the length of
      the opcode, and 0x7F is reserved. Three-byte opcodes carry a little-endian company id. */
  function Decode(b: seq<Byte>): Option<(Uint32, seq<Byte>)> {
    if b == [] then None
    else if b[0] < 0x80 then
      if b[0] == 0x7F then None else Some((b[0], b[1..]))
    else if b[0] < 0xC0 then
      if |b| < 2 then None else Some((256 * b[0] as int + b[1], b[2..]))
    else
      if |b| < 3 then None else Some((0x1_0000 * b[0] as int + 256 * b[2] as int + b[1], b[3..]))
  }

  /** The leading bits of the opcode match the number of bytes it is written with. */
  predicate WellSized(op: Uint32) {
    || (0 < op < 0x80 && op != 0x7F)
    || 0x8000 <= op < 0xC000
    || 0xC0_0000 <= op < 0x100_0000
  }

  /** A receiver gets back the opcode and the payload exactly for the opcodes the specification
      allows; every other opcode is refused by the sender or read as something else. */
  lemma RoundTripIffWellSized(op: Uint32, payload: seq<Byte>)
    requires EncodeOpcode(op) != []
    ensures Decode(EncodeOpcode(op) + payload) == Some((op, payload)) <==> WellSized(op)
  {
    BytesMakeUp(op);
    hide Byte0;
    hide Byte1;
    hide Byte2;
    hide Byte3;
    var h := EncodeOpcode(op);
    var b := h + payload;
    assert b[|h|..] == payload;
    assert |b[1..]| == |b| - 1 && (|b| >= 2 ==> |b[2..]| == |b| - 2) && (|b| >= 3 ==> |b[3..]| == |b| - 3);
  }

  /** The sender refuses an opcode exactly when its three low bytes are zero. */
  lemma RefusedIff(op: Uint32)
    ensures EncodeOpcode(op) == [] <==> op % 0x100_0000 == 0
  {
    BytesMakeUp(op);
    hide Byte0;
    hide Byte1;
    hide Byte2;
    hide Byte3;
  }

  /** A `net_buf_simple` that is being filled. */
  class MessageBuffer {
    var data: seq<Byte>
    const size: nat

    constructor (size: nat)
      ensures data == [] && this.size == size
    {
      data := [];
      this.size := size;
    }

    method AddU8(n: Byte)
      requires |data| < size
      modifies this
      ensures data == old(data) + [n]
    {
      data := data + [n];
    }

    method AddLe16(n: Uint16)
      requires |data| + 2 <= size
      modifies this
      ensures data == old(data) + [n % 256, n / 256]
    {
      data := data + [n % 256, n / 256];
    }

    method AddBe16(n: Uint16)
      requires |data| + 2 <= size
      modifies this
      ensures data == old(data) + [n / 256, n % 256]
    {
      data := data + [n / 256, n % 256];
    }

    /** The chain of tests on the opcode: false stands for -EINVAL. */
    method AddOpcode(opcode: Uint32) returns (ok: bool)
      requires data == [] && |EncodeOpcode(opcode)| <= size
      modifies this
      ensures data == EncodeOpcode(opcode)
      ensures ok <==> EncodeOpcode(opcode) != []
    {
      LowHalf(opcode);
      hide Byte0;
      hide Byte1;
      hide Byte2;
      if Byte2(opcode) != 0 {
        AddU8(Byte2(opcode));
        AddLe16(opcode % 0x1_0000);
      } else if Byte1(opcode) != 0 {
        AddBe16(opcode % 0x1_0000);
      } else if Byte0(opcode) != 0 {
        AddU8(Byte0(opcode));
      } else {
        return false;
      }
      ok := true;
    }

    /** The common part of `codec_parse_model_msg` and the message command: false stands for
        -EINVAL. */
    method Build(opcode: Uint32, payload: seq<Byte>) returns (ok: bool)
      requires data == [] && |EncodeOpcode(opcode)| + |payload| <= size
      modifies this
      ensures ok <==> opcode % 0x100_0000 != 0
      ensures ok ==> data == EncodeOpcode(opcode) + payload
      ensures ok && WellSized(opcode) ==> Decode(data) == Some((opcode, payload))
    {
      hide EncodeOpcode;
      hide Decode;
      hide WellSized;
      RefusedIff(opcode);
      ok := AddOpcode(opcode);
      if !ok {
        return;
      }
      for i := 0 to |payload|
        invariant data == EncodeOpcode(opcode) + payload[..i]
      {
        AddU8(payload[i]);
      }
      assert payload[..|payload|] == payload;
      RoundTripIffWellSized(opcode, payload);
    }
  }

  // ---------------------------------------------------------------- the payload argument

  /** The characters of an argument's byte end in a terminator. */
  function Terminated(i: nat): string {
    ""
  }

  function PairValue(hi: char, lo: char): Byte {
    ReadByte(hi, lo, "")
  }

  /** `str_to_uint8` on "0x" and two characters: a value of zero counts only when it is written
      as zeros. */
  predicate PairAccepted(hi: char, lo: char) {
    (hi == '0' && lo == '0') || PairValue(hi, lo) != 0
  }

  /** Which pairs are accepted: those that start with a number other than zero, blank, plus and
      minus included, and two zeros. */
  lemma PairAcceptedIff(hi: char, lo: char)
    ensures PairAccepted(hi, lo) <==>
      || (hi == '0' && lo == '0')
      || (IsHex(hi) && hi != '0')
      || ((hi == '0' || IsSpace(hi) || hi == '+' || hi == '-') && IsHex(lo) && lo != '0')
  {
    ReadAnyPair(hi, lo);
    hide ReadByte;
  }

  /** The characters that make up byte `k` are accepted; a leading one without a partner is. */
  predicate ByteAccepted(text: string, k: nat)
    requires k < (|text| + 1) / 2
  {
    var odd := |text| % 2;
    (odd == 1 && k == 0) || PairAccepted(text[2 * k - odd], text[2 * k - odd + 1])
  }

  predicate Accepted(text: string) {
    forall k | 0 <= k < (|text| + 1) / 2 :: ByteAccepted(text, k)
  }

  /** A leading character without a partner is read as an empty number, that is as zero. */
  function PayloadBytes(text: string): (b: seq<Byte>)
    ensures |b| == (|text| + 1) / 2
  {
    if |text| % 2 == 0 then FromText(text, Terminated) else [0] + FromText(text[1..], Terminated)
  }

  lemma PairsAt(text: string, i: nat)
    requires |text| % 2 == 0 && i < |text| / 2
    ensures FromText(text, Terminated)[i] == PairValue(text[2 * i], text[2 * i + 1])
  {
    hide ReadByte;
    assert Terminated.requires(i) && Terminated(i) == "";
  }

  lemma PayloadByteAt(text: string, k: nat)
    requires k < (|text| + 1) / 2
    ensures var odd := |text| % 2;
      if odd == 1 && k == 0 then PayloadBytes(text)[k] == 0
      else PayloadBytes(text)[k] == PairValue(text[2 * k - odd], text[2 * k - odd + 1])
  {
    hide PairValue;
    hide FromText;
    if |text| % 2 == 0 {
      PairsAt(text, k);
    } else if k > 0 {
      OddPayloadByte(text, k);
    }
  }

  lemma OddPayloadByte(text: string, k: nat)
    requires |text| % 2 == 1 && 0 < k < (|text| + 1) / 2
    ensures PayloadBytes(text)[k] == PairValue(text[2 * k - 1], text[2 * k])
  {
    hide PairValue;
    hide FromText;
    var t := text[1..];
    assert |t| % 2 == 0 && k - 1 < |t| / 2;
    PairsAt(t, k - 1);
    assert t[2 * (k - 1)] == text[2 * k - 1] && t[2 * (k - 1) + 1] == text[2 * k];
  }

  /** What hexadecimal digits mean: an odd number of them has a zero in front. */
  function Meaning(text: string): seq<Byte> {
    if |text| % 2 == 0 then FromText(text, Terminated) else FromText(['0'] + text, Terminated)
  }

  lemma ZeroDigit()
    ensures Nibble('0') == 0
  {
  }

  lemma DigitsAccepted(hi: char, lo: char)
    requires IsHex(hi) && IsHex(lo)
    ensures PairAccepted(hi, lo) && PairValue(hi, lo) == 16 * Nibble(hi) + Nibble(lo)
  {
    ReadHexPair(hi, lo, "");
  }

  lemma TextAccepted(text: string)
    requires AllHex(text)
    ensures Accepted(text)
  {
    hide PairAccepted;
    hide PairValue;
    hide IsHex;
    var odd := |text| % 2;
    forall k | 0 <= k < (|text| + 1) / 2 ensures ByteAccepted(text, k) {
      if k >= odd {
        DigitsAccepted(text[2 * k - odd], text[2 * k - odd + 1]);
      }
    }
  }

  lemma MeaningOfOdd(text: string)
    requires AllHex(text) && |text| % 2 == 1
    ensures |Meaning(text)| == |PayloadBytes(text)|
    ensures Meaning(text)[0] == Nibble(text[0]) && PayloadBytes(text)[0] == 0
    ensures forall k | 0 < k < |Meaning(text)| :: Meaning(text)[k] == PayloadBytes(text)[k]
  {
    hide FromText;
    hide PairValue;
    hide PairAccepted;
    hide Nibble;
    var t := ['0'] + text;
    DigitsAccepted(t[0], t[1]);
    ZeroDigit();
    PairsAt(t, 0);
    forall k | 0 < k < |t| / 2 ensures Meaning(text)[k] == PayloadBytes(text)[k] {
      PairsAt(t, k);
      PayloadByteAt(text, k);
    }
  }

  /** Hexadecimal digits are always accepted, and the bytes are the ones written exactly when
      the number of digits is even or the first digit is zero: an odd leading digit is dropped. */
  lemma LeadingDigitIsKeptIff(text: string)
    requires AllHex(text)
    ensures Accepted(text)
    ensures PayloadBytes(text) == Meaning(text) <==> |text| % 2 == 0 || text[0] == '0'
  {
    hide FromText;
    hide PairValue;
    hide PairAccepted;
    hide ByteAccepted;
    TextAccepted(text);
    if |text| % 2 == 1 {
      MeaningOfOdd(text);
    }
  }

  /** The payload branch of `cmd_parse_args`: characters are consumed from the right, two for a
      byte. `None` stands for -EINVAL. */
  method ParsePayload(text: string, payload: array<Byte>) returns (len: Option<nat>)
    requires payload.Length == MAX_PAYLOAD_LEN
    modifies payload
    ensures len.Some? <==> |text| <= 32 && Accepted(text)
    ensures len.Some? ==> len.value <= MAX_PAYLOAD_LEN / 2 && payload[..len.value] == PayloadBytes(text)
  {
    hide PairAccepted;
    hide PayloadBytes;
    hide PairValue;
    hide FromText;
    if |text| > MAX_PAYLOAD_LEN {
      return None;
    }
    var index := if |text| % 2 == 0 then |text| / 2 else |text| / 2 + 1;
    len := Some(index);
    var at := |text| - 1;
    ghost var odd := |text| % 2;
    while at >= 0
      invariant 0 <= index <= (|text| + 1) / 2
      invariant at == if index == 0 then -1 else 2 * index - odd - 1
      invariant forall k | index <= k < (|text| + 1) / 2 :: payload[k] == PayloadBytes(text)[k]
      invariant forall k | index <= k < (|text| + 1) / 2 :: ByteAccepted(text, k)
    {
      PayloadByteAt(text, index - 1);
      var lo := text[at];
      at := at - 1;
      index := index - 1;
      if at < 0 {
        payload[index] := 0;
      } else {
        var hi := text[at];
        at := at - 1;
        assert hi == text[2 * index - odd] && lo == text[2 * index - odd + 1];
        if !PairAccepted(hi, lo) {
          assert !ByteAccepted(text, index);
          return None;
        }
        payload[index] := PairValue(hi, lo);
      }
    }
  }

  /** The message command from its arguments to the buffer, which is always large enough: what a
      receiver decodes is the opcode and the payload the text stands for. */
  method CommandMessage(opcode: Uint32, text: string) returns (message: Option<seq<Byte>>)
    ensures message.Some? <==> |text| <= 32 && Accepted(text) && opcode % 0x100_0000 != 0
    ensures message.Some? ==> |message.value| <= 32
    ensures message.Some? && WellSized(opcode) ==> Decode(message.value) == Some((opcode, PayloadBytes(text)))
  {
    hide Accepted;
    hide WellSized;
    hide Decode;
    var payload := new Byte[MAX_PAYLOAD_LEN];
    var len := ParsePayload(text, payload);
    if len.None? {
      return None;
    }
    var buf := new MessageBuffer(MAX_PAYLOAD_LEN);
    var ok := buf.Build(opcode, payload[..len.value]);
    message := if ok then Some(buf.data) else None;
  }
}
