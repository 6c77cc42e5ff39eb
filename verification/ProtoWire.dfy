/**
 The protobuf wire format: varints, tags and the four field kinds the program writes, with the
 reader as a function of the position.
 */
module ProtoWire {
  import opened Wrappers
  import opened Arithmetic
  import opened Words
  import opened CompactTarget
  import opened TargetBytes
  import opened Slices

  // ----- varints -----

  function Varint(v: nat): (s: seq<Byte>)
    ensures |s| > 0
  {
    if v < 0x80 then [v] else [v % 0x80 + 0x80] + Varint(v / 0x80)
  }

  /** One seven-bit digit shifted into a 64-bit word; the bits above are lost. */
  function Digit7(b: Byte, shift: nat): nat {
    b % 0x80 * Pow2(shift) % 0x1_0000_0000_0000_0000
  }

  /** Value and next position; shift is the weight of the next digit, acc what was read. */
  function ReadVarint(s: seq<Byte>, pos: nat, shift: nat, acc: nat): (r: Result<(nat, nat)>)
    ensures r.Ok? ==> pos < r.value.1 <= |s|
    decreases |s| - pos
  {
    if pos >= |s| then Err("truncated varint")
    else
      var v := acc + Digit7(s[pos], shift);
      if s[pos] < 0x80 then Ok((v, pos + 1))
      else if shift + 7 >= 64 then Err("varint overflow")
      else ReadVarint(s, pos + 1, shift + 7, v)
  }

  lemma Digit7Small(d: nat, shift: nat, b: Byte)
    requires b % 0x80 == d && d * Pow2(shift) < 0x1_0000_0000_0000_0000
    ensures Digit7(b, shift) == d * Pow2(shift)
  {
    hide Pow2;
    SmallMod(d * Pow2(shift), 0x1_0000_0000_0000_0000);
  }

  /** v * p splits into its low digit and the rest, one digit higher. */
  lemma VarintSplit(v: nat, p: nat)
    ensures v * p == v % 0x80 * p + v / 0x80 * (0x80 * p)
    ensures v % 0x80 * p <= v * p && v / 0x80 * (0x80 * p) <= v * p
  {
    var d, q := v % 0x80, v / 0x80;
    assert (d + 0x80 * q) * p == d * p + 0x80 * q * p;
    assert q * (0x80 * p) == 0x80 * q * p;
    MulOrder(p, 0, d);
    MulOrder(0x80 * p, 0, q);
    assert p * d == d * p && 0x80 * p * q == q * (0x80 * p);
  }

  lemma SevenBits(shift: nat)
    ensures Pow2(shift + 7) == 0x80 * Pow2(shift)
  {
    Pow2Values();
    hide Pow2;
    Pow2Sum(7, shift);
  }

  /** A digit group that still fits 64 bits leaves room for the next shift. */
  lemma ShiftFits(v: nat, shift: nat)
    requires v > 0 && v * Pow2(shift) < 0x1_0000_0000_0000_0000
    ensures shift < 64
  {
    hide Pow2;
    SixtyFour();
    MulOrder(Pow2(shift), 1, v);
    assert Pow2(shift) * v == v * Pow2(shift);
    if shift >= 64 { Pow2Order(64, shift); }
  }

  /** A varint reads back in any context, up to 2^64 - 1. */
  lemma {:induction false} VarintRoundTrip(v: nat, s: seq<Byte>, pos: nat, shift: nat, acc: nat)
    requires At(s, pos, Varint(v)) && v * Pow2(shift) < 0x1_0000_0000_0000_0000
    ensures ReadVarint(s, pos, shift, acc) == Ok((acc + v * Pow2(shift), pos + |Varint(v)|))
    decreases v
  {
    hide Pow2, At, Digit7;
    var p := Pow2(shift);
    AtChar(s, pos, Varint(v), 0);
    VarintSplit(v, p);
    if v < 0x80 {
      Digit7Small(v, shift, s[pos]);
    } else {
      var head: seq<Byte> := [v % 0x80 + 0x80];
      assert Varint(v) == head + Varint(v / 0x80);
      AtSplit<Byte>(s, pos, head, Varint(v / 0x80));
      Digit7Small(v % 0x80, shift, s[pos]);
      SevenBits(shift);
      ShiftFits(v / 0x80, shift + 7);
      VarintRoundTrip(v / 0x80, s, pos + 1, shift + 7, acc + Digit7(s[pos], shift));
    }
  }

  lemma VarintAt(v: U64, s: seq<Byte>, pos: nat)
    requires At(s, pos, Varint(v))
    ensures ReadVarint(s, pos, 0, 0) == Ok((v, pos + |Varint(v)|))
  {
    TopMantissa();
    hide Pow2, At;
    assert v * 1 == v;
    VarintRoundTrip(v, s, pos, 0, 0);
  }

  // ----- fields -----

  /** What the writer puts on the wire. */
  datatype Item =
    | Number(number: Word, v: U64)
    | Bytes(number: Word, data: seq<Byte>)
    | Double(number: Word, bits: seq<Byte>)
    | Fixed32(number: Word, word: Word)

  predicate Writable(i: Item) {
    && (i.Bytes? ==> |i.data| < 0x1_0000_0000_0000_0000)
    && (i.Double? ==> |i.bits| == 8)
  }

  function Tag(number: Word, wire: nat): nat {
    8 * number + wire
  }

  function Encode(i: Item): (s: seq<Byte>)
    ensures |s| > 0
  {
    match i
    case Number(n, v) => Varint(Tag(n, 0)) + Varint(v)
    case Double(n, bits) => Varint(Tag(n, 1)) + bits
    case Bytes(n, data) => Varint(Tag(n, 2)) + (Varint(|data|) + data)
    case Fixed32(n, w) => Varint(Tag(n, 5)) + ToLittleEndian(w, 4)
  }

  function EncodeAll(items: seq<Item>): seq<Byte> {
    if items == [] then [] else Encode(items[0]) + EncodeAll(items[1..])
  }

  /** What the reader sees: number, wire type, value for numeric kinds, data for bytes. */
  datatype Field = Field(number: nat, wire: nat, value: nat, data: seq<Byte>)

  function FieldOf(i: Item): Field {
    match i
    case Number(n, v) => Field(n, 0, v, [])
    case Double(n, bits) => Field(n, 1, LittleEndian(bits), [])
    case Bytes(n, data) => Field(n, 2, 0, data)
    case Fixed32(n, w) => Field(n, 5, w, [])
  }

  /** End of input or an unskippable wire type, a field and where it ends, or an exception. */
  datatype Step = End | More(field: Field, pos: nat) | Fail(reason: string)

  function Payload(s: seq<Byte>, number: nat, wire: nat, pos: nat): (r: Step)
    requires pos <= |s|
    ensures r.More? ==> pos <= r.pos <= |s|
  {
    if wire == 0 then
      match ReadVarint(s, pos, 0, 0)
      case Err(e) => Fail(e)
      case Ok(v) => More(Field(number, wire, v.0, []), v.1)
    else if wire == 1 then
      if pos + 8 > |s| then Fail("truncated fixed64")
      else More(Field(number, wire, LittleEndian(s[pos..pos + 8]), []), pos + 8)
    else if wire == 2 then
      match ReadVarint(s, pos, 0, 0)
      case Err(e) => Fail(e)
      case Ok(v) =>
        if v.1 + v.0 > |s| then Fail("truncated bytes")
        else More(Field(number, wire, 0, s[v.1..v.1 + v.0]), v.1 + v.0)
    else if wire == 5 then
      if pos + 4 > |s| then Fail("truncated fixed32")
      else More(Field(number, wire, LittleEndian(s[pos..pos + 4]), []), pos + 4)
    else End
  }

  function Next(s: seq<Byte>, pos: nat): (r: Step)
    ensures r.More? ==> pos < r.pos <= |s|
  {
    if pos >= |s| then End
    else
      match ReadVarint(s, pos, 0, 0)
      case Err(e) => Fail(e)
      case Ok(tag) => Payload(s, tag.0 / 8 % 0x1_0000_0000, tag.0 % 8, tag.1)
  }

  function ReadAll(s: seq<Byte>, pos: nat): Result<seq<Field>>
    decreases |s| - pos
  {
    match Next(s, pos)
    case End => Ok([])
    case Fail(e) => Err(e)
    case More(f, p) =>
      match ReadAll(s, p)
      case Err(e) => Err(e)
      case Ok(fs) => Ok([f] + fs)
  }

  // ----- reading what was written -----

  lemma TagParts(number: Word, wire: nat)
    requires wire < 8
    ensures Tag(number, wire) / 8 % 0x1_0000_0000 == number && Tag(number, wire) % 8 == wire
    ensures Tag(number, wire) < 0x1_0000_0000_0000_0000
  {
  }

  lemma TagAt(number: Word, wire: nat, rest: seq<Byte>, s: seq<Byte>, pos: nat)
    requires wire < 8 && At(s, pos, Varint(Tag(number, wire)) + rest)
    ensures var p := pos + |Varint(Tag(number, wire))|;
      At(s, p, rest) && p <= |s| && Next(s, pos) == Payload(s, number, wire, p)
  {
    TagParts(number, wire);
    AtSplit(s, pos, Varint(Tag(number, wire)), rest);
    VarintAt(Tag(number, wire), s, pos);
    hide At, Tag, Varint, Payload, ReadVarint;
  }

  lemma SliceAt(s: seq<Byte>, pos: nat, t: seq<Byte>)
    requires At(s, pos, t)
    ensures pos + |t| <= |s| && s[pos..pos + |t|] == t
  {
  }

  lemma BytesAt(number: Word, data: seq<Byte>, s: seq<Byte>, pos: nat)
    requires |data| < 0x1_0000_0000_0000_0000 && pos <= |s| && At(s, pos, Varint(|data|) + data)
    ensures Payload(s, number, 2, pos) == More(Field(number, 2, 0, data), pos + |Varint(|data|) + data|)
  {
    AtSplit(s, pos, Varint(|data|), data);
    VarintAt(|data|, s, pos);
    SliceAt(s, pos + |Varint(|data|)|, data);
    hide At, Varint, ReadVarint;
  }

  lemma Fixed32At(number: Word, w: Word, s: seq<Byte>, pos: nat)
    requires pos <= |s| && At(s, pos, ToLittleEndian(w, 4))
    ensures Payload(s, number, 5, pos) == More(Field(number, 5, w, []), pos + 4)
  {
    SliceAt(s, pos, ToLittleEndian(w, 4));
    Pow2Values();
    hide Pow2, At, ToLittleEndian, LittleEndian;
    ToLittleEndianValue(w, 4);
  }

  lemma ItemRoundTrip(i: Item, s: seq<Byte>, pos: nat)
    requires Writable(i) && At(s, pos, Encode(i))
    ensures Next(s, pos) == More(FieldOf(i), pos + |Encode(i)|)
  {
    hide At, Varint, ReadVarint, Payload, Next, Tag, LittleEndian, ToLittleEndian;
    match i
    case Number(n, v) =>
      TagAt(n, 0, Varint(v), s, pos);
      NumberAt(n, v, s, pos + |Varint(Tag(n, 0))|);
    case Double(n, bits) =>
      TagAt(n, 1, bits, s, pos);
      DoubleAt(n, bits, s, pos + |Varint(Tag(n, 1))|);
    case Bytes(n, data) =>
      TagAt(n, 2, Varint(|data|) + data, s, pos);
      BytesAt(n, data, s, pos + |Varint(Tag(n, 2))|);
    case Fixed32(n, w) =>
      TagAt(n, 5, ToLittleEndian(w, 4), s, pos);
      Fixed32At(n, w, s, pos + |Varint(Tag(n, 5))|);
  }

  lemma NumberAt(number: Word, v: U64, s: seq<Byte>, pos: nat)
    requires pos <= |s| && At(s, pos, Varint(v))
    ensures Payload(s, number, 0, pos) == More(Field(number, 0, v, []), pos + |Varint(v)|)
  {
    VarintAt(v, s, pos);
    hide At, Varint, ReadVarint;
  }

  lemma DoubleAt(number: Word, bits: seq<Byte>, s: seq<Byte>, pos: nat)
    requires pos <= |s| && |bits| == 8 && At(s, pos, bits)
    ensures Payload(s, number, 1, pos) == More(Field(number, 1, LittleEndian(bits), []), pos + 8)
  {
    SliceAt(s, pos, bits);
    hide At, LittleEndian;
  }

  predicate AllWritable(items: seq<Item>) {
    forall i :: 0 <= i < |items| ==> Writable(items[i])
  }

  function FieldsOf(items: seq<Item>): seq<Field> {
    if items == [] then [] else [FieldOf(items[0])] + FieldsOf(items[1..])
  }

  lemma {:induction false} ItemsRoundTrip(items: seq<Item>, s: seq<Byte>, pos: nat)
    requires AllWritable(items) && At(s, pos, EncodeAll(items)) && pos + |EncodeAll(items)| == |s|
    ensures ReadAll(s, pos) == Ok(FieldsOf(items))
    decreases |items|
  {
    hide At, Next, Encode, FieldOf;
    if items == [] {
      AtEnd(s, pos);
    } else {
      AtSplit(s, pos, Encode(items[0]), EncodeAll(items[1..]));
      ItemRoundTrip(items[0], s, pos);
      ItemsRoundTrip(items[1..], s, pos + |Encode(items[0])|);
    }
  }

  lemma AtEnd(s: seq<Byte>, pos: nat)
    requires pos >= |s|
    ensures Next(s, pos) == End
  {
  }

  /** A written message reads back as exactly the fields written, in order. */
  lemma MessageRoundTrip(items: seq<Item>)
    requires AllWritable(items)
    ensures ReadAll(EncodeAll(items), 0) == Ok(FieldsOf(items))
  {
    var s := EncodeAll(items);
    assert At(s, 0, s);
    hide At, EncodeAll, ReadAll;
    ItemsRoundTrip(items, s, 0);
  }

  lemma {:induction false} FieldsConcat(a: seq<Item>, b: seq<Item>)
    ensures FieldsOf(a + b) == FieldsOf(a) + FieldsOf(b)
    decreases |a|
  {
    hide FieldOf;
    if a == [] {
      assert a + b == b;
    } else {
      FieldsConcat(a[1..], b);
      assert (a + b)[1..] == a[1..] + b;
    }
  }

  lemma {:induction false} EncodeConcat(a: seq<Item>, b: seq<Item>)
    ensures EncodeAll(a + b) == EncodeAll(a) + EncodeAll(b)
    decreases |a|
  {
    hide Encode;
    if a == [] {
      assert a + b == b;
    } else {
      EncodeConcat(a[1..], b);
      assert (a + b)[1..] == a[1..] + b;
    }
  }
}
