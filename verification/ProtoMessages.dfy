/** The protobuf writer and reader objects, the registration message and the share submission. */
module ProtoMessages {
  import opened Wrappers
  import opened Words
  import opened TargetBytes
  import opened ProtoWire

  type Bits64 = b: seq<Byte> | |b| == 8 witness [0, 0, 0, 0, 0, 0, 0, 0]
  type MinerId = b: seq<Byte> | |b| == 16 witness seq(16, i => 0)
  type Text = seq<Byte>

  const ZERO: Bits64 := [0, 0, 0, 0, 0, 0, 0, 0]

  /** v > 0.0 for a binary64 (section 3.4 of IEEE 754-2008): sign clear, not zero, not a NaN. */
  predicate Positive(d: Bits64) {
    0 < LittleEndian(d) <= 0x7FF0_0000_0000_0000
  }

  // ----- writer and reader -----

  class Writer {
    var buf: seq<Byte>
    ghost var items: seq<Item>

    ghost predicate Valid()
      reads this
    {
      buf == EncodeAll(items)
    }

    constructor ()
      ensures Valid() && items == []
    {
      buf, items := [], [];
    }

    method WriteVarint(v: U64)
      modifies this`buf
      ensures buf == old(buf) + Varint(v)
    {
      var x: int := v;
      while x >= 0x80
        invariant 0 <= x && old(buf) + Varint(v) == buf + Varint(x)
      {
        ghost var before := buf;
        buf := buf + [x % 0x80 + 0x80];
        assert before + ([x % 0x80 + 0x80] + Varint(x / 0x80)) == buf + Varint(x / 0x80);
        x := x / 0x80;
      }
      buf := buf + [x];
    }

    method WriteTag(number: Word, wire: nat)
      requires wire < 8
      modifies this`buf
      ensures buf == old(buf) + Varint(Tag(number, wire))
    {
      TagParts(number, wire);
      WriteVarint(number * 8 + wire);
    }

    /** Bookkeeping after an item's bytes were appended. */
    ghost method Note(before: seq<Byte>, i: Item)
      requires before == EncodeAll(items) && buf == before + Encode(i)
      modifies this`items
      ensures Valid() && items == old(items) + [i]
    {
      EncodeConcat(items, [i]);
      assert EncodeAll([i]) == Encode(i) by { EncodeOne(i); }
      hide EncodeAll, Encode;
      items := items + [i];
    }

    method WriteNumber(number: Word, v: U64)
      requires Valid()
      modifies this
      ensures Valid() && items == old(items) + [Number(number, v)]
    {
      hide Varint, EncodeAll, Tag;
      ghost var before := buf;
      WriteTag(number, 0);
      WriteVarint(v);
      assert buf == before + Encode(Number(number, v));
      Note(before, Number(number, v));
    }

    method WriteBytes(number: Word, data: seq<Byte>)
      requires Valid() && |data| < 0x1_0000_0000_0000_0000
      modifies this
      ensures Valid() && items == old(items) + [Bytes(number, data)]
    {
      hide Varint, EncodeAll, Tag;
      ghost var before := buf;
      WriteTag(number, 2);
      WriteVarint(|data|);
      buf := buf + data;
      assert buf == before + Encode(Bytes(number, data));
      Note(before, Bytes(number, data));
    }

    method WriteDouble(number: Word, bits: Bits64)
      requires Valid()
      modifies this
      ensures Valid() && items == old(items) + [Double(number, bits)]
    {
      hide Varint, EncodeAll, Tag;
      ghost var before := buf;
      WriteTag(number, 1);
      buf := buf + bits;
      assert buf == before + Encode(Double(number, bits));
      Note(before, Double(number, bits));
    }

    method WriteFixed32(number: Word, w: Word)
      requires Valid()
      modifies this
      ensures Valid() && items == old(items) + [Fixed32(number, w)]
    {
      hide Varint, EncodeAll, Tag;
      ghost var before := buf;
      WriteTag(number, 5);
      ghost var tagged := buf;
      var i, x := 0, w;
      while i < 4
        invariant 0 <= i <= 4 && items == old(items) && tagged + ToLittleEndian(w, 4) == buf + ToLittleEndian(x, 4 - i)
      {
        ghost var here := buf;
        assert ToLittleEndian(x, 4 - i) == [x % 256] + ToLittleEndian(x / 256, 3 - i);
        buf := buf + [x % 256];
        assert here + ([x % 256] + ToLittleEndian(x / 256, 3 - i)) == buf + ToLittleEndian(x / 256, 3 - i);
        x := x / 256;
        i := i + 1;
      }
      assert buf + [] == buf;
      assert before + Varint(Tag(number, 5)) + ToLittleEndian(w, 4) == before + Encode(Fixed32(number, w));
      Note(before, Fixed32(number, w));
    }
  }

  lemma EncodeOne(i: Item)
    ensures EncodeAll([i]) == Encode(i)
  {
    hide Encode;
    assert [i][1..] == [] && EncodeAll([]) == [];
  }

  class Reader {
    const data: seq<Byte>
    var pos: nat

    constructor (data: seq<Byte>)
      ensures this.data == data && pos == 0
    {
      this.data := data;
      pos := 0;
    }

    method DecodeVarint() returns (r: Result<nat>)
      modifies this`pos
      ensures match ReadVarint(data, old(pos), 0, 0) {
                case Ok(v) => r == Ok(v.0) && pos == v.1
                case Err(e) => r == Err(e)
              }
    {
      hide Digit7;
      var v, shift := 0, 0;
      while pos < |data|
        invariant v >= 0 && shift >= 0
        invariant ReadVarint(data, pos, shift, v) == ReadVarint(data, old(pos), 0, 0)
      {
        var b := data[pos];
        pos := pos + 1;
        v := v + Digit7(b, shift);
        if b < 0x80 { return Ok(v); }
        shift := shift + 7;
        if shift >= 64 { return Err("varint overflow"); }
      }
      return Err("truncated varint");
    }

    /** The next field, nothing at the end or at an unskippable wire type, or an exception. */
    method NextField() returns (step: Step)
      modifies this`pos
      ensures step == Next(data, old(pos)) && (step.More? ==> pos == step.pos)
    {
      hide ReadVarint, LittleEndian;
      if pos >= |data| { return End; }
      var tag := DecodeVarint();
      if tag.Err? { return Fail(tag.reason); }
      var number, wire := tag.value / 8 % 0x1_0000_0000, tag.value % 8;
      if wire == 0 {
        var v := DecodeVarint();
        if v.Err? { return Fail(v.reason); }
        return More(Field(number, wire, v.value, []), pos);
      } else if wire == 1 {
        if pos + 8 > |data| { return Fail("truncated fixed64"); }
        pos := pos + 8;
        return More(Field(number, wire, LittleEndian(data[pos - 8..pos]), []), pos);
      } else if wire == 2 {
        var len := DecodeVarint();
        if len.Err? { return Fail(len.reason); }
        if pos + len.value > |data| { return Fail("truncated bytes"); }
        pos := pos + len.value;
        return More(Field(number, wire, 0, data[pos - len.value..pos]), pos);
      } else if wire == 5 {
        if pos + 4 > |data| { return Fail("truncated fixed32"); }
        pos := pos + 4;
        return More(Field(number, wire, LittleEndian(data[pos - 4..pos]), []), pos);
      } else {
        return End;
      }
    }
  }

  // ----- decoding as a fold over fields -----

  /** Any message decoder: apply the fields one after the other, stopping at the first failure. */
  function Fold<M>(apply: (M, Field) -> Result<M>, m: M, fields: seq<Field>): Result<M>
    decreases |fields|
  {
    if fields == [] then Ok(m)
    else
      match apply(m, fields[0])
      case Err(e) => Err(e)
      case Ok(next) => Fold(apply, next, fields[1..])
  }

  /** Reading and applying interleaved: a failed read comes after the fields before it were applied. */
  function Decode<M>(apply: (M, Field) -> Result<M>, m: M, s: seq<Byte>, pos: nat): Result<M>
    decreases |s| - pos
  {
    match Next(s, pos)
    case End => Ok(m)
    case Fail(e) => Err(e)
    case More(f, p) =>
      match apply(m, f)
      case Err(e) => Err(e)
      case Ok(next) => Decode(apply, next, s, p)
  }

  lemma {:induction false} DecodeIsFold<M>(apply: (M, Field) -> Result<M>, m: M, s: seq<Byte>, pos: nat)
    requires ReadAll(s, pos).Ok?
    ensures Decode(apply, m, s, pos) == Fold(apply, m, ReadAll(s, pos).value)
    decreases |s| - pos
  {
    hide Next;
    var step := Next(s, pos);
    if step.More? {
      var fields := ReadAll(s, pos).value;
      assert fields[0] == step.field && fields[1..] == ReadAll(s, step.pos).value;
      var next := apply(m, step.field);
      if next.Ok? { DecodeIsFold(apply, next.value, s, step.pos); }
    }
  }

  lemma {:induction false} FoldConcat<M>(apply: (M, Field) -> Result<M>, m: M, a: seq<Field>, b: seq<Field>)
    requires Fold(apply, m, a).Ok?
    ensures Fold(apply, m, a + b) == Fold(apply, Fold(apply, m, a).value, b)
    decreases |a|
  {
    if a == [] {
      assert a + b == b;
    } else {
      assert (a + b)[1..] == a[1..] + b;
      FoldConcat(apply, apply(m, a[0]).value, a[1..], b);
    }
  }

  /** Decoding written items is folding over the fields they denote. */
  lemma DecodeWritten<M>(apply: (M, Field) -> Result<M>, m: M, items: seq<Item>)
    requires AllWritable(items)
    ensures Decode(apply, m, EncodeAll(items), 0) == Fold(apply, m, FieldsOf(items))
  {
    hide EncodeAll, ReadAll, Decode, Fold, FieldsOf;
    MessageRoundTrip(items);
    DecodeIsFold(apply, m, EncodeAll(items), 0);
  }

  /** Folding over two written groups, the first leading to mid. */
  lemma FoldWritten<M>(apply: (M, Field) -> Result<M>, m: M, mid: M, a: seq<Item>, b: seq<Item>)
    requires Fold(apply, m, FieldsOf(a)) == Ok(mid)
    ensures Fold(apply, m, FieldsOf(a + b)) == Fold(apply, mid, FieldsOf(b))
  {
    hide FieldsOf, Fold;
    FieldsConcat(a, b);
    FoldConcat(apply, m, FieldsOf(a), FieldsOf(b));
  }

  lemma FoldOne<M>(apply: (M, Field) -> Result<M>, m: M, i: Item)
    ensures Fold(apply, m, FieldsOf([i])) == apply(m, FieldOf(i))
  {
    hide FieldOf;
    assert [i][1..] == [] && FieldsOf([i]) == [FieldOf(i)];
    assert [FieldOf(i)][1..] == [];
  }

  // ----- a graphics card -----

  datatype GpuCard = GpuCard(uuid: Text, model: Text, index: Word, hashrate: Bits64)

  const NO_CARD := GpuCard([], [], 0, ZERO)

  /** Sizes of strings in memory. */
  predicate CardFits(c: GpuCard) {
    |c.uuid| < 0x1_0000_0000_0000_0000 && |c.model| < 0x1_0000_0000_0000_0000
  }

  function CardItems(c: GpuCard): seq<Item> {
    [Bytes(1, c.uuid), Bytes(2, c.model), Number(3, c.index), Double(4, c.hashrate)]
  }

  /** A double member is copied from data of length eight only; a wire type 1 field carries no data. */
  function AsDouble(was: Bits64, data: seq<Byte>): Bits64 {
    if |data| == 8 then data else was
  }

  function ApplyCard(c: GpuCard, f: Field): Result<GpuCard> {
    Ok(if f.number == 1 then c.(uuid := f.data)
       else if f.number == 2 then c.(model := f.data)
       else if f.number == 3 then c.(index := f.value % 0x1_0000_0000)
       else if f.number == 4 then c.(hashrate := AsDouble(c.hashrate, f.data))
       else c)
  }

  /** The hashrate is lost on the way. */
  lemma CardRoundTrip(c: GpuCard)
    requires CardFits(c)
    ensures Decode(ApplyCard, NO_CARD, EncodeAll(CardItems(c)), 0) == Ok(c.(hashrate := ZERO))
  {
    hide Decode, EncodeAll;
    var items := CardItems(c);
    DecodeWritten(ApplyCard, NO_CARD, items);
    CardFold(c);
  }

  lemma CardFold(c: GpuCard)
    ensures Fold(ApplyCard, NO_CARD, FieldsOf(CardItems(c))) == Ok(c.(hashrate := ZERO))
  {
    hide LittleEndian, Fold;
    var c1 := NO_CARD.(uuid := c.uuid);
    var c2 := c1.(model := c.model);
    var c3 := c2.(index := c.index);
    var i1, i2, i3, i4 := Bytes(1, c.uuid), Bytes(2, c.model), Number(3, c.index), Double(4, c.hashrate);
    assert CardItems(c) == [i1] + ([i2] + ([i3] + [i4]));
    hide FieldsOf;
    FoldOne(ApplyCard, NO_CARD, i1);
    FoldWritten(ApplyCard, NO_CARD, c1, [i1], [i2] + ([i3] + [i4]));
    FoldOne(ApplyCard, c1, i2);
    FoldWritten(ApplyCard, c1, c2, [i2], [i3] + [i4]);
    FoldOne(ApplyCard, c2, i3);
    FoldWritten(ApplyCard, c2, c3, [i3], [i4]);
    FoldOne(ApplyCard, c3, i4);
  }

  // ----- registration -----

  datatype Register = Register(minerId: MinerId, identityKey: Text, wallet: Text, worker: Text, cards: seq<GpuCard>,
                               claimedHashrate: Bits64, version: Text, gitSha: Text, protocol: Word, k: Word)

  /** A freshly constructed message. */
  const BLANK := Register(seq(16, i => 0), [], [], [], [], ZERO, [], [], 2, 128)

  predicate SomeSet(id: MinerId) {
    exists i :: 0 <= i < 16 && id[i] != 0
  }

  function CardsItems(cards: seq<GpuCard>): seq<Item> {
    if cards == [] then [] else [Bytes(5, EncodeAll(CardItems(cards[0])))] + CardsItems(cards[1..])
  }

  function When(b: bool, i: Item): seq<Item> {
    if b then [i] else []
  }

  function FrontItems(r: Register): seq<Item> {
    When(SomeSet(r.minerId), Bytes(1, r.minerId)) + (When(r.identityKey != [], Bytes(2, r.identityKey))
    + ([Bytes(3, r.wallet)] + [Bytes(4, r.worker)]))
  }

  function BackItems(r: Register): seq<Item> {
    When(Positive(r.claimedHashrate), Double(6, r.claimedHashrate)) + ([Bytes(7, r.version)]
    + (When(r.gitSha != [], Bytes(8, r.gitSha)) + ([Number(9, r.protocol)] + [Number(10, r.k)])))
  }

  function RegisterItems(r: Register): seq<Item> {
    FrontItems(r) + (CardsItems(r.cards) + BackItems(r))
  }

  function ApplyRegister(r: Register, f: Field): Result<Register> {
    if f.number == 5 then
      match Decode(ApplyCard, NO_CARD, f.data, 0)
      case Ok(c) => Ok(r.(cards := r.cards + [c]))
      case Err(e) => Err(e)
    else
      Ok(if f.number == 1 then (if |f.data| == 16 then r.(minerId := f.data) else r)
         else if f.number == 2 then r.(identityKey := f.data)
         else if f.number == 3 then r.(wallet := f.data)
         else if f.number == 4 then r.(worker := f.data)
         else if f.number == 6 then r.(claimedHashrate := AsDouble(r.claimedHashrate, f.data))
         else if f.number == 7 then r.(version := f.data)
         else if f.number == 8 then r.(gitSha := f.data)
         else if f.number == 9 then r.(protocol := f.value % 0x1_0000_0000)
         else if f.number == 10 then r.(k := f.value % 0x1_0000_0000)
         else r)
  }

  /** Without the two kinds of doubles. */
  function Undoubled(r: Register): Register {
    r.(cards := UndoubledCards(r.cards), claimedHashrate := ZERO)
  }

  function UndoubledCards(cards: seq<GpuCard>): seq<GpuCard> {
    if cards == [] then [] else [cards[0].(hashrate := ZERO)] + UndoubledCards(cards[1..])
  }

  predicate CardsFit(cards: seq<GpuCard>) {
    forall i :: 0 <= i < |cards| ==> CardFits(cards[i]) && |EncodeAll(CardItems(cards[i]))| < 0x1_0000_0000_0000_0000
  }

  /** Sizes of strings in memory, and of the encoded cards. */
  predicate Fits(r: Register) {
    && |r.identityKey| < 0x1_0000_0000_0000_0000 && |r.wallet| < 0x1_0000_0000_0000_0000
    && |r.worker| < 0x1_0000_0000_0000_0000 && |r.version| < 0x1_0000_0000_0000_0000
    && |r.gitSha| < 0x1_0000_0000_0000_0000 && CardsFit(r.cards)
  }

  lemma {:induction false} CardsFold(r: Register, cards: seq<GpuCard>)
    requires CardsFit(cards)
    ensures Fold(ApplyRegister, r, FieldsOf(CardsItems(cards))) == Ok(r.(cards := r.cards + UndoubledCards(cards)))
    decreases |cards|
  {
    hide CardItems, EncodeAll, Decode;
    if cards == [] {
      assert r.cards + [] == r.cards;
    } else {
      var c, i := cards[0].(hashrate := ZERO), Bytes(5, EncodeAll(CardItems(cards[0])));
      var next := r.(cards := r.cards + [c]);
      CardRoundTrip(cards[0]);
      FoldOne(ApplyRegister, r, i);
      FoldWritten(ApplyRegister, r, next, [i], CardsItems(cards[1..]));
      hide Fold, FieldsOf;
      CardsFold(next, cards[1..]);
      assert r.cards + [c] + UndoubledCards(cards[1..]) == r.cards + ([c] + UndoubledCards(cards[1..]));
    }
  }

  /** One optional or mandatory item of a message, then the rest. */
  lemma FoldWhen(r: Register, next: Register, b: bool, i: Item, rest: seq<Item>)
    requires b ==> ApplyRegister(r, FieldOf(i)) == Ok(next)
    requires !b ==> next == r
    ensures Fold(ApplyRegister, r, FieldsOf(When(b, i) + rest)) == Fold(ApplyRegister, next, FieldsOf(rest))
  {
    hide ApplyRegister, FieldOf;
    if b {
      FoldOne(ApplyRegister, r, i);
      hide Fold, FieldsOf;
      FoldWritten(ApplyRegister, r, next, [i], rest);
    } else {
      assert [] + rest == rest;
    }
  }

  lemma FoldItem(r: Register, next: Register, i: Item, rest: seq<Item>)
    requires ApplyRegister(r, FieldOf(i)) == Ok(next)
    ensures Fold(ApplyRegister, r, FieldsOf([i] + rest)) == Fold(ApplyRegister, next, FieldsOf(rest))
  {
    hide ApplyRegister, FieldOf, Fold, FieldsOf;
    FoldWhen(r, next, true, i, rest);
  }

  lemma BlankId(r: Register)
    ensures !SomeSet(r.minerId) ==> r.minerId == BLANK.minerId
  {
  }

  lemma FrontFold(r: Register)
    ensures Fold(ApplyRegister, BLANK, FieldsOf(FrontItems(r)))
         == Ok(BLANK.(minerId := r.minerId, identityKey := r.identityKey, wallet := r.wallet, worker := r.worker))
  {
    hide Fold, FieldsOf, SomeSet, Decode;
    var t4 := [Bytes(4, r.worker)];
    var t3 := [Bytes(3, r.wallet)] + t4;
    var t2 := When(r.identityKey != [], Bytes(2, r.identityKey)) + t3;
    BlankId(r);
    var r1 := BLANK.(minerId := r.minerId);
    FoldWhen(BLANK, r1, SomeSet(r.minerId), Bytes(1, r.minerId), t2);
    var r2 := r1.(identityKey := r.identityKey);
    FoldWhen(r1, r2, r.identityKey != [], Bytes(2, r.identityKey), t3);
    var r3 := r2.(wallet := r.wallet);
    FoldItem(r2, r3, Bytes(3, r.wallet), t4);
    FoldOne(ApplyRegister, r3, Bytes(4, r.worker));
  }

  lemma BackFold(r: Register, r5: Register)
    ensures Fold(ApplyRegister, r5, FieldsOf(BackItems(r)))
         == Ok(r5.(version := r.version, gitSha := if r.gitSha == [] then r5.gitSha else r.gitSha,
                   protocol := r.protocol, k := r.k))
  {
    hide Fold, FieldsOf, Positive, LittleEndian, Decode;
    var t10 := [Number(10, r.k)];
    var t9 := [Number(9, r.protocol)] + t10;
    var t8 := When(r.gitSha != [], Bytes(8, r.gitSha)) + t9;
    var t7 := [Bytes(7, r.version)] + t8;
    FoldWhen(r5, r5, Positive(r.claimedHashrate), Double(6, r.claimedHashrate), t7);
    var r7 := r5.(version := r.version);
    FoldItem(r5, r7, Bytes(7, r.version), t8);
    var r8 := if r.gitSha == [] then r7 else r7.(gitSha := r.gitSha);
    FoldWhen(r7, r8, r.gitSha != [], Bytes(8, r.gitSha), t9);
    var r9 := r8.(protocol := r.protocol);
    FoldItem(r8, r9, Number(9, r.protocol), t10);
    FoldOne(ApplyRegister, r9, Number(10, r.k));
  }

  lemma RegisterFold(r: Register)
    requires Fits(r)
    ensures Fold(ApplyRegister, BLANK, FieldsOf(RegisterItems(r))) == Ok(Undoubled(r))
  {
    hide Fold, FieldsOf, CardsItems, UndoubledCards, FrontItems, BackItems, CardsFit, ApplyRegister;
    var r4 := BLANK.(minerId := r.minerId, identityKey := r.identityKey, wallet := r.wallet, worker := r.worker);
    FrontFold(r);
    FoldWritten(ApplyRegister, BLANK, r4, FrontItems(r), CardsItems(r.cards) + BackItems(r));
    var r5 := r4.(cards := UndoubledCards(r.cards));
    assert [] + UndoubledCards(r.cards) == UndoubledCards(r.cards);
    CardsFold(r4, r.cards);
    FoldWritten(ApplyRegister, r4, r5, CardsItems(r.cards), BackItems(r));
    BackFold(r, r5);
  }

  /** Items the message does not know. */
  predicate Unknown(items: seq<Item>) {
    forall i :: 0 <= i < |items| ==> items[i].number == 0 || items[i].number > 10
  }

  lemma {:induction false} UnknownFold(r: Register, items: seq<Item>)
    requires Unknown(items)
    ensures Fold(ApplyRegister, r, FieldsOf(items)) == Ok(r)
    decreases |items|
  {
    if items != [] {
      assert FieldOf(items[0]).number == items[0].number;
      assert ApplyRegister(r, FieldOf(items[0])) == Ok(r);
      assert FieldsOf(items)[1..] == FieldsOf(items[1..]);
      UnknownFold(r, items[1..]);
    }
  }

  lemma {:induction false} CardsWritable(cards: seq<GpuCard>)
    requires CardsFit(cards)
    ensures AllWritable(CardsItems(cards))
  {
    hide CardItems, EncodeAll;
    if cards != [] { CardsWritable(cards[1..]); }
  }

  lemma WritableConcat(a: seq<Item>, b: seq<Item>)
    requires AllWritable(a) && AllWritable(b)
    ensures AllWritable(a + b)
  {
  }

  lemma EndsWritable(r: Register)
    requires Fits(r)
    ensures AllWritable(FrontItems(r)) && AllWritable(BackItems(r))
  {
    hide CardsFit, SomeSet, Positive;
  }

  lemma RegisterWritable(r: Register)
    requires Fits(r)
    ensures AllWritable(RegisterItems(r))
  {
    CardsWritable(r.cards);
    EndsWritable(r);
    hide CardsItems, FrontItems, BackItems, CardsFit, AllWritable;
    WritableConcat(CardsItems(r.cards), BackItems(r));
    WritableConcat(FrontItems(r), CardsItems(r.cards) + BackItems(r));
  }

  /** Decoding restores everything but the doubles, with unknown fields behind it ignored. */
  lemma RegisterRoundTrip(r: Register, extra: seq<Item>)
    requires Fits(r) && AllWritable(extra) && Unknown(extra)
    ensures Decode(ApplyRegister, BLANK, EncodeAll(RegisterItems(r) + extra), 0) == Ok(Undoubled(r))
  {
    hide Decode, EncodeAll, RegisterItems, Fold, FieldsOf, Undoubled, Fits, Unknown;
    RegisterWritable(r);
    RegisterFold(r);
    UnknownFold(Undoubled(r), extra);
    FoldWritten(ApplyRegister, BLANK, Undoubled(r), RegisterItems(r), extra);
    DecodeWritten(ApplyRegister, BLANK, RegisterItems(r) + extra);
  }

  // ----- the encoding and decoding methods -----

  method EncodeCard(c: GpuCard) returns (out: seq<Byte>)
    requires CardFits(c)
    ensures out == EncodeAll(CardItems(c))
  {
    hide EncodeAll;
    var w := new Writer();
    w.WriteBytes(1, c.uuid);
    w.WriteBytes(2, c.model);
    w.WriteNumber(3, c.index);
    w.WriteDouble(4, c.hashrate);
    assert w.items == CardItems(c);
    out := w.buf;
  }

  method HasMinerId(id: MinerId) returns (yes: bool)
    ensures yes == SomeSet(id)
  {
    var i := 0;
    while i < 16
      invariant 0 <= i <= 16 && forall k :: 0 <= k < i ==> id[k] == 0
    {
      if id[i] != 0 { return true; }
      i := i + 1;
    }
    return false;
  }

  method WriteCards(w: Writer, cards: seq<GpuCard>)
    requires w.Valid() && CardsFit(cards)
    modifies w
    ensures w.Valid() && w.items == old(w.items) + CardsItems(cards)
  {
    hide EncodeAll, CardItems;
    var i := 0;
    assert cards[0..] == cards;
    while i < |cards|
      invariant 0 <= i <= |cards| && w.Valid()
      invariant w.items + CardsItems(cards[i..]) == old(w.items) + CardsItems(cards)
    {
      ghost var before := w.items;
      var enc := EncodeCard(cards[i]);
      w.WriteBytes(5, enc);
      assert cards[i..][1..] == cards[i + 1..];
      assert before + ([Bytes(5, enc)] + CardsItems(cards[i + 1..])) == w.items + CardsItems(cards[i + 1..]);
      i := i + 1;
    }
    assert w.items + [] == w.items;
  }

  method WriteFront(w: Writer, r: Register)
    requires w.Valid() && w.items == [] && Fits(r)
    modifies w
    ensures w.Valid() && w.items == FrontItems(r)
  {
    hide EncodeAll, SomeSet, CardsFit;
    var hasId := HasMinerId(r.minerId);
    if hasId { w.WriteBytes(1, r.minerId); }
    if r.identityKey != [] { w.WriteBytes(2, r.identityKey); }
    w.WriteBytes(3, r.wallet);
    w.WriteBytes(4, r.worker);
  }

  method WriteBack(w: Writer, r: Register)
    requires w.Valid() && Fits(r)
    modifies w
    ensures w.Valid() && w.items == old(w.items) + BackItems(r)
  {
    hide EncodeAll, CardsFit, LittleEndian;
    if 0 < LittleEndian(r.claimedHashrate) <= 0x7FF0_0000_0000_0000 { w.WriteDouble(6, r.claimedHashrate); }
    w.WriteBytes(7, r.version);
    if r.gitSha != [] { w.WriteBytes(8, r.gitSha); }
    w.WriteNumber(9, r.protocol);
    w.WriteNumber(10, r.k);
  }

  method EncodeRegister(r: Register) returns (out: seq<Byte>)
    requires Fits(r)
    ensures out == EncodeAll(RegisterItems(r))
  {
    hide EncodeAll, CardsItems, FrontItems, BackItems, CardsFit;
    var w := new Writer();
    WriteFront(w, r);
    WriteCards(w, r.cards);
    WriteBack(w, r);
    assert w.items == RegisterItems(r);
    out := w.buf;
  }

  method SetCardField(c: GpuCard, f: Field) returns (r: GpuCard)
    ensures ApplyCard(c, f) == Ok(r)
  {
    r := c;
    match f.number
    case 1 => r := r.(uuid := f.data);
    case 2 => r := r.(model := f.data);
    case 3 => r := r.(index := f.value % 0x1_0000_0000);
    case 4 => if |f.data| == 8 { r := r.(hashrate := f.data); }
    case _ =>
  }

  /** Every field but the cards. */
  method SetField(m: Register, f: Field) returns (r: Register)
    requires f.number != 5
    ensures ApplyRegister(m, f) == Ok(r)
  {
    r := m;
    match f.number
    case 1 => if |f.data| == 16 { r := r.(minerId := f.data); }
    case 2 => r := r.(identityKey := f.data);
    case 3 => r := r.(wallet := f.data);
    case 4 => r := r.(worker := f.data);
    case 6 => if |f.data| == 8 { r := r.(claimedHashrate := f.data); }
    case 7 => r := r.(version := f.data);
    case 8 => r := r.(gitSha := f.data);
    case 9 => r := r.(protocol := f.value % 0x1_0000_0000);
    case 10 => r := r.(k := f.value % 0x1_0000_0000);
    case _ =>
  }

  method DecodeCard(data: seq<Byte>) returns (r: Result<GpuCard>)
    ensures r == Decode(ApplyCard, NO_CARD, data, 0)
  {
    hide Next;
    var reader := new Reader(data);
    var c := NO_CARD;
    while true
      invariant reader.data == data && fresh(reader)
      invariant Decode(ApplyCard, c, data, reader.pos) == Decode(ApplyCard, NO_CARD, data, 0)
      decreases |data| - reader.pos
    {
      var step := reader.NextField();
      match step {
        case End => return Ok(c);
        case Fail(e) => return Err(e);
        case More(f, _) => c := SetCardField(c, f);
      }
    }
  }

  method DecodeRegister(data: seq<Byte>) returns (r: Result<Register>)
    ensures r == Decode(ApplyRegister, BLANK, data, 0)
  {
    hide Next;
    var reader := new Reader(data);
    var msg := BLANK;
    while true
      invariant reader.data == data && fresh(reader)
      invariant Decode(ApplyRegister, msg, data, reader.pos) == Decode(ApplyRegister, BLANK, data, 0)
      decreases |data| - reader.pos
    {
      var step := reader.NextField();
      match step {
        case End => return Ok(msg);
        case Fail(e) => return Err(e);
        case More(f, _) =>
          if f.number == 5 {
            var card := DecodeCard(f.data);
            if card.Err? { return Err(card.reason); }
            msg := msg.(cards := msg.cards + [card.value]);
          } else {
            msg := SetField(msg, f);
          }
      }
    }
  }
}
