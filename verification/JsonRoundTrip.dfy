/** Reading what was printed: the printer writes one layout of the grammar, without white space. */
module JsonRoundTrip {
  import opened Wrappers
  import opened Json
  import opened JsonNumeral
  import opened JsonGrammar
  import opened Slices

  // ----- strings -----

  function PieceOf(c: char): Piece {
    if c == '"' then Escaped('"') else if c == '\\' then Escaped('\\') else if c == '\n' then Escaped('n')
    else if c == '\r' then Escaped('r') else if c == '\t' then Escaped('t') else Plain(c)
  }

  function PiecesOf(x: string): (ps: seq<Piece>)
    ensures |ps| == |x|
  {
    seq(|x|, i requires 0 <= i < |x| => PieceOf(x[i]))
  }

  lemma PiecesOfOk(x: string)
    ensures PiecesOk(PiecesOf(x)) && BodyMeans(PiecesOf(x)) == x
  {
  }

  lemma {:induction false} EscapedText(x: string)
    ensures BodyText(PiecesOf(x)) == EscapeBody(x)
    decreases |x|
  {
    if x != "" {
      EscapedText(x[1..]);
      assert PiecesOf(x)[1..] == PiecesOf(x[1..]);
    }
  }

  /** Every string survives escaping. */
  lemma StringRoundTrip(x: string, s: string, pos: nat)
    requires At(s, pos, EscapeBody(x) + "\"")
    ensures StringBody(s, pos) == (x, pos + |EscapeBody(x)| + 1)
  {
    hide StringBody, At, EscapeBody, BodyMeans, PiecesOk, PiecesOf;
    EscapedText(x);
    PiecesOfOk(x);
    BodyRead(PiecesOf(x), s, pos);
  }

  // ----- numbers -----

  lemma {:induction false} DigitsOf(n: nat)
    ensures AllDigits(Digits(n)) && Decimal(Digits(n)) == n
  {
    if n >= 10 {
      DigitsOf(n / 10);
      DecimalAppend(Digits(n / 10), DigitChar(n % 10));
    } else {
      assert Digits(n)[1..] == "" && Tens(0) == 1;
    }
  }

  lemma {:induction false} PaddedOf(n: nat, k: nat)
    requires n < Tens(k)
    ensures AllDigits(Padded(n, k)) && Decimal(Padded(n, k)) == n
    decreases k
  {
    if k > 0 {
      PaddedOf(n / 10, k - 1);
      DecimalAppend(Padded(n / 10, k - 1), DigitChar(n % 10));
    }
  }

  /** The number as printed: itself for integers below 10^15, else rounded to six decimals. */
  function RoundedNumber(v: real): real {
    if SmallInteger(v) then v
    else if v < 0.0 then -(Micros(v) as real / 1000000.0) else Micros(v) as real / 1000000.0
  }

  function NumeralOf(v: real): Numeral {
    if SmallInteger(v) then Numeral(v < 0.0, Digits(Abs(v).Floor), None, None)
    else Numeral(v < 0.0, Digits(Micros(v) / 1000000), Some(Padded(Micros(v) % 1000000, 6)), None)
  }

  lemma PrintedNumeral(v: real)
    ensures NumeralText(NumeralOf(v)) == NumberText(v)
  {
    hide Digits, Padded, Micros, SmallInteger;
    var n := NumeralOf(v);
    if SmallInteger(v) {
      assert FracPart(n) == "" && PowerPart(n) == "";
    } else {
      assert FracPart(n) == "." + Padded(Micros(v) % 1000000, 6) && PowerPart(n) == "";
    }
  }

  lemma PrintedValue(v: real)
    ensures NumeralOk(NumeralOf(v)) && NumeralValue(NumeralOf(v)) == RoundedNumber(v)
  {
    hide Digits, Padded, Micros, Decimal, Tens, AllDigits, SmallInteger;
    if SmallInteger(v) {
      DigitsOf(Abs(v).Floor);
      FloorAbs(v);
    } else {
      var m := Micros(v);
      DigitsOf(m / 1000000);
      TenToSix();
      PaddedOf(m % 1000000, 6);
      Recombine(m);
    }
  }

  lemma TenToSix()
    ensures Tens(6) == 1000000
  {
    assert Tens(3) == 1000;
  }

  /** Integers below 10^15 are printed without a point, every other number with exactly six decimals. */
  lemma PrintedForm(v: real)
    ensures if v.Floor as real == v && -1000000000000000.0 < v < 1000000000000000.0
            then '.' !in NumberText(v)
            else |NumberText(v)| > 7 && NumberText(v)[|NumberText(v)| - 7] == '.'
  {
    DigitsOf(Abs(v).Floor);
    DigitsOf(Micros(v) / 1000000);
    hide Digits, Padded, Micros, Decimal;
  }

  /** The exact value of a printed token is the number rounded to six decimals. */
  lemma NumberRoundTrip(v: real, s: string, pos: nat)
    requires At(s, pos, NumberText(v)) && Stops(s, pos + |NumberText(v)|)
    ensures NumberEnd(s, pos) == pos + |NumberText(v)| && NumberAt(s, pos) == Ok(RoundedNumber(v))
  {
    hide NumberEnd, NumberAt, NumberText, At, Stops, RoundedNumber, NumeralOk, NumeralValue, NumeralText;
    PrintedNumeral(v);
    PrintedValue(v);
    NumeralRead(NumeralOf(v), s, pos);
  }

  lemma FloorAbs(v: real)
    requires SmallInteger(v)
    ensures Abs(v).Floor as real == Abs(v)
  {
    FloorOfInteger(v, v.Floor);
  }

  lemma FloorOfInteger(v: real, k: int)
    requires v == k as real
    ensures Abs(v).Floor as real == Abs(v)
  {
    var a := if k < 0 then -k else k;
    assert Abs(v) == a as real;
    assert (a as real).Floor == a;
  }

  lemma Recombine(m: nat)
    ensures (m / 1000000) as real + (m % 1000000) as real / 1000000.0 == m as real / 1000000.0
  {
    var q, r := m / 1000000, m % 1000000;
    assert m as real == q as real * 1000000.0 + r as real;
  }

  // ----- values -----

  /** The value with every number as printed and converted back; the first conversion error if there is one. */
  function Reread(conv: Conversion, j: Json): Result<Json>
    decreases j, 1
  {
    match j
    case Number(v) => NumberMeans(conv(RoundedNumber(v)))
    case Arr(items) =>
      (match RereadItems(conv, items)
       case Err(e) => Err(e)
       case Ok(vs) => Ok(Arr(vs)))
    case Obj(fields) =>
      (match RereadFields(conv, fields)
       case Err(e) => Err(e)
       case Ok(fs) => Ok(Obj(fs)))
    case _ => Ok(j)
  }

  function RereadItems(conv: Conversion, items: seq<Json>): Result<seq<Json>>
    decreases items, 0
  {
    if items == [] then Ok([]) else Chain(Reread(conv, items[0]), RereadItems(conv, items[1..]))
  }

  function RereadFields(conv: Conversion, fields: seq<(string, Json)>): Result<seq<(string, Json)>>
    decreases fields, 0
  {
    if fields == [] then Ok([]) else Chain(RereadField(conv, fields[0]), RereadFields(conv, fields[1..]))
  }

  function RereadField(conv: Conversion, f: (string, Json)): Result<(string, Json)>
    decreases f, 2
  {
    Keyed(f.0, Reread(conv, f.1))
  }

  /** The layout the printer writes. */
  function NodeOf(j: Json): Node
    decreases j, 1
  {
    match j
    case Null => NullNode
    case Bool(b) => BoolNode(b)
    case Number(v) => NumberNode(NumeralOf(v))
    case Str(x) => StringNode(PiecesOf(x))
    case Arr(items) => ArrayNode("", ItemsOf(items))
    case Obj(fields) => ObjectNode("", FieldsOf(fields))
  }

  function ItemsOf(items: seq<Json>): (r: seq<Item>)
    ensures |r| == |items|
    decreases items, 0
  {
    if items == [] then [] else [Item("", NodeOf(items[0]), "")] + ItemsOf(items[1..])
  }

  function FieldsOf(fields: seq<(string, Json)>): (r: seq<Field>)
    ensures |r| == |fields|
    decreases fields, 0
  {
    if fields == [] then [] else [FieldOf(fields[0])] + FieldsOf(fields[1..])
  }

  function FieldOf(f: (string, Json)): Field
    decreases f, 2
  {
    Field("", PiecesOf(f.0), "", "", NodeOf(f.1), "")
  }

  /** What the printer's layout says and means, for one value. */
  ghost predicate AsPrinted(conv: Conversion, j: Json) {
    NodeOk(NodeOf(j)) && Text(NodeOf(j)) == Serialize(j) && Means(conv, NodeOf(j)) == Reread(conv, j)
  }

  ghost predicate PrintedItems(conv: Conversion, items: seq<Json>) {
    && ItemsOk(ItemsOf(items)) && ItemsText(ItemsOf(items)) == SerializeItems(items)
    && ItemsMean(conv, ItemsOf(items)) == RereadItems(conv, items)
  }

  ghost predicate PrintedFields(conv: Conversion, fields: seq<(string, Json)>) {
    && FieldsOk(FieldsOf(fields)) && FieldsText(FieldsOf(fields)) == SerializeFields(fields)
    && FieldsMean(conv, FieldsOf(fields)) == RereadFields(conv, fields)
  }

  lemma {:induction false} NodeIsPrinted(conv: Conversion, j: Json)
    ensures AsPrinted(conv, j)
    decreases j, 1
  {
    hide NumeralText, NumberText, NumeralOk, NumeralValue, RoundedNumber, NumeralOf, PiecesOf, PiecesOk, BodyMeans,
         BodyText, EscapeBody, ItemsOf, FieldsOf, ItemsText, FieldsText, ItemsMean, FieldsMean, ItemsOk, FieldsOk,
         SerializeItems, SerializeFields, RereadItems, RereadFields;
    match j
    case Number(v) =>
      PrintedNumeral(v);
      PrintedValue(v);
    case Str(x) =>
      EscapedText(x);
      PiecesOfOk(x);
    case Arr(items) =>
      ItemsArePrinted(conv, items);
      EmptyTexts();
    case Obj(fields) =>
      FieldsArePrinted(conv, fields);
      EmptyTexts();
    case _ =>
  }

  lemma EmptyTexts()
    ensures ItemsText([]) == "" && FieldsText([]) == ""
  {
  }

  lemma {:induction false} ItemsArePrinted(conv: Conversion, items: seq<Json>)
    ensures PrintedItems(conv, items)
    decreases items, 0
  {
    if items != [] {
      NodeIsPrinted(conv, items[0]);
      ItemsArePrinted(conv, items[1..]);
      FirstItemPrinted(conv, items);
    }
  }

  lemma FirstItemPrinted(conv: Conversion, items: seq<Json>)
    requires items != [] && AsPrinted(conv, items[0]) && PrintedItems(conv, items[1..])
    ensures PrintedItems(conv, items)
  {
    hide NodeOf, Text, Means, Serialize, Reread, NodeOk;
    var r := ItemsOf(items);
    assert r[0] == Item("", NodeOf(items[0]), "") && r[1..] == ItemsOf(items[1..]);
    assert "" + Text(r[0].value) + "" == Text(r[0].value);
    assert ItemText(r[0]) == Serialize(items[0]);
    assert ItemOk(r[0]) && ItemMeans(conv, r[0]) == Reread(conv, items[0]);
    hide ItemText, ItemOk, ItemMeans;
  }

  lemma {:induction false} FieldsArePrinted(conv: Conversion, fields: seq<(string, Json)>)
    ensures PrintedFields(conv, fields)
    decreases fields, 0
  {
    if fields != [] {
      FieldIsPrinted(conv, fields[0]);
      FieldsArePrinted(conv, fields[1..]);
      FirstFieldPrinted(conv, fields);
    }
  }

  ghost predicate PrintedField(conv: Conversion, f: (string, Json)) {
    && FieldOk(FieldOf(f)) && FieldText(FieldOf(f)) == SerializeField(f)
    && FieldMeans(conv, FieldOf(f)) == RereadField(conv, f)
  }

  lemma {:induction false} FieldIsPrinted(conv: Conversion, f: (string, Json))
    ensures PrintedField(conv, f)
    decreases f, 2
  {
    hide NodeOf, Text, Means, Serialize, Reread, NodeOk, PiecesOf, PiecesOk, BodyMeans, BodyText, EscapeBody;
    NodeIsPrinted(conv, f.1);
    EscapedText(f.0);
    PiecesOfOk(f.0);
    PlainLayout(Quoted(PiecesOf(f.0)), Text(NodeOf(f.1)));
  }

  lemma PlainLayout(key: string, value: string)
    ensures "" + key + "" + ":" + "" + value + "" == key + ":" + value
  {
  }

  lemma FirstFieldPrinted(conv: Conversion, fields: seq<(string, Json)>)
    requires fields != [] && PrintedField(conv, fields[0]) && PrintedFields(conv, fields[1..])
    ensures PrintedFields(conv, fields)
  {
    hide FieldOf, FieldText, FieldMeans, SerializeField, RereadField, FieldOk;
    var r := FieldsOf(fields);
    assert r[0] == FieldOf(fields[0]) && r[1..] == FieldsOf(fields[1..]);
  }

  /**
   Reading a printed value gives it back with its numbers reread, and stops exactly at its end,
   whatever comes before and after (a number must not be followed by something that extends it).
   */
  lemma ValueRoundTrip(conv: Conversion, j: Json, s: string, pos: nat)
    requires At(s, pos, Serialize(j)) && (j.Number? ==> Stops(s, pos + |Serialize(j)|))
    ensures ParseValue(conv, s, pos) == Ending(Reread(conv, j), pos + |Serialize(j)|)
  {
    hide At, Stops, ParseValue, Text, Means, Serialize, Reread, NodeOk;
    NodeIsPrinted(conv, j);
    assert "" + Text(NodeOf(j)) == Text(NodeOf(j));
    GrammarRead(conv, "", NodeOf(j), s, pos);
  }
}
