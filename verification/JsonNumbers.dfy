/**
 Which values survive printing and reading. Numbers are the fixed points of the conversion from
 decimal to double, and a double survives exactly when some millionth converts to it.
 */
module JsonNumbers {
  import opened Wrappers
  import opened Json
  import opened JsonNumeral
  import opened JsonGrammar
  import opened JsonRoundTrip

  // ----- conversions that round -----

  predicate Between(z: real, a: real, b: real) {
    a <= z <= b || b <= z <= a
  }

  predicate Mirrored(v: real, x: real, z: real) {
    x + z == 2.0 * v
  }

  predicate Whole(v: real) {
    v.Floor as real == v
  }

  predicate IsDouble(conv: Conversion, v: real) {
    conv(v) == Ok(v)
  }

  /** What lies between a number and the double it converts to converts to the same double. */
  ghost predicate Convex(conv: Conversion) {
    forall x: real, z: real :: conv(x).Ok? && Between(z, conv(x).value, x) ==> conv(z) == conv(x)
  }

  /** Beyond 1, what converts to a double with a fraction lies symmetrically around it. */
  ghost predicate Symmetric(conv: Conversion) {
    forall v: real, x: real, z: real ::
      (Mirrored(v, x, z) && IsDouble(conv, v) && Abs(v) >= 1.0 && !Whole(v) && conv(x) == Ok(v))
      ==> conv(z) == Ok(v)
  }

  /** Below 1, doubles are much closer together than millionths. */
  ghost predicate Fine(conv: Conversion) {
    forall x: real :: conv(x).Ok? && Abs(conv(x).value) < 1.0 ==> Abs(conv(x).value - x) < 0.00000025
  }

  ghost predicate Rounding(conv: Conversion) {
    Convex(conv) && Symmetric(conv) && Fine(conv)
  }

  // ----- one number -----

  function Millionths(m: int): real {
    m as real / 1000000.0
  }

  /** Some number with six decimals converts to v. */
  ghost predicate NearMillionth(conv: Conversion, v: real) {
    exists m: int :: conv(Millionths(m)) == Ok(v)
  }

  lemma FloorIs(x: real, k: int)
    requires k as real == x
    ensures x.Floor == k
  {
  }

  /** The nearest integer is at least as near as any other. */
  lemma NearestIsNearest(x: real, k: int)
    requires x >= 0.0
    ensures Abs(Nearest(x) as real - x) <= Abs(k as real - x)
  {
    var f := x.Floor;
    if k <= f {
      assert k as real <= f as real;
    } else {
      assert k as real >= (f + 1) as real;
    }
  }

  /** A number halfway between two integers goes to the even one. */
  lemma TieGoesToEven(k: nat)
    ensures Nearest(k as real + 0.5) == if k % 2 == 0 then k else k + 1
  {
    assert (k as real + 0.5).Floor == k;
  }

  function Printed(v: real): int {
    if SmallInteger(v) then v.Floor * 1000000 else if v < 0.0 then 0 - Micros(v) else Micros(v)
  }

  lemma PrintedIsMillionths(v: real)
    ensures RoundedNumber(v) == Millionths(Printed(v))
  {
    hide Micros;
  }

  /** Printing picks a nearest millionth. */
  lemma PrintedIsNearest(v: real, m: int)
    ensures Abs(RoundedNumber(v) - v) <= Abs(Millionths(m) - v)
  {
    var x := Abs(v) * 1000000.0;
    var k := if v < 0.0 then 0 - m else m;
    NearestIsNearest(x, k);
    hide Nearest;
    assert Abs(Millionths(m) - v) * 1000000.0 == Abs(k as real - x);
    if !SmallInteger(v) {
      assert Abs(RoundedNumber(v) - v) * 1000000.0 == Abs(Micros(v) as real - x);
    }
  }

  lemma WholeIsKept(v: real)
    requires Whole(v)
    ensures RoundedNumber(v) == v
  {
    var f := v.Floor;
    PrintedIsNearest(v, f * 1000000);
    hide RoundedNumber;
    assert Millionths(f * 1000000) == v;
  }

  /** Two millionths less than half a millionth apart are equal. */
  lemma CloseMillionths(a: int, b: int)
    requires Abs(Millionths(a) - Millionths(b)) < 0.0000005
    ensures a == b
  {
    assert Millionths(a) - Millionths(b) == Millionths(a - b);
  }

  lemma SmallSurvives(conv: Conversion, v: real, m: int)
    requires Fine(conv) && Abs(v) < 1.0 && conv(Millionths(m)) == Ok(v)
    ensures RoundedNumber(v) == Millionths(m)
  {
    hide RoundedNumber, Millionths, SmallInteger, Micros;
    var y := Millionths(m);
    assert Abs(v - y) < 0.00000025;
    PrintedIsNearest(v, m);
    PrintedIsMillionths(v);
    CloseMillionths(Printed(v), m);
  }

  lemma LargeSurvives(conv: Conversion, v: real, m: int)
    requires Convex(conv) && Symmetric(conv) && IsDouble(conv, v) && Abs(v) >= 1.0 && !Whole(v)
    requires conv(Millionths(m)) == Ok(v)
    ensures conv(RoundedNumber(v)) == Ok(v)
  {
    hide RoundedNumber, Millionths, Whole;
    var y, p := Millionths(m), RoundedNumber(v);
    PrintedIsNearest(v, m);
    if Between(p, v, y) {
      assert conv(p) == conv(y);
    } else {
      var z := 2.0 * v - y;
      assert Mirrored(v, y, z);
      assert conv(z) == Ok(v);
      assert Between(p, v, z);
      assert conv(p) == conv(z);
    }
  }

  /** A double survives printing and reading exactly when some millionth converts to it. */
  lemma NumberSurvivesIff(conv: Conversion, v: real)
    requires Rounding(conv) && IsDouble(conv, v)
    ensures conv(RoundedNumber(v)) == Ok(v) <==> NearMillionth(conv, v)
  {
    hide RoundedNumber, Convex, Symmetric, Fine, Printed, Whole;
    if conv(RoundedNumber(v)) == Ok(v) {
      PrintedIsMillionths(v);
      assert conv(Millionths(Printed(v))) == Ok(v);
    }
    if NearMillionth(conv, v) {
      var m: int :| conv(Millionths(m)) == Ok(v);
      if Whole(v) { WholeIsKept(v); }
      else if Abs(v) < 1.0 { SmallSurvives(conv, v, m); }
      else { LargeSurvives(conv, v, m); }
    }
  }

  // ----- whole values -----

  ghost predicate AllNumbers(p: real -> bool, j: Json)
    decreases j, 1
  {
    match j
    case Number(v) => p(v)
    case Arr(items) => AllInItems(p, items)
    case Obj(fields) => AllInFields(p, fields)
    case _ => true
  }

  ghost predicate AllInItems(p: real -> bool, items: seq<Json>)
    decreases items, 0
  {
    items == [] || (AllNumbers(p, items[0]) && AllInItems(p, items[1..]))
  }

  ghost predicate AllInFields(p: real -> bool, fields: seq<(string, Json)>)
    decreases fields, 0
  {
    fields == [] || (AllInField(p, fields[0]) && AllInFields(p, fields[1..]))
  }

  ghost predicate AllInField(p: real -> bool, f: (string, Json))
    decreases f, 2
  {
    AllNumbers(p, f.1)
  }

  ghost function Doubles(conv: Conversion): real -> bool {
    v => IsDouble(conv, v)
  }

  ghost function NearMillionths(conv: Conversion): real -> bool {
    v => NearMillionth(conv, v)
  }

  lemma ChainIsSame<T>(first: Result<T>, rest: Result<seq<T>>, all: seq<T>)
    requires all != []
    ensures Chain(first, rest) == Ok(all) <==> first == Ok(all[0]) && rest == Ok(all[1..])
  {
    assert all == [all[0]] + all[1..];
    if first.Ok? && rest.Ok? {
      var c := [first.value] + rest.value;
      assert c[0] == first.value && c[1..] == rest.value;
    }
  }

  lemma {:induction false} ValueSurvives(conv: Conversion, j: Json)
    requires Rounding(conv) && AllNumbers(Doubles(conv), j)
    ensures Reread(conv, j) == Ok(j) <==> AllNumbers(NearMillionths(conv), j)
    decreases j, 1
  {
    hide Rounding, RoundedNumber, NearMillionth, RereadItems, RereadFields, AllInItems, AllInFields;
    match j
    case Number(v) => NumberSurvivesIff(conv, v);
    case Arr(items) => ItemsSurvive(conv, items);
    case Obj(fields) => FieldsSurvive(conv, fields);
    case _ =>
  }

  lemma {:induction false} ItemsSurvive(conv: Conversion, items: seq<Json>)
    requires Rounding(conv) && AllInItems(Doubles(conv), items)
    ensures RereadItems(conv, items) == Ok(items) <==> AllInItems(NearMillionths(conv), items)
    decreases items, 0
  {
    hide Rounding, Reread, AllNumbers, Chain, Doubles, NearMillionths;
    if items != [] {
      ValueSurvives(conv, items[0]);
      ItemsSurvive(conv, items[1..]);
      ChainIsSame(Reread(conv, items[0]), RereadItems(conv, items[1..]), items);
    }
  }

  lemma {:induction false} FieldsSurvive(conv: Conversion, fields: seq<(string, Json)>)
    requires Rounding(conv) && AllInFields(Doubles(conv), fields)
    ensures RereadFields(conv, fields) == Ok(fields) <==> AllInFields(NearMillionths(conv), fields)
    decreases fields, 0
  {
    hide Rounding, RereadField, AllInField, Chain, Doubles, NearMillionths;
    if fields != [] {
      FieldSurvives(conv, fields[0]);
      FieldsSurvive(conv, fields[1..]);
      ChainIsSame(RereadField(conv, fields[0]), RereadFields(conv, fields[1..]), fields);
    }
  }

  lemma {:induction false} FieldSurvives(conv: Conversion, f: (string, Json))
    requires Rounding(conv) && AllInField(Doubles(conv), f)
    ensures RereadField(conv, f) == Ok(f) <==> AllInField(NearMillionths(conv), f)
    decreases f, 2
  {
    hide Rounding, Reread, AllNumbers, Doubles, NearMillionths;
    ValueSurvives(conv, f.1);
  }

  /** Printing then reading gives a value of doubles back exactly when each is nearest to some millionth. */
  lemma RoundTripIff(conv: Conversion, j: Json)
    requires Rounding(conv) && AllNumbers(Doubles(conv), j)
    ensures ParseValue(conv, Serialize(j), 0) == Ok((j, |Serialize(j)|)) <==> AllNumbers(NearMillionths(conv), j)
  {
    hide ParseValue, Serialize, Reread, AllNumbers, Rounding, Doubles, NearMillionths;
    if j.Number? { assert Stops(Serialize(j), |Serialize(j)|); }
    ValueRoundTrip(conv, j, Serialize(j), 0);
    ValueSurvives(conv, j);
  }
}
