/**
 The JSON printer and the reading of a byte string as positions, both as functions. A number is the
 exact value of a double: printing rounds it to six decimals, and what the library conversion makes
 of the exact value of a decimal token is a parameter.
 */
module Json {
  import opened Wrappers

  datatype Json =
    | Null
    | Bool(b: bool)
    | Number(v: real)
    | Str(s: string)
    | Arr(items: seq<Json>)
    | Obj(fields: seq<(string, Json)>)

  // ----- printing -----

  function EscapeChar(c: char): string {
    if c == '"' then "\\\"" else if c == '\\' then "\\\\" else if c == '\n' then "\\n"
    else if c == '\r' then "\\r" else if c == '\t' then "\\t" else [c]
  }

  function EscapeBody(s: string): string {
    if s == "" then "" else EscapeChar(s[0]) + EscapeBody(s[1..])
  }

  function Escape(s: string): string {
    "\"" + EscapeBody(s) + "\""
  }

  function DigitChar(d: nat): char
    requires d < 10
  {
    ('0' as int + d) as char
  }

  function Digits(n: nat): (s: string)
    ensures |s| > 0
  {
    if n < 10 then [DigitChar(n)] else Digits(n / 10) + [DigitChar(n % 10)]
  }

  /** The k low decimal digits of n, with leading zeros. */
  function Padded(n: nat, k: nat): (s: string)
    ensures |s| == k
  {
    if k == 0 then "" else Padded(n / 10, k - 1) + [DigitChar(n % 10)]
  }

  /** Nearest integer, ties to even. */
  function Nearest(x: real): nat
    requires x >= 0.0
  {
    var f := x.Floor;
    if x - f as real < 0.5 || (x - f as real == 0.5 && f % 2 == 0) then f else f + 1
  }

  predicate SmallInteger(v: real) {
    v.Floor as real == v && -1000000000000000.0 < v < 1000000000000000.0
  }

  function Sign(negative: bool): string {
    if negative then "-" else ""
  }

  function Abs(v: real): (a: real)
    ensures a >= 0.0
  {
    if v < 0.0 then -v else v
  }

  /** v in units of 10^-6. */
  function Micros(v: real): nat {
    Nearest(Abs(v) * 1000000.0)
  }

  function NumberText(v: real): string {
    if SmallInteger(v) then Sign(v < 0.0) + Digits(Abs(v).Floor)
    else Sign(v < 0.0) + Digits(Micros(v) / 1000000) + "." + Padded(Micros(v) % 1000000, 6)
  }

  function Serialize(j: Json): string
    decreases j, 1
  {
    match j
    case Null => "null"
    case Bool(b) => if b then "true" else "false"
    case Number(v) => NumberText(v)
    case Str(s) => Escape(s)
    case Arr(items) => "[" + SerializeItems(items) + "]"
    case Obj(fields) => "{" + SerializeFields(fields) + "}"
  }

  function SerializeItems(items: seq<Json>): string
    decreases items, 0
  {
    if items == [] then ""
    else if |items| == 1 then Serialize(items[0])
    else Serialize(items[0]) + "," + SerializeItems(items[1..])
  }

  function SerializeField(f: (string, Json)): string
    decreases f, 2
  {
    Escape(f.0) + ":" + Serialize(f.1)
  }

  function SerializeFields(fields: seq<(string, Json)>): string
    decreases fields, 0
  {
    if fields == [] then ""
    else if |fields| == 1 then SerializeField(fields[0])
    else SerializeField(fields[0]) + "," + SerializeFields(fields[1..])
  }

  // ----- reading -----

  predicate IsWs(c: char) {
    c == ' ' || c == '\t' || c == '\n' || c == '\r'
  }

  predicate IsDigit(c: char) {
    '0' <= c <= '9'
  }

  function Peek(s: string, pos: nat): char {
    if pos < |s| then s[pos] else '\0'
  }

  function Left(s: string, pos: nat): nat {
    if pos < |s| then |s| - pos else 0
  }

  function SkipWs(s: string, pos: nat): (r: nat)
    ensures r >= pos && (r < |s| ==> !IsWs(s[r])) && (r > pos ==> r <= |s|)
    decreases Left(s, pos)
  {
    if pos < |s| && IsWs(s[pos]) then SkipWs(s, pos + 1) else pos
  }

  function SkipDigits(s: string, pos: nat): (r: nat)
    ensures r >= pos && (r > pos ==> r <= |s|) && (r < |s| ==> !IsDigit(s[r]))
    decreases Left(s, pos)
  {
    if pos < |s| && IsDigit(s[pos]) then SkipDigits(s, pos + 1) else pos
  }

  function Unescape(c: char): char {
    if c == 'n' then '\n' else if c == 'r' then '\r' else if c == 't' then '\t'
    else if c == 'b' then 0x08 as char else if c == 'f' then 0x0C as char
    else if c == 'u' then '?' else c
  }

  function Next(s: string, pos: nat): nat {
    if pos < |s| then pos + 1 else pos
  }

  /** Position after the character following a backslash; a u also swallows up to four more. */
  function AfterEscape(s: string, pos: nat): (r: nat)
    ensures r >= pos && (pos <= |s| ==> r <= |s|)
  {
    var p := Next(s, pos);
    if Peek(s, pos) != 'u' then p else if p + 4 <= |s| then p + 4 else if p <= |s| then |s| else p
  }

  /** The string from just after its opening quote; stops after the closing one or at the end. */
  function StringBody(s: string, pos: nat): (r: (string, nat))
    ensures r.1 >= pos && (pos <= |s| ==> r.1 <= |s|)
    decreases Left(s, pos)
  {
    if pos >= |s| then ("", pos)
    else if s[pos] == '"' then ("", pos + 1)
    else if s[pos] == '\\' then
      var rest := StringBody(s, AfterEscape(s, pos + 1));
      ([Unescape(Peek(s, pos + 1))] + rest.0, rest.1)
    else
      var rest := StringBody(s, pos + 1);
      ([s[pos]] + rest.0, rest.1)
  }

  // ----- numbers -----

  function DigitsValue(t: string): nat
    requires forall i :: 0 <= i < |t| ==> IsDigit(t[i])
  {
    if t == "" then 0
    else
      assert IsDigit(t[|t| - 1]);
      DigitsValue(t[..|t| - 1]) * 10 + (t[|t| - 1] as int - '0' as int)
  }

  function Pow10(k: nat): (p: real)
    ensures p > 0.0
  {
    if k == 0 then 1.0 else 10.0 * Pow10(k - 1)
  }

  /** Positions of the parts of a number token: sign, integer digits, fraction digits, exponent. */
  function IntStart(s: string, pos: nat): nat {
    if Peek(s, pos) == '-' then pos + 1 else pos
  }

  function IntEnd(s: string, pos: nat): (r: nat)
    ensures r >= IntStart(s, pos)
  {
    SkipDigits(s, IntStart(s, pos))
  }

  function FracStart(s: string, pos: nat): (r: nat)
    ensures r >= IntEnd(s, pos)
  {
    var p := IntEnd(s, pos);
    if p < |s| && s[p] == '.' then p + 1 else p
  }

  function FracEnd(s: string, pos: nat): (r: nat)
    ensures r >= FracStart(s, pos)
  {
    var p := FracStart(s, pos);
    if p > IntEnd(s, pos) then SkipDigits(s, p) else p
  }

  predicate HasExp(s: string, pos: nat) {
    var p := FracEnd(s, pos);
    p < |s| && (s[p] == 'e' || s[p] == 'E')
  }

  function ExpStart(s: string, pos: nat): (r: nat)
    ensures r >= FracEnd(s, pos)
  {
    var p := FracEnd(s, pos);
    if !HasExp(s, pos) then p
    else if p + 1 < |s| && (s[p + 1] == '+' || s[p + 1] == '-') then p + 2 else p + 1
  }

  function NumberEnd(s: string, pos: nat): (r: nat)
    ensures r >= ExpStart(s, pos)
  {
    if HasExp(s, pos) then SkipDigits(s, ExpStart(s, pos)) else ExpStart(s, pos)
  }

  /** The digits s[a..b], where b was reached from a by skipping digits. */
  function Span(s: string, a: nat): (t: string)
    ensures forall i :: 0 <= i < |t| ==> IsDigit(t[i])
    ensures |t| == SkipDigits(s, a) - a
    decreases Left(s, a)
  {
    if a < |s| && IsDigit(s[a]) then [s[a]] + Span(s, a + 1) else ""
  }

  function FracText(s: string, pos: nat): (t: string)
    ensures forall i :: 0 <= i < |t| ==> IsDigit(t[i])
  {
    if FracStart(s, pos) > IntEnd(s, pos) then Span(s, FracStart(s, pos)) else ""
  }

  function Magnitude(whole: string, frac: string): real
    requires forall i :: 0 <= i < |whole| ==> IsDigit(whole[i])
    requires forall i :: 0 <= i < |frac| ==> IsDigit(frac[i])
  {
    DigitsValue(whole) as real + DigitsValue(frac) as real / Pow10(|frac|)
  }

  /** The exponent as a factor, 1 when there is none. */
  function Scale(s: string, pos: nat): real {
    var power := Pow10(DigitsValue(Span(s, ExpStart(s, pos))));
    if !HasExp(s, pos) then 1.0
    else if ExpStart(s, pos) > 0 && Peek(s, ExpStart(s, pos) - 1) == '-' then 1.0 / power
    else power
  }

  function Signed(negative: bool, x: real): real {
    if negative then -x else x
  }

  /** The value of a token's parts; an error when neither the integer nor the fraction part has a digit. */
  function TokenValue(negative: bool, whole: string, frac: string, scale: real): Result<real>
    requires forall i :: 0 <= i < |whole| ==> IsDigit(whole[i])
    requires forall i :: 0 <= i < |frac| ==> IsDigit(frac[i])
  {
    if whole == "" && frac == "" then Err("no conversion")
    else Ok(Signed(negative, Scaled(Magnitude(whole, frac), scale)))
  }

  function Scaled(x: real, scale: real): real {
    x * scale
  }

  function NumberAt(s: string, pos: nat): Result<real> {
    TokenValue(Peek(s, pos) == '-', Span(s, IntStart(s, pos)), FracText(s, pos), Scale(s, pos))
  }

  /** Exact decimal value to double: an error when out of range. */
  type Conversion = real -> Result<real>

  /** std::stod: the token's exact value, converted. */
  function Converted(conv: Conversion, exact: Result<real>): Result<real> {
    match exact
    case Err(e) => Err(e)
    case Ok(x) => conv(x)
  }

  // ----- values -----

  /** A value and the position after it. */
  type Parsed = (Json, nat)

  function ParseValue(conv: Conversion, s: string, pos: nat): (r: Result<Parsed>)
    ensures r.Ok? ==> r.value.1 >= pos
    decreases Left(s, pos), 1
  {
    var p := SkipWs(s, pos);
    if p >= |s| then Ok((Null, p))
    else if s[p] == '"' then var b := StringBody(s, p + 1); Ok((Str(b.0), b.1))
    else if s[p] == '{' then ParseObject(conv, s, p)
    else if s[p] == '[' then ParseArray(conv, s, p)
    else if s[p] == 't' then Ok((Bool(true), p + 4))
    else if s[p] == 'f' then Ok((Bool(false), p + 5))
    else if s[p] == 'n' then Ok((Null, p + 4))
    else match Converted(conv, NumberAt(s, p))
      case Err(e) => Err(e)
      case Ok(v) => Ok((Number(v), NumberEnd(s, p)))
  }

  function ParseArray(conv: Conversion, s: string, pos: nat): (r: Result<Parsed>)
    requires pos < |s|
    ensures r.Ok? ==> r.value.1 >= pos
    decreases Left(s, pos), 0
  {
    var p := SkipWs(s, pos + 1);
    if Peek(s, p) == ']' then Ok((Arr([]), p + 1))
    else match ParseItems(conv, s, p)
      case Err(e) => Err(e)
      case Ok(items) => Ok((Arr(items.0), items.1))
  }

  function ParseItems(conv: Conversion, s: string, pos: nat): (r: Result<(seq<Json>, nat)>)
    ensures r.Ok? ==> r.value.1 >= pos
    decreases Left(s, pos), 2
  {
    match ParseValue(conv, s, pos)
    case Err(e) => Err(e)
    case Ok(v) =>
      var p := SkipWs(s, v.1);
      if Peek(s, p) == ',' && p < |s| then
        match ParseItems(conv, s, SkipWs(s, p + 1))
        case Err(e) => Err(e)
        case Ok(rest) => Ok(([v.0] + rest.0, rest.1))
      else Ok(([v.0], Next(s, p)))
  }

  function ParseObject(conv: Conversion, s: string, pos: nat): (r: Result<Parsed>)
    requires pos < |s|
    ensures r.Ok? ==> r.value.1 >= pos
    decreases Left(s, pos), 0
  {
    var p := SkipWs(s, pos + 1);
    if Peek(s, p) == '}' then Ok((Obj([]), p + 1))
    else match ParseFields(conv, s, p)
      case Err(e) => Err(e)
      case Ok(fields) => Ok((Obj(fields.0), fields.1))
  }

  function KeyAt(s: string, pos: nat): (r: (string, nat))
    ensures r.1 >= pos
  {
    StringBody(s, Next(s, SkipWs(s, pos)))
  }

  function AfterColon(s: string, pos: nat): (r: nat)
    ensures r >= pos
  {
    var p := SkipWs(s, pos);
    if Peek(s, p) == ':' then p + 1 else p
  }

  function ParseFields(conv: Conversion, s: string, pos: nat): (r: Result<(seq<(string, Json)>, nat)>)
    ensures r.Ok? ==> r.value.1 >= pos
    decreases Left(s, pos), 2
  {
    var key := KeyAt(s, pos);
    match ParseValue(conv, s, AfterColon(s, key.1))
    case Err(e) => Err(e)
    case Ok(v) =>
      var p := SkipWs(s, v.1);
      if Peek(s, p) == ',' && p < |s| then
        match ParseFields(conv, s, SkipWs(s, p + 1))
        case Err(e) => Err(e)
        case Ok(rest) => Ok(([(key.0, v.0)] + rest.0, rest.1))
      else Ok(([(key.0, v.0)], Next(s, p)))
  }
}
