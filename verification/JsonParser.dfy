/** The parser object: one cursor over the input, proved to read what the positional functions read. */
module JsonParser {
  import opened Wrappers
  import opened Json

  // ----- a number token read on its own -----

  /** What std::stod makes of a token. */
  function Stod(conv: Conversion, token: string): Result<real> {
    Converted(conv, NumberAt(token, 0))
  }

  /** t is the part [a, b) of s. */
  ghost predicate Cut(s: string, a: nat, b: nat, t: string) {
    a <= b <= |s| && |t| == b - a && forall i :: 0 <= i < |t| ==> t[i] == s[a + i]
  }

  /** Cutting does not change a run of digits that ends by b. */
  lemma {:induction false} DigitsLocal(s: string, a: nat, b: nat, t: string, i: nat)
    requires Cut(s, a, b, t) && a + i <= b && SkipDigits(s, a + i) <= b
    ensures a + SkipDigits(t, i) == SkipDigits(s, a + i) && Span(t, i) == Span(s, a + i)
    decreases b - (a + i)
  {
    if a + i < b && IsDigit(s[a + i]) { DigitsLocal(s, a, b, t, i + 1); }
  }

  lemma PeekLocal(s: string, a: nat, b: nat, t: string, i: nat)
    requires Cut(s, a, b, t) && a + i < b
    ensures i < |t| && a + i < |s| && Peek(t, i) == t[i] == Peek(s, a + i) == s[a + i]
  {
  }

  lemma NumberEndInside(s: string, pos: nat)
    requires pos <= |s|
    ensures pos <= IntStart(s, pos) <= IntEnd(s, pos) <= FracStart(s, pos) <= FracEnd(s, pos)
         <= ExpStart(s, pos) <= NumberEnd(s, pos) <= |s|
  {
    hide SkipDigits;
  }

  lemma SignLocal(s: string, pos: nat, b: nat, t: string)
    requires Cut(s, pos, b, t) && IntStart(s, pos) <= b
    ensures (Peek(t, 0) == '-') == (Peek(s, pos) == '-') && pos + IntStart(t, 0) == IntStart(s, pos)
  {
    if pos < b { PeekLocal(s, pos, b, t, 0); }
  }

  lemma WholeLocal(s: string, pos: nat, b: nat, t: string)
    requires Cut(s, pos, b, t) && IntEnd(s, pos) <= b
    ensures pos + IntStart(t, 0) == IntStart(s, pos) && pos + IntEnd(t, 0) == IntEnd(s, pos)
    ensures Span(t, IntStart(t, 0)) == Span(s, IntStart(s, pos))
  {
    hide Cut, SkipDigits, Span;
    SignLocal(s, pos, b, t);
    hide IntStart;
    DigitsLocal(s, pos, b, t, IntStart(t, 0));
  }

  predicate HasFrac(s: string, pos: nat) {
    FracStart(s, pos) > IntEnd(s, pos)
  }

  lemma PointLocal(s: string, pos: nat, b: nat, t: string)
    requires Cut(s, pos, b, t) && FracStart(s, pos) <= b
    ensures pos + FracStart(t, 0) == FracStart(s, pos) && HasFrac(t, 0) == HasFrac(s, pos)
    ensures |t| == b - pos
  {
    assert |t| == b - pos && b <= |s|;
    hide Cut, SkipDigits, Span;
    WholeLocal(s, pos, b, t);
    hide IntEnd;
    var p := IntEnd(t, 0);
    if pos + p < b { PeekLocal(s, pos, b, t, p); }
  }

  lemma FracLocal(s: string, pos: nat, b: nat, t: string)
    requires Cut(s, pos, b, t) && FracEnd(s, pos) <= b
    ensures pos + FracEnd(t, 0) == FracEnd(s, pos)
    ensures HasFrac(s, pos) ==> Span(t, FracStart(t, 0)) == Span(s, FracStart(s, pos))
  {
    hide Cut, SkipDigits, Span, IntEnd, FracStart;
    PointLocal(s, pos, b, t);
    if HasFrac(s, pos) { DigitsLocal(s, pos, b, t, FracStart(t, 0)); }
  }

  lemma ExpStartLocal(s: string, pos: nat, b: nat, t: string)
    requires Cut(s, pos, b, t) && ExpStart(s, pos) <= b
    ensures HasExp(t, 0) == HasExp(s, pos) && pos + ExpStart(t, 0) == ExpStart(s, pos)
  {
    PointLocal(s, pos, b, t);
    hide Cut, SkipDigits, Span, IntEnd, FracStart;
    FracLocal(s, pos, b, t);
    hide FracEnd;
    var p := FracEnd(t, 0);
    if pos + p < b { PeekLocal(s, pos, b, t, p); }
    if pos + p + 1 < b { PeekLocal(s, pos, b, t, p + 1); }
  }

  lemma ExpLocal(s: string, pos: nat, t: string)
    requires Cut(s, pos, NumberEnd(s, pos), t) && HasExp(s, pos)
    ensures Span(t, ExpStart(t, 0)) == Span(s, ExpStart(s, pos)) && ExpStart(s, pos) > pos
    ensures ExpStart(t, 0) > 0 && Peek(t, ExpStart(t, 0) - 1) == Peek(s, ExpStart(s, pos) - 1)
  {
    var b := NumberEnd(s, pos);
    hide Cut, SkipDigits, Span, IntEnd, FracStart, FracEnd;
    assert ExpStart(s, pos) > FracEnd(s, pos);
    ExpStartLocal(s, pos, b, t);
    assert b == SkipDigits(s, ExpStart(s, pos));
    hide ExpStart, HasExp, NumberEnd;
    DigitsLocal(s, pos, b, t, ExpStart(t, 0));
    PeekLocal(s, pos, b, t, ExpStart(t, 0) - 1);
  }

  lemma FracTextLocal(s: string, pos: nat, b: nat, t: string)
    requires Cut(s, pos, b, t) && FracEnd(s, pos) <= b
    ensures FracText(t, 0) == FracText(s, pos)
  {
    PointLocal(s, pos, b, t);
    FracLocal(s, pos, b, t);
    hide Cut, SkipDigits, Span, IntEnd, FracStart;
  }

  lemma ScaleLocal(s: string, pos: nat, t: string)
    requires Cut(s, pos, NumberEnd(s, pos), t)
    ensures Scale(t, 0) == Scale(s, pos)
  {
    hide Cut, SkipDigits, Span, FracEnd, HasExp, ExpStart, NumberEnd, DigitsValue, Pow10, Peek;
    ExpStartLocal(s, pos, NumberEnd(s, pos), t);
    if HasExp(s, pos) { ExpLocal(s, pos, t); }
  }

  lemma CutValue(s: string, pos: nat, t: string)
    requires pos <= |s| && Cut(s, pos, NumberEnd(s, pos), t)
    ensures NumberAt(t, 0) == NumberAt(s, pos)
  {
    var b := NumberEnd(s, pos);
    NumberEndInside(s, pos);
    hide Cut, Span, IntStart, IntEnd, FracEnd, NumberEnd, Peek, FracText, Scale, TokenValue;
    SignLocal(s, pos, b, t);
    WholeLocal(s, pos, b, t);
    FracTextLocal(s, pos, b, t);
    ScaleLocal(s, pos, t);
  }

  /** The token cut out by the scan has the value the text has in place. */
  lemma TokenRead(conv: Conversion, s: string, pos: nat)
    requires pos <= |s|
    ensures pos <= NumberEnd(s, pos) <= |s|
    ensures Stod(conv, s[pos..NumberEnd(s, pos)]) == Converted(conv, NumberAt(s, pos))
  {
    hide NumberAt, NumberEnd;
    NumberEndInside(s, pos);
    CutValue(s, pos, s[pos..NumberEnd(s, pos)]);
  }

  lemma Shift<T>(done: seq<T>, x: T, rest: seq<T>)
    ensures done + ([x] + rest) == (done + [x]) + rest
    ensures [] + rest == rest && done + [] == done
  {
  }

  // ----- the parser -----

  function Prepend(text: string, rest: (string, nat)): (string, nat) {
    (text + rest.0, rest.1)
  }

  class Parser {
    const conv: Conversion
    const input: string
    var pos: nat

    constructor (conv: Conversion, text: string)
      ensures this.conv == conv && input == text && pos == 0
    {
      this.conv := conv;
      input := text;
      pos := 0;
    }

    method Take() returns (c: char)
      modifies this
      ensures c == Peek(input, old(pos)) && pos == Next(input, old(pos))
    {
      c := Peek(input, pos);
      if pos < |input| { pos := pos + 1; }
    }

    method SkipSpace()
      modifies this
      ensures pos == SkipWs(input, old(pos))
    {
      while pos < |input|
            && (input[pos] == ' ' || input[pos] == '\t' || input[pos] == '\n' || input[pos] == '\r')
        invariant SkipWs(input, pos) == SkipWs(input, old(pos))
      {
        pos := pos + 1;
      }
    }

    method SkipNumberDigits()
      modifies this
      ensures pos == SkipDigits(input, old(pos))
    {
      while pos < |input| && '0' <= input[pos] <= '9'
        invariant SkipDigits(input, pos) == SkipDigits(input, old(pos))
      {
        pos := pos + 1;
      }
    }

    /** The character after a backslash. */
    method ReadEscape() returns (c: char)
      modifies this
      ensures c == Unescape(Peek(input, old(pos))) && pos == AfterEscape(input, old(pos))
    {
      var esc := Take();
      if esc == 'u' {
        var i, start := 0, pos;
        while i < 4 && pos < |input|
          invariant i <= 4 && pos == start + i
          invariant i > 0 ==> pos <= |input|
        {
          var _ := Take();
          i := i + 1;
        }
        return '?';
      }
      match esc
      case 'n' => return '\n';
      case 'r' => return '\r';
      case 't' => return '\t';
      case 'b' => return 0x08 as char;
      case 'f' => return 0x0C as char;
      case _ => return esc;
    }

    method ReadString() returns (text: string)
      modifies this
      ensures (text, pos) == StringBody(input, Next(input, old(pos)))
    {
      var _ := Take();
      ghost var start := pos;
      text := "";
      assert text + StringBody(input, pos).0 == StringBody(input, pos).0;
      while pos < |input| && input[pos] != '"'
        invariant pos >= start
        invariant StringBody(input, start) == Prepend(text, StringBody(input, pos))
        decreases Left(input, pos)
      {
        ghost var was := text;
        if input[pos] == '\\' {
          var _ := Take();
          var c := ReadEscape();
          text := text + [c];
        } else {
          var c := Take();
          text := text + [c];
        }
        Shift(was, text[|was|], StringBody(input, pos).0);
      }
      Shift(text, ' ', "");
      if pos < |input| { var _ := Take(); }
    }

    method ReadNumber() returns (r: Result<real>)
      requires pos <= |input|
      modifies this
      ensures r == Converted(conv, NumberAt(input, old(pos))) && pos == NumberEnd(input, old(pos))
    {
      var start := pos;
      ScanNumber();
      TokenRead(conv, input, start);
      NumberEndInside(input, start);
      r := Stod(conv, input[start..pos]);
    }

    method ScanNumber()
      requires pos <= |input|
      modifies this
      ensures pos == NumberEnd(input, old(pos))
    {
      hide SkipDigits;
      if Peek(input, pos) == '-' { var _ := Take(); }
      SkipNumberDigits();
      if pos < |input| && input[pos] == '.' {
        var _ := Take();
        SkipNumberDigits();
      }
      assert pos == FracEnd(input, old(pos));
      if pos < |input| && (input[pos] == 'e' || input[pos] == 'E') {
        var _ := Take();
        if pos < |input| && (input[pos] == '+' || input[pos] == '-') { var _ := Take(); }
        SkipNumberDigits();
      }
    }

    /** What a reading method leaves: the value and cursor of the spec, or its error. */
    ghost predicate Reads(r: Result<Json>, spec: Result<Parsed>)
      reads this
    {
      match spec
      case Ok(v) => r == Ok(v.0) && pos == v.1
      case Err(e) => r == Err(e)
    }

    /** Every input is read: a value, or the number conversion's error. */
    method ReadValue() returns (r: Result<Json>)
      modifies this
      ensures Reads(r, ParseValue(conv, input, old(pos)))
      decreases Left(input, pos), 1
    {
      hide NumberAt, Converted, NumberEnd, StringBody, ParseObject, ParseArray, SkipWs;
      SkipSpace();
      if pos >= |input| { return Ok(Null); }
      var c := input[pos];
      if c == '"' {
        var text := ReadString();
        return Ok(Str(text));
      }
      if c == '{' { r := ReadObject(); return; }
      if c == '[' { r := ReadArray(); return; }
      if c == 't' { pos := pos + 4; return Ok(Bool(true)); }
      if c == 'f' { pos := pos + 5; return Ok(Bool(false)); }
      if c == 'n' { pos := pos + 4; return Ok(Null); }
      var v := ReadNumber();
      match v {
        case Ok(x) => return Ok(Number(x));
        case Err(e) => return Err(e);
      }
    }

    method ReadArray() returns (r: Result<Json>)
      requires pos < |input|
      modifies this
      ensures Reads(r, ParseArray(conv, input, old(pos)))
      decreases Left(input, pos), 0
    {
      hide ParseValue, SkipWs, ParseItems;
      var _ := Take();
      SkipSpace();
      if Peek(input, pos) == ']' {
        var _ := Take();
        return Ok(Arr([]));
      }
      ghost var first := pos;
      var items: seq<Json> := [];
      NothingRead(ParseItems(conv, input, pos), Err(""));
      hide ItemsSoFar;
      while true
        invariant pos >= first > old(pos)
        invariant ItemsSoFar(items, ParseItems(conv, input, pos), ParseItems(conv, input, first))
        decreases Left(input, pos)
      {
        ItemsAdvance(conv, input, pos, items, ParseItems(conv, input, first));
        var v := ReadValue();
        if v.Err? { return Err(v.reason); }
        items := items + [v.value];
        SkipSpace();
        if pos < |input| && input[pos] == ',' {
          var _ := Take();
          SkipSpace();
        } else {
          break;
        }
      }
      if pos < |input| { var _ := Take(); }
      return Ok(Arr(items));
    }

    /** A key, an optional colon and a value. */
    method ReadField() returns (key: string, v: Result<Json>)
      modifies this
      ensures key == KeyAt(input, old(pos)).0
      ensures Reads(v, ParseValue(conv, input, AfterColon(input, KeyAt(input, old(pos)).1)))
      decreases Left(input, pos), 2
    {
      hide ParseValue, SkipWs, StringBody;
      SkipSpace();
      key := ReadString();
      SkipSpace();
      if pos < |input| && input[pos] == ':' { var _ := Take(); }
      v := ReadValue();
    }

    method ReadObject() returns (r: Result<Json>)
      requires pos < |input|
      modifies this
      ensures Reads(r, ParseObject(conv, input, old(pos)))
      decreases Left(input, pos), 0
    {
      hide ParseValue, SkipWs, KeyAt, AfterColon, ParseFields;
      var _ := Take();
      SkipSpace();
      if Peek(input, pos) == '}' {
        var _ := Take();
        return Ok(Obj([]));
      }
      ghost var first := pos;
      var fields: seq<(string, Json)> := [];
      NothingRead(Err(""), ParseFields(conv, input, pos));
      hide FieldsSoFar;
      while true
        invariant pos >= first > old(pos)
        invariant FieldsSoFar(fields, ParseFields(conv, input, pos), ParseFields(conv, input, first))
        decreases Left(input, pos)
      {
        FieldsAdvance(conv, input, pos, fields, ParseFields(conv, input, first));
        var key, v := ReadField();
        if v.Err? { return Err(v.reason); }
        fields := fields + [(key, v.value)];
        SkipSpace();
        if pos < |input| && input[pos] == ',' {
          var _ := Take();
          SkipSpace();
        } else {
          break;
        }
      }
      if pos < |input| { var _ := Take(); }
      return Ok(Obj(fields));
    }
  }

  /** done, then what is still to be read, is the whole. */
  ghost predicate ItemsSoFar(done: seq<Json>, rest: Result<(seq<Json>, nat)>, whole: Result<(seq<Json>, nat)>) {
    match rest
    case Ok(v) => whole == Ok((done + v.0, v.1))
    case Err(e) => whole == Err(e)
  }

  ghost predicate FieldsSoFar(done: seq<(string, Json)>, rest: Result<(seq<(string, Json)>, nat)>,
                              whole: Result<(seq<(string, Json)>, nat)>) {
    match rest
    case Ok(v) => whole == Ok((done + v.0, v.1))
    case Err(e) => whole == Err(e)
  }

  lemma ItemsAdvance(conv: Conversion, s: string, pos: nat, done: seq<Json>, whole: Result<(seq<Json>, nat)>)
    requires ItemsSoFar(done, ParseItems(conv, s, pos), whole)
    ensures match ParseValue(conv, s, pos) {
              case Err(e) => whole == Err(e)
              case Ok(v) =>
                var p := SkipWs(s, v.1);
                if p < |s| && s[p] == ',' then ItemsSoFar(done + [v.0], ParseItems(conv, s, SkipWs(s, p + 1)), whole)
                else whole == Ok((done + [v.0], Next(s, p)))
            }
  {
    hide ParseValue, SkipWs;
    var v := ParseValue(conv, s, pos);
    if v.Ok? {
      var p := SkipWs(s, v.value.1);
      if p < |s| && s[p] == ',' {
        var rest := ParseItems(conv, s, SkipWs(s, p + 1));
        if rest.Ok? { Shift(done, v.value.0, rest.value.0); }
      }
    }
  }

  lemma FieldsAdvance(conv: Conversion, s: string, pos: nat,
                      done: seq<(string, Json)>, whole: Result<(seq<(string, Json)>, nat)>)
    requires FieldsSoFar(done, ParseFields(conv, s, pos), whole)
    ensures match ParseValue(conv, s, AfterColon(s, KeyAt(s, pos).1)) {
              case Err(e) => whole == Err(e)
              case Ok(v) =>
                var p, more := SkipWs(s, v.1), done + [(KeyAt(s, pos).0, v.0)];
                if p < |s| && s[p] == ',' then FieldsSoFar(more, ParseFields(conv, s, SkipWs(s, p + 1)), whole)
                else whole == Ok((more, Next(s, p)))
            }
  {
    hide ParseValue, SkipWs, KeyAt, AfterColon;
    var v := ParseValue(conv, s, AfterColon(s, KeyAt(s, pos).1));
    if v.Ok? {
      var p := SkipWs(s, v.value.1);
      if p < |s| && s[p] == ',' {
        var rest := ParseFields(conv, s, SkipWs(s, p + 1));
        if rest.Ok? { Shift(done, (KeyAt(s, pos).0, v.value.0), rest.value.0); }
      }
    }
  }

  lemma NothingRead(items: Result<(seq<Json>, nat)>, fields: Result<(seq<(string, Json)>, nat)>)
    ensures ItemsSoFar([], items, items) && FieldsSoFar([], fields, fields)
  {
    if items.Ok? { assert [] + items.value.0 == items.value.0; }
    if fields.Ok? { assert [] + fields.value.0 == fields.value.0; }
  }

  /** The whole text: the value and how much of it was used. */
  method Parse(conv: Conversion, text: string) returns (r: Result<Json>, consumed: nat)
    ensures match ParseValue(conv, text, 0) {
              case Ok(v) => r == Ok(v.0) && consumed == v.1
              case Err(e) => r == Err(e)
            }
  {
    var parser := new Parser(conv, text);
    parser.SkipSpace();
    if parser.pos >= |text| { return Ok(Null), parser.pos; }
    r := parser.ReadValue();
    consumed := parser.pos;
  }
}
