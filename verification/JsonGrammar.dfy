/**
 Reading any text of the JSON grammar (RFC 8259): every layout of white space, every form of a
 number token, every string escape. A syntax tree keeps the layout; its text and its meaning are
 defined without reference to the parser.
 */
module JsonGrammar {
  import opened Wrappers
  import opened Json
  import opened JsonNumeral
  import opened Slices

  /** A piece of a string token. */
  datatype Piece = Plain(c: char) | Escaped(c: char) | Unicode(digits: string)

  /** A value as written; inner is the white space of an empty array or object. */
  datatype Node =
    | NullNode
    | BoolNode(b: bool)
    | NumberNode(n: Numeral)
    | StringNode(ps: seq<Piece>)
    | ArrayNode(inner: string, items: seq<Item>)
    | ObjectNode(inner: string, fields: seq<Field>)

  datatype Item = Item(before: string, value: Node, after: string)

  /** before "key" colon : mid value after */
  datatype Field = Field(before: string, key: seq<Piece>, colon: string, mid: string, value: Node, after: string)

  // ----- well-formed trees -----

  /** White space is space, tab, line feed and carriage return. */
  predicate Gap(g: string) {
    forall i :: 0 <= i < |g| ==> g[i] == ' ' || g[i] == '\t' || g[i] == '\n' || g[i] == '\r'
  }

  predicate PieceOk(p: Piece) {
    match p
    case Plain(c) => c != '"' && c != '\\'
    case Escaped(c) => c in "\"\\/bfnrt"
    case Unicode(digits) => |digits| == 4
  }

  predicate PiecesOk(ps: seq<Piece>) {
    forall i :: 0 <= i < |ps| ==> PieceOk(ps[i])
  }

  predicate NodeOk(node: Node)
    decreases node, 1
  {
    match node
    case NumberNode(n) => NumeralOk(n)
    case StringNode(ps) => PiecesOk(ps)
    case ArrayNode(inner, items) => Gap(inner) && ItemsOk(items)
    case ObjectNode(inner, fields) => Gap(inner) && FieldsOk(fields)
    case _ => true
  }

  predicate ItemsOk(items: seq<Item>)
    decreases items, 0
  {
    items == [] || (ItemOk(items[0]) && ItemsOk(items[1..]))
  }

  predicate ItemOk(i: Item)
    decreases i, 2
  {
    Gap(i.before) && NodeOk(i.value) && Gap(i.after)
  }

  predicate FieldsOk(fields: seq<Field>)
    decreases fields, 0
  {
    fields == [] || (FieldOk(fields[0]) && FieldsOk(fields[1..]))
  }

  predicate FieldOk(f: Field)
    decreases f, 2
  {
    Gap(f.before) && PiecesOk(f.key) && Gap(f.colon) && Gap(f.mid) && NodeOk(f.value) && Gap(f.after)
  }

  // ----- their text -----

  function PieceText(p: Piece): string {
    match p
    case Plain(c) => [c]
    case Escaped(c) => ['\\', c]
    case Unicode(digits) => "\\u" + digits
  }

  function BodyText(ps: seq<Piece>): string {
    if ps == [] then "" else PieceText(ps[0]) + BodyText(ps[1..])
  }

  function Quoted(ps: seq<Piece>): string {
    "\"" + BodyText(ps) + "\""
  }

  function Text(node: Node): string
    decreases node, 1
  {
    match node
    case NullNode => "null"
    case BoolNode(b) => if b then "true" else "false"
    case NumberNode(n) => NumeralText(n)
    case StringNode(ps) => Quoted(ps)
    case ArrayNode(inner, items) => "[" + (if items == [] then inner else ItemsText(items)) + "]"
    case ObjectNode(inner, fields) => "{" + (if fields == [] then inner else FieldsText(fields)) + "}"
  }

  function ItemsText(items: seq<Item>): string
    decreases items, 0
  {
    if items == [] then ""
    else if |items| == 1 then ItemText(items[0])
    else ItemText(items[0]) + "," + ItemsText(items[1..])
  }

  function ItemText(i: Item): string
    decreases i, 2
  {
    i.before + Text(i.value) + i.after
  }

  function FieldsText(fields: seq<Field>): string
    decreases fields, 0
  {
    if fields == [] then ""
    else if |fields| == 1 then FieldText(fields[0])
    else FieldText(fields[0]) + "," + FieldsText(fields[1..])
  }

  function FieldText(f: Field): string
    decreases f, 2
  {
    f.before + Quoted(f.key) + f.colon + ":" + f.mid + Text(f.value) + f.after
  }

  // ----- their meaning -----

  function PieceMeans(p: Piece): char {
    match p
    case Plain(c) => c
    case Escaped(c) =>
      if c == 'n' then '\n' else if c == 'r' then '\r' else if c == 't' then '\t'
      else if c == 'b' then 8 as char else if c == 'f' then 12 as char else c
    case Unicode(_) => '?'
  }

  function BodyMeans(ps: seq<Piece>): string {
    seq(|ps|, i requires 0 <= i < |ps| => PieceMeans(ps[i]))
  }

  function Ending<T>(r: Result<T>, p: nat): Result<(T, nat)> {
    match r
    case Err(e) => Err(e)
    case Ok(v) => Ok((v, p))
  }

  /** The first of a sequence, then the rest. */
  function Chain<T>(first: Result<T>, rest: Result<seq<T>>): Result<seq<T>> {
    match first
    case Err(e) => Err(e)
    case Ok(v) =>
      match rest
      case Err(e) => Err(e)
      case Ok(vs) => Ok([v] + vs)
  }

  function Keyed(key: string, r: Result<Json>): Result<(string, Json)> {
    match r
    case Err(e) => Err(e)
    case Ok(v) => Ok((key, v))
  }

  function NumberMeans(r: Result<real>): Result<Json> {
    match r
    case Err(e) => Err(e)
    case Ok(v) => Ok(Number(v))
  }

  /** The value written, its numbers converted; the first conversion error if there is one. */
  function Means(conv: Conversion, node: Node): Result<Json>
    requires NodeOk(node)
    decreases node, 1
  {
    match node
    case NullNode => Ok(Null)
    case BoolNode(b) => Ok(Bool(b))
    case NumberNode(n) => NumberMeans(conv(NumeralValue(n)))
    case StringNode(ps) => Ok(Str(BodyMeans(ps)))
    case ArrayNode(_, items) =>
      (match ItemsMean(conv, items)
       case Err(e) => Err(e)
       case Ok(vs) => Ok(Arr(vs)))
    case ObjectNode(_, fields) =>
      (match FieldsMean(conv, fields)
       case Err(e) => Err(e)
       case Ok(fs) => Ok(Obj(fs)))
  }

  function ItemsMean(conv: Conversion, items: seq<Item>): Result<seq<Json>>
    requires ItemsOk(items)
    decreases items, 0
  {
    if items == [] then Ok([]) else Chain(ItemMeans(conv, items[0]), ItemsMean(conv, items[1..]))
  }

  function ItemMeans(conv: Conversion, i: Item): Result<Json>
    requires ItemOk(i)
    decreases i, 2
  {
    Means(conv, i.value)
  }

  function FieldsMean(conv: Conversion, fields: seq<Field>): Result<seq<(string, Json)>>
    requires FieldsOk(fields)
    decreases fields, 0
  {
    if fields == [] then Ok([]) else Chain(FieldMeans(conv, fields[0]), FieldsMean(conv, fields[1..]))
  }

  function FieldMeans(conv: Conversion, f: Field): Result<(string, Json)>
    requires FieldOk(f)
    decreases f, 2
  {
    Keyed(BodyMeans(f.key), Means(conv, f.value))
  }

  // ----- white space and strings are read -----

  predicate Blank(c: char) {
    c == ' ' || c == '\t' || c == '\n' || c == '\r'
  }

  lemma {:induction false} GapSkipped(g: string, s: string, pos: nat)
    requires Gap(g) && At(s, pos, g) && (pos + |g| < |s| ==> !Blank(s[pos + |g|]))
    ensures SkipWs(s, pos) == pos + |g|
    decreases |g|
  {
    if g != "" {
      AtChar(s, pos, g, 0);
      assert g == [g[0]] + g[1..];
      AtSplit(s, pos, [g[0]], g[1..]);
      GapSkipped(g[1..], s, pos + 1);
    }
  }

  lemma PieceRead(p: Piece, s: string, pos: nat)
    requires PieceOk(p) && At(s, pos, PieceText(p))
    ensures var rest := StringBody(s, pos + |PieceText(p)|);
      StringBody(s, pos) == ([PieceMeans(p)] + rest.0, rest.1)
  {
    var e := PieceText(p);
    AtChar(s, pos, e, 0);
    if |e| > 1 { AtChar(s, pos, e, 1); }
  }

  lemma {:induction false} BodyRead(ps: seq<Piece>, s: string, pos: nat)
    requires PiecesOk(ps) && At(s, pos, BodyText(ps) + "\"")
    ensures StringBody(s, pos) == (BodyMeans(ps), pos + |BodyText(ps)| + 1)
    decreases |ps|
  {
    hide PieceText, PieceOk, PieceMeans, At;
    if ps == [] {
      assert BodyText(ps) + "\"" == "\"";
      AtChar(s, pos, "\"", 0);
    } else {
      hide StringBody;
      var head, tail := PieceText(ps[0]), BodyText(ps[1..]);
      assert BodyText(ps) + "\"" == head + (tail + "\"");
      AtSplit(s, pos, head, tail + "\"");
      BodyRead(ps[1..], s, pos + |head|);
      PieceRead(ps[0], s, pos);
      assert BodyMeans(ps) == [PieceMeans(ps[0])] + BodyMeans(ps[1..]);
    }
  }

  // ----- values are read -----

  /** A value starts with a character that is no white space and closes nothing. */
  lemma NodeStart(node: Node)
    requires NodeOk(node)
    ensures Text(node) != "" && !Blank(Text(node)[0])
    ensures Text(node)[0] != ']' && Text(node)[0] != '}' && Text(node)[0] != ',' && Text(node)[0] != ':'
  {
  }

  lemma NoWs(s: string, pos: nat)
    requires pos < |s| ==> !Blank(s[pos])
    ensures SkipWs(s, pos) == pos
  {
  }

  lemma SkipFirst(conv: Conversion, s: string, pos: nat, p: nat)
    requires SkipWs(s, pos) == p && SkipWs(s, p) == p
    ensures ParseValue(conv, s, pos) == ParseValue(conv, s, p)
  {
    hide SkipWs, ParseObject, ParseArray, NumberAt, NumberEnd, StringBody;
  }

  /** What reading a value at pos gives. */
  ghost predicate ValueRead(conv: Conversion, node: Node, s: string, pos: nat)
    requires NodeOk(node)
  {
    ParseValue(conv, s, pos) == Ending(Means(conv, node), pos + |Text(node)|)
  }

  ghost predicate ItemsRead(conv: Conversion, items: seq<Item>, s: string, pos: nat)
    requires items != [] && ItemsOk(items)
  {
    && SkipWs(s, pos) == pos + |items[0].before|
    && pos + |items[0].before| < |s| && s[pos + |items[0].before|] != ']'
    && ParseItems(conv, s, pos + |items[0].before|) == Ending(ItemsMean(conv, items), pos + |ItemsText(items)| + 1)
  }

  ghost predicate FieldsRead(conv: Conversion, fields: seq<Field>, s: string, pos: nat)
    requires fields != [] && FieldsOk(fields)
  {
    && SkipWs(s, pos) == pos + |fields[0].before|
    && pos + |fields[0].before| < |s| && s[pos + |fields[0].before|] != '}'
    && ParseFields(conv, s, pos + |fields[0].before|)
       == Ending(FieldsMean(conv, fields), pos + |FieldsText(fields)| + 1)
  }

  lemma NumberRead(conv: Conversion, n: Numeral, s: string, pos: nat)
    requires NumeralOk(n) && At(s, pos, NumeralText(n)) && Stops(s, pos + |NumeralText(n)|)
    ensures ParseValue(conv, s, pos) == Ending(NumberMeans(conv(NumeralValue(n))), pos + |NumeralText(n)|)
  {
    hide ParseValue, NumberAt, NumberEnd, At, Stops, NumeralValue, NumeralText, NumeralOk;
    NumeralStart(n);
    AtChar(s, pos, NumeralText(n), 0);
    NumberStep(conv, s, pos);
    NumeralRead(n, s, pos);
  }

  lemma NumberStep(conv: Conversion, s: string, pos: nat)
    requires pos < |s| && (s[pos] == '-' || s[pos] == '.' || '0' <= s[pos] <= '9')
    ensures ParseValue(conv, s, pos)
         == match Converted(conv, NumberAt(s, pos))
            case Err(e) => Err(e)
            case Ok(v) => Ok((Number(v), NumberEnd(s, pos)))
  {
    hide SkipWs, NumberAt, NumberEnd, StringBody, ParseObject, ParseArray, Converted;
    NoWs(s, pos);
  }

  lemma NumeralStart(n: Numeral)
    requires NumeralOk(n)
    ensures NumeralText(n) != ""
    ensures NumeralText(n)[0] == '-' || NumeralText(n)[0] == '.' || '0' <= NumeralText(n)[0] <= '9'
  {
  }

  lemma StringRead(conv: Conversion, ps: seq<Piece>, s: string, pos: nat)
    requires PiecesOk(ps) && At(s, pos, Quoted(ps))
    ensures ParseValue(conv, s, pos) == Ok((Str(BodyMeans(ps)), pos + |Quoted(ps)|))
  {
    hide SkipWs, StringBody, At, ParseObject, ParseArray, NumberAt, NumberEnd, BodyMeans, PiecesOk, BodyText;
    assert Quoted(ps) == "\"" + (BodyText(ps) + "\"");
    AtSplit(s, pos, "\"", BodyText(ps) + "\"");
    AtChar(s, pos, "\"", 0);
    NoWs(s, pos);
    BodyRead(ps, s, pos + 1);
  }

  lemma LiteralRead(conv: Conversion, node: Node, s: string, pos: nat)
    requires (node.NullNode? || node.BoolNode?) && At(s, pos, Text(node))
    ensures ValueRead(conv, node, s, pos)
  {
    hide SkipWs, StringBody, At, ParseObject, ParseArray, NumberAt, NumberEnd;
    AtChar(s, pos, Text(node), 0);
    NoWs(s, pos);
  }

  lemma ArrayStep(conv: Conversion, s: string, pos: nat, p: nat)
    requires pos < |s| && s[pos] == '[' && SkipWs(s, pos + 1) == p
    ensures ParseValue(conv, s, pos)
         == if Peek(s, p) == ']' then Ok((Arr([]), p + 1))
            else match ParseItems(conv, s, p)
                 case Err(e) => Err(e)
                 case Ok(items) => Ok((Arr(items.0), items.1))
  {
    NoWs(s, pos);
    assert ParseArray(conv, s, pos)
        == if Peek(s, p) == ']' then Ok((Arr([]), p + 1))
           else match ParseItems(conv, s, p)
                case Err(e) => Err(e)
                case Ok(items) => Ok((Arr(items.0), items.1));
    hide ParseArray, ParseItems, StringBody, NumberAt, NumberEnd, SkipWs;
  }

  lemma ObjectStep(conv: Conversion, s: string, pos: nat, p: nat)
    requires pos < |s| && s[pos] == '{' && SkipWs(s, pos + 1) == p
    ensures ParseValue(conv, s, pos)
         == if Peek(s, p) == '}' then Ok((Obj([]), p + 1))
            else match ParseFields(conv, s, p)
                 case Err(e) => Err(e)
                 case Ok(fields) => Ok((Obj(fields.0), fields.1))
  {
    NoWs(s, pos);
    assert ParseObject(conv, s, pos)
        == if Peek(s, p) == '}' then Ok((Obj([]), p + 1))
           else match ParseFields(conv, s, p)
                case Err(e) => Err(e)
                case Ok(fields) => Ok((Obj(fields.0), fields.1));
    hide ParseObject, ParseFields, StringBody, NumberAt, NumberEnd, SkipWs;
  }

  /** An empty array or object with white space inside its brackets. */
  lemma EmptyRead(conv: Conversion, node: Node, s: string, pos: nat)
    requires NodeOk(node) && At(s, pos, Text(node))
    requires (node.ArrayNode? && node.items == []) || (node.ObjectNode? && node.fields == [])
    ensures ValueRead(conv, node, s, pos)
  {
    hide SkipWs, At, ParseValue, ParseItems, ParseFields, Gap;
    var start, close := if node.ArrayNode? then "[" else "{", if node.ArrayNode? then "]" else "}";
    assert Text(node) == start + (node.inner + close);
    AtSplit(s, pos, start, node.inner + close);
    AtSplit(s, pos + 1, node.inner, close);
    AtChar(s, pos, start, 0);
    var p := pos + 1 + |node.inner|;
    AtChar(s, p, close, 0);
    GapSkipped(node.inner, s, pos + 1);
    if node.ArrayNode? {
      assert ItemsMean(conv, node.items) == Ok([]);
      ArrayStep(conv, s, pos, p);
    } else {
      assert FieldsMean(conv, node.fields) == Ok([]);
      ObjectStep(conv, s, pos, p);
    }
  }

  lemma ArrayAt(conv: Conversion, node: Node, s: string, pos: nat)
    requires NodeOk(node) && node.ArrayNode? && node.items != [] && At(s, pos, Text(node))
    ensures pos < |s| && s[pos] == '[' && At(s, pos + 1, ItemsText(node.items) + "]")
    ensures ItemsRead(conv, node.items, s, pos + 1) ==> ValueRead(conv, node, s, pos)
  {
    hide SkipWs, At, ParseValue, ParseItems, ItemsText, ItemsMean;
    assert Text(node) == "[" + (ItemsText(node.items) + "]");
    AtSplit(s, pos, "[", ItemsText(node.items) + "]");
    AtChar(s, pos, "[", 0);
    ArrayStep(conv, s, pos, SkipWs(s, pos + 1));
  }

  lemma ObjectAt(conv: Conversion, node: Node, s: string, pos: nat)
    requires NodeOk(node) && node.ObjectNode? && node.fields != [] && At(s, pos, Text(node))
    ensures pos < |s| && s[pos] == '{' && At(s, pos + 1, FieldsText(node.fields) + "}")
    ensures FieldsRead(conv, node.fields, s, pos + 1) ==> ValueRead(conv, node, s, pos)
  {
    hide SkipWs, At, ParseValue, ParseFields, FieldsText, FieldsMean;
    assert Text(node) == "{" + (FieldsText(node.fields) + "}");
    AtSplit(s, pos, "{", FieldsText(node.fields) + "}");
    AtChar(s, pos, "{", 0);
    ObjectStep(conv, s, pos, SkipWs(s, pos + 1));
  }

  /** Without white space in front. */
  lemma {:induction false} BareRead(conv: Conversion, node: Node, s: string, pos: nat)
    requires NodeOk(node) && At(s, pos, Text(node)) && (node.NumberNode? ==> Stops(s, pos + |Text(node)|))
    ensures ValueRead(conv, node, s, pos)
    decreases node, 1
  {
    hide At, ParseValue, NumeralText, Quoted, ItemsText, FieldsText, ItemsRead, FieldsRead, Stops;
    match node
    case NumberNode(n) => NumberRead(conv, n, s, pos);
    case StringNode(ps) => StringRead(conv, ps, s, pos);
    case ArrayNode(_, items) =>
      if items == [] {
        EmptyRead(conv, node, s, pos);
      } else {
        ArrayAt(conv, node, s, pos);
        AllItemsRead(conv, items, s, pos + 1);
      }
    case ObjectNode(_, fields) =>
      if fields == [] {
        EmptyRead(conv, node, s, pos);
      } else {
        ObjectAt(conv, node, s, pos);
        AllFieldsRead(conv, fields, s, pos + 1);
      }
    case _ => LiteralRead(conv, node, s, pos);
  }

  // ----- array elements -----

  lemma {:induction false} AllItemsRead(conv: Conversion, items: seq<Item>, s: string, pos: nat)
    requires items != [] && ItemsOk(items) && At(s, pos, ItemsText(items) + "]")
    ensures ItemsRead(conv, items, s, pos)
    decreases items, 0
  {
    hide At, Stops, Blank, Text, ItemsText, ItemsRead, ItemsMean, ParseItems, ParseValue, SkipWs, Gap, ValueRead;
    ItemLaid(items, s, pos);
    BareRead(conv, items[0].value, s, pos + |items[0].before|);
    if |items| == 1 {
      LastItem(conv, items, s, pos);
    } else {
      AllItemsRead(conv, items[1..], s, pos + |ItemText(items[0])| + 1);
      MoreItems(conv, items, s, pos);
    }
  }

  lemma ItemParts(i: Item, s: string, pos: nat)
    requires At(s, pos, ItemText(i))
    ensures var p := pos + |i.before|;
      && At(s, pos, i.before) && At(s, p, Text(i.value)) && At(s, p + |Text(i.value)|, i.after)
      && pos + |ItemText(i)| == p + |Text(i.value)| + |i.after|
  {
    hide At, Text;
    AtSplit(s, pos, i.before + Text(i.value), i.after);
    AtSplit(s, pos, i.before, Text(i.value));
  }

  /** Where the first element stands, and what follows it. */
  lemma ItemLaid(items: seq<Item>, s: string, pos: nat)
    requires items != [] && ItemsOk(items) && At(s, pos, ItemsText(items) + "]")
    ensures var i := items[0]; var p, q := pos + |i.before|, pos + |ItemText(i)|;
      && At(s, pos, ItemText(i)) && q == p + |Text(i.value)| + |i.after| && At(s, p, Text(i.value))
      && q < |s| && s[q] == (if |items| == 1 then ']' else ',') && Stops(s, p + |Text(i.value)|)
      && (|items| > 1 ==> At(s, q + 1, ItemsText(items[1..]) + "]"))
      && ItemOk(i) && NodeOk(i.value) && ItemsOk(items[1..])
  {
    hide At, Text, NodeOk, Gap, ItemText, ItemsText, Stops;
    var i := items[0];
    var rest := if |items| == 1 then "]" else "," + (ItemsText(items[1..]) + "]");
    FirstItemText(items);
    AtSplit(s, pos, ItemText(i), rest);
    ItemParts(i, s, pos);
    var q := pos + |ItemText(i)|;
    AtChar(s, q, rest, 0);
    if |items| > 1 { AtSplit(s, q, ",", ItemsText(items[1..]) + "]"); }
    GapStops(i.after, s, pos + |i.before| + |Text(i.value)|);
  }

  lemma FirstItemText(items: seq<Item>)
    requires items != []
    ensures ItemsText(items) + "]"
         == ItemText(items[0]) + if |items| == 1 then "]" else "," + (ItemsText(items[1..]) + "]")
    ensures |ItemsText(items)|
         == |ItemText(items[0])| + if |items| == 1 then 0 else 1 + |ItemsText(items[1..])|
  {
    hide ItemText;
    if |items| > 1 {
      assert ItemsText(items) == ItemText(items[0]) + "," + ItemsText(items[1..]);
      hide ItemsText;
      Reassociate(ItemText(items[0]), ItemsText(items[1..]), "]");
    }
  }

  lemma Reassociate(head: string, rest: string, close: string)
    ensures (head + "," + rest) + close == head + ("," + (rest + close))
    ensures |head + "," + rest| == |head| + 1 + |rest|
  {
  }

  /** White space or a delimiter ends a number. */
  lemma GapStops(g: string, s: string, pos: nat)
    requires Gap(g) && At(s, pos, g) && pos + |g| < |s| && s[pos + |g|] in [']', '}', ',']
    ensures Stops(s, pos)
  {
    if g != "" { AtChar(s, pos, g, 0); }
  }

  lemma ItemEnds(items: seq<Item>, s: string, pos: nat)
    requires items != [] && ItemsOk(items) && At(s, pos, ItemsText(items) + "]")
    ensures var i := items[0]; var p := pos + |i.before|;
      && SkipWs(s, pos) == p && p < |s| && s[p] != ']'
      && SkipWs(s, p + |Text(i.value)|) == pos + |ItemText(i)|
  {
    hide At, Stops, Text, SkipWs, Gap, ItemsText, ItemText, NodeOk;
    var i := items[0];
    ItemLaid(items, s, pos);
    ItemParts(i, s, pos);
    NodeStart(i.value);
    AtChar(s, pos + |i.before|, Text(i.value), 0);
    GapSkipped(i.before, s, pos);
    GapSkipped(i.after, s, pos + |i.before| + |Text(i.value)|);
  }

  /** One step of the element list. */
  lemma ItemsStep(conv: Conversion, s: string, pos: nat, v: Result<Json>, e: nat, q: nat)
    requires ParseValue(conv, s, pos) == Ending(v, e) && SkipWs(s, e) == q < |s|
    ensures s[q] == ']' ==> ParseItems(conv, s, pos) == Ending(Chain(v, Ok([])), q + 1)
    ensures s[q] == ',' ==>
      forall rest: Result<seq<Json>>, end: nat ::
        ParseItems(conv, s, SkipWs(s, q + 1)) == Ending(rest, end) ==>
          ParseItems(conv, s, pos) == Ending(Chain(v, rest), end)
  {
    hide ParseValue, SkipWs;
    if v.Ok? { assert [v.value] + [] == [v.value]; }
  }

  lemma ItemsMeanFirst(conv: Conversion, items: seq<Item>)
    requires items != [] && ItemsOk(items)
    ensures NodeOk(items[0].value) && ItemsOk(items[1..])
    ensures ItemsMean(conv, items) == Chain(Means(conv, items[0].value), ItemsMean(conv, items[1..]))
    ensures |items| == 1 ==> ItemsMean(conv, items[1..]) == Ok([])
  {
    hide Means, Chain, NodeOk;
  }

  lemma LastItem(conv: Conversion, items: seq<Item>, s: string, pos: nat)
    requires |items| == 1 && ItemsOk(items) && At(s, pos, ItemsText(items) + "]")
    requires ItemOk(items[0]) && ValueRead(conv, items[0].value, s, pos + |items[0].before|)
    ensures ItemsRead(conv, items, s, pos)
  {
    hide At, Stops, Text, SkipWs, Gap, ItemsText, ItemText, ParseValue, ParseItems, Means, NodeOk, Chain, Ending,
         ItemsMean, ItemsOk;
    var i := items[0];
    var p := pos + |i.before|;
    ItemEnds(items, s, pos);
    ItemLaid(items, s, pos);
    FirstItemText(items);
    ItemsStep(conv, s, p, Means(conv, i.value), p + |Text(i.value)|, pos + |ItemText(i)|);
    ItemsMeanFirst(conv, items);
  }

  lemma MoreItems(conv: Conversion, items: seq<Item>, s: string, pos: nat)
    requires |items| > 1 && ItemsOk(items) && At(s, pos, ItemsText(items) + "]")
    requires ItemOk(items[0]) && ValueRead(conv, items[0].value, s, pos + |items[0].before|)
    requires ItemsOk(items[1..]) && ItemsRead(conv, items[1..], s, pos + |ItemText(items[0])| + 1)
    ensures ItemsRead(conv, items, s, pos)
  {
    hide At, Stops, Text, SkipWs, Gap, ItemsText, ItemText, ParseValue, ParseItems, Means, NodeOk, Chain, Ending,
         ItemsMean, ItemsOk;
    var i := items[0];
    var p := pos + |i.before|;
    ItemEnds(items, s, pos);
    ItemLaid(items, s, pos);
    FirstItemText(items);
    ItemsStep(conv, s, p, Means(conv, i.value), p + |Text(i.value)|, pos + |ItemText(i)|);
    ItemsMeanFirst(conv, items);
  }

  // ----- object members -----

  /** Start of the value of a member that starts at pos. */
  function ValueStart(f: Field, pos: nat): nat {
    pos + |f.before| + |Quoted(f.key)| + |f.colon| + 1 + |f.mid|
  }

  lemma {:induction false} AllFieldsRead(conv: Conversion, fields: seq<Field>, s: string, pos: nat)
    requires fields != [] && FieldsOk(fields) && At(s, pos, FieldsText(fields) + "}")
    ensures FieldsRead(conv, fields, s, pos)
    decreases fields, 0
  {
    hide At, Stops, Blank, Text, FieldsText, FieldsRead, FieldsMean, ParseFields, ParseValue, SkipWs, Gap, ValueRead,
         Quoted, PiecesOk, ValueStart;
    FieldLaid(fields, s, pos);
    BareRead(conv, fields[0].value, s, ValueStart(fields[0], pos));
    if |fields| == 1 {
      LastField(conv, fields, s, pos);
    } else {
      AllFieldsRead(conv, fields[1..], s, pos + |FieldText(fields[0])| + 1);
      MoreFields(conv, fields, s, pos);
    }
  }

  lemma FirstFieldText(fields: seq<Field>)
    requires fields != []
    ensures FieldsText(fields) + "}"
         == FieldText(fields[0]) + if |fields| == 1 then "}" else "," + (FieldsText(fields[1..]) + "}")
    ensures |FieldsText(fields)|
         == |FieldText(fields[0])| + if |fields| == 1 then 0 else 1 + |FieldsText(fields[1..])|
  {
    hide FieldText;
    if |fields| > 1 {
      assert FieldsText(fields) == FieldText(fields[0]) + "," + FieldsText(fields[1..]);
      hide FieldsText;
      Reassociate(FieldText(fields[0]), FieldsText(fields[1..]), "}");
    }
  }

  /** The parts of a member, one after the other. */
  lemma FieldParts(f: Field, s: string, pos: nat)
    requires At(s, pos, FieldText(f))
    ensures var k := pos + |f.before|; var c := k + |Quoted(f.key)|; var v := ValueStart(f, pos);
      && At(s, pos, f.before) && At(s, k, Quoted(f.key)) && At(s, c, f.colon) && At(s, c + |f.colon|, ":")
      && At(s, c + |f.colon| + 1, f.mid) && At(s, v, Text(f.value)) && At(s, v + |Text(f.value)|, f.after)
      && pos + |FieldText(f)| == v + |Text(f.value)| + |f.after|
  {
    hide At, Text, Quoted;
    var a := f.before + Quoted(f.key);
    var b := a + f.colon + ":" + f.mid;
    AtSplit(s, pos, b + Text(f.value), f.after);
    AtSplit(s, pos, b, Text(f.value));
    AtSplit(s, pos, a + f.colon + ":", f.mid);
    AtSplit(s, pos, a + f.colon, ":");
    AtSplit(s, pos, a, f.colon);
    AtSplit(s, pos, f.before, Quoted(f.key));
  }

  /** Where the first member's value stands, and what follows the member. */
  lemma FieldLaid(fields: seq<Field>, s: string, pos: nat)
    requires fields != [] && FieldsOk(fields) && At(s, pos, FieldsText(fields) + "}")
    ensures var f := fields[0]; var v, q := ValueStart(f, pos), pos + |FieldText(f)|;
      && At(s, pos, FieldText(f)) && q == v + |Text(f.value)| + |f.after| && At(s, v, Text(f.value))
      && q < |s| && s[q] == (if |fields| == 1 then '}' else ',') && Stops(s, v + |Text(f.value)|)
      && (|fields| > 1 ==> At(s, q + 1, FieldsText(fields[1..]) + "}"))
      && FieldOk(f) && NodeOk(f.value) && FieldsOk(fields[1..])
  {
    hide At, Text, NodeOk, Gap, Quoted, PiecesOk, ValueStart, FieldText, FieldsText, Stops;
    var f := fields[0];
    var rest := if |fields| == 1 then "}" else "," + (FieldsText(fields[1..]) + "}");
    FirstFieldText(fields);
    AtSplit(s, pos, FieldText(f), rest);
    FieldParts(f, s, pos);
    var q := pos + |FieldText(f)|;
    AtChar(s, q, rest, 0);
    if |fields| > 1 { AtSplit(s, q, ",", FieldsText(fields[1..]) + "}"); }
    GapStops(f.after, s, ValueStart(f, pos) + |Text(f.value)|);
  }

  lemma KeyRead(f: Field, s: string, pos: nat)
    requires FieldOk(f) && At(s, pos, FieldText(f))
    ensures var k := pos + |f.before|;
      && SkipWs(s, pos) == k && k < |s| && s[k] == '"'
      && KeyAt(s, k) == (BodyMeans(f.key), k + |Quoted(f.key)|)
      && AfterColon(s, k + |Quoted(f.key)|) == k + |Quoted(f.key)| + |f.colon| + 1
  {
    hide At, Text, SkipWs, Gap, StringBody, BodyMeans, BodyText, PiecesOk, NodeOk, FieldText;
    var k := pos + |f.before|;
    var c := k + |Quoted(f.key)|;
    FieldParts(f, s, pos);
    assert Quoted(f.key) == "\"" + (BodyText(f.key) + "\"");
    AtSplit(s, k, "\"", BodyText(f.key) + "\"");
    AtChar(s, k, "\"", 0);
    AtChar(s, c + |f.colon|, ":", 0);
    GapSkipped(f.before, s, pos);
    NoWs(s, k);
    GapSkipped(f.colon, s, c);
    BodyRead(f.key, s, k + 1);
  }

  /** The value of a member is read after the white space behind its colon, and the white space behind it skipped. */
  lemma MemberRead(conv: Conversion, f: Field, s: string, pos: nat)
    requires FieldOk(f) && At(s, pos, FieldText(f)) && pos + |FieldText(f)| < |s|
    requires s[pos + |FieldText(f)|] in ['}', ','] && ValueRead(conv, f.value, s, ValueStart(f, pos))
    ensures ParseValue(conv, s, ValueStart(f, pos) - |f.mid|)
         == Ending(Means(conv, f.value), ValueStart(f, pos) + |Text(f.value)|)
    ensures SkipWs(s, ValueStart(f, pos) + |Text(f.value)|) == pos + |FieldText(f)|
  {
    hide At, Text, SkipWs, Gap, ParseValue, Means, Quoted, PiecesOk, NodeOk, FieldText;
    var v := ValueStart(f, pos);
    FieldParts(f, s, pos);
    NodeStart(f.value);
    AtChar(s, v, Text(f.value), 0);
    GapSkipped(f.mid, s, v - |f.mid|);
    NoWs(s, v);
    SkipFirst(conv, s, v - |f.mid|, v);
    GapSkipped(f.after, s, v + |Text(f.value)|);
  }

  /** One step of the member list. */
  lemma FieldsStep(conv: Conversion, s: string, pos: nat, v: Result<Json>, e: nat, q: nat)
    requires ParseValue(conv, s, AfterColon(s, KeyAt(s, pos).1)) == Ending(v, e) && SkipWs(s, e) == q < |s|
    ensures s[q] == '}' ==> ParseFields(conv, s, pos) == Ending(Chain(Keyed(KeyAt(s, pos).0, v), Ok([])), q + 1)
    ensures s[q] == ',' ==>
      forall rest: Result<seq<(string, Json)>>, end: nat ::
        ParseFields(conv, s, SkipWs(s, q + 1)) == Ending(rest, end) ==>
          ParseFields(conv, s, pos) == Ending(Chain(Keyed(KeyAt(s, pos).0, v), rest), end)
  {
    hide ParseValue, SkipWs, KeyAt, AfterColon;
    if v.Ok? { assert [(KeyAt(s, pos).0, v.value)] + [] == [(KeyAt(s, pos).0, v.value)]; }
  }

  lemma FieldsMeanFirst(conv: Conversion, fields: seq<Field>)
    requires fields != [] && FieldsOk(fields)
    ensures NodeOk(fields[0].value) && FieldsOk(fields[1..])
    ensures FieldsMean(conv, fields)
         == Chain(Keyed(BodyMeans(fields[0].key), Means(conv, fields[0].value)), FieldsMean(conv, fields[1..]))
    ensures |fields| == 1 ==> FieldsMean(conv, fields[1..]) == Ok([])
  {
    hide Means, Chain, NodeOk, Keyed, BodyMeans;
  }

  lemma LastField(conv: Conversion, fields: seq<Field>, s: string, pos: nat)
    requires |fields| == 1 && FieldsOk(fields) && At(s, pos, FieldsText(fields) + "}")
    requires FieldOk(fields[0]) && ValueRead(conv, fields[0].value, s, ValueStart(fields[0], pos))
    ensures FieldsRead(conv, fields, s, pos)
  {
    hide At, Stops, Text, SkipWs, Gap, FieldsText, FieldText, ParseValue, ParseFields, Means, NodeOk, Quoted, PiecesOk,
         KeyAt, AfterColon, BodyMeans, ValueRead, Chain, Ending, Keyed, FieldsMean, FieldsOk;
    var f := fields[0];
    FieldLaid(fields, s, pos);
    FirstFieldText(fields);
    KeyRead(f, s, pos);
    MemberRead(conv, f, s, pos);
    FieldsStep(conv, s, pos + |f.before|, Means(conv, f.value), ValueStart(f, pos) + |Text(f.value)|,
               pos + |FieldText(f)|);
    FieldsMeanFirst(conv, fields);
  }

  lemma MoreFields(conv: Conversion, fields: seq<Field>, s: string, pos: nat)
    requires |fields| > 1 && FieldsOk(fields) && At(s, pos, FieldsText(fields) + "}")
    requires FieldOk(fields[0]) && ValueRead(conv, fields[0].value, s, ValueStart(fields[0], pos))
    requires FieldsOk(fields[1..]) && FieldsRead(conv, fields[1..], s, pos + |FieldText(fields[0])| + 1)
    ensures FieldsRead(conv, fields, s, pos)
  {
    hide At, Stops, Text, SkipWs, Gap, FieldsText, FieldText, ParseValue, ParseFields, Means, NodeOk, Quoted, PiecesOk,
         KeyAt, AfterColon, BodyMeans, ValueRead, Chain, Ending, Keyed, FieldsMean, FieldsOk;
    var f := fields[0];
    FieldLaid(fields, s, pos);
    FirstFieldText(fields);
    KeyRead(f, s, pos);
    MemberRead(conv, f, s, pos);
    FieldsStep(conv, s, pos + |f.before|, Means(conv, f.value), ValueStart(f, pos) + |Text(f.value)|,
               pos + |FieldText(f)|);
    FieldsMeanFirst(conv, fields);
  }

  // ----- what is no value -----

  /** A character no value starts with is a conversion error, wherever a value is expected. */
  lemma StrangeCharacter(conv: Conversion, s: string, pos: nat)
    requires pos < |s| && !Blank(s[pos]) && s[pos] !in "\"{[tfn-." && !('0' <= s[pos] <= '9')
    ensures ParseValue(conv, s, pos) == Err("no conversion")
  {
    hide ParseObject, ParseArray, StringBody, NumberEnd;
    NoWs(s, pos);
  }

  /** So is a minus sign without a digit or a point after it. */
  lemma LoneMinus(conv: Conversion, s: string, pos: nat)
    requires pos < |s| && s[pos] == '-' && (pos + 1 < |s| ==> s[pos + 1] != '.' && !('0' <= s[pos + 1] <= '9'))
    ensures ParseValue(conv, s, pos) == Err("no conversion")
  {
    hide ParseObject, ParseArray, StringBody, NumberEnd;
    NoWs(s, pos);
  }

  // ----- main result -----

  /**
   Any text of the grammar, after any white space and in any context that does not extend a final
   number, is read as the value it denotes, up to exactly its end.
   */
  lemma GrammarRead(conv: Conversion, g: string, node: Node, s: string, pos: nat)
    requires Gap(g) && NodeOk(node) && At(s, pos, g + Text(node))
    requires node.NumberNode? ==> Stops(s, pos + |g| + |Text(node)|)
    ensures ParseValue(conv, s, pos) == Ending(Means(conv, node), pos + |g| + |Text(node)|)
  {
    hide At, Text, SkipWs, Gap, ParseValue, Means, NodeOk, Stops;
    AtSplit(s, pos, g, Text(node));
    NodeStart(node);
    AtChar(s, pos + |g|, Text(node), 0);
    GapSkipped(g, s, pos);
    NoWs(s, pos + |g|);
    SkipFirst(conv, s, pos, pos + |g|);
    BareRead(conv, node, s, pos + |g|);
  }
}
