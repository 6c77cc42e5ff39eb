/** The base64 text of a proof (section 4 of RFC 4648) and a decoder for it. */
module Base64 {
  import opened Wrappers
  import opened Arithmetic
  import opened Words

  /** The alphabet A-Z, a-z, 0-9, + and /. */
  function Symbol(d: nat): char
    requires d < 64
  {
    if d < 26 then ('A' as int + d) as char
    else if d < 52 then ('a' as int + (d - 26)) as char
    else if d < 62 then ('0' as int + (d - 52)) as char
    else if d == 62 then '+' else '/'
  }

  /** The six bits of a symbol, by its place in the alphabet. */
  function Value(c: char): int {
    if 'A' <= c <= 'Z' then c as int - 'A' as int
    else if 'a' <= c <= 'z' then c as int - 'a' as int + 26
    else if '0' <= c <= '9' then c as int - '0' as int + 52
    else if c == '+' then 62
    else if c == '/' then 63
    else -1
  }

  lemma SymbolValue(d: nat)
    requires d < 64
    ensures Value(Symbol(d)) == d && Symbol(d) != '='
  {
  }

  // ----- encoding -----

  /** Three bytes as a 24-bit number. */
  function Bits24(a: int, b: int, c: int): int {
    0x1_0000 * a + 0x100 * b + c
  }

  function Six(n: int, k: nat): (d: nat)
    requires 0 <= n && k < 4
    ensures d < 64
  {
    if k == 0 then n / 0x4_0000 % 0x40 else if k == 1 then n / 0x1000 % 0x40
    else if k == 2 then n / 0x40 % 0x40 else n % 0x40
  }

  function Quad(n: nat): (t: string)
    ensures |t| == 4
  {
    [Symbol(Six(n, 0)), Symbol(Six(n, 1)), Symbol(Six(n, 2)), Symbol(Six(n, 3))]
  }

  function Encode(data: seq<Byte>): string {
    if data == [] then ""
    else if |data| == 1 then
      var n: nat := Bits24(data[0], 0, 0);
      [Symbol(Six(n, 0)), Symbol(Six(n, 1)), '=', '=']
    else if |data| == 2 then
      var n: nat := Bits24(data[0], data[1], 0);
      [Symbol(Six(n, 0)), Symbol(Six(n, 1)), Symbol(Six(n, 2)), '=']
    else Quad(Bits24(data[0], data[1], data[2])) + Encode(data[3..])
  }

  method EncodeText(data: seq<Byte>) returns (out: string)
    ensures out == Encode(data)
  {
    hide Symbol, Six, Bits24;
    out := "";
    var i := 0;
    assert data[0..] == data && "" + Encode(data) == Encode(data);
    while i + 3 <= |data|
      invariant 0 <= i <= |data| && out + Encode(data[i..]) == Encode(data)
    {
      ghost var before := out;
      var n := Number(data[i], data[i + 1], data[i + 2]);
      assert data[i..][3..] == data[i + 3..];
      out := out + [Symbol(Six(n, 0)), Symbol(Six(n, 1)), Symbol(Six(n, 2)), Symbol(Six(n, 3))];
      assert before + (Quad(n) + Encode(data[i + 3..])) == out + Encode(data[i + 3..]);
      i := i + 3;
    }
    if i < |data| {
      var n := Number(data[i], if i + 1 < |data| then data[i + 1] else 0, 0);
      out := out + [Symbol(Six(n, 0)), Symbol(Six(n, 1))];
      if i + 1 < |data| {
        out := out + [Symbol(Six(n, 2)), '='];
      } else {
        out := out + ['=', '='];
      }
    }
  }

  function Number(a: Byte, b: Byte, c: Byte): (n: nat)
    ensures n == Bits24(a, b, c) && n < 0x100_0000
  {
    Bits24(a, b, c)
  }

  // ----- decoding -----

  function Join(v0: int, v1: int, v2: int, v3: int): int {
    0x4_0000 * v0 + 0x1000 * v1 + 0x40 * v2 + v3
  }

  /** Groups of four symbols; padding only in the last one. */
  function Decode(t: string): Result<seq<Byte>> {
    if t == "" then Ok([])
    else if |t| < 4 || Value(t[0]) < 0 || Value(t[1]) < 0 then Err("bad group")
    else if |t| == 4 && t[3] == '=' && t[2] == '=' then
      Ok([Join(Value(t[0]), Value(t[1]), 0, 0) / 0x1_0000])
    else if Value(t[2]) < 0 then Err("bad symbol")
    else if |t| == 4 && t[3] == '=' then
      var n := Join(Value(t[0]), Value(t[1]), Value(t[2]), 0);
      Ok([n / 0x1_0000, n / 0x100 % 0x100])
    else if Value(t[3]) < 0 then Err("bad symbol")
    else
      var n := Join(Value(t[0]), Value(t[1]), Value(t[2]), Value(t[3]));
      match Decode(t[4..])
      case Err(e) => Err(e)
      case Ok(rest) => Ok([n / 0x1_0000, n / 0x100 % 0x100, n % 0x100] + rest)
  }

  lemma SixJoin(n: nat)
    requires n < 0x100_0000
    ensures Join(Six(n, 0), Six(n, 1), Six(n, 2), Six(n, 3)) == n
  {
    SixParts(n);
    hide Six;
    var q := n / 0x40;
    var r := q / 0x40;
    assert n == 0x40 * q + n % 0x40 && q == 0x40 * r + q % 0x40 && r == 0x40 * (r / 0x40) + r % 0x40;
  }

  /** Missing bytes leave their six-bit digits zero. */
  lemma SixZeros(a: Byte, b: Byte)
    ensures Six(Number(a, b, 0), 3) == 0 && Six(Number(a, 0, 0), 2) == 0 && Six(Number(a, 0, 0), 3) == 0
  {
    var n, m := Number(a, b, 0), Number(a, 0, 0);
    DivModUnique(n, 0x40, 0x400 * a + 4 * b, 0);
    DivModUnique(m, 0x40, 0x400 * a, 0);
    DivModUnique(0x400 * a, 0x40, 0x10 * a, 0);
  }

  lemma Quotients(n: nat)
    ensures n / 0x1000 == n / 0x40 / 0x40 && n / 0x4_0000 == n / 0x1000 / 0x40
  {
  }

  lemma SixParts(n: nat)
    requires n < 0x100_0000
    ensures Six(n, 3) == n % 0x40 && Six(n, 2) == n / 0x40 % 0x40
    ensures Six(n, 1) == n / 0x40 / 0x40 % 0x40 && Six(n, 0) == n / 0x40 / 0x40 / 0x40
  {
    Quotients(n);
    assert n / 0x4_0000 < 0x40;
  }

  lemma BytesBack(a: Byte, b: Byte, c: Byte)
    ensures var n := Number(a, b, c); n / 0x1_0000 == a && n / 0x100 % 0x100 == b && n % 0x100 == c
  {
    var n := Number(a, b, c);
    var top: nat := 0x100 * a as int + b;
    DivModUnique(n, 0x100, top, c);
    DivModUnique(top, 0x100, a, b);
    DivModUnique(n, 0x1_0000, a, 0x100 * b as int + c);
  }

  lemma GroupValues(n: nat)
    ensures forall k: nat :: k < 4 ==> Value(Symbol(Six(n, k))) == Six(n, k) && Symbol(Six(n, k)) != '='
  {
    hide Symbol, Value, Six;
    forall k: nat | k < 4 ensures Value(Symbol(Six(n, k))) == Six(n, k) && Symbol(Six(n, k)) != '=' {
      SymbolValue(Six(n, k));
    }
  }

  lemma OneByte(a: Byte)
    ensures Decode(Encode([a])) == Ok([a])
  {
    var n := Number(a, 0, 0);
    GroupValues(n);
    SixJoin(n);
    SixZeros(a, 0);
    BytesBack(a, 0, 0);
    hide Symbol, Value, Six, Bits24, Join;
  }

  lemma TwoBytes(a: Byte, b: Byte)
    ensures Decode(Encode([a, b])) == Ok([a, b])
  {
    var n := Number(a, b, 0);
    GroupValues(n);
    SixJoin(n);
    SixZeros(a, b);
    BytesBack(a, b, 0);
    hide Symbol, Value, Six, Bits24, Join;
  }

  /** Every byte string, of every length, comes back. */
  lemma {:induction false} TextRoundTrip(data: seq<Byte>)
    ensures Decode(Encode(data)) == Ok(data)
    decreases |data|
  {
    hide Symbol, Value, Six, Bits24, Join;
    if |data| == 0 {
    } else if |data| == 1 {
      assert data == [data[0]];
      OneByte(data[0]);
    } else if |data| == 2 {
      assert data == [data[0], data[1]];
      TwoBytes(data[0], data[1]);
    } else {
      TextRoundTrip(data[3..]);
      GroupBack(data[0], data[1], data[2], Encode(data[3..]));
      assert data == [data[0], data[1], data[2]] + data[3..];
    }
  }

  lemma GroupBack(a: Byte, b: Byte, c: Byte, rest: string)
    requires Decode(rest).Ok?
    ensures Decode(Quad(Number(a, b, c)) + rest) == Ok([a, b, c] + Decode(rest).value)
  {
    var n := Number(a, b, c);
    var t := Quad(n) + rest;
    GroupValues(n);
    SixJoin(n);
    BytesBack(a, b, c);
    assert t[4..] == rest;
    hide Symbol, Value, Six, Bits24, Join;
  }
}
