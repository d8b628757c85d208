/** Base64 (section 4 of RFC 4648): the encoder, and a decoder that does not insist on the padding. */
module Base64 {
  import opened Wrappers

  // An unsigned byte. Shifts and masks of it are written as divisions and remainders by powers of two.
  type Byte = x: int | 0 <= x < 256

  const PAD: Byte := 0x3D // '='

  /** The table b64chars: A-Z, a-z, 0-9, '+', '/'. */
  function Char(v: int): Byte
    requires 0 <= v < 64
  {
    if v < 26 then v + 65
    else if v < 52 then v + 71
    else if v < 62 then v - 4
    else if v == 62 then 43
    else 47
  }

  /** The table b64values; -1 for a character outside the alphabet. */
  function Value(c: Byte): (v: int)
    ensures -1 <= v < 64
  {
    if 65 <= c <= 90 then c - 65
    else if 97 <= c <= 122 then c - 71
    else if 48 <= c <= 57 then c + 4
    else if c == 43 then 62
    else if c == 47 then 63
    else -1
  }

  predicate InAlphabet(c: Byte) {
    Value(c) >= 0
  }

  /** The bitwise and of two bytes. */
  function And(c: int, d: int): (r: int)
    requires 0 <= c < 256 && 0 <= d < 256
    ensures 0 <= r <= c
  {
    if c == 0 then 0 else (if c % 2 == 1 && d % 2 == 1 then 1 else 0) + 2 * And(c / 2, d / 2)
  }

  // ---------- Encoding ----------

  // The 6-bit values of three bytes: a >> 2, 0x3F & ((a << 4) | (b >> 4)), 0x3F & ((b << 2) | (c >> 6)), 0x3F & c.
  function Sextet1(a: Byte): (v: int)
    ensures 0 <= v < 64
  {
    a / 4
  }

  function Sextet2(a: Byte, b: Byte): (v: int)
    ensures 0 <= v < 64
  {
    a % 4 * 16 + b / 16
  }

  function Sextet3(b: Byte, c: Byte): (v: int)
    ensures 0 <= v < 64
  {
    b % 16 * 4 + c / 64
  }

  function Sextet4(c: Byte): (v: int)
    ensures 0 <= v < 64
  {
    c % 64
  }

  function Quantum(a: Byte, b: Byte, c: Byte): seq<Byte> {
    [Char(Sextet1(a)), Char(Sextet2(a, b)), Char(Sextet3(b, c)), Char(Sextet4(c))]
  }

  function Encoded(data: seq<Byte>): seq<Byte> {
    if |data| == 0 then []
    else if |data| == 1 then [Char(Sextet1(data[0])), Char(Sextet2(data[0], 0)), PAD, PAD]
    else if |data| == 2 then
      [Char(Sextet1(data[0])), Char(Sextet2(data[0], data[1])), Char(Sextet3(data[1], 0)), PAD]
    else Quantum(data[0], data[1], data[2]) + Encoded(data[3..])
  }

  lemma {:induction false} EncodedLength(data: seq<Byte>)
    ensures |Encoded(data)| == (|data| + 2) / 3 * 4
  {
    hide Char, Sextet1, Sextet2, Sextet3, Sextet4;
    if |data| >= 3 {
      EncodedLength(data[3..]);
      assert (|data| + 2) / 3 == (|data| - 3 + 2) / 3 + 1;
    }
  }

  /** Three bytes become four characters of the buffer. */
  method WriteQuantum(buffer: array<Byte>, s: nat, a: Byte, b: Byte, c: Byte)
    requires s + 4 <= buffer.Length
    modifies buffer
    ensures buffer[..s + 4] == old(buffer[..s]) + Quantum(a, b, c)
    ensures forall i :: s + 4 <= i < buffer.Length ==> buffer[i] == old(buffer[i])
  {
    buffer[s] := Char(Sextet1(a));
    buffer[s + 1] := Char(Sextet2(a, b));
    buffer[s + 2] := Char(Sextet3(b, c));
    buffer[s + 3] := Char(Sextet4(c));
  }

  /** The last one or two bytes become two or three characters; the padding is in the buffer already. */
  method WriteTail(buffer: array<Byte>, s: nat, tail: seq<Byte>)
    requires 1 <= |tail| <= 2 && buffer.Length == s + 4
    requires forall i :: s <= i < buffer.Length ==> buffer[i] == PAD
    modifies buffer
    ensures buffer[..] == old(buffer[..s]) + Encoded(tail)
  {
    var a := tail[0];
    buffer[s] := Char(Sextet1(a));
    if |tail| == 1 {
      buffer[s + 1] := Char(Sextet2(a, 0));
    } else {
      var b := tail[1];
      buffer[s + 1] := Char(Sextet2(a, b));
      buffer[s + 2] := Char(Sextet3(b, 0));
    }
  }

  // Rounding up to whole groups of three bytes, and to as many groups of four characters.
  lemma Sizes(n: nat)
    ensures n + (if n % 3 != 0 then 3 - n % 3 else 0) == 3 * ((n + 2) / 3)
    ensures 3 * ((n + 2) / 3) * 8 / 6 == 4 * ((n + 2) / 3)
  {
    RoundUp(n / 3, n % 3);
    FourThirds((n + 2) / 3);
  }

  lemma RoundUp(q: int, r: int)
    requires 0 <= r < 3
    ensures (3 * q + r + 2) / 3 == if r == 0 then q else q + 1
  {
  }

  lemma FourThirds(q: int)
    ensures 3 * q * 8 / 6 == 4 * q
  {
  }

  method Encode(data: seq<Byte>) returns (result: seq<Byte>)
    ensures result == Encoded(data)
  {
    hide Char, Sextet1, Sextet2, Sextet3, Sextet4, Quantum, Encoded;
    var num := |data|;
    var size := num;
    var r := size % 3;
    if r != 0 { size := size + (3 - r); }
    Sizes(|data|);
    size := size * 8 / 6;
    var buffer := new Byte[size](_ => PAD);
    var s, p := 0, 0;
    ghost var k := 0;
    while num > 2
      invariant 0 <= k && p == 3 * k && s == 4 * k && num == |data| - p >= 0
      invariant size == 4 * ((|data| + 2) / 3)
      invariant forall i :: s <= i < size ==> buffer[i] == PAD
      invariant buffer[..s] + Encoded(data[p..]) == Encoded(data)
    {
      EncodedFirst(buffer[..s], data[p..]);
      WriteQuantum(buffer, s, data[p], data[p + 1], data[p + 2]);
      s := s + 4;
      p := p + 3;
      num := num - 3;
      k := k + 1;
    }
    if num != 0 {
      WriteTail(buffer, s, data[p..]);
      result := buffer[..];
    } else {
      NothingEncoded();
      assert s == size && data[p..] == [];
      assert buffer[..] == buffer[..s] + [];
      result := buffer[..];
    }
  }

  lemma NothingEncoded()
    ensures Encoded([]) == []
  {
  }

  lemma EncodedFirst(front: seq<Byte>, data: seq<Byte>)
    requires |data| >= 3
    ensures front + Encoded(data) == front + Quantum(data[0], data[1], data[2]) + Encoded(data[3..])
  {
    hide Char, Sextet1, Sextet2, Sextet3, Sextet4, Quantum;
  }

  // ---------- Decoding ----------

  // (a << 2) | (b >> 4), 0xFF & ((b << 4) | (c >> 2)) and 0xFF & ((c << 6) | d), for values below 64.
  // The decoder computes them before it looks for -1, and throws the result away if it finds one.
  function Byte1(a: int, b: int): Byte {
    (a * 4 + b / 16) % 256
  }

  function Byte2(b: int, c: int): Byte {
    (b * 16 + c / 4) % 256
  }

  function Byte3(c: int, d: int): Byte {
    (c * 64 + d) % 256
  }

  // (a << 18) | (b << 12) | (c << 6) | d
  function Word(a: int, b: int, c: int, d: int): int {
    a * 0x4_0000 + b * 0x1000 + c * 0x40 + d
  }

  // The bytes of a 24-bit word.
  function Bytes(n: int): seq<Byte>
    requires 0 <= n < 0x100_0000
  {
    [n / 0x1_0000, n / 0x100 % 0x100, n % 0x100]
  }

  /** The last one to four characters; missing ones are taken as padding. */
  function Final(q: seq<Byte>): Option<seq<Byte>> {
    if |q| < 2 || |q| > 4 then None
    else
      var a, b := Value(q[0]), Value(q[1]);
      var c := if |q| >= 3 then q[2] else PAD;
      var d := if |q| == 4 then q[3] else PAD;
      if And(c, d) == PAD then
        if a < 0 || b < 0 then None else Some([Byte1(a, b)])
      else if d == PAD then
        if a < 0 || b < 0 || Value(c) < 0 then None else Some([Byte1(a, b), Byte2(b, Value(c))])
      else
        if a < 0 || b < 0 || Value(c) < 0 || Value(d) < 0 then None
        else Some([Byte1(a, b), Byte2(b, Value(c)), Byte3(Value(c), Value(d))])
  }

  function Decoded(str: seq<Byte>): Option<seq<Byte>> {
    if |str| == 0 then Some([])
    else if |str| <= 4 then Final(str)
    else
      var a, b, c, d := Value(str[0]), Value(str[1]), Value(str[2]), Value(str[3]);
      if a < 0 || b < 0 || c < 0 || d < 0 then None
      else match Decoded(str[4..])
        case None => None
        case Some(rest) => Some(Bytes(Word(a, b, c, d)) + rest)
  }

  /** What the decoder's result is, once some bytes have been written. */
  function Prepend(bytes: seq<Byte>, r: Option<seq<Byte>>): Option<seq<Byte>> {
    match r case None => None case Some(rest) => Some(bytes + rest)
  }

  method Decode(str: seq<Byte>) returns (result: Option<seq<Byte>>)
    ensures result == Decoded(str)
  {
    hide Byte1, Byte2, Byte3, Value, And;
    var s, len := 0, |str|;
    if len == 0 { return Some([]); }
    var bytes: seq<Byte> := [];
    assert str[0..] == str;
    PrependNothing(Decoded(str));
    while len > 4
      invariant len == |str| - s && len > 0 && s >= 0
      invariant Decoded(str) == Prepend(bytes, Decoded(str[s..]))
    {
      var a, b, c, d := Value(str[s]), Value(str[s + 1]), Value(str[s + 2]), Value(str[s + 3]);
      assert str[s..][4..] == str[s + 4..];
      if a < 0 || b < 0 || c < 0 || d < 0 { return None; }
      var n := Word(a, b, c, d);
      PrependTwice(bytes, Bytes(n), Decoded(str[s + 4..]));
      bytes := bytes + [n / 0x1_0000, n / 0x100 % 0x100, n % 0x100];
      s := s + 4;
      len := len - 4;
    }
    ghost var front := bytes;
    if len == 1 { return None; }
    var a, b := Value(str[s]), Value(str[s + 1]);
    var c: Byte, d: Byte := PAD, PAD;
    if len == 3 {
      c := str[s + 2];
    } else if len != 2 {
      c, d := str[s + 2], str[s + 3];
    }
    bytes := bytes + [Byte1(a, b)];
    if And(c, d) == PAD {
      if a < 0 || b < 0 { return None; }
      return Some(bytes);
    }
    var cv := Value(c);
    bytes := bytes + [Byte2(b, cv)];
    if d == PAD {
      if a < 0 || b < 0 || cv < 0 { return None; }
      assert bytes == front + [Byte1(a, b), Byte2(b, cv)];
      return Some(bytes);
    }
    var dv := Value(d);
    bytes := bytes + [Byte3(cv, dv)];
    if a < 0 || b < 0 || cv < 0 || dv < 0 { return None; }
    assert bytes == front + [Byte1(a, b), Byte2(b, cv), Byte3(cv, dv)];
    return Some(bytes);
  }

  lemma PrependNothing(r: Option<seq<Byte>>)
    ensures Prepend([], r) == r
  {
    if r.Some? { assert [] + r.value == r.value; }
  }

  lemma PrependTwice(a: seq<Byte>, b: seq<Byte>, r: Option<seq<Byte>>)
    ensures Prepend(a, Prepend(b, r)) == Prepend(a + b, r)
  {
    if r.Some? { assert a + (b + r.value) == a + b + r.value; }
  }

  // ---------- The tables and the padding test ----------

  /** The two tables are inverse to each other. */
  lemma TablesInverse(v: int, c: Byte)
    ensures 0 <= v < 64 ==> Value(Char(v)) == v
    ensures InAlphabet(c) ==> Char(Value(c)) == c
    ensures !InAlphabet(PAD)
  {
  }

  lemma AndHalves(c: int, d: int)
    requires 0 <= c < 256 && 0 <= d < 256
    ensures And(c, d) % 2 == 1 <==> c % 2 == 1 && d % 2 == 1
    ensures And(c, d) / 2 == And(c / 2, d / 2)
  {
    var low, high := if c % 2 == 1 && d % 2 == 1 then 1 else 0, And(c / 2, d / 2);
    assert And(c, d) == low + 2 * high by {
      if c == 0 { assert And(0, d / 2) == 0; }
    }
    LowAndHigh(low, high);
  }

  lemma LowAndHigh(low: int, high: int)
    requires 0 <= low < 2
    ensures (low + 2 * high) % 2 == low && (low + 2 * high) / 2 == high
  {
  }

  lemma AndHalvesTwice(c: int, d: int, v: int)
    requires 0 <= c < 256 && 0 <= d < 256 && And(c, d) == v
    ensures v % 2 == 1 ==> c % 2 == 1
    ensures And(c / 2, d / 2) == v / 2
  {
    AndHalves(c, d);
  }

  // The bits that '=' has are set in both operands.
  lemma PaddingBits(c: Byte, d: Byte)
    requires And(c, d) == PAD
    ensures c % 2 == c / 4 % 2 == c / 8 % 2 == c / 16 % 2 == c / 32 % 2 == 1
  {
    hide And;
    var c1, d1 := c / 2, d / 2;
    var c2, d2 := c1 / 2, d1 / 2;
    var c3, d3 := c2 / 2, d2 / 2;
    var c4, d4 := c3 / 2, d3 / 2;
    var c5, d5 := c4 / 2, d4 / 2;
    AndHalvesTwice(c, d, 61);
    AndHalvesTwice(c1, d1, 30);
    AndHalvesTwice(c2, d2, 15);
    AndHalvesTwice(c3, d3, 7);
    AndHalvesTwice(c4, d4, 3);
    AndHalvesTwice(c5, d5, 1);
  }

  lemma SixBits(l: int)
    requires 0 <= l < 64
    requires l % 2 == l / 4 % 2 == l / 8 % 2 == l / 16 % 2 == l / 32 % 2 == 1
    ensures l == 61 || l == 63
  {
    assert l >= 32;
    assert l >= 48;
    assert l >= 56;
    assert l >= 60;
  }

  lemma EvenMultiple(h: int, m: int)
    ensures (2 * h + m) % 2 == m % 2
  {
  }

  // Below 128, only '=', '?', '}' and the delete character have those bits.
  lemma PaddingChars(c: Byte)
    requires c % 2 == c / 4 % 2 == c / 8 % 2 == c / 16 % 2 == c / 32 % 2 == 1
    ensures c % 64 == 61 || c % 64 == 63
    ensures !InAlphabet(c)
  {
    var h, l := c / 64, c % 64;
    assert c / 4 == 2 * (8 * h) + l / 4 && c / 8 == 2 * (4 * h) + l / 8;
    assert c / 16 == 2 * (2 * h) + l / 16 && c / 32 == 2 * h + l / 32;
    EvenMultiple(32 * h, l);
    EvenMultiple(8 * h, l / 4);
    EvenMultiple(4 * h, l / 8);
    EvenMultiple(2 * h, l / 16);
    EvenMultiple(h, l / 32);
    SixBits(l);
  }

  lemma {:induction false} AndCommutes(c: int, d: int)
    requires 0 <= c < 256 && 0 <= d < 256
    ensures And(c, d) == And(d, c)
    decreases c + d
  {
    if c != 0 || d != 0 { AndCommutes(c / 2, d / 2); }
    if c == 0 { AndZero(d); }
    if d == 0 { AndZero(c); }
  }

  lemma {:induction false} AndZero(c: int)
    requires 0 <= c < 256
    ensures And(c, 0) == 0 && And(0, c) == 0
  {
    if c != 0 { AndZero(c / 2); }
  }

  /** Among the alphabet and '=', the bitwise test singles out two '='. */
  lemma PaddingExact(c: Byte, d: Byte)
    requires InAlphabet(c) || c == PAD
    requires InAlphabet(d) || d == PAD
    ensures And(c, d) == PAD <==> c == PAD && d == PAD
  {
    if And(c, d) == PAD {
      PaddingBits(c, d);
      PaddingChars(c);
      AndCommutes(c, d);
      PaddingBits(d, c);
      PaddingChars(d);
    }
    PadAnd();
  }

  lemma PadAnd()
    ensures And(PAD, PAD) == PAD
  {
    assert And(1, 1) == 1;
    assert And(7, 7) == 7;
    assert And(30, 30) == 30;
  }

  /** A character of the alphabet followed by anything is not taken for padding. */
  lemma AlphabetNotPadding(c: Byte, d: Byte)
    requires InAlphabet(c)
    ensures And(c, d) != PAD
  {
    if And(c, d) == PAD { PaddingBits(c, d); PaddingChars(c); }
  }

  // ---------- Round trips ----------

  lemma WordJoin(a: Byte, b: Byte, c: Byte)
    ensures Word(Sextet1(a), Sextet2(a, b), Sextet3(b, c), Sextet4(c)) == a * 0x1_0000 + b * 0x100 + c
  {
    assert a == a / 4 * 4 + a % 4;
    assert b == b / 16 * 16 + b % 16;
    assert c == c / 64 * 64 + c % 64;
  }

  lemma BytesOfWord(a: Byte, b: Byte, c: Byte)
    ensures Bytes(a * 0x1_0000 + b * 0x100 + c) == [a, b, c]
  {
    var n := a * 0x1_0000 + b * 0x100 + c;
    assert n / 0x100 == a * 0x100 + b;
  }

  lemma Byte1Join(a: Byte, b: Byte)
    ensures Byte1(Sextet1(a), Sextet2(a, b)) == a
  {
    assert Sextet2(a, b) / 16 == a % 4;
  }

  lemma Byte2Join(a: Byte, b: Byte, c: Byte)
    ensures Byte2(Sextet2(a, b), Sextet3(b, c)) == b
  {
    assert Sextet3(b, c) / 4 == b % 16;
    assert Sextet2(a, b) * 16 == a % 4 * 256 + b / 16 * 16;
  }

  lemma DropMultiple(k: int, c: Byte)
    ensures (k * 256 + c) % 256 == c
  {
  }

  lemma Byte3Join(b: Byte, c: Byte)
    ensures Byte3(Sextet3(b, c), Sextet4(c)) == c
  {
    assert Sextet3(b, c) * 64 + Sextet4(c) == b % 16 * 256 + c;
    DropMultiple(b % 16, c);
  }

  lemma SextetsJoin(a: Byte, b: Byte, c: Byte)
    ensures var v, w, x, y := Sextet1(a), Sextet2(a, b), Sextet3(b, c), Sextet4(c);
            && 0 <= Word(v, w, x, y) < 0x100_0000
            && Bytes(Word(v, w, x, y)) == [a, b, c]
            && Byte1(v, w) == a && Byte2(w, x) == b && Byte3(x, y) == c
  {
    WordJoin(a, b, c);
    BytesOfWord(a, b, c);
    Byte1Join(a, b);
    Byte2Join(a, b, c);
    Byte3Join(b, c);
  }

  lemma QuantumDecodes(a: Byte, b: Byte, c: Byte)
    ensures Final(Quantum(a, b, c)) == Some([a, b, c])
    ensures var q := Quantum(a, b, c);
            Value(q[0]) == Sextet1(a) && Value(q[1]) == Sextet2(a, b) && Value(q[2]) == Sextet3(b, c) && Value(q[3]) == Sextet4(c)
  {
    TablesInverse(Sextet1(a), 0);
    TablesInverse(Sextet2(a, b), 0);
    TablesInverse(Sextet3(b, c), 0);
    TablesInverse(Sextet4(c), 0);
    var q := Quantum(a, b, c);
    AlphabetNotPadding(q[2], q[3]);
    SextetsJoin(a, b, c);
  }

  /** Encoded text without its trailing padding. */
  function Stripped(text: seq<Byte>): seq<Byte> {
    if text != [] && text[|text| - 1] == PAD then Stripped(text[..|text| - 1]) else text
  }

  lemma OneByteDecodes(a: Byte)
    ensures Final([Char(Sextet1(a)), Char(Sextet2(a, 0)), PAD, PAD]) == Some([a])
    ensures Final([Char(Sextet1(a)), Char(Sextet2(a, 0))]) == Some([a])
  {
    TablesInverse(Sextet1(a), 0);
    TablesInverse(Sextet2(a, 0), 0);
    Byte1Join(a, 0);
    FinalOfOne(Char(Sextet1(a)), Char(Sextet2(a, 0)));
  }

  lemma FinalOfOne(x: Byte, y: Byte)
    requires InAlphabet(x) && InAlphabet(y)
    ensures Final([x, y, PAD, PAD]) == Some([Byte1(Value(x), Value(y))])
    ensures Final([x, y]) == Some([Byte1(Value(x), Value(y))])
  {
    PadAnd();
  }

  lemma TwoBytesDecode(a: Byte, b: Byte)
    ensures Final([Char(Sextet1(a)), Char(Sextet2(a, b)), Char(Sextet3(b, 0)), PAD]) == Some([a, b])
    ensures Final([Char(Sextet1(a)), Char(Sextet2(a, b)), Char(Sextet3(b, 0))]) == Some([a, b])
  {
    TablesInverse(Sextet1(a), 0);
    TablesInverse(Sextet2(a, b), 0);
    TablesInverse(Sextet3(b, 0), 0);
    AlphabetNotPadding(Char(Sextet3(b, 0)), PAD);
    SextetsJoin(a, b, 0);
  }

  lemma NotPad(v: int)
    requires 0 <= v < 64
    ensures Char(v) != PAD
  {
  }

  lemma StripPads(a: Byte, b: Byte, c: Byte)
    ensures a != PAD && b != PAD ==> Stripped([a, b, PAD, PAD]) == [a, b]
    ensures c != PAD ==> Stripped([a, b, c, PAD]) == [a, b, c]
  {
    assert [a, b, PAD, PAD][..3] == [a, b, PAD] && [a, b, PAD][..2] == [a, b];
    assert Stripped([a, b, PAD, PAD]) == Stripped([a, b, PAD]) == Stripped([a, b]);
    assert [a, b, c, PAD][..3] == [a, b, c];
  }

  lemma TailDecodes(data: seq<Byte>)
    requires 1 <= |data| <= 3
    ensures Final(Encoded(data)) == Some(data)
    ensures Final(Stripped(Encoded(data))) == Some(data)
    ensures 2 <= |Stripped(Encoded(data))| <= 4 && |Encoded(data)| == 4
  {
    if |data| == 3 {
      QuantumDecodes(data[0], data[1], data[2]);
      NotPad(Sextet4(data[2]));
      assert data[3..] == [] && Encoded(data) == Quantum(data[0], data[1], data[2]);
      assert data == [data[0], data[1], data[2]];
    } else if |data| == 2 {
      TwoBytesDecode(data[0], data[1]);
      NotPad(Sextet3(data[1], 0));
      StripPads(Char(Sextet1(data[0])), Char(Sextet2(data[0], data[1])), Char(Sextet3(data[1], 0)));
      assert data == [data[0], data[1]];
    } else {
      OneByteDecodes(data[0]);
      NotPad(Sextet1(data[0]));
      NotPad(Sextet2(data[0], 0));
      StripPads(Char(Sextet1(data[0])), Char(Sextet2(data[0], 0)), 0);
      assert data == [data[0]];
    }
  }

  lemma {:induction false} StrippedConcat(front: seq<Byte>, text: seq<Byte>)
    requires Stripped(text) != []
    ensures Stripped(front + text) == front + Stripped(text)
  {
    if text[|text| - 1] == PAD {
      StrippedConcat(front, text[..|text| - 1]);
      assert (front + text)[..|front + text| - 1] == front + text[..|text| - 1];
    }
  }

  lemma DecodedQuantum(a: Byte, b: Byte, c: Byte, rest: seq<Byte>)
    requires rest != []
    ensures Decoded(Quantum(a, b, c) + rest) == Prepend([a, b, c], Decoded(rest))
  {
    QuantumDecodes(a, b, c);
    SextetsJoin(a, b, c);
    assert (Quantum(a, b, c) + rest)[4..] == rest;
  }

  /** Decoding what was encoded gives the bytes back, whether the padding is kept or left out. */
  lemma {:induction false} RoundTrip(data: seq<Byte>)
    ensures Decoded(Encoded(data)) == Some(data)
    ensures Decoded(Stripped(Encoded(data))) == Some(data)
    ensures data != [] ==> Stripped(Encoded(data)) != []
  {
    hide Char, Sextet1, Sextet2, Sextet3, Sextet4, Quantum, Final, Value, Word, Bytes, And;
    if |data| > 3 {
      var a, b, c, rest := data[0], data[1], data[2], Encoded(data[3..]);
      RoundTrip(data[3..]);
      EncodedLength(data[3..]);
      StrippedConcat(Quantum(a, b, c), rest);
      DecodedQuantum(a, b, c, rest);
      DecodedQuantum(a, b, c, Stripped(rest));
      assert data == [a, b, c] + data[3..];
    } else if |data| > 0 {
      TailDecodes(data);
    }
  }

  // ---------- Exactly what the decoder accepts ----------

  // Where the final quantum starts.
  function FinalStart(n: nat): nat {
    if n == 0 then 0 else (n - 1) / 4 * 4
  }

  /** A final quantum, as RFC 4648 has it but with the padding optional. */
  predicate WellFormedFinal(q: seq<Byte>) {
    && 2 <= |q| <= 4 && InAlphabet(q[0]) && InAlphabet(q[1])
    && (|q| == 2
        || (|q| == 3 && (InAlphabet(q[2]) || q[2] == PAD))
        || (|q| == 4 && ((InAlphabet(q[2]) && (InAlphabet(q[3]) || q[3] == PAD)) || (q[2] == PAD && q[3] == PAD))))
  }

  /** The bitwise padding test passes: for two '=', but also for other pairs outside the alphabet. */
  predicate PaddingLike(q: seq<Byte>) {
    && 2 <= |q| <= 4 && InAlphabet(q[0]) && InAlphabet(q[1])
    && And(if |q| >= 3 then q[2] else PAD, if |q| == 4 then q[3] else PAD) == PAD
  }

  lemma FinalAccepts(q: seq<Byte>)
    ensures Final(q).Some? <==> WellFormedFinal(q) || PaddingLike(q)
  {
    PadAnd();
  }

  /** On every byte string: the decoder succeeds exactly here. */
  lemma {:induction false} AcceptsExactly(str: seq<Byte>)
    requires str != []
    ensures Decoded(str).Some? <==>
            && AllInAlphabet(str[..FinalStart(|str|)])
            && (WellFormedFinal(str[FinalStart(|str|)..]) || PaddingLike(str[FinalStart(|str|)..]))
  {
    hide Final, Value, WellFormedFinal, PaddingLike, Word, Bytes;
    hide AllInAlphabet, Decoded, InAlphabet;
    var f := FinalStart(|str|);
    if |str| <= 4 {
      assert str[0..] == str && str[..0] == [];
      NothingOutside();
      ShortDecoded(str);
      FinalAccepts(str);
    } else {
      AcceptsExactly(str[4..]);
      assert f == FinalStart(|str| - 4) + 4;
      assert str[4..][f - 4..] == str[f..];
      LongDecoded(str);
      ShiftedAlphabet(str, f);
    }
  }

  lemma NothingOutside()
    ensures AllInAlphabet([])
  {
  }

  lemma ShortDecoded(str: seq<Byte>)
    requires 0 < |str| <= 4
    ensures Decoded(str) == Final(str)
  {
  }

  lemma LongDecoded(str: seq<Byte>)
    requires |str| > 4
    ensures Decoded(str).Some? <==>
            && InAlphabet(str[0]) && InAlphabet(str[1]) && InAlphabet(str[2]) && InAlphabet(str[3])
            && Decoded(str[4..]).Some?
  {
    hide Final, Value, Word, Bytes;
  }

  predicate AllInAlphabet(s: seq<Byte>) {
    forall i :: 0 <= i < |s| ==> InAlphabet(s[i])
  }

  predicate AllInAlphabetOrPad(s: seq<Byte>) {
    forall i :: 0 <= i < |s| ==> InAlphabet(s[i]) || s[i] == PAD
  }

  lemma ShiftedAlphabet(str: seq<Byte>, f: nat)
    requires 4 <= f <= |str|
    ensures AllInAlphabet(str[..f]) <==>
            && InAlphabet(str[0]) && InAlphabet(str[1]) && InAlphabet(str[2]) && InAlphabet(str[3])
            && AllInAlphabet(str[4..][..f - 4])
  {
    if AllInAlphabet(str[4..][..f - 4]) {
      forall i | 4 <= i < f ensures InAlphabet(str[..f][i]) == InAlphabet(str[4..][..f - 4][i - 4]) {
      }
    }
    if AllInAlphabet(str[..f]) {
      assert InAlphabet(str[..f][0]) && InAlphabet(str[..f][1]) && InAlphabet(str[..f][2]) && InAlphabet(str[..f][3]);
      var rest := str[4..][..f - 4];
      forall i | 0 <= i < |rest| ensures InAlphabet(rest[i]) {
        assert rest[i] == str[..f][i + 4];
      }
    }
  }

  lemma PaddingOnlyInAlphabet(q: seq<Byte>)
    requires AllInAlphabetOrPad(q)
    ensures PaddingLike(q) ==> WellFormedFinal(q)
  {
    if 2 <= |q| <= 4 {
      PaddingExact(if |q| >= 3 then q[2] else PAD, if |q| == 4 then q[3] else PAD);
    }
  }

  lemma SuffixInAlphabetOrPad(str: seq<Byte>, f: nat)
    requires AllInAlphabetOrPad(str) && f <= |str|
    ensures AllInAlphabetOrPad(str[f..])
  {
  }

  /** On strings over the alphabet and '=', that is RFC 4648 with optional padding. */
  lemma AcceptsWellFormed(str: seq<Byte>)
    requires str != [] && AllInAlphabetOrPad(str)
    ensures Decoded(str).Some? <==>
            && AllInAlphabet(str[..FinalStart(|str|)])
            && WellFormedFinal(str[FinalStart(|str|)..])
  {
    AcceptsExactly(str);
    SuffixInAlphabetOrPad(str, FinalStart(|str|));
    PaddingOnlyInAlphabet(str[FinalStart(|str|)..]);
  }

  /** Beyond that alphabet it is not: "QQ?" decodes like "QQ==", although '?' is no base64 character. */
  lemma QuestionMarkPasses()
    ensures !InAlphabet(0x3F) && Decoded([0x51, 0x51, 0x3F]) == Decoded([0x51, 0x51, PAD, PAD]) == Some([0x41])
  {
    PadAnd();
    assert And(1, 1) == 1;
    assert And(7, 7) == 7;
    assert And(31, 30) == 30;
    assert And(0x3F, PAD) == PAD;
  }

  // ---------- The meaning of the encoding ----------

  /** Bit i of a byte; bit 0 is the least significant. */
  function Bit(x: int, i: int): bool
    decreases i
  {
    if i <= 0 then x % 2 == 1 else Bit(x / 2, i - 1)
  }

  /** Bit j of the data, from the most significant bit of the first byte on; zero behind the end. */
  ghost function DataBit(data: seq<Byte>, j: nat): bool {
    j / 8 < |data| && Bit(data[j / 8], 7 - j % 8)
  }

  /** Bit j of a text, six bits a character. */
  ghost function TextBit(text: seq<Byte>, j: nat): bool
    requires j < 6 * |text|
  {
    Bit(Value(text[j / 6]), 5 - j % 6)
  }

  function Shifted(x: int, m: nat): int {
    if m == 0 then x else 2 * Shifted(x, m - 1)
  }

  lemma {:induction false} BitJoin(hi: int, m: nat, lo: int, i: nat)
    requires 0 <= lo < Shifted(1, m)
    ensures Bit(Shifted(hi, m) + lo, i) == if i < m then Bit(lo, i) else Bit(hi, i - m)
  {
    if m > 0 {
      assert (Shifted(hi, m) + lo) / 2 == Shifted(hi, m - 1) + lo / 2;
      if i > 0 { BitJoin(hi, m - 1, lo / 2, i - 1); }
    }
  }

  lemma Shifts(x: int)
    ensures Shifted(x, 2) == 4 * x && Shifted(x, 4) == 16 * x && Shifted(x, 6) == 64 * x
  {
    assert Shifted(x, 1) == 2 * x;
    assert Shifted(x, 3) == 8 * x;
    assert Shifted(x, 5) == 32 * x;
  }

  lemma SextetBits(a: Byte, b: Byte, c: Byte, i: nat)
    requires i < 6
    ensures Bit(Sextet1(a), i) == Bit(a, i + 2)
    ensures Bit(Sextet2(a, b), i) == if i >= 4 then Bit(a, i - 4) else Bit(b, i + 4)
    ensures Bit(Sextet3(b, c), i) == if i >= 2 then Bit(b, i - 2) else Bit(c, i + 6)
    ensures Bit(Sextet4(c), i) == Bit(c, i)
  {
    Sextet1Bits(a, i);
    Sextet2Bits(a, b, i);
    Sextet3Bits(b, c, i);
    LowBits(c, i);
  }

  lemma Sextet1Bits(a: Byte, i: nat)
    ensures Bit(Sextet1(a), i) == Bit(a, i + 2)
  {
    Shifts(a / 4);
    Shifts(1);
    BitJoin(a / 4, 2, a % 4, i + 2);
  }

  lemma Sextet2Bits(a: Byte, b: Byte, i: nat)
    requires i < 6
    ensures Bit(Sextet2(a, b), i) == if i >= 4 then Bit(a, i - 4) else Bit(b, i + 4)
  {
    Shifts(1);
    Shifts(a / 4);
    Shifts(a % 4);
    Shifts(b / 16);
    BitJoin(a % 4, 4, b / 16, i);
    if i >= 4 {
      BitJoin(a / 4, 2, a % 4, i - 4);
    } else {
      BitJoin(b / 16, 4, b % 16, i + 4);
    }
  }

  lemma Sextet3Bits(b: Byte, c: Byte, i: nat)
    requires i < 6
    ensures Bit(Sextet3(b, c), i) == if i >= 2 then Bit(b, i - 2) else Bit(c, i + 6)
  {
    Shifts(1);
    Shifts(b / 16);
    Shifts(b % 16);
    Shifts(c / 64);
    BitJoin(b % 16, 2, c / 64, i);
    if i >= 2 {
      BitJoin(b / 16, 4, b % 16, i - 2);
    } else {
      BitJoin(c / 64, 6, c % 64, i + 6);
    }
  }

  lemma LowBits(c: Byte, i: nat)
    requires i < 6
    ensures Bit(Sextet4(c), i) == Bit(c, i)
  {
    Shifts(1);
    Shifts(c / 64);
    BitJoin(c / 64, 6, c % 64, i);
  }

  // Where bit j is: in character k of a text, and in byte m of data, so far from its end.
  lemma BitAt(q: seq<Byte>, k: nat, data: seq<Byte>, m: nat, j: nat)
    requires k < |q| && 6 * k <= j < 6 * k + 6
    requires m < |data| && 8 * m <= j < 8 * m + 8
    ensures TextBit(q, j) == Bit(Value(q[k]), 6 * k + 5 - j)
    ensures DataBit(data, j) == Bit(data[m], 8 * m + 7 - j)
  {
    assert j / 6 == k && j % 6 == j - 6 * k;
    assert j / 8 == m && j % 8 == j - 8 * m;
  }

  // Bit j of three bytes is bit j of their four characters.
  lemma QuantumBit(a: Byte, b: Byte, c: Byte, j: nat)
    requires j < 24
    ensures TextBit(Quantum(a, b, c), j) == DataBit([a, b, c], j)
  {
    hide Bit, TextBit, DataBit, Char, Value, Sextet1, Sextet2, Sextet3, Sextet4;
    var q, data := Quantum(a, b, c), [a, b, c];
    QuantumDecodes(a, b, c);
    if j < 6 {
      SextetBits(a, b, c, 5 - j);
      BitAt(q, 0, data, 0, j);
    } else if j < 12 {
      SextetBits(a, b, c, 11 - j);
      if j < 8 { BitAt(q, 1, data, 0, j); } else { BitAt(q, 1, data, 1, j); }
    } else if j < 18 {
      SextetBits(a, b, c, 17 - j);
      if j < 16 { BitAt(q, 2, data, 1, j); } else { BitAt(q, 2, data, 2, j); }
    } else {
      SextetBits(a, b, c, 23 - j);
      BitAt(q, 3, data, 2, j);
    }
  }

  // What Stripped leaves of an encoded text, quantum by quantum.
  lemma StrippedQuantum(data: seq<Byte>)
    requires |data| >= 3
    ensures Stripped(Encoded(data)) == Quantum(data[0], data[1], data[2]) + Stripped(Encoded(data[3..]))
  {
    var q, rest := Quantum(data[0], data[1], data[2]), Encoded(data[3..]);
    RoundTrip(data[3..]);
    if rest == [] {
      NotPad(Sextet4(data[2]));
      assert q + rest == q && q + [] == q;
    } else {
      EncodedLength(data[3..]);
      StrippedConcat(q, rest);
    }
  }

  lemma {:induction false} StrippedLength(data: seq<Byte>)
    ensures |Stripped(Encoded(data))| == (8 * |data| + 5) / 6
  {
    if |data| >= 3 {
      StrippedQuantum(data);
      StrippedLength(data[3..]);
    } else if |data| > 0 {
      StrippedTail(data);
    }
  }

  /** The characters before the padding spell the bits of the data in order, six by six, filled up with zeros. */
  lemma {:induction false} EncodedSpellsBits(data: seq<Byte>, j: nat)
    requires j < 6 * |Stripped(Encoded(data))|
    ensures TextBit(Stripped(Encoded(data)), j) == DataBit(data, j)
  {
    hide Bit, TextBit, DataBit, Char, Value, Sextet1, Sextet2, Sextet3, Sextet4;
    if |data| >= 3 {
      var q, rest := Quantum(data[0], data[1], data[2]), Stripped(Encoded(data[3..]));
      StrippedQuantum(data);
      if j < 24 {
        QuantumBit(data[0], data[1], data[2], j);
        FirstBits(data, q, rest, j);
      } else {
        EncodedSpellsBits(data[3..], j - 24);
        BitsAfterQuantum(data, q, rest, j);
      }
    } else if |data| > 0 {
      StrippedTail(data);
      var a, b := data[0], if |data| > 1 then data[1] else 0;
      QuantumBit(a, b, 0, j);
      assert Quantum(a, b, 0)[..|data| + 1] + Quantum(a, b, 0)[|data| + 1..] == Quantum(a, b, 0);
      FirstBits([a, b, 0], Quantum(a, b, 0)[..|data| + 1], Quantum(a, b, 0)[|data| + 1..], j);
      TailBit(data, a, b, j);
    }
  }

  lemma TailBit(data: seq<Byte>, a: Byte, b: Byte, j: nat)
    requires 1 <= |data| <= 2 && a == data[0] && b == if |data| > 1 then data[1] else 0
    ensures DataBit([a, b, 0], j) == DataBit(data, j)
  {
    ZeroBit(7 - j % 8);
  }

  lemma {:induction false} ZeroBit(i: int)
    ensures !Bit(0, i)
    decreases i
  {
    if i > 0 { ZeroBit(i - 1); }
  }

  lemma FirstBits(data: seq<Byte>, q: seq<Byte>, rest: seq<Byte>, j: nat)
    requires |data| >= 3 && j < 6 * |q| && j < 24
    ensures TextBit(q + rest, j) == TextBit(q, j)
    ensures DataBit(data, j) == DataBit([data[0], data[1], data[2]], j)
  {
    assert (q + rest)[j / 6] == q[j / 6];
  }

  lemma StrippedTail(data: seq<Byte>)
    requires 1 <= |data| <= 2
    ensures Stripped(Encoded(data)) == Quantum(data[0], if |data| > 1 then data[1] else 0, 0)[..|data| + 1]
  {
    hide Char, Sextet1, Sextet2, Sextet3, Sextet4, Value, Stripped;
    var a := data[0];
    var b := if |data| > 1 then data[1] else 0;
    NotPad(Sextet1(a));
    NotPad(Sextet2(a, b));
    NotPad(Sextet3(b, 0));
    StripPads(Char(Sextet1(a)), Char(Sextet2(a, b)), Char(Sextet3(b, 0)));
  }

  lemma BitsAfterQuantum(data: seq<Byte>, q: seq<Byte>, rest: seq<Byte>, j: nat)
    requires |data| >= 3 && |q| == 4 && 24 <= j < 24 + 6 * |rest|
    ensures TextBit(q + rest, j) == TextBit(rest, j - 24)
    ensures DataBit(data, j) == DataBit(data[3..], j - 24)
  {
    assert j / 6 == (j - 24) / 6 + 4 && j % 6 == (j - 24) % 6;
    assert j / 8 == (j - 24) / 8 + 3 && j % 8 == (j - 24) % 8;
  }

  // ---------- The meaning of the decoding ----------

  /** The alphabet of section 4 of RFC 4648, and its padding character. */
  lemma AlphabetIs(v: int)
    requires 0 <= v < 64
    ensures Char(v) as char == if v < 26 then 'A' + v as char else if v < 52 then 'a' + (v - 26) as char
                               else if v < 62 then '0' + (v - 52) as char else if v == 62 then '+' else '/'
    ensures PAD as char == '='
  {
  }

  /** The bits of a bitwise and. */
  lemma {:induction false} AndIsBitwise(c: int, d: int, i: nat)
    requires 0 <= c < 256 && 0 <= d < 256
    ensures Bit(And(c, d), i) == (Bit(c, i) && Bit(d, i))
    decreases i
  {
    AndHalves(c, d);
    if i > 0 { AndIsBitwise(c / 2, d / 2, i - 1); }
  }

  /** Four 6-bit values are the sextets of the bytes that they make up. */
  lemma WordBytes(a: int, b: int, c: int, d: int)
    requires 0 <= a < 64 && 0 <= b < 64 && 0 <= c < 64 && 0 <= d < 64
    ensures var x, y, z := Byte1(a, b), Byte2(b, c), Byte3(c, d);
            && Sextet1(x) == a && Sextet2(x, y) == b && Sextet3(y, z) == c && Sextet4(z) == d
            && 0 <= Word(a, b, c, d) < 0x100_0000 && Bytes(Word(a, b, c, d)) == [x, y, z]
  {
    var x, y, z := Byte1(a, b), Byte2(b, c), Byte3(c, d);
    HighAndLow(a, b);
    MiddleBits(b, c);
    LowAndRest(c, d);
    WordJoin(x, y, z);
    BytesOfWord(x, y, z);
  }

  lemma HighAndLow(a: int, b: int)
    requires 0 <= a < 64 && 0 <= b < 64
    ensures Byte1(a, b) == a * 4 + b / 16 && Byte1(a, b) / 4 == a && Byte1(a, b) % 4 == b / 16
  {
  }

  lemma MiddleBits(b: int, c: int)
    requires 0 <= b < 64 && 0 <= c < 64
    ensures Byte2(b, c) == b % 16 * 16 + c / 4 && Byte2(b, c) / 16 == b % 16 && Byte2(b, c) % 16 == c / 4
  {
    MiddleByte(b / 16, b % 16, c / 4);
    assert b * 16 + c / 4 == 256 * (b / 16) + 16 * (b % 16) + c / 4;
  }

  lemma MiddleByte(q: int, r: int, k: int)
    requires 0 <= r < 16 && 0 <= k < 16
    ensures (256 * q + 16 * r + k) % 256 == 16 * r + k && (16 * r + k) / 16 == r && (16 * r + k) % 16 == k
  {
  }

  lemma LowAndRest(c: int, d: int)
    requires 0 <= c < 64 && 0 <= d < 64
    ensures Byte3(c, d) == c % 4 * 64 + d && Byte3(c, d) / 64 == c % 4 && Byte3(c, d) % 64 == d
  {
    assert c * 64 + d == 256 * (c / 4) + (c % 4 * 64 + d);
  }

  function ValuesOf(q: seq<Byte>): (int, int, int, int)
    requires |q| == 4
  {
    (Value(q[0]), Value(q[1]), Value(q[2]), Value(q[3]))
  }

  // The bytes of a full quantum.
  function BytesOf(q: seq<Byte>): seq<Byte>
    requires |q| == 4
  {
    var (a, b, c, d) := ValuesOf(q);
    [Byte1(a, b), Byte2(b, c), Byte3(c, d)]
  }

  /** A quantum of the alphabet is what its bytes are encoded as, so it spells their bits. */
  lemma QuantumSpells(q: seq<Byte>, j: nat)
    requires |q| == 4 && AllInAlphabet(q) && j < 24
    ensures var (a, b, c, d) := ValuesOf(q);
            && 0 <= Word(a, b, c, d) < 0x100_0000
            && Bytes(Word(a, b, c, d)) == [Byte1(a, b), Byte2(b, c), Byte3(c, d)]
            && TextBit(q, j) == DataBit([Byte1(a, b), Byte2(b, c), Byte3(c, d)], j)
  {
    hide Bit, TextBit, DataBit, Char, Value, Sextet1, Sextet2, Sextet3, Sextet4, Word, Bytes, Byte1, Byte2, Byte3;
    var (a, b, c, d) := ValuesOf(q);
    assert InAlphabet(q[0]) && InAlphabet(q[1]) && InAlphabet(q[2]) && InAlphabet(q[3]);
    WordBytes(a, b, c, d);
    TablesInverse(0, q[0]);
    TablesInverse(0, q[1]);
    TablesInverse(0, q[2]);
    TablesInverse(0, q[3]);
    var x, y, z := Byte1(a, b), Byte2(b, c), Byte3(c, d);
    assert Quantum(x, y, z) == q;
    QuantumBit(x, y, z, j);
  }

  /** The characters of a final quantum that carry bits, filled up to four. */
  function Filled(q: seq<Byte>): seq<Byte>
    requires WellFormedFinal(q)
  {
    if |q| == 2 || q[2] == PAD then [q[0], q[1], 0x41, 0x41]
    else if |q| == 3 || q[3] == PAD then [q[0], q[1], q[2], 0x41]
    else q
  }

  lemma FinalBytes(q: seq<Byte>)
    requires WellFormedFinal(q)
    ensures var f := Filled(q);
            var (a, b, c, d) := ValuesOf(f);
            && |f| == 4 && AllInAlphabet(f)
            && 1 <= FinalLength(q) <= 3
            && Final(q) == Some([Byte1(a, b), Byte2(b, c), Byte3(c, d)][..FinalLength(q)])
  {
    hide Byte1, Byte2, Byte3, And;
    PadAnd();
    var (a, b, c, d) := ValuesOf(Filled(q));
    var x, y, z := Byte1(a, b), Byte2(b, c), Byte3(c, d);
    assert [x, y, z][..1] == [x] && [x, y, z][..2] == [x, y] && [x, y, z][..3] == [x, y, z];
    if |q| >= 3 && InAlphabet(q[2]) { AlphabetNotPadding(q[2], if |q| == 4 then q[3] else PAD); }
  }

  lemma TextBitAgrees(q: seq<Byte>, f: seq<Byte>, j: nat)
    requires j < 6 * |q| && j < 6 * |f| && q[j / 6] == f[j / 6]
    ensures TextBit(q, j) == TextBit(f, j)
  {
    hide Bit, Value;
  }

  lemma DataBitAgrees(a: seq<Byte>, b: seq<Byte>, j: nat)
    requires a <= b && j < 8 * |a|
    ensures DataBit(a, j) == DataBit(b, j)
  {
    hide Bit;
    assert a[j / 8] == b[j / 8];
  }

  // How many bytes a final quantum decodes to.
  function FinalLength(q: seq<Byte>): nat
    requires WellFormedFinal(q)
  {
    if |q| == 2 || q[2] == PAD then 1 else if |q| == 3 || q[3] == PAD then 2 else 3
  }

  lemma CharacterOf(j: nat, n: nat)
    requires 1 <= n <= 3 && j < 8 * n
    ensures j < 24 && j / 6 <= n
  {
  }

  lemma FinalSpells(q: seq<Byte>, j: nat)
    requires WellFormedFinal(q) && Final(q).Some? && j < 8 * |Final(q).value|
    ensures j < 6 * |q| && TextBit(q, j) == DataBit(Final(q).value, j)
  {
    hide Bit, TextBit, DataBit, Final, Byte1, Byte2, Byte3, Value, WellFormedFinal, Filled, FinalLength, Word, Bytes, AllInAlphabet;
    FinalBytes(q);
    CharacterOf(j, FinalLength(q));
    QuantumSpells(Filled(q), j);
    FilledAgrees(q, j / 6);
    TextBitAgrees(q, Filled(q), j);
    DataBitAgrees(Final(q).value, BytesOf(Filled(q)), j);
  }

  lemma FilledAgrees(q: seq<Byte>, k: nat)
    requires WellFormedFinal(q)
    requires k <= FinalLength(q)
    ensures k < |q| && |Filled(q)| == 4 && Filled(q)[k] == q[k]
  {
  }

  /** The decoded bytes spell the bits of the text, however it was padded and whatever its last bits are. */
  lemma {:induction false} DecodedSpellsBits(str: seq<Byte>, j: nat)
    requires AllInAlphabetOrPad(str) && Decoded(str).Some? && j < 8 * |Decoded(str).value|
    ensures j < 6 * |str| && TextBit(str, j) == DataBit(Decoded(str).value, j)
  {
    hide Bit, TextBit, DataBit, Final, Word, Bytes, Value, Decoded, WellFormedFinal, Byte1, Byte2, Byte3;
    if str == [] {
      assert Decoded(str) == Some([]) by { NothingDecoded(); }
    } else if |str| <= 4 {
      ShortDecoded(str);
      FinalAccepts(str);
      PaddingOnlyInAlphabet(str);
      FinalSpells(str, j);
    } else {
      var q, rest := str[..4], str[4..];
      LongDecoded(str);
      DecodedSplits(str);
      var bytes := BytesOf(q);
      var tail := Decoded(rest).value;
      assert str == q + rest && (bytes + tail)[3..] == tail && (bytes + tail)[..3] == bytes;
      if j < 24 {
        QuantumSpells(q, j);
        FirstBits(bytes + tail, q, rest, j);
        assert [(bytes + tail)[0], (bytes + tail)[1], (bytes + tail)[2]] == bytes;
      } else {
        assert AllInAlphabetOrPad(rest) by { SuffixInAlphabetOrPad(str, 4); }
        DecodedSpellsBits(rest, j - 24);
        BitsAfterQuantum(bytes + tail, q, rest, j);
      }
    }
  }

  lemma NothingDecoded()
    ensures Decoded([]) == Some([])
  {
  }

  lemma DecodedSplits(str: seq<Byte>)
    requires |str| > 4 && Decoded(str).Some?
    ensures AllInAlphabet(str[..4]) && Decoded(str[4..]).Some?
    ensures Decoded(str).value == BytesOf(str[..4]) + Decoded(str[4..]).value
  {
    hide Final, Value, Word, Bytes, Byte1, Byte2, Byte3;
    WordBytes(Value(str[0]), Value(str[1]), Value(str[2]), Value(str[3]));
  }

  /** Three bytes for every four characters before the padding, rounded down. */
  lemma {:induction false} DecodedLength(str: seq<Byte>)
    requires AllInAlphabetOrPad(str) && Decoded(str).Some?
    ensures |Decoded(str).value| == |Stripped(str)| * 3 / 4
  {
    hide Final, Word, Bytes, Value, Decoded, Byte1, Byte2, Byte3, AllInAlphabetOrPad;
    if str == [] {
      NothingDecoded();
    } else if |str| <= 4 {
      ShortDecoded(str);
      FinalAccepts(str);
      PaddingOnlyInAlphabet(str);
      FinalBytes(str);
      FinalStripped(str);
    } else {
      LongDecoded(str);
      DecodedSplits(str);
      SuffixInAlphabetOrPad(str, 4);
      DecodedLength(str[4..]);
      assert Stripped(str[4..]) != [] by { StrippedNotEmpty(str[4..]); }
      StrippedConcat(str[..4], str[4..]);
      assert str == str[..4] + str[4..];
    }
  }

  lemma FinalStripped(q: seq<Byte>)
    requires WellFormedFinal(q)
    ensures |Stripped(q)| == FinalLength(q) + 1
  {
    hide Value;
    TablesInverse(0, q[0]);
    assert q[0] != PAD && q[1] != PAD;
    if |q| == 4 && q[3] == PAD {
      assert q[..3][..2] == q[..2];
    }
  }

  lemma {:induction false} StrippedNotEmpty(str: seq<Byte>)
    requires str != [] && AllInAlphabetOrPad(str) && Decoded(str).Some?
    ensures Stripped(str) != []
  {
    hide Final, Word, Bytes, Decoded, Byte1, Byte2, Byte3;
    if |str| <= 4 { ShortDecoded(str); FinalAccepts(str); } else { LongDecoded(str); }
    StrippedKeepsFirst(str);
  }

  lemma {:induction false} StrippedKeepsFirst(str: seq<Byte>)
    requires str != [] && str[0] != PAD
    ensures Stripped(str) != []
  {
    if str[|str| - 1] == PAD { StrippedKeepsFirst(str[..|str| - 1]); }
  }
}
