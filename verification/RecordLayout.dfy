/** The cache record byte by byte, and what its content type may be: the magic, big-endian lengths, and
    UTF-8 as section 3 of RFC 3629 defines it. */
module RecordLayout {
  import opened RecordCodec

  // ----- numbers -----

  lemma DivTwice(n: nat, a: nat, b: nat)
    requires a > 0 && b > 0
    ensures n / a / b == n / (a * b)
  {
    var m := n / a;
    DivMod(n, a);
    DivMod(m, b);
    Combined(n, a, b, m, n % a, m / b, m % b);
  }

  lemma DivMod(n: nat, m: nat)
    requires m > 0
    ensures n == n / m * m + n % m && n % m < m
  {
  }

  lemma Combined(n: nat, a: nat, b: nat, m: nat, rest: nat, q: nat, r: nat)
    requires a > 0 && b > 0 && n == m * a + rest && rest < a && m == q * b + r && r < b
    ensures n / (a * b) == q
  {
    Distributes(q, b, r, a);
    RowBelow(r, b, a, rest);
    Positive(a, b);
    QuotientIs(n, a * b, q, r * a + rest);
  }

  lemma RowBelow(r: nat, b: nat, a: nat, rest: nat)
    requires r < b && rest < a
    ensures r * a + rest < a * b
  {
    AddRows(r, b - r, a);
    MulLeq(1, b - r, a);
  }

  lemma AddRows(r: nat, d: nat, a: nat)
    ensures a * (r + d) == r * a + d * a
  {
  }

  lemma Positive(a: nat, b: nat)
    requires a > 0 && b > 0
    ensures a * b > 0
  {
  }

  lemma Distributes(q: nat, b: nat, r: nat, a: nat)
    ensures (q * b + r) * a == q * (a * b) + r * a
  {
  }

  lemma QuotientIs(n: nat, m: nat, q: nat, rest: nat)
    requires m > 0 && rest < m && n == q * m + rest
    ensures n / m == q
  {
    var d := n / m;
    MulLeq(d + 1, q, m);
    MulLeq(q + 1, d, m);
  }

  lemma MulLeq(a: nat, b: nat, m: nat)
    ensures a <= b ==> a * m <= b * m
  {
  }

  /** The most significant byte comes first. */
  lemma {:induction false} BigEndianAt(n: nat, width: nat, i: nat)
    requires i < width
    ensures BigEndian(n, width)[i] as nat == n / Pow256(width - 1 - i) % 256
  {
    if i < width - 1 {
      BigEndianAt(n / 256, width - 1, i);
      DivTwice(n, 256, Pow256(width - 2 - i));
      assert Pow256(width - 1 - i) == 256 * Pow256(width - 2 - i);
    }
  }

  lemma TwoBytes(n: nat)
    requires n <= 0xFFFF
    ensures BigEndian(n, 2)[0] as nat == n / 256 && BigEndian(n, 2)[1] as nat == n % 256
  {
    BigEndianAt(n, 2, 0);
    BigEndianAt(n, 2, 1);
    assert Pow256(1) == 256 && Pow256(0) == 1;
  }

  /** Where everything is: "RPC1", the length of the content type in two bytes, the content type, the length of
      the body in eight, the body. */
  lemma RecordBytes(contentType: Bytes, body: Bytes)
    requires |contentType| <= 0xFFFF
    ensures var (r, n) := (Encoded(contentType, body), |contentType|);
            && |r| == 14 + n + |body|
            && r[0..4] == [0x52, 0x50, 0x43, 0x31]
            && r[4] as nat == n / 256 && r[5] as nat == n % 256
            && r[6..6 + n] == contentType
            && IsBigEndian(r[6 + n..14 + n], |body|)
            && r[14 + n..] == body
  {
    var (r, n) := (Encoded(contentType, body), |contentType|);
    Layout(contentType, body, []);
    assert r + [] == r;
    TwoBytes(n);
    assert r[4..6][0] == r[4] && r[4..6][1] == r[5];
    var length := r[6 + n..14 + n];
    forall i: nat ensures ByteOf(length, |body|, i) {
      if i < 8 {
        BigEndianAt(|body|, 8, i);
      }
    }
  }

  predicate ByteOf(b: seq<Byte>, n: nat, i: nat) {
    i < |b| ==> b[i] as nat == n / Pow256(|b| - 1 - i) % 256
  }

  ghost predicate IsBigEndian(b: seq<Byte>, n: nat) {
    forall i: nat :: ByteOf(b, n, i)
  }

  // ----- text -----

  /** One character. */
  function Utf8Char(c: char): seq<Byte> {
    var n := c as int;
    if n < 0x80 then [n as Byte]
    else if n < 0x800 then [(0xC0 + n / 0x40) as Byte, Low(n)]
    else if n < 0x1_0000 then [(0xE0 + n / 0x1000) as Byte, Low(n / 0x40), Low(n)]
    else [(0xF0 + n / 0x4_0000) as Byte, Low(n / 0x1000), Low(n / 0x40), Low(n)]
  }

  /** Six bits. */
  function Low(n: nat): Byte {
    (0x80 + n % 0x40) as Byte
  }

  function Utf8(text: string): seq<Byte> {
    if text == "" then [] else Utf8Char(text[0]) + Utf8(text[1..])
  }

  lemma CharIsValid(c: char, rest: seq<Byte>)
    requires ValidUtf8(rest)
    ensures ValidUtf8(Utf8Char(c) + rest)
  {
    var s := Utf8Char(c) + rest;
    assert s[|Utf8Char(c)|..] == rest;
  }

  lemma {:induction false} TextIsValid(text: string)
    ensures ValidUtf8(Utf8(text))
  {
    if text != "" {
      TextIsValid(text[1..]);
      CharIsValid(text[0], Utf8(text[1..]));
    }
  }

  predicate OfTwo(a: Byte, b: Byte) {
    0xC2 <= a <= 0xDF && IsContinuation(b)
  }

  predicate OfThree(a: Byte, b: Byte, c: Byte) {
    && IsContinuation(b) && IsContinuation(c)
    && ((a == 0xE0 && b >= 0xA0) || 0xE1 <= a <= 0xEC || (a == 0xED && b <= 0x9F) || 0xEE <= a <= 0xEF)
  }

  predicate OfFour(a: Byte, b: Byte, c: Byte, d: Byte) {
    && IsContinuation(b) && IsContinuation(c) && IsContinuation(d)
    && ((a == 0xF0 && b >= 0x90) || 0xF1 <= a <= 0xF3 || (a == 0xF4 && b <= 0x8F))
  }

  lemma SixBits(x: nat, y: nat)
    requires y < 0x40
    ensures (x * 0x40 + y) / 0x40 == x && (x * 0x40 + y) % 0x40 == y
  {
  }

  lemma TwoAreChar(a: Byte, b: Byte) returns (c: char)
    requires OfTwo(a, b)
    ensures Utf8Char(c) == [a, b]
  {
    c := ((a as int - 0xC0) * 0x40 + (b as int - 0x80)) as char;
  }

  lemma ThreeAreChar(a: Byte, b: Byte, d: Byte) returns (c: char)
    requires OfThree(a, b, d)
    ensures Utf8Char(c) == [a, b, d]
  {
    var (x, y, z) := (a as int - 0xE0, b as int - 0x80, d as int - 0x80);
    var n := (x * 0x40 + y) * 0x40 + z;
    SixBits(x, y);
    SixBits(x * 0x40 + y, z);
    DivTwice(n, 0x40, 0x40);
    c := n as char;
  }

  lemma FourAreChar(a: Byte, b: Byte, d: Byte, e: Byte) returns (c: char)
    requires OfFour(a, b, d, e)
    ensures Utf8Char(c) == [a, b, d, e]
  {
    var (x, y, z, u) := (a as int - 0xF0, b as int - 0x80, d as int - 0x80, e as int - 0x80);
    var m := (x * 0x40 + y) * 0x40 + z;
    var n := m * 0x40 + u;
    SixBits(x, y);
    SixBits(x * 0x40 + y, z);
    SixBits(m, u);
    DivTwice(n, 0x40, 0x40);
    DivTwice(n, 0x40, 0x1000);
    DivTwice(m, 0x40, 0x40);
    c := n as char;
  }

  lemma FirstChar(s: seq<Byte>) returns (c: char, rest: seq<Byte>)
    requires ValidUtf8(s) && s != []
    ensures s == Utf8Char(c) + rest && ValidUtf8(rest) && |rest| < |s|
  {
    if s[0] <= 0x7F && ValidUtf8(s[1..]) {
      c, rest := s[0] as char, s[1..];
    } else if |s| >= 2 && OfTwo(s[0], s[1]) && ValidUtf8(s[2..]) {
      c := TwoAreChar(s[0], s[1]);
      rest := s[2..];
    } else if |s| >= 3 && OfThree(s[0], s[1], s[2]) && ValidUtf8(s[3..]) {
      c := ThreeAreChar(s[0], s[1], s[2]);
      rest := s[3..];
    } else {
      c := FourAreChar(s[0], s[1], s[2], s[3]);
      rest := s[4..];
    }
  }

  lemma {:induction false} ValidIsText(s: seq<Byte>) returns (text: string)
    requires ValidUtf8(s)
    ensures Utf8(text) == s
    decreases |s|
  {
    if s == [] {
      text := "";
    } else {
      var c, rest := FirstChar(s);
      var more := ValidIsText(rest);
      text := [c] + more;
      assert text[1..] == more;
    }
  }

  /** Bytes are accepted as a content type if and only if they are the UTF-8 form of some text. */
  lemma ValidExactly(s: seq<Byte>)
    ensures ValidUtf8(s) <==> exists text :: Utf8(text) == s
  {
    if ValidUtf8(s) {
      var text := ValidIsText(s);
    }
    if text :| Utf8(text) == s {
      TextIsValid(text);
    }
  }
}
