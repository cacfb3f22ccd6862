/** UTF-8 text is what encodes a sequence of Unicode scalar values (section 3 of RFC 3629), and nothing else. */
module ContentUtf8 {
  import opened Wrappers
  import opened ContentUri

  type Scalar = n: int | 0 <= n <= 0x10_FFFF && !(0xD800 <= n <= 0xDFFF)

  function Octet(n: nat): (b: Byte)
    requires n < 256
    ensures b as nat == n
  {
    n as char
  }

  /** The shortest of the four forms that hold the value. */
  function EncodedScalar(n: Scalar): Text {
    if n < 0x80 then [Octet(n)]
    else if n < 0x800 then [Octet(0xC0 + n / 0x40), Octet(0x80 + n % 0x40)]
    else if n < 0x1_0000 then [Octet(0xE0 + n / 0x1000), Octet(0x80 + n / 0x40 % 0x40), Octet(0x80 + n % 0x40)]
    else [Octet(0xF0 + n / 0x4_0000), Octet(0x80 + n / 0x1000 % 0x40), Octet(0x80 + n / 0x40 % 0x40), Octet(0x80 + n % 0x40)]
  }

  function Encoded(scalars: seq<Scalar>): Text {
    if scalars == [] then [] else EncodedScalar(scalars[0]) + Encoded(scalars[1..])
  }

  // ---- every encoding is valid ----

  lemma Leading(n: Scalar)
    ensures 0x800 <= n < 0x1_0000 ==>
              && n / 0x1000 < 16 && (n / 0x1000 == 0 ==> n / 0x40 % 0x40 >= 0x20) && (n / 0x1000 == 13 ==> n / 0x40 % 0x40 < 0x20)
    ensures n >= 0x1_0000 ==>
              && n / 0x4_0000 < 5 && (n / 0x4_0000 == 0 ==> n / 0x1000 % 0x40 >= 0x10) && (n / 0x4_0000 == 4 ==> n / 0x1000 % 0x40 < 0x10)
  {
    var q, r := n / 0x40, n / 0x1000;
    assert n / 0x1000 == q / 0x40 && n / 0x4_0000 == r / 0x40;
  }

  lemma ScalarIsValid(n: Scalar, rest: Text)
    ensures ValidUtf8(EncodedScalar(n) + rest) <==> ValidUtf8(rest)
  {
    var s := EncodedScalar(n) + rest;
    Leading(n);
    assert s[|EncodedScalar(n)|..] == rest;
  }

  lemma {:induction false} EncodedIsValid(scalars: seq<Scalar>)
    ensures ValidUtf8(Encoded(scalars))
    decreases |scalars|
  {
    if scalars != [] {
      EncodedIsValid(scalars[1..]);
      ScalarIsValid(scalars[0], Encoded(scalars[1..]));
    }
  }

  // ---- every valid text is an encoding ----

  lemma FirstScalar(s: Text) returns (n: Scalar)
    requires s != [] && ValidUtf8(s)
    ensures EncodedScalar(n) <= s && ValidUtf8(s[|EncodedScalar(n)|..])
  {
    var a := s[0] as nat;
    if a < 0x80 {
      n := a;
    } else if a <= 0xDF {
      n := TwoOctets(s[0], s[1]);
    } else if a <= 0xEF {
      n := ThreeOctets(s[0], s[1], s[2]);
    } else {
      n := FourOctets(s[0], s[1], s[2], s[3]);
    }
  }

  lemma TwoOctets(a: Byte, b: Byte) returns (n: Scalar)
    requires '\U{C2}' <= a <= '\U{DF}' && Continuation(b)
    ensures EncodedScalar(n) == [a, b]
  {
    var x, y := a as nat - 0xC0, b as nat - 0x80;
    n := x * 0x40 + y;
    assert n / 0x40 == x && n % 0x40 == y;
  }

  lemma ThreeOctets(a: Byte, b: Byte, c: Byte) returns (n: Scalar)
    requires '\U{E0}' <= a <= '\U{EF}' && Continuation(b) && Continuation(c)
    requires (a == '\U{E0}' ==> b >= '\U{A0}') && (a == '\U{ED}' ==> b <= '\U{9F}')
    ensures EncodedScalar(n) == [a, b, c]
  {
    var x, y, z := a as nat - 0xE0, b as nat - 0x80, c as nat - 0x80;
    n := x * 0x1000 + y * 0x40 + z;
    assert n / 0x40 == x * 0x40 + y && n % 0x40 == z;
    assert n / 0x1000 == x && n / 0x40 % 0x40 == y;
  }

  lemma FourOctets(a: Byte, b: Byte, c: Byte, d: Byte) returns (n: Scalar)
    requires '\U{F0}' <= a <= '\U{F4}' && Continuation(b) && Continuation(c) && Continuation(d)
    requires (a == '\U{F0}' ==> b >= '\U{90}') && (a == '\U{F4}' ==> b <= '\U{8F}')
    ensures EncodedScalar(n) == [a, b, c, d]
  {
    var x, y, z, w := a as nat - 0xF0, b as nat - 0x80, c as nat - 0x80, d as nat - 0x80;
    n := x * 0x4_0000 + y * 0x1000 + z * 0x40 + w;
    assert n / 0x40 == x * 0x1000 + y * 0x40 + z && n % 0x40 == w;
    assert n / 0x1000 == x * 0x40 + y && n / 0x40 % 0x40 == z;
    assert n / 0x4_0000 == x && n / 0x1000 % 0x40 == y;
  }

  lemma {:induction false} ValidIsEncoded(s: Text) returns (scalars: seq<Scalar>)
    requires ValidUtf8(s)
    ensures Encoded(scalars) == s
    decreases |s|
  {
    if s == [] {
      scalars := [];
    } else {
      var n := FirstScalar(s);
      var rest := ValidIsEncoded(s[|EncodedScalar(n)|..]);
      scalars := [n] + rest;
      assert scalars[1..] == rest;
      assert s == EncodedScalar(n) + s[|EncodedScalar(n)|..];
    }
  }

  /** A text is valid exactly if it encodes some sequence of scalar values. */
  lemma ValidExactly(s: Text)
    ensures ValidUtf8(s) <==> exists scalars :: Encoded(scalars) == s
  {
    if ValidUtf8(s) {
      var scalars := ValidIsEncoded(s);
    }
    forall scalars | Encoded(scalars) == s
      ensures ValidUtf8(s)
    {
      EncodedIsValid(scalars);
    }
  }
}
