/** What a valid name is: the byte-by-byte check accepts exactly the UTF-8 forms of
    sequences of Unicode scalar values (RFC 3629, section 3). */
module Utf8 {
  import opened Wire
  import opened Format

  predicate Scalar(c: nat) { c < 0xd800 || 0xe000 <= c < 0x11_0000 }

  predicate Scalars(cs: seq<nat>) { forall i :: 0 <= i < |cs| ==> Scalar(cs[i]) }

  /** The shortest form of one scalar value. */
  function Form(c: nat): (r: Bytes)
    requires Scalar(c)
    ensures r != []
  {
    if c < 0x80 then [c]
    else if c < 0x800 then [0xc0 + c / 0x40, 0x80 + c % 0x40]
    else if c < 0x1_0000 then [0xe0 + c / 0x1000, 0x80 + c / 0x40 % 0x40, 0x80 + c % 0x40]
    else [0xf0 + c / 0x4_0000, 0x80 + c / 0x1000 % 0x40, 0x80 + c / 0x40 % 0x40, 0x80 + c % 0x40]
  }

  function Forms(cs: seq<nat>): Bytes
    requires Scalars(cs)
  {
    if cs == [] then [] else Form(cs[0]) + Forms(cs[1..])
  }

  /** The check steps over exactly one form. */
  lemma FormStep(c: nat, rest: Bytes)
    requires Scalar(c)
    ensures Utf8Valid(Form(c) + rest) == Utf8Valid(rest)
  {
    if c < 0x80 {
      assert ([c] + rest)[1..] == rest;
    } else if c < 0x800 {
      Second(0xc0 + c / 0x40, 0x80 + c % 0x40, rest);
    } else if c < 0x1_0000 {
      Third(0xe0 + c / 0x1000, 0x80 + c / 0x40 % 0x40, 0x80 + c % 0x40, rest);
    } else {
      Fourth(0xf0 + c / 0x4_0000, 0x80 + c / 0x1000 % 0x40, 0x80 + c / 0x40 % 0x40, 0x80 + c % 0x40, rest);
    }
  }

  lemma Second(a: byte, x: byte, rest: Bytes)
    requires 0xc2 <= a <= 0xdf && Continuation(x)
    ensures Utf8Valid([a, x] + rest) == Utf8Valid(rest)
  {
    assert ([a, x] + rest)[2..] == rest;
  }

  lemma Third(a: byte, x: byte, y: byte, rest: Bytes)
    requires 0xe0 <= a <= 0xef && Continuation(x) && Continuation(y) && (a == 0xe0 ==> x >= 0xa0) && (a == 0xed ==> x < 0xa0)
    ensures Utf8Valid([a, x, y] + rest) == Utf8Valid(rest)
  {
    assert ([a, x, y] + rest)[3..] == rest;
  }

  lemma Fourth(a: byte, x: byte, y: byte, z: byte, rest: Bytes)
    requires 0xf0 <= a <= 0xf4 && Continuation(x) && Continuation(y) && Continuation(z)
    requires (a == 0xf0 ==> x >= 0x90) && (a == 0xf4 ==> x < 0x90)
    ensures Utf8Valid([a, x, y, z] + rest) == Utf8Valid(rest)
  {
    assert ([a, x, y, z] + rest)[4..] == rest;
  }

  lemma {:induction false} FormsValid(cs: seq<nat>)
    requires Scalars(cs)
    ensures Utf8Valid(Forms(cs))
  {
    hide Form;
    if cs != [] {
      FormStep(cs[0], Forms(cs[1..]));
      FormsValid(cs[1..]);
    }
  }

  /** Digits to base 64 under a head. */
  lemma Base64(a: nat, x: nat, y: nat, z: nat)
    requires x < 0x40 && y < 0x40 && z < 0x40
    ensures var c := a * 0x40 + x; c / 0x40 == a && c % 0x40 == x
    ensures var c := a * 0x1000 + x * 0x40 + y; c / 0x1000 == a && c / 0x40 % 0x40 == x && c % 0x40 == y
    ensures var c := a * 0x4_0000 + x * 0x1000 + y * 0x40 + z;
            c / 0x4_0000 == a && c / 0x1000 % 0x40 == x && c / 0x40 % 0x40 == y && c % 0x40 == z
  {
    var c := a * 0x4_0000 + x * 0x1000 + y * 0x40 + z;
    assert c / 0x40 == a * 0x1000 + x * 0x40 + y;
    assert c / 0x1000 == a * 0x40 + x;
  }

  /** The first scalar value of accepted bytes. */
  lemma FirstForm(s: Bytes) returns (c: nat)
    requires s != [] && Utf8Valid(s)
    ensures Scalar(c) && Form(c) <= s && Utf8Valid(s[|Form(c)|..])
  {
    var a: int := s[0];
    if a < 0x80 {
      c := a;
    } else if a <= 0xdf {
      var x: int := s[1] - 0x80;
      c := (a - 0xc0) * 0x40 + x;
      Base64(a - 0xc0, x, 0, 0);
    } else if a <= 0xef {
      c := ThreeBytes(s);
    } else {
      c := FourBytes(s);
    }
  }

  lemma ThreeBytes(s: Bytes) returns (c: nat)
    requires s != [] && Utf8Valid(s) && 0xe0 <= s[0] <= 0xef
    ensures Scalar(c) && Form(c) <= s && Utf8Valid(s[|Form(c)|..])
  {
    var a: int := s[0];
    var x: int := s[1] - 0x80;
    var y: int := s[2] - 0x80;
    c := (a - 0xe0) * 0x1000 + x * 0x40 + y;
    Base64(a - 0xe0, x, y, 0);
    assert Form(c) == [s[0], s[1], s[2]];
  }

  lemma FourBytes(s: Bytes) returns (c: nat)
    requires s != [] && Utf8Valid(s) && s[0] >= 0xf0
    ensures Scalar(c) && Form(c) <= s && Utf8Valid(s[|Form(c)|..])
  {
    var a: int := s[0];
    var x: int := s[1] - 0x80;
    var y: int := s[2] - 0x80;
    var z: int := s[3] - 0x80;
    c := (a - 0xf0) * 0x4_0000 + x * 0x1000 + y * 0x40 + z;
    Base64(a - 0xf0, x, y, z);
    assert Form(c) == [s[0], s[1], s[2], s[3]];
  }

  lemma {:induction false} ValidForms(s: Bytes) returns (cs: seq<nat>)
    requires Utf8Valid(s)
    ensures Scalars(cs) && Forms(cs) == s
    decreases |s|
  {
    hide Form, Utf8Valid;
    cs := [];
    if s != [] {
      var c := FirstForm(s);
      var rest := ValidForms(s[|Form(c)|..]);
      cs := [c] + rest;
      assert cs[1..] == rest;
      assert s == Form(c) + s[|Form(c)|..];
    }
  }

  /** Bytes are accepted if and only if they spell scalar values. */
  lemma Utf8Iff(s: Bytes)
    ensures Utf8Valid(s) <==> exists cs :: Scalars(cs) && Forms(cs) == s
  {
    hide Forms, Utf8Valid, Scalars;
    if Utf8Valid(s) {
      var cs := ValidForms(s);
    }
    forall cs | Scalars(cs) && Forms(cs) == s ensures Utf8Valid(s) {
      FormsValid(cs);
    }
  }

  /** A name that a producer may use: some scalar values, none of them NUL or a
      semicolon. */
  lemma NameIff(name: Bytes)
    ensures ValidName(name) <==> name != [] && 0 !in name && 0x3b !in name && exists cs :: Scalars(cs) && Forms(cs) == name
  {
    hide Forms, Utf8Valid, Scalars;
    Utf8Iff(name);
  }
}
