/** Bounded rendering of a value: its encoded text, cut at a byte length without breaking
    a character. */
module Rendering {
  import opened Prelude
  import opened Json

  const MAX_VALUE_LEN := 256
  const ELLIPSIS: seq<byte> := [0xE2, 0x80, 0xA6]

  predicate Tail(b: byte) { 0x80 <= b <= 0xBF }

  /** The length of the well-formed character a text starts with, zero if there is none
      (table 3-7 of the Unicode Standard, section 4 of RFC 3629). */
  function CharLen(s: seq<byte>): (n: nat)
    ensures n <= |s| && n <= 4
  {
    if s == [] then 0
    else if s[0] <= 0x7F then 1
    else if |s| >= 2 && 0xC2 <= s[0] <= 0xDF && Tail(s[1]) then 2
    else if |s| >= 3 && SecondOfThree(s[0], s[1]) && Tail(s[2]) then 3
    else if |s| >= 4 && SecondOfFour(s[0], s[1]) && Tail(s[2]) && Tail(s[3]) then 4
    else 0
  }

  predicate SecondOfThree(a: byte, b: byte) {
    if a == 0xE0 then 0xA0 <= b <= 0xBF
    else if a == 0xED then 0x80 <= b <= 0x9F
    else 0xE1 <= a <= 0xEF && Tail(b)
  }

  predicate SecondOfFour(a: byte, b: byte) {
    if a == 0xF0 then 0x90 <= b <= 0xBF
    else if a == 0xF4 then 0x80 <= b <= 0x8F
    else 0xF1 <= a <= 0xF3 && Tail(b)
  }

  /** utf8.ValidString. */
  predicate Valid(s: seq<byte>)
    decreases |s|
  {
    s == [] || (CharLen(s) > 0 && Valid(s[CharLen(s)..]))
  }

  /* ---------- well-formed means encoded ---------- */

  ghost predicate Scalar(c: nat) { c < 0xD800 || 0xE000 <= c < 0x11_0000 }

  /** The bytes of one Unicode scalar value (section 3 of RFC 3629). */
  ghost function Utf8(c: nat): (s: seq<byte>)
    requires Scalar(c)
    ensures 1 <= |s| <= 4
  {
    if c < 0x80 then [c as byte]
    else if c < 0x800 then [(0xC0 + c / 64) as byte, (0x80 + c % 64) as byte]
    else if c < 0x1_0000 then [(0xE0 + c / 4096) as byte, (0x80 + c / 64 % 64) as byte, (0x80 + c % 64) as byte]
    else [(0xF0 + c / 262144) as byte, (0x80 + c / 4096 % 64) as byte, (0x80 + c / 64 % 64) as byte,
          (0x80 + c % 64) as byte]
  }

  ghost predicate Scalars(cs: seq<nat>) { forall i :: 0 <= i < |cs| ==> Scalar(cs[i]) }

  ghost function Encoded(cs: seq<nat>): seq<byte>
    requires Scalars(cs)
  {
    if cs == [] then [] else Utf8(cs[0]) + Encoded(cs[1..])
  }

  lemma ReadsTwo(c: nat, s: seq<byte>)
    requires 0x80 <= c < 0x800 && |s| >= 2
    requires s[0] as int == 0xC0 + c / 64 && s[1] as int == 0x80 + c % 64
    ensures CharLen(s) == 2
  {
  }

  lemma ReadsThree(c: nat, s: seq<byte>)
    requires 0x800 <= c < 0x1_0000 && Scalar(c) && |s| >= 3
    requires s[0] as int == 0xE0 + c / 4096 && s[1] as int == 0x80 + c / 64 % 64 && s[2] as int == 0x80 + c % 64
    ensures CharLen(s) == 3
  {
    assert c / 64 == c / 4096 * 64 + c / 64 % 64;
    assert SecondOfThree(s[0], s[1]) && Tail(s[2]);
  }

  lemma ReadsFour(c: nat, s: seq<byte>)
    requires 0x1_0000 <= c < 0x11_0000 && |s| >= 4
    requires s[0] as int == 0xF0 + c / 262144 && s[1] as int == 0x80 + c / 4096 % 64
    requires s[2] as int == 0x80 + c / 64 % 64 && s[3] as int == 0x80 + c % 64
    ensures CharLen(s) == 4
  {
    assert c / 4096 == c / 262144 * 64 + c / 4096 % 64;
    assert SecondOfFour(s[0], s[1]) && Tail(s[2]) && Tail(s[3]);
  }

  lemma ReadsEncoded(c: nat, rest: seq<byte>)
    requires Scalar(c)
    ensures CharLen(Utf8(c) + rest) == |Utf8(c)|
  {
    var s := Utf8(c) + rest;
    if c < 0x80 {
    } else if c < 0x800 {
      ReadsTwo(c, s);
    } else if c < 0x1_0000 {
      ReadsThree(c, s);
    } else {
      ReadsFour(c, s);
    }
  }

  /** The value that two, three or four bytes stand for. */
  lemma TwoBytes(a: byte, b: byte) returns (c: nat)
    requires 0xC2 <= a <= 0xDF && Tail(b)
    ensures Scalar(c) && Utf8(c) == [a, b]
  {
    c := (a as int - 0xC0) * 64 + (b as int - 0x80);
  }

  lemma ThreeBytes(a: byte, b: byte, d: byte) returns (c: nat)
    requires SecondOfThree(a, b) && Tail(d)
    ensures Scalar(c) && Utf8(c) == [a, b, d]
  {
    c := (a as int - 0xE0) * 4096 + (b as int - 0x80) * 64 + (d as int - 0x80);
  }

  lemma SixtyFourths(x: nat, y: nat, z: nat, w: nat)
    requires y < 64 && z < 64 && w < 64
    ensures var c := x * 262144 + y * 4096 + z * 64 + w;
            c / 262144 == x && c / 4096 % 64 == y && c / 64 % 64 == z && c % 64 == w
  {
    var c := x * 262144 + y * 4096 + z * 64 + w;
    assert c / 64 == x * 4096 + y * 64 + z;
    assert c / 4096 == x * 64 + y;
  }

  lemma FourBytes(a: byte, b: byte, d: byte, e: byte) returns (c: nat)
    requires SecondOfFour(a, b) && Tail(d) && Tail(e)
    ensures Scalar(c) && Utf8(c) == [a, b, d, e]
  {
    var x, y, z, w := a as int - 0xF0, b as int - 0x80, d as int - 0x80, e as int - 0x80;
    c := x * 262144 + y * 4096 + z * 64 + w;
    SixtyFourths(x, y, z, w);
  }

  lemma ReadsScalar(s: seq<byte>) returns (c: nat)
    requires CharLen(s) > 0
    ensures Scalar(c) && s[..CharLen(s)] == Utf8(c)
  {
    var n := CharLen(s);
    if n == 1 { c := s[0] as int; }
    else if n == 2 { c := TwoBytes(s[0], s[1]); }
    else if n == 3 { c := ThreeBytes(s[0], s[1], s[2]); }
    else { c := FourBytes(s[0], s[1], s[2], s[3]); }
  }

  lemma {:induction false} EncodedValid(cs: seq<nat>)
    requires Scalars(cs)
    ensures Valid(Encoded(cs))
    decreases |cs|
  {
    if cs != [] {
      var s, rest := Encoded(cs), Encoded(cs[1..]);
      EncodedValid(cs[1..]);
      ReadsEncoded(cs[0], rest);
      assert s[CharLen(s)..] == rest;
    }
  }

  lemma ValidStarts(s: seq<byte>) returns (c: nat, rest: seq<byte>)
    requires Valid(s) && s != []
    ensures Scalar(c) && s == Utf8(c) + rest && Valid(rest) && |rest| < |s|
  {
    c := ReadsScalar(s);
    rest := s[CharLen(s)..];
  }

  lemma EncodedNext(c: nat, cs: seq<nat>)
    requires Scalar(c) && Scalars(cs)
    ensures Scalars([c] + cs) && Encoded([c] + cs) == Utf8(c) + Encoded(cs)
  {
    assert ([c] + cs)[1..] == cs;
  }

  lemma {:induction false} ValidEncoded(s: seq<byte>) returns (cs: seq<nat>)
    requires Valid(s)
    ensures Scalars(cs) && s == Encoded(cs)
    decreases |s|
  {
    cs := [];
    if s != [] {
      var c, rest := ValidStarts(s);
      var more := ValidEncoded(rest);
      EncodedNext(c, more);
      cs := [c] + more;
    }
  }

  /** A text is valid exactly when it is the encoding of some scalar values. */
  lemma ValidIff(s: seq<byte>)
    ensures Valid(s) <==> exists cs :: Scalars(cs) && s == Encoded(cs)
  {
    if Valid(s) { var cs := ValidEncoded(s); }
    if cs :| Scalars(cs) && s == Encoded(cs) { EncodedValid(cs); }
  }

  /** A short text is shown whole; a longer one as far as a whole character fits, marked. */
  ghost predicate Renders(text: seq<byte>, rendered: seq<byte>) {
    if |text| <= MAX_VALUE_LEN then rendered == text
    else exists k: nat :: LongestValid(text[..MAX_VALUE_LEN], k) && rendered == text[..k] + ELLIPSIS
  }

  /** renderValue, of an encoded text. */
  method RenderText(text: seq<byte>) returns (rendered: seq<byte>)
    ensures Renders(text, rendered)
    ensures |rendered| <= MAX_VALUE_LEN + |ELLIPSIS|
    ensures Valid(text) ==> Valid(rendered)
    ensures Valid(text) && |text| > MAX_VALUE_LEN ==> |rendered| >= MAX_VALUE_LEN
  {
    if |text| <= MAX_VALUE_LEN { return text; }
    var cut := text[..MAX_VALUE_LEN];
    var k := |cut|;
    while k > 0 && !Valid(cut[..k])
      invariant 0 <= k <= |cut| && forall j :: k < j <= |cut| ==> !Valid(cut[..j])
    {
      k := k - 1;
    }
    assert LongestValid(cut, k);
    assert cut[..k] == text[..k];
    rendered := text[..k] + ELLIPSIS;
    ValidThen(text[..k], ELLIPSIS);
    if Valid(text) {
      var j := CharStart(text, MAX_VALUE_LEN);
      assert cut[..j] == text[..j];
    }
  }

  /** The longest prefix that ends with a whole character. */
  ghost predicate LongestValid(s: seq<byte>, k: nat) {
    k <= |s| && Valid(s[..k]) && forall j :: k < j <= |s| ==> !Valid(s[..j])
  }

  lemma {:induction false} ValidThen(a: seq<byte>, b: seq<byte>)
    requires Valid(a) && Valid(b)
    ensures Valid(a + b)
    decreases |a|
  {
    if a == [] {
      assert a + b == b;
    } else {
      var n := CharLen(a);
      CharLenOf(a, b);
      assert (a + b)[n..] == a[n..] + b;
      ValidThen(a[n..], b);
    }
  }

  lemma CharLenOf(a: seq<byte>, b: seq<byte>)
    requires CharLen(a) > 0
    ensures CharLen(a + b) == CharLen(a)
  {
  }

  /** Within three bytes before any place of a well-formed text a character ends. */
  lemma {:induction false} CharStart(s: seq<byte>, k: nat) returns (j: nat)
    requires Valid(s) && k <= |s|
    ensures j <= k <= j + 3 && Valid(s[..j])
    decreases |s|
  {
    if s == [] || k < CharLen(s) {
      j := 0;
    } else {
      var n := CharLen(s);
      var i := CharStart(s[n..], k - n);
      j := n + i;
      assert s[..j] == s[..n] + s[n..][..i];
      assert s[..n] + s[n..] == s;
      FirstChar(s);
      ValidThen(s[..n], s[n..][..i]);
    }
  }

  lemma FirstChar(s: seq<byte>)
    requires CharLen(s) > 0
    ensures Valid(s[..CharLen(s)])
  {
    var c := s[..CharLen(s)];
    assert CharLen(c) == |c|;
    assert c[|c|..] == [];
  }

  /** renderValue: a value that does not encode renders as nothing. */
  method RenderValue(value: Json, encode: Json -> Option<seq<byte>>) returns (rendered: seq<byte>)
    ensures if encode(value).None? then rendered == [] else Renders(encode(value).value, rendered)
    ensures encode(value).Some? && Valid(encode(value).value) ==> Valid(rendered)
    ensures |rendered| <= MAX_VALUE_LEN + |ELLIPSIS|
  {
    var encoded := encode(value);
    if encoded.None? { return []; }
    rendered := RenderText(encoded.value);
  }
}
