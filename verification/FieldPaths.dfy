/** Field paths: segment lists, their string encoding, and the character-level
    relation attribution tests on the encodings. */
module FieldPaths {
  import opened Numerals

  /** An object key, a list element matched by name, or a positional element. */
  datatype Seg = Key(key: string) | Named(name: string) | Index(i: nat)

  predicate IsSimpleChar(c: char) {
    'A' <= c <= 'Z' || 'a' <= c <= 'z' || '0' <= c <= '9' || c == '_' || c == '-'
  }

  /** simpleFieldKey: a key written after a dot, without quotes. */
  predicate IsSimple(key: string) {
    key != "" && forall i :: 0 <= i < |key| ==> IsSimpleChar(key[i])
  }

  function FieldPathKey(prefix: string, key: string): string {
    if IsSimple(key) then prefix + "." + key else prefix + "[\"" + key + "\"]"
  }

  /** The ASCII letters and digits, the underscore and the hyphen, by their codes. */
  predicate IsPlain(code: int) {
    0x41 <= code <= 0x5A || 0x61 <= code <= 0x7A || 0x30 <= code <= 0x39 || code == 0x5F || code == 0x2D
  }

  /** A key of plain characters follows a dot, any other stands in quotes and brackets. */
  lemma KeySpelled(prefix: string, key: string)
    ensures FieldPathKey(prefix, key) == if key != "" && forall c :: c in key ==> IsPlain(c as int)
                                         then prefix + "." + key else prefix + "[\"" + key + "\"]"
  {
    forall c | c in key ensures IsPlain(c as int) <==> IsSimpleChar(c) {}
    assert forall i :: 0 <= i < |key| ==> key[i] in key;
  }

  function FieldPathNamed(prefix: string, name: string): string {
    prefix + "[name=" + name + "]"
  }

  function FieldPathIndex(prefix: string, i: nat): string {
    prefix + "[" + Itoa(i) + "]"
  }

  function Extend(prefix: string, seg: Seg): string {
    match seg
    case Key(key) => FieldPathKey(prefix, key)
    case Named(name) => FieldPathNamed(prefix, name)
    case Index(i) => FieldPathIndex(prefix, i)
  }

  /** The encoded path, built from the root outwards as the walk builds it. */
  function Encode(path: seq<Seg>): string {
    if path == [] then "" else Extend(Encode(path[..|path| - 1]), path[|path| - 1])
  }

  /** extendsAt: the shorter text starts the longer, which goes on with a segment. */
  predicate ExtendsAt(long: string, short: string) {
    short <= long && |long| > |short| && (long[|short|] == '.' || long[|short|] == '[')
  }

  predicate PathsRelate(a: string, b: string) {
    if a == "" || b == "" then false
    else if a == b then true
    else ExtendsAt(a, b) || ExtendsAt(b, a)
  }

  /* ---------- where the encoding is faithful ---------- */

  predicate IsBoundary(c: char) {
    c == '.' || c == '['
  }

  /** At i the name closes its bracket early and what follows reads as a segment. */
  predicate NameCloses(name: string, i: nat) {
    i + 1 < |name| && name[i] == ']' && IsBoundary(name[i + 1])
  }

  /** The same for a quoted key; what precedes i is then a quoted key itself. */
  predicate KeyCloses(key: string, i: nat) {
    i + 2 < |key| && key[i] == '\"' && key[i + 1] == ']' && IsBoundary(key[i + 2]) && !IsSimple(key[..i])
  }

  /** A segment no reader of the encoding can mistake for a longer path. */
  ghost predicate SafeSeg(seg: Seg) {
    match seg
    case Key(key) => IsSimple(key) || forall i: nat :: !KeyCloses(key, i)
    case Named(name) => forall i: nat :: !NameCloses(name, i)
    case Index(_) => true
  }

  ghost predicate SafePath(path: seq<Seg>) {
    forall i :: 0 <= i < |path| ==> SafeSeg(path[i])
  }

  /** What one segment contributes to an encoding. */
  function Piece(seg: Seg): string {
    Extend("", seg)
  }

  lemma Regroup(a: string, b: string, c: string)
    ensures (a + b) + c == a + (b + c)
  {
  }

  lemma ExtendPiece(prefix: string, seg: Seg)
    ensures Extend(prefix, seg) == prefix + Piece(seg)
  {
    match seg
    case Key(key) =>
      if IsSimple(key) {
        Regroup(prefix, ".", key);
      } else {
        Regroup(prefix, "[\"", key);
        Regroup(prefix, "[\"" + key, "\"]");
      }
    case Named(name) =>
      Regroup(prefix, "[name=", name);
      Regroup(prefix, "[name=" + name, "]");
    case Index(i) =>
      Regroup(prefix, "[", Itoa(i));
      Regroup(prefix, "[" + Itoa(i), "]");
  }

  lemma EncodeBack(path: seq<Seg>)
    requires path != []
    ensures Encode(path) == Encode(path[..|path| - 1]) + Piece(path[|path| - 1])
  {
    ExtendPiece(Encode(path[..|path| - 1]), path[|path| - 1]);
  }

  lemma {:induction false} EncodeFront(path: seq<Seg>)
    requires path != []
    ensures Encode(path) == Piece(path[0]) + Encode(path[1..])
  {
    var n := |path| - 1;
    var rest := path[1..];
    EncodeBack(path);
    if n == 0 {
      assert path[..0] == [] && rest == [];
    } else {
      EncodeFront(path[..n]);
      EncodeBack(rest);
      assert path[..n][1..] == rest[..n - 1];
      Regroup(Piece(path[0]), Encode(rest[..n - 1]), Piece(path[n]));
    }
  }

  lemma {:induction false} EncodeConcat(a: seq<Seg>, b: seq<Seg>)
    ensures Encode(a + b) == Encode(a) + Encode(b)
    decreases |b|
  {
    if b == [] {
      assert a + b == a;
    } else {
      var n := |b| - 1;
      EncodeConcat(a, b[..n]);
      EncodeBack(a + b);
      EncodeBack(b);
      assert (a + b)[..|a + b| - 1] == a + b[..n];
      Regroup(Encode(a), Encode(b[..n]), Piece(b[n]));
    }
  }

  lemma PieceShape(seg: Seg)
    ensures |Piece(seg)| >= 2 && IsBoundary(Piece(seg)[0])
  {
  }

  lemma EncodeShape(path: seq<Seg>)
    ensures path == [] <==> Encode(path) == ""
    ensures path != [] ==> IsBoundary(Encode(path)[0])
  {
    if path != [] {
      EncodeFront(path);
      PieceShape(path[0]);
    }
  }

  /** a ends, inside b, where b ends or another segment starts. */
  predicate BoundaryPrefix(a: string, b: string) {
    a <= b && (|a| == |b| || IsBoundary(b[|a|]))
  }

  lemma RelateIsBoundaryPrefix(a: string, b: string)
    ensures PathsRelate(a, b) <==> a != "" && b != "" && (BoundaryPrefix(a, b) || BoundaryPrefix(b, a))
  {
    if a <= b && |a| == |b| { assert a == b; }
    if b <= a && |a| == |b| { assert a == b; }
  }

  /** Two texts between the same delimiters, one a prefix of the other: the longer text
      continues with the closing delimiter. */
  lemma Overlap(open: string, n: string, m: string, close: string)
    requires open + n + close <= open + m + close && |n| < |m|
    ensures m[..|n|] == n
    ensures forall k :: 0 <= k < |close| && |n| + k < |m| ==> m[|n| + k] == close[k]
    ensures forall k :: |m| <= |n| + k < |m| + |close| && 0 <= k < |close| ==> close[|n| + k - |m|] == close[k]
    ensures |n| + |close| < |m| ==> (open + m + close)[|open| + |n| + |close|] == m[|n| + |close|]
    ensures |m| <= |n| + |close| ==> (open + m + close)[|open| + |n| + |close|] == close[|n| + |close| - |m|]
  {
    var x, y := open + n + close, open + m + close;
    assert forall i :: 0 <= i < |x| ==> x[i] == y[i];
    assert forall i :: 0 <= i < |n| ==> x[|open| + i] == n[i];
    assert forall i :: 0 <= i < |m| ==> y[|open| + i] == m[i];
    assert forall k :: 0 <= k < |close| ==> x[|open| + |n| + k] == close[k];
    assert forall k :: 0 <= k < |close| ==> y[|open| + |m| + k] == close[k];
    forall i | 0 <= i < |n| ensures m[i] == n[i] {
      assert x[|open| + i] == y[|open| + i];
    }
    forall k | 0 <= k < |close| && |n| + k < |m| ensures m[|n| + k] == close[k] {
      assert x[|open| + |n| + k] == y[|open| + (|n| + k)];
    }
    forall k | |m| <= |n| + k < |m| + |close| && 0 <= k < |close| ensures close[|n| + k - |m|] == close[k] {
      assert x[|open| + |n| + k] == y[|open| + |m| + (|n| + k - |m|)];
    }
  }

  lemma NamedPieces(n: string, m: string)
    requires Piece(Named(n)) <= Piece(Named(m)) && |n| < |m| && IsBoundary(Piece(Named(m))[|Piece(Named(n))|])
    ensures NameCloses(m, |n|)
  {
    assert Piece(Named(n)) == "[name=" + n + "]" && Piece(Named(m)) == "[name=" + m + "]";
    Overlap("[name=", n, m, "]");
    assert m[|n| + 0] == "]"[0];
  }

  lemma QuotedPieces(n: string, m: string)
    requires !IsSimple(n) && !IsSimple(m)
    requires Piece(Key(n)) <= Piece(Key(m)) && |n| < |m| && IsBoundary(Piece(Key(m))[|Piece(Key(n))|])
    ensures KeyCloses(m, |n|)
  {
    assert Piece(Key(n)) == "[\"" + n + "\"]" && Piece(Key(m)) == "[\"" + m + "\"]";
    Overlap("[\"", n, m, "\"]");
    assert |n| + 1 < |m|;
    assert m[|n| + 0] == "\"]"[0] && m[|n| + 1] == "\"]"[1];
  }

  /** No safe segment's text starts with another segment followed by a boundary. */
  lemma NoInnerBoundary(s: Seg, t: Seg)
    requires SafeSeg(t) && Piece(s) <= Piece(t) && |Piece(s)| < |Piece(t)|
    ensures !IsBoundary(Piece(t)[|Piece(s)|])
  {
    var x, y := Piece(s), Piece(t);
    PieceShape(s);
    assert x[0] == y[0] && x[1] == y[1];
    match t {
      case Key(m) =>
        if IsSimple(m) {
          assert y == "." + m && y[|x|] == m[|x| - 1];
        } else {
          assert y[1] == '\"';
          assert s.Key? && !IsSimple(s.key);
          if IsBoundary(y[|x|]) { QuotedPieces(s.key, m); }
        }
      case Named(m) =>
        assert y[1] == 'n';
        assert s.Named?;
        if IsBoundary(y[|x|]) { NamedPieces(s.name, m); }
      case Index(i) =>
        assert y == "[" + Itoa(i) + "]";
        if |x| - 1 < |Itoa(i)| { assert y[|x|] == Itoa(i)[|x| - 1]; }
    }
  }

  lemma PieceInjective(s: Seg, t: Seg)
    requires Piece(s) == Piece(t)
    ensures s == t
  {
    var x, y := Piece(s), Piece(t);
    PieceShape(s);
    assert x[0] == y[0] && x[1] == y[1];
    if s.Key? && IsSimple(s.key) {
      assert s.key == x[1..] && t.key == y[1..];
    } else if s.Key? {
      assert s.key == x[2..|x| - 2] && t.key == y[2..|y| - 2];
    } else if s.Named? {
      assert s.name == x[6..|x| - 1] && t.name == y[6..|y| - 1];
    } else {
      assert Itoa(s.i) == x[1..|x| - 1] && Itoa(t.i) == y[1..|y| - 1];
      ItoaInjective(s.i, t.i);
    }
  }

  /** Two texts that start one string, each followed there by a boundary or its end. */
  lemma PiecesAgree(s: Seg, t: Seg, z: string)
    requires SafeSeg(s) && SafeSeg(t)
    requires BoundaryPrefix(Piece(s), z) && BoundaryPrefix(Piece(t), z)
    ensures s == t
  {
    var x, y := Piece(s), Piece(t);
    if |x| < |y| {
      assert y[..|x|] == z[..|x|] == x && y[|x|] == z[|x|];
      NoInnerBoundary(s, t);
    } else if |y| < |x| {
      assert x[..|y|] == z[..|y|] == y && x[|y|] == z[|y|];
      NoInnerBoundary(t, s);
    } else {
      assert x == z[..|x|] == z[..|y|] == y;
      PieceInjective(s, t);
    }
  }

  lemma HeadIsBoundaryPrefix(x: string, rest: string, z: string)
    requires BoundaryPrefix(x + rest, z) && (rest == "" || IsBoundary(rest[0]))
    ensures BoundaryPrefix(x, z)
  {
    assert x <= z by { assert z[..|x|] == (x + rest)[..|x|] == x; }
    if rest == "" {
      assert x + rest == x;
    } else {
      assert z[|x|] == (x + rest)[|x|] == rest[0];
    }
  }

  lemma TailIsBoundaryPrefix(x: string, a: string, b: string)
    requires BoundaryPrefix(x + a, x + b)
    ensures BoundaryPrefix(a, b)
  {
    assert a <= b by {
      assert a == (x + a)[|x|..] && b == (x + b)[|x|..];
      assert |a| <= |b|;
      forall i | 0 <= i < |a| ensures a[i] == b[i] {
        assert (x + a)[|x| + i] == (x + b)[|x| + i];
      }
    }
    if |a| < |b| { assert (x + b)[|x + a|] == b[|a|]; }
  }

  /** The first segments of two related encodings coincide. */
  lemma FirstSegmentsAgree(p: seq<Seg>, q: seq<Seg>)
    requires p != [] && q != [] && SafePath(p) && SafePath(q)
    requires BoundaryPrefix(Encode(q), Encode(p))
    ensures p[0] == q[0] && BoundaryPrefix(Encode(q[1..]), Encode(p[1..]))
  {
    EncodeFront(p);
    EncodeFront(q);
    EncodeShape(p[1..]);
    EncodeShape(q[1..]);
    HeadIsBoundaryPrefix(Piece(q[0]), Encode(q[1..]), Encode(p));
    assert BoundaryPrefix(Encode(p), Encode(p));
    HeadIsBoundaryPrefix(Piece(p[0]), Encode(p[1..]), Encode(p));
    PiecesAgree(q[0], p[0], Encode(p));
    TailIsBoundaryPrefix(Piece(p[0]), Encode(q[1..]), Encode(p[1..]));
  }

  /** On safe paths a boundary-aware string prefix is a segment prefix. */
  lemma {:induction false} PrefixFaithful(q: seq<Seg>, p: seq<Seg>)
    requires SafePath(p) && SafePath(q)
    ensures BoundaryPrefix(Encode(q), Encode(p)) <==> q <= p
    decreases |q|
  {
    if q <= p {
      var rest := p[|q|..];
      assert p == q + rest;
      EncodeConcat(q, rest);
      EncodeShape(rest);
    } else {
      EncodeShape(p);
      EncodeShape(q);
      if BoundaryPrefix(Encode(q), Encode(p)) {
        FirstSegmentsAgree(p, q);
        PrefixFaithful(q[1..], p[1..]);
        assert false;
      }
    }
  }

  /** The encoding is injective on safe paths. */
  lemma EncodeInjective(p: seq<Seg>, q: seq<Seg>)
    requires SafePath(p) && SafePath(q) && Encode(p) == Encode(q)
    ensures p == q
  {
    PrefixFaithful(p, q);
    PrefixFaithful(q, p);
  }

  /** The character test on encodings decides containment of the paths. */
  lemma RelateFaithful(p: seq<Seg>, q: seq<Seg>)
    requires SafePath(p) && SafePath(q) && p != [] && q != []
    ensures PathsRelate(Encode(p), Encode(q)) <==> p <= q || q <= p
  {
    RelateIsBoundaryPrefix(Encode(p), Encode(q));
    EncodeShape(p);
    EncodeShape(q);
    PrefixFaithful(p, q);
    PrefixFaithful(q, p);
  }

  /* ---------- and only there ---------- */

  lemma FirstNameClose(name: string, i: nat) returns (first: nat)
    requires NameCloses(name, i)
    ensures NameCloses(name, first) && SafeSeg(Named(name[..first]))
    decreases i
  {
    if j: nat :| NameCloses(name[..i], j) {
      first := FirstNameClose(name, j);
    } else {
      first := i;
    }
  }

  lemma FirstKeyClose(key: string, i: nat) returns (first: nat)
    requires KeyCloses(key, i)
    ensures KeyCloses(key, first) && SafeSeg(Key(key[..first]))
    decreases i
  {
    if j: nat :| KeyCloses(key[..i], j) {
      assert key[..i][..j] == key[..j];
      first := FirstKeyClose(key, j);
    } else {
      first := i;
    }
  }

  lemma Underlap(open: string, m: string, i: nat, close: string)
    requires i + |close| < |m| && m[i..i + |close|] == close
    ensures open + m[..i] + close <= open + m + close
    ensures (open + m + close)[|open + m[..i] + close|] == m[i + |close|]
  {
    var x, y := open + m[..i] + close, open + m + close;
    assert y == open + (m + close) && m == m[..i] + m[i..i + |close|] + m[i + |close|..];
    forall k | 0 <= k < |x| ensures x[k] == y[k] {
      if k >= |open| + i { assert m[i..i + |close|][k - |open| - i] == m[k - |open|]; }
    }
    assert y[..|x|] == x;
  }

  lemma NamedOverlap(name: string, i: nat)
    requires NameCloses(name, i)
    ensures ExtendsAt(Piece(Named(name)), Piece(Named(name[..i])))
  {
    Underlap("[name=", name, i, "]");
  }

  lemma QuotedOverlap(key: string, i: nat)
    requires KeyCloses(key, i) && !IsSimple(key)
    ensures ExtendsAt(Piece(Key(key)), Piece(Key(key[..i])))
  {
    Underlap("[\"", key, i, "\"]");
  }

  /** An unsafe segment's text starts with a safe segment's, at a boundary. */
  lemma UnsafeInner(seg: Seg) returns (inner: Seg)
    requires !SafeSeg(seg)
    ensures SafeSeg(inner) && inner != seg && ExtendsAt(Piece(seg), Piece(inner))
  {
    if seg.Key? {
      var i: nat :| KeyCloses(seg.key, i);
      var first := FirstKeyClose(seg.key, i);
      inner := Key(seg.key[..first]);
      QuotedOverlap(seg.key, first);
    } else {
      var i: nat :| NameCloses(seg.name, i);
      var first := FirstNameClose(seg.name, i);
      inner := Named(seg.name[..first]);
      NamedOverlap(seg.name, first);
    }
  }

  lemma ExtendsWithin(front: string, a: string, b: string, rest: string)
    requires ExtendsAt(a, b)
    ensures ExtendsAt(front + (a + rest), front + b)
  {
    var x, y := front + (a + rest), front + b;
    assert x[..|y|] == front + a[..|b|];
    assert x[|y|] == a[|b|];
  }

  lemma EncodeAt(path: seq<Seg>, k: nat)
    requires k < |path|
    ensures Encode(path) == Encode(path[..k]) + (Piece(path[k]) + Encode(path[k + 1..]))
  {
    var rest := path[k..];
    assert path == path[..k] + rest && rest[1..] == path[k + 1..] && rest[0] == path[k];
    EncodeConcat(path[..k], rest);
    EncodeFront(rest);
  }

  lemma {:induction false} FirstUnsafe(path: seq<Seg>) returns (k: nat)
    requires !SafePath(path)
    ensures k < |path| && !SafeSeg(path[k]) && SafePath(path[..k])
    decreases |path|
  {
    var front := path[..|path| - 1];
    if !SafePath(front) {
      k := FirstUnsafe(front);
      assert front[..k] == path[..k];
    } else {
      k := |path| - 1;
    }
  }

  /** An unsafe path is related, as a string, to a safe path that neither contains it nor
      is contained in it. */
  lemma UnsafeMisleads(p: seq<Seg>) returns (q: seq<Seg>)
    requires !SafePath(p)
    ensures q != [] && SafePath(q) && !(q <= p) && !(p <= q)
    ensures PathsRelate(Encode(p), Encode(q))
  {
    var k := FirstUnsafe(p);
    var inner := UnsafeInner(p[k]);
    q := p[..k] + [inner];
    EncodeAt(p, k);
    EncodeAt(q, k);
    assert q[..k] == p[..k] && q[k + 1..] == [];
    assert Piece(inner) + "" == Piece(inner);
    ExtendsWithin(Encode(p[..k]), Piece(p[k]), Piece(inner), Encode(p[k + 1..]));
    PieceShape(inner);
    assert q[k] != p[k];
  }

  /** The condition is exact: a path is safe if and only if the character test relates it
      to precisely the safe paths that contain it or that it contains. */
  lemma SafeIffFaithful(p: seq<Seg>)
    requires p != []
    ensures SafePath(p) <==>
              forall q :: q != [] && SafePath(q) ==>
                (PathsRelate(Encode(p), Encode(q)) <==> p <= q || q <= p)
  {
    if SafePath(p) {
      forall q | q != [] && SafePath(q) ensures PathsRelate(Encode(p), Encode(q)) <==> p <= q || q <= p {
        RelateFaithful(p, q);
      }
    } else {
      var q := UnsafeMisleads(p);
    }
  }
}
