/** When the rendering of a list element's key reads as a path of the differ, decided on the
    key itself. */
module Misreadings {
  import opened Prelude
  import opened Lex
  import opened Json
  import opened Numerals
  import opened FieldPaths
  import opened Ownership

  /* ---------- the text between the brackets ---------- */

  /** A numeral as an index is written: no sign, no leading zero. */
  predicate Numeral(s: string) {
    s != "" && Digits(s) && (s[0] != '0' || |s| == 1)
  }

  /** The text starts with an index and ends there, or closes its bracket there before a boundary. */
  predicate IndexEnds(body: string, k: nat) {
    k <= |body| && Numeral(body[..k]) && (k == |body| || NameCloses(body, k))
  }

  /** The text reads as a segment, or as the start of one: it opens as a name does, or with
      a quote, or with an index that ends as one. */
  predicate Misreads(body: string) {
    "name=" <= body || "\"" <= body || exists k: nat :: k <= |body| && IndexEnds(body, k)
  }

  /** What may follow a segment. */
  predicate Continues(rest: string) {
    rest == "" || IsBoundary(rest[0])
  }

  function Bracket(body: string, tail: string): string {
    "[" + body + "]" + tail
  }

  lemma {:induction false} ItoaNumeral(n: nat)
    ensures Numeral(Itoa(n)) && (n > 0 ==> Itoa(n)[0] != '0')
  {
    if n >= 10 { ItoaNumeral(n / 10); }
  }

  lemma {:induction false} NumeralItoa(s: string)
    requires Numeral(s)
    ensures Itoa(Value(s)) == s && (s[0] != '0' ==> Value(s) > 0)
    decreases |s|
  {
    var front, last := s[..|s| - 1], s[|s| - 1];
    assert s == front + [last];
    if front != "" {
      NumeralItoa(front);
    } else {
      assert Value("") == 0;
    }
  }

  /* ---------- a text that misreads ---------- */

  lemma PiecePrefix(seg: Seg, tail: string)
    requires Continues(tail)
    ensures BoundaryPrefix(Piece(seg), Piece(seg) + tail)
  {
  }

  /** Whatever a text starts with as one segment, it starts with as a safe one. */
  lemma SegmentRelates(seg: Seg, tail: string) returns (q: Seg)
    requires Continues(tail)
    ensures SafeSeg(q) && PathsRelate(Piece(seg) + tail, Piece(q))
  {
    PieceShape(seg);
    PiecePrefix(seg, tail);
    if SafeSeg(seg) {
      q := seg;
    } else {
      q := UnsafeInner(seg);
      PieceShape(q);
      InnerPrefix(Piece(q), Piece(seg), tail);
    }
    RelateIsBoundaryPrefix(Piece(q), Piece(seg) + tail);
    RelateIsBoundaryPrefix(Piece(seg) + tail, Piece(q));
  }

  lemma InnerPrefix(inner: string, outer: string, tail: string)
    requires ExtendsAt(outer, inner)
    ensures BoundaryPrefix(inner, outer + tail)
  {
  }

  /** A quote opens a quoted key that no later text can close against the text. */
  lemma QuoteRelates(m: string) returns (q: Seg)
    ensures SafeSeg(q) && PathsRelate("[\"" + m, Piece(q))
  {
    var key := m + ".";
    assert key[|m|] == '.' && !IsSimple(key);
    QuotedText(m);
    if i: nat :| KeyCloses(key, i) {
      var first := FirstKeyClose(key, i);
      q := Key(key[..first]);
      QuotedOverlap(key, first);
      ShorterPrefix(Piece(q), "[\"" + m, Piece(Key(key)));
    } else {
      q := Key(key);
    }
    PieceShape(q);
    RelateIsBoundaryPrefix("[\"" + m, Piece(q));
  }

  lemma QuotedText(m: string)
    ensures ExtendsAt("[\"" + (m + ".") + "\"]", "[\"" + m)
  {
  }

  lemma ShorterPrefix(a: string, b: string, z: string)
    requires BoundaryPrefix(a, z) && b <= z && |a| <= |b|
    ensures BoundaryPrefix(a, b)
  {
  }

  lemma IndexRelates(body: string, k: nat, tail: string) returns (q: Seg)
    requires IndexEnds(body, k) && Continues(tail)
    ensures SafeSeg(q) && PathsRelate(Bracket(body, tail), Piece(q))
  {
    var i := Value(body[..k]);
    NumeralItoa(body[..k]);
    var rest := if k == |body| then tail else body[k + 1..] + "]" + tail;
    assert Piece(Index(i)) == "[" + body[..k] + "]";
    assert Bracket(body, tail) == Piece(Index(i)) + rest by {
      if k < |body| { assert body == body[..k] + "]" + body[k + 1..]; } else { assert body == body[..k]; }
    }
    q := SegmentRelates(Index(i), rest);
  }

  lemma MisreadsRelates(body: string, tail: string) returns (q: Seg)
    requires Misreads(body) && Continues(tail)
    ensures SafeSeg(q) && PathsRelate(Bracket(body, tail), Piece(q))
  {
    if "name=" <= body {
      assert body == "name=" + body[5..];
      assert Bracket(body, tail) == Piece(Named(body[5..])) + tail;
      q := SegmentRelates(Named(body[5..]), tail);
    } else if "\"" <= body {
      assert body == "\"" + body[1..];
      assert Bracket(body, tail) == "[\"" + (body[1..] + "]" + tail);
      q := QuoteRelates(body[1..] + "]" + tail);
    } else {
      var k: nat :| IndexEnds(body, k);
      q := IndexRelates(body, k, tail);
    }
  }

  /* ---------- only such a text ---------- */

  /** A segment meets a text: it starts it at a boundary, or is longer and starts with it. */
  ghost predicate Meets(seg: Seg, text: string) {
    BoundaryPrefix(Piece(seg), text) || text <= Piece(seg)
  }

  lemma FirstMeets(text: string, q: seq<Seg>)
    requires q != [] && PathsRelate(text, Encode(q))
    ensures Meets(q[0], text)
  {
    var x, rest := Piece(q[0]), Encode(q[1..]);
    EncodeFront(q);
    EncodeShape(q[1..]);
    RelateIsBoundaryPrefix(text, Encode(q));
    if BoundaryPrefix(Encode(q), text) {
      HeadIsBoundaryPrefix(x, rest, text);
    } else if |text| < |x| {
      assert text == (x + rest)[..|text|] == x[..|text|];
    } else {
      assert text[..|x|] == (x + rest)[..|x|] == x;
    }
  }

  lemma BracketAt(body: string, tail: string)
    ensures var text := Bracket(body, tail);
            && |text| >= |body| + 2 && text[0] == '[' && text[1 + |body|] == ']'
            && (forall i :: 0 <= i < |body| ==> text[1 + i] == body[i])
            && (tail != "" ==> |text| > |body| + 2 && text[2 + |body|] == tail[0])
  {
  }

  lemma MeetsShared(seg: Seg, text: string, i: nat)
    requires Meets(seg, text) && i < |text| && i < |Piece(seg)|
    ensures text[i] == Piece(seg)[i]
  {
  }

  lemma NamedMeets(name: string, body: string, tail: string)
    requires Meets(Named(name), Bracket(body, tail))
    ensures "name=" <= body
  {
    var text, x := Bracket(body, tail), Piece(Named(name));
    BracketAt(body, tail);
    assert x == "[name=" + name + "]";
    assert forall i :: 0 <= i < 5 ==> x[1 + i] == "name="[i] && x[1 + i] != ']';
    MeetsShared(Named(name), text, if |body| < 5 then 1 + |body| else 0);
    forall i | 0 <= i < 5 ensures body[i] == "name="[i] { MeetsShared(Named(name), text, 1 + i); }
  }

  lemma IndexMeets(n: nat, body: string, tail: string)
    requires Meets(Index(n), Bracket(body, tail)) && Continues(tail)
    ensures IndexEnds(body, |Itoa(n)|)
  {
    var text, x, k := Bracket(body, tail), Piece(Index(n)), |Itoa(n)|;
    BracketAt(body, tail);
    ItoaNumeral(n);
    assert x == "[" + Itoa(n) + "]" && |x| == k + 2;
    assert x[1 + k] == ']' && forall i :: 0 <= i < k ==> x[1 + i] == Itoa(n)[i];
    assert forall i :: 0 < i <= k ==> x[i] != ']';
    MeetsShared(Index(n), text, if |body| < k then 1 + |body| else 0);
    forall i | 0 <= i < k ensures body[i] == Itoa(n)[i] { MeetsShared(Index(n), text, 1 + i); }
    assert body[..k] == Itoa(n);
    if k < |body| {
      MeetsShared(Index(n), text, 1 + k);
      assert |text| > |x|;
    }
  }

  lemma QuotedMeets(key: string, body: string, tail: string)
    requires Meets(Key(key), Bracket(body, tail))
    ensures "\"" <= body
  {
    var text, x := Bracket(body, tail), Piece(Key(key));
    BracketAt(body, tail);
    PieceShape(Key(key));
    MeetsShared(Key(key), text, 0);
    assert x == "[\"" + key + "\"]";
    MeetsShared(Key(key), text, 1);
    assert x[1] == '\"';
  }

  lemma RelatesMisreads(body: string, tail: string, q: seq<Seg>)
    requires q != [] && PathsRelate(Bracket(body, tail), Encode(q)) && Continues(tail)
    ensures Misreads(body)
  {
    FirstMeets(Bracket(body, tail), q);
    match q[0]
    case Named(name) => NamedMeets(name, body, tail);
    case Index(n) => IndexMeets(n, body, tail);
    case Key(key) => QuotedMeets(key, body, tail);
  }

  /* ---------- below a path ---------- */

  lemma PrependRelates(front: string, a: string, b: string)
    requires PathsRelate(a, b)
    ensures PathsRelate(front + a, front + b)
  {
    RelateIsBoundaryPrefix(a, b);
    if BoundaryPrefix(a, b) { PrependPrefix(front, a, b); } else { PrependPrefix(front, b, a); }
    RelateIsBoundaryPrefix(front + a, front + b);
  }

  lemma PrependPrefix(front: string, a: string, b: string)
    requires BoundaryPrefix(a, b)
    ensures BoundaryPrefix(front + a, front + b)
  {
    assert b == a + b[|a|..];
    assert front + b == (front + a) + b[|a|..];
  }

  /** A text below a safe path is related to what contains that path, and otherwise to
      exactly what it is related to below it. */
  lemma RelatesBelow(p: seq<Seg>, text: string, x: seq<Seg>)
    requires SafePath(p) && SafePath(x) && x != [] && text != "" && IsBoundary(text[0])
    ensures PathsRelate(Encode(p) + text, Encode(x))
            <==> x <= p || (p <= x && x != p && PathsRelate(text, Encode(x[|p|..])))
  {
    EncodeShape(x);
    RelateIsBoundaryPrefix(Encode(p) + text, Encode(x));
    if x <= p {
      AboveRelates(p, text, x);
    } else {
      if p <= x && PathsRelate(text, Encode(x[|p|..])) {
        assert x == p + x[|p|..];
        EncodeConcat(p, x[|p|..]);
        PrependRelates(Encode(p), text, Encode(x[|p|..]));
      }
      if PathsRelate(Encode(p) + text, Encode(x)) { RelatedBelow(p, text, x); }
    }
  }

  lemma AboveRelates(p: seq<Seg>, text: string, x: seq<Seg>)
    requires SafePath(p) && SafePath(x) && x != [] && x <= p && text != "" && IsBoundary(text[0])
    ensures PathsRelate(Encode(p) + text, Encode(x))
  {
    EncodeShape(x);
    PrefixFaithful(x, p);
    var e, s := Encode(p), Encode(p) + text;
    assert BoundaryPrefix(Encode(x), s) by {
      assert s[..|e|] == e;
      assert s[|e|] == text[0];
    }
    RelateIsBoundaryPrefix(s, Encode(x));
  }

  lemma RelatedBelow(p: seq<Seg>, text: string, x: seq<Seg>)
    requires SafePath(p) && SafePath(x) && x != [] && !(x <= p) && text != "" && IsBoundary(text[0])
    requires PathsRelate(Encode(p) + text, Encode(x))
    ensures p <= x && PathsRelate(text, Encode(x[|p|..]))
  {
    var e, s, z := Encode(p), Encode(p) + text, Encode(x);
    RelateIsBoundaryPrefix(s, z);
    PrefixFaithful(x, p);
    assert e <= s && s[|e|] == text[0];
    if |z| <= |e| {
      assert BoundaryPrefix(z, s);
      ShorterPrefix(z, e, s);
      assert false;
    }
    assert BoundaryPrefix(e, z) by {
      assert z[..|e|] == s[..|e|] == e && z[|e|] == s[|e|];
    }
    PrefixFaithful(p, x);
    var q := x[|p|..];
    assert x == p + q;
    EncodeConcat(p, q);
    if BoundaryPrefix(s, z) {
      TailIsBoundaryPrefix(e, text, Encode(q));
    } else {
      TailIsBoundaryPrefix(e, Encode(q), text);
    }
    EncodeShape(q);
    RelateIsBoundaryPrefix(text, Encode(q));
  }

  /* ---------- the rendered key ---------- */

  /** A rendered key reads as some safe path of the differ below the same path, whatever is
      claimed below it, if and only if its text misreads. */
  lemma FalseMatchIff(p: seq<Seg>, body: string, tail: string)
    requires SafePath(p) && Continues(tail)
    ensures Misreads(body)
            <==> exists q :: q != [] && SafePath(q) && PathsRelate(Encode(p) + Bracket(body, tail), Encode(p + q))
  {
    if Misreads(body) {
      var seg := MisreadsRelates(body, tail);
      assert [seg][..0] == [] && Encode([seg]) == Piece(seg);
      EncodeConcat(p, [seg]);
      PrependRelates(Encode(p), Bracket(body, tail), Encode([seg]));
      assert SafePath([seg]);
    }
    if q :| q != [] && SafePath(q) && PathsRelate(Encode(p) + Bracket(body, tail), Encode(p + q)) {
      assert SafePath(p + q) by { assert forall i :: 0 <= i < |p + q| ==> SafeSeg((p + q)[i]); }
      RelatesBelow(p, Bracket(body, tail), p + q);
      assert (p + q)[|p|..] == q;
      RelatesMisreads(body, tail, q);
    }
  }

  /** Otherwise a change is related to it exactly when it contains the path above it. */
  lemma UnreadIff(p: seq<Seg>, body: string, tail: string, x: seq<Seg>)
    requires SafePath(p) && Continues(tail) && !Misreads(body) && x != [] && SafePath(x)
    ensures PathsRelate(Encode(p) + Bracket(body, tail), Encode(x)) <==> x <= p
  {
    RelatesBelow(p, Bracket(body, tail), x);
    if p <= x && x != p && PathsRelate(Bracket(body, tail), Encode(x[|p|..])) {
      RelatesMisreads(body, tail, x[|p|..]);
    }
  }

  /* ---------- the guard on the raw key ---------- */

  /** A merge key whose rendering, followed by its value, misreads. */
  predicate Mistakable(key: string) {
    key == "name" || "name=" <= key || "\"" <= key || exists k: nat :: k < |key| && IndexEnds(key, k)
  }

  lemma JoinedMisreads(key: string, rest: string)
    ensures Misreads(key + "=" + rest) <==> Mistakable(key)
  {
    var body := key + "=" + rest;
    assert body[|key|] == '=' && body[..|key|] == key;
    NameOpens(key, rest);
    assert "\"" <= body <==> "\"" <= key by { if key != "" { assert body[0] == key[0]; } }
    forall k: nat ensures IndexEnds(body, k) <==> k < |key| && IndexEnds(key, k) { IndexOpens(key, rest, k); }
  }

  lemma NameOpens(key: string, rest: string)
    ensures "name=" <= key + "=" + rest <==> key == "name" || "name=" <= key
  {
    var body := key + "=" + rest;
    assert body[|key|] == '=' && body[..|key|] == key;
    if "name=" <= body {
      assert body[..5] == "name=";
      assert forall i :: 0 <= i < 4 ==> body[i] == "name="[i] && body[i] != '=';
      if |key| == 4 {
        assert key == body[..4] && body[..4] == body[..5][..4];
      } else {
        assert key[..5] == body[..5];
      }
    }
    if "name=" <= key { assert body[..5] == key[..5]; }
    if key == "name" { assert body[..5] == "name="; }
  }

  lemma IndexOpens(key: string, rest: string, k: nat)
    ensures IndexEnds(key + "=" + rest, k) <==> k < |key| && IndexEnds(key, k)
  {
    var body := key + "=" + rest;
    assert body[|key|] == '=' && body[..|key|] == key;
    if IndexEnds(body, k) {
      assert forall i :: 0 <= i < k ==> body[i] == body[..k][i] && body[i] != '=';
      assert k + 1 < |key|;
      assert body[..k] == key[..k];
    }
    if k < |key| && IndexEnds(key, k) { assert body[..k] == key[..k]; }
  }

  /** The first merge key, in order, whose value has an encoding. */
  function FirstEncoded(fields: map<string, Json>, keys: seq<string>, codec: Codec): (k: Option<string>)
    requires forall i :: 0 <= i < |keys| ==> keys[i] in fields
    ensures k.Some? ==> k.value in keys
  {
    if keys == [] then None
    else
      var n := |keys| - 1;
      var before := FirstEncoded(fields, keys[..n], codec);
      if before.Some? then before else if codec.encode(fields[keys[n]]).Some? then Some(keys[n]) else None
  }

  lemma {:induction false} FirstPart(fields: map<string, Json>, keys: seq<string>, codec: Codec)
    requires forall i :: 0 <= i < |keys| ==> keys[i] in fields
    ensures var k, parts := FirstEncoded(fields, keys, codec), Parts(fields, keys, codec);
            && (k.None? <==> parts == [])
            && (k.Some? ==> exists text :: parts[0] == k.value + "=" + text)
    decreases |keys|
  {
    if keys != [] {
      var n := |keys| - 1;
      FirstPart(fields, keys[..n], codec);
      var before := Parts(fields, keys[..n], codec);
      if before == [] && codec.encode(fields[keys[n]]).Some? {
        assert Parts(fields, keys, codec)[0] == keys[n] + "=" + codec.encode(fields[keys[n]]).value;
      } else if before != [] {
        assert Parts(fields, keys, codec)[0] == before[0];
      }
    }
  }

  /** A key's rendering can be taken for a path: one that is no object when it misreads as
      it stands, any other when its first merge key is mistakable. */
  ghost predicate Misleads(raw: string, codec: Codec) {
    var keys := MergeKeys(raw, codec);
    if keys.None? then Misreads(raw)
    else
      AscendingKeys(keys.value.Keys);
      var k := FirstEncoded(keys.value, Ascending(keys.value.Keys), codec);
      k.Some? && Mistakable(k.value)
  }

  lemma MisleadsIff(raw: string, codec: Codec)
    requires !IsNameOnly(raw, codec)
    ensures Misreads(Body(raw, codec)) <==> Misleads(raw, codec)
  {
    var keys := MergeKeys(raw, codec);
    if keys.Some? {
      AscendingKeys(keys.value.Keys);
      var fields, order := keys.value, Ascending(keys.value.Keys);
      FirstPart(fields, order, codec);
      var k, parts := FirstEncoded(fields, order, codec), Parts(fields, order, codec);
      assert Body(raw, codec) == Join(parts);
      if k.Some? {
        var rest := JoinedFrom(k.value, parts);
        JoinedMisreads(k.value, rest);
      }
    }
  }

  lemma JoinedFrom(key: string, parts: seq<string>) returns (rest: string)
    requires parts != [] && exists text :: parts[0] == key + "=" + text
    ensures Join(parts) == key + "=" + rest
  {
    var text :| parts[0] == key + "=" + text;
    rest := if |parts| == 1 then text else text + "," + Join(parts[1..]);
    Regroup(key + "=", text, ",");
    Regroup(key + "=", text + ",", Join(parts[1..]));
  }

  /** The comment's claim, exactly: a key that is not one textual name can be taken for a path
      of the differ, wherever it stands and whatever is claimed below it, if and only if it
      misleads. */
  lemma FalselyMatchesIff(p: seq<Seg>, raw: string, codec: Codec, tail: string)
    requires SafePath(p) && Continues(tail) && !IsNameOnly(raw, codec)
    ensures Misleads(raw, codec)
            <==> exists q :: q != [] && SafePath(q)
                             && PathsRelate(Encode(p) + (AssociativeSegment(raw, codec) + tail), Encode(p + q))
  {
    MisleadsIff(raw, codec);
    FalseMatchIff(p, Body(raw, codec), tail);
  }

  /** With simple merge keys it misleads exactly when "name" is the first with an encoding. */
  lemma SimpleMisleadsIff(raw: string, codec: Codec)
    requires MergeKeys(raw, codec).Some? && forall k :: k in MergeKeys(raw, codec).value ==> IsSimple(k)
    ensures var keys := MergeKeys(raw, codec).value;
            && (forall i :: 0 <= i < |Ascending(keys.Keys)| ==> Ascending(keys.Keys)[i] in keys)
            && (Misleads(raw, codec) <==> FirstEncoded(keys, Ascending(keys.Keys), codec) == Some("name"))
  {
    var keys := MergeKeys(raw, codec).value;
    AscendingKeys(keys.Keys);
    var k := FirstEncoded(keys, Ascending(keys.Keys), codec);
    if k.Some? { SimpleMistakable(k.value); }
  }

  lemma PrefixAt(a: string, b: string, i: nat)
    requires i < |a|
    ensures a <= b ==> i < |b| && b[i] == a[i]
  {
  }

  lemma SimpleMistakable(key: string)
    requires IsSimple(key)
    ensures Mistakable(key) <==> key == "name"
  {
    PrefixAt("name=", key, 4);
    PrefixAt("\"", key, 0);
    assert forall k: nat :: k < |key| && IndexEnds(key, k) ==> key[k] == ']';
    assert forall i :: 0 <= i < |key| ==> IsSimpleChar(key[i]);
  }

  /* ---------- two keys that mislead ---------- */

  lemma OneNumber(raw: string, key: string, codec: Codec)
    requires codec.decode(raw) == Some(Obj(map[key := Num(5.0)])) && codec.encode(Num(5.0)) == Some("5")
    ensures !IsNameOnly(raw, codec) && AssociativeSegment(raw, codec) == "[" + (key + "=5") + "]"
  {
    var fields := map[key := Num(5.0)];
    assert fields.Keys == {key} && Elements([key]) == {key};
    SortedUnique([key], Ascending(fields.Keys));
    assert [key][..0] == [];
    assert Parts(fields, [key], codec) == [key + "=" + "5"];
    Regroup(key, "=", "5");
  }

  /** The merge key {"name": 5} reads as the element named "5". */
  lemma NumberedName(raw: string, codec: Codec)
    requires codec.decode(raw) == Some(Obj(map["name" := Num(5.0)])) && codec.encode(Num(5.0)) == Some("5")
    ensures !IsNameOnly(raw, codec) && AssociativeSegment(raw, codec) == Encode([Named("5")])
  {
    OneNumber(raw, "name", codec);
    EncodeBack([Named("5")]);
    assert Encode([]) == "" && [Named("5")][..0] == [];
  }

  /** The merge key {"0][name": 5} reads as the element named "5" of the first element. */
  lemma NestedName(raw: string, codec: Codec)
    requires codec.decode(raw) == Some(Obj(map["0][name" := Num(5.0)])) && codec.encode(Num(5.0)) == Some("5")
    ensures !IsNameOnly(raw, codec) && AssociativeSegment(raw, codec) == Encode([Index(0), Named("5")])
  {
    OneNumber(raw, "0][name", codec);
    PairEncodes();
  }

  lemma PairEncodes()
    ensures Encode([Index(0), Named("5")]) == "[0][name=5]"
  {
    var p := [Index(0), Named("5")];
    EncodeBack(p);
    EncodeBack(p[..1]);
    assert p[..1][..0] == [] && Encode([]) == "" && Itoa(0) == "0";
    assert Piece(p[..1][0]) == "[0]" && Piece(p[1]) == "[name=5]";
  }
}
