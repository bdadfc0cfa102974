/** The closed set of rules a log line is read against: substrings and fields, no patterns. */
module Rules {
  import opened Prelude

  type Text = seq<byte>

  /** A decoded line: text leaves, objects, and everything a field test cannot read. */
  datatype Doc = Leaf(text: Text) | Node(fields: map<Text, Doc>) | Other

  const DOT: byte := 46

  ghost predicate Occurs(text: Text, needle: Text) {
    exists i: nat :: OccursAt(text, needle, i)
  }

  predicate OccursAt(text: Text, needle: Text, i: nat) {
    i + |needle| <= |text| && text[i..i + |needle|] == needle
  }

  /** strings.Contains, as a search. */
  method Search(text: Text, needle: Text) returns (found: bool)
    ensures found == Occurs(text, needle)
  {
    var i: nat := 0;
    while i + |needle| <= |text|
      invariant forall j: nat :: j < i ==> !OccursAt(text, needle, j)
    {
      if text[i..i + |needle|] == needle {
        assert OccursAt(text, needle, i);
        return true;
      }
      i := i + 1;
    }
    return false;
  }

  /** strings.Split at dots: there is always a first segment. */
  function Segments(path: Text, segment: Text): (s: seq<Text>)
    ensures s != []
    decreases |path|
  {
    if path == [] then [segment]
    else if path[0] == DOT then [segment] + Segments(path[1..], [])
    else Segments(path[1..], segment + [path[0]])
  }

  /** Splitting loses nothing: the segments joined by dots are the path. */
  function Dotted(segments: seq<Text>): Text
    requires segments != []
  {
    if |segments| == 1 then segments[0] else segments[0] + [DOT] + Dotted(segments[1..])
  }

  lemma {:induction false} SplitJoins(path: Text, segment: Text)
    requires DOT !in segment
    ensures Dotted(Segments(path, segment)) == segment + path
    ensures forall i :: 0 <= i < |Segments(path, segment)| ==> DOT !in Segments(path, segment)[i]
    decreases |path|
  {
    if path == [] {
      assert segment + path == segment;
    } else if path[0] == DOT {
      SplitJoins(path[1..], []);
      var rest := Segments(path[1..], []);
      assert ([segment] + rest)[1..] == rest;
      assert [] + path[1..] == path[1..];
      assert segment + [DOT] + path[1..] == segment + path;
    } else {
      SplitJoins(path[1..], segment + [path[0]]);
      assert (segment + [path[0]]) + path[1..] == segment + path;
    }
  }

  function Walk(doc: Doc, segments: seq<Text>): Option<Text>
    decreases |segments|
  {
    if segments == [] then (if doc.Leaf? then Some(doc.text) else None)
    else if doc.Node? && segments[0] in doc.fields then Walk(doc.fields[segments[0]], segments[1..])
    else None
  }

  /** fieldValue. */
  function FieldValue(doc: Option<map<Text, Doc>>, path: Text): Option<Text> {
    if doc.None? || path == [] then None else Walk(Node(doc.value), Segments(path, []))
  }

  /** Each document is the field of the one before that the segment between them names. */
  ghost predicate Chain(docs: seq<Doc>, segments: seq<Text>) {
    && |docs| == |segments| + 1
    && forall i :: 0 <= i < |segments| ==>
         docs[i].Node? && segments[i] in docs[i].fields && docs[i + 1] == docs[i].fields[segments[i]]
  }

  ghost predicate Reaches(doc: Doc, segments: seq<Text>, text: Text) {
    exists docs :: Chain(docs, segments) && docs[0] == doc && docs[|segments|] == Leaf(text)
  }

  lemma ReachesNext(doc: Doc, segments: seq<Text>, text: Text)
    requires segments != [] && Reaches(doc, segments, text)
    ensures doc.Node? && segments[0] in doc.fields && Reaches(doc.fields[segments[0]], segments[1..], text)
  {
    var docs :| Chain(docs, segments) && docs[0] == doc && docs[|segments|] == Leaf(text);
    var rest := docs[1..];
    assert Chain(rest, segments[1..]) && rest[0] == docs[1] && rest[|segments[1..]|] == Leaf(text);
  }

  lemma ReachesFrom(doc: Doc, segments: seq<Text>, text: Text)
    requires segments != [] && doc.Node? && segments[0] in doc.fields
    requires Reaches(doc.fields[segments[0]], segments[1..], text)
    ensures Reaches(doc, segments, text)
  {
    var rest := segments[1..];
    var docs :| Chain(docs, rest) && docs[0] == doc.fields[segments[0]] && docs[|rest|] == Leaf(text);
    var all := [doc] + docs;
    assert Chain(all, segments) && all[0] == doc && all[|segments|] == Leaf(text);
  }

  lemma {:induction false} WalkReaches(doc: Doc, segments: seq<Text>, text: Text)
    ensures Walk(doc, segments) == Some(text) <==> Reaches(doc, segments, text)
    decreases |segments|
  {
    if segments == [] {
      assert Chain([doc], []);
    } else {
      if Reaches(doc, segments, text) { ReachesNext(doc, segments, text); }
      if doc.Node? && segments[0] in doc.fields {
        WalkReaches(doc.fields[segments[0]], segments[1..], text);
        if Walk(doc, segments) == Some(text) { ReachesFrom(doc, segments, text); }
      }
    }
  }

  /** Joining and splitting gives back the segments, where none holds a dot. */
  lemma {:induction false} JoinSplits(segments: seq<Text>)
    requires segments != [] && forall i :: 0 <= i < |segments| ==> DOT !in segments[i]
    ensures Segments(Dotted(segments), []) == segments
    decreases |segments|
  {
    assert [] + segments[0] == segments[0];
    if |segments| == 1 {
      assert segments[0] + [] == segments[0];
      SegmentRun(segments[0], [], []);
    } else {
      var rest := Dotted(segments[1..]);
      JoinSplits(segments[1..]);
      assert Dotted(segments) == segments[0] + ([DOT] + rest);
      SegmentRun(segments[0], [DOT] + rest, []);
      assert ([DOT] + rest)[1..] == rest;
    }
  }

  lemma {:induction false} SegmentRun(run: Text, rest: Text, segment: Text)
    requires DOT !in run
    ensures Segments(run + rest, segment) == Segments(rest, segment + run)
    decreases |run|
  {
    if run == [] {
      assert run + rest == rest && segment + run == segment;
    } else {
      assert (run + rest)[1..] == run[1..] + rest;
      assert (segment + [run[0]]) + run[1..] == segment + run;
      SegmentRun(run[1..], rest, segment + [run[0]]);
    }
  }

  /** A field is read exactly when its dotted path leads, object by object, to a text; a line
      that did not decode and an empty path have none. */
  lemma FieldReads(doc: map<Text, Doc>, segments: seq<Text>, text: Text)
    requires segments != [] && forall i :: 0 <= i < |segments| ==> DOT !in segments[i]
    ensures var path := Dotted(segments);
            && FieldValue(None, path) == None && FieldValue(Some(doc), []) == None
            && (path != [] ==> (FieldValue(Some(doc), path) == Some(text) <==> Reaches(Node(doc), segments, text)))
  {
    JoinSplits(segments);
    WalkReaches(Node(doc), segments, text);
  }

  datatype FieldTest = FieldTest(path: Text, equals: Text, contains: Text)

  predicate WellPosed(t: FieldTest) { t.path != [] && (t.equals == []) != (t.contains == []) }

  ghost predicate Holds(t: FieldTest, doc: Option<map<Text, Doc>>) {
    var value := FieldValue(doc, t.path);
    WellPosed(t) && value.Some? && (if t.equals != [] then value.value == t.equals else Occurs(value.value, t.contains))
  }

  method TestField(t: FieldTest, doc: Option<map<Text, Doc>>) returns (holds: bool)
    ensures holds == Holds(t, doc)
  {
    if !WellPosed(t) { return false; }
    var value := FieldValue(doc, t.path);
    if value.None? { return false; }
    if t.equals != [] { return value.value == t.equals; }
    holds := Search(value.value, t.contains);
  }

  datatype Rule = Rule(id: string, contains: seq<Text>, except: seq<Text>, fields: seq<FieldTest>)

  ghost predicate Matches(r: Rule, text: Text, doc: Option<map<Text, Doc>>) {
    && (r.contains != [] || r.fields != [])
    && (forall i :: 0 <= i < |r.contains| ==> Occurs(text, r.contains[i]))
    && (forall i :: 0 <= i < |r.fields| ==> Holds(r.fields[i], doc))
    && (forall i :: 0 <= i < |r.except| ==> !Occurs(text, r.except[i]))
  }

  /** matches, with its loops and early exits. */
  method MatchRule(r: Rule, text: Text, doc: Option<map<Text, Doc>>) returns (hit: bool)
    ensures hit == Matches(r, text, doc)
  {
    if |r.contains| == 0 && |r.fields| == 0 { return false; }
    for i := 0 to |r.contains|
      invariant forall j :: 0 <= j < i ==> Occurs(text, r.contains[j])
    {
      var found := Search(text, r.contains[i]);
      if !found { return false; }
    }
    for i := 0 to |r.fields|
      invariant forall j :: 0 <= j < i ==> Holds(r.fields[j], doc)
    {
      var holds := TestField(r.fields[i], doc);
      if !holds { return false; }
    }
    for i := 0 to |r.except|
      invariant forall j :: 0 <= j < i ==> !Occurs(text, r.except[j])
    {
      var benign := Search(text, r.except[i]);
      if benign { return false; }
    }
    return true;
  }

  /** The rules that match, in the order of the set. */
  ghost function Hits(rules: seq<Rule>, text: Text, doc: Option<map<Text, Doc>>): seq<string> {
    if rules == [] then []
    else
      var n := |rules| - 1;
      Hits(rules[..n], text, doc) + (if Matches(rules[n], text, doc) then [rules[n].id] else [])
  }

  predicate Structured(rules: seq<Rule>) {
    exists i :: 0 <= i < |rules| && rules[i].fields != []
  }

  /** Decoding only for a set that reads fields changes nothing: no rule of another set looks. */
  lemma {:induction false} DecodingNeededOnly(rules: seq<Rule>, text: Text, doc: Option<map<Text, Doc>>)
    requires !Structured(rules)
    ensures Hits(rules, text, None) == Hits(rules, text, doc)
    decreases |rules|
  {
    if rules != [] {
      var n := |rules| - 1;
      assert rules[n].fields == [];
      assert !Structured(rules[..n]) by { assert forall i :: 0 <= i < n ==> rules[..n][i] == rules[i]; }
      DecodingNeededOnly(rules[..n], text, doc);
    }
  }

  lemma HitsNext(rules: seq<Rule>, i: nat, text: Text, doc: Option<map<Text, Doc>>)
    requires i < |rules|
    ensures Hits(rules[..i + 1], text, doc)
            == if Matches(rules[i], text, doc) then Hits(rules[..i], text, doc) + [rules[i].id]
              else Hits(rules[..i], text, doc)
  {
    assert rules[..i + 1][..i] == rules[..i];
    assert Hits(rules[..i], text, doc) + [] == Hits(rules[..i], text, doc);
  }
}
