/** Diff of a retained revision against the previous retained definition of its object. */
module HistoryDiff {
  import opened Prelude
  import opened Lex
  import opened Json
  import opened History
  import opened HistoryStore
  import opened Differ
  import D = Diff
  import DE = DiffExact
  import A = Attribution
  import R = Rendering

  datatype Baseline = Baseline(seqNo: nat, observedAt: int)

  datatype Comparison = Comparison(seqNo: nat, baseline: Option<Baseline>, entries: seq<DiffEntry>, truncated: bool)

  /** k is the newest entry before i that carries a definition of the same object. */
  predicate IsBaseline(entries: seq<Revision>, i: nat, k: nat)
    requires i < |entries|
  {
    && k < i && entries[k].uid == entries[i].uid && entries[k].manifest.Some?
    && forall j :: k < j < i ==> entries[j].uid != entries[i].uid || entries[j].manifest.None?
  }

  predicate HasBaseline(entries: seq<Revision>, i: nat)
    requires i < |entries|
  {
    entries[i].manifest.Some? && exists k :: 0 <= k < i && IsBaseline(entries, i, k)
  }

  predicate PathLess(a: DiffEntry, b: DiffEntry) {
    Less(a.path, b.path)
  }

  /** No entry precedes one with a smaller path. */
  ghost predicate SortedByPath(s: seq<DiffEntry>) {
    forall i, j :: 0 <= i < j < |s| ==> !PathLess(s[j], s[i])
  }

  function InsertByPath(e: DiffEntry, s: seq<DiffEntry>): (r: seq<DiffEntry>)
    ensures multiset(r) == multiset(s) + multiset{e}
  {
    if s == [] || !PathLess(s[0], e) then [e] + s
    else
      assert s == [s[0]] + s[1..];
      [s[0]] + InsertByPath(e, s[1..])
  }

  lemma {:induction false} InsertByPathSorted(e: DiffEntry, s: seq<DiffEntry>)
    requires SortedByPath(s)
    ensures SortedByPath(InsertByPath(e, s))
  {
    if s == [] {
    } else if !PathLess(s[0], e) {
      forall j | 0 <= j < |s| ensures !PathLess(s[j], e) {
        if j > 0 && PathLess(s[j], e) {
          LessTotal(s[0].path, e.path);
          LessTotal(s[j].path, s[0].path);
          if e.path != s[0].path { LessTransitive(s[j].path, e.path, s[0].path); }
          assert false;
        }
      }
    } else {
      var rest := InsertByPath(e, s[1..]);
      InsertByPathSorted(e, s[1..]);
      forall j | 0 <= j < |rest| ensures !PathLess(rest[j], s[0]) {
        assert multiset(rest)[rest[j]] > 0;
        if rest[j] == e {
          LessTotal(e.path, s[0].path);
        } else {
          assert rest[j] in s[1..];
        }
      }
    }
  }

  /** sort.Slice by path. */
  method SortByPath(entries: seq<DiffEntry>) returns (sorted: seq<DiffEntry>)
    ensures SortedByPath(sorted) && multiset(sorted) == multiset(entries)
  {
    sorted := [];
    for i := 0 to |entries|
      invariant SortedByPath(sorted) && multiset(sorted) == multiset(entries[..i])
    {
      assert entries[..i + 1] == entries[..i] + [entries[i]];
      InsertByPathSorted(entries[i], sorted);
      sorted := InsertByPath(entries[i], sorted);
    }
    assert entries[..|entries|] == entries;
  }

  /** The entry without its manager, as the walk reported it. */
  function Unattributed(s: seq<DiffEntry>): (r: seq<DiffEntry>)
    ensures |r| == |s| && forall i :: 0 <= i < |r| ==> r[i] == s[i].(manager := "")
  {
    seq(|s|, i requires 0 <= i < |s| => s[i].(manager := ""))
  }

  ghost predicate Attributed(s: seq<DiffEntry>, owners: seq<FieldOwner>) {
    forall i, m :: 0 <= i < |s| && m != "" ==> (s[i].manager == m <==> A.Sole(A.Claimants(s[i].path, owners), m))
  }

  method AttributeAll(entries: seq<DiffEntry>, owners: seq<FieldOwner>) returns (named: seq<DiffEntry>)
    requires Unattributed(entries) == entries
    ensures Unattributed(named) == entries && Attributed(named, owners)
  {
    named := [];
    for i := 0 to |entries|
      invariant Unattributed(named) == entries[..i] && Attributed(named, owners)
    {
      var manager := A.Attribute(entries[i].path, owners);
      ghost var before := named;
      named := named + [entries[i].(manager := manager)];
      assert Unattributed(entries)[i] == entries[i];
      assert Unattributed(named) == Unattributed(before) + [entries[i]];
    }
  }

  /** The definitions a comparison is about, given where its revision is retained. */
  ghost predicate Compares(c: Comparison, entries: seq<Revision>, i: nat)
    requires i < |entries|
  {
    && c.seqNo == entries[i].seqNo
    && (c.baseline.Some? <==> HasBaseline(entries, i))
    && (c.baseline.None? ==> c.entries == [] && !c.truncated)
    && forall k: nat :: c.baseline.Some? && IsBaseline(entries, i, k) ==>
         && c.baseline.value == Baseline(entries[k].seqNo, entries[k].observedAt)
         && ReportsDecoded(c, entries[k].manifest.value.doc, entries[i].manifest.value.doc, entries[i].owners)
  }

  /** The first entries of the unbounded walk, sorted by path, each attributed to the one
      manager owning its path. */
  ghost predicate Reports(c: Comparison, before: Json, after: Json, owners: seq<FieldOwner>) {
    var walked := Render([], D.Walk(before, after));
    && SortedByPath(c.entries)
    && multiset(Unattributed(c.entries)) == multiset(Cut(walked))
    && Attributed(c.entries, owners)
    && (c.truncated <==> |walked| > MAX_DIFF_ENTRIES)
  }

  /** A definition that does not decode compares as nothing, beside its baseline. */
  ghost predicate ReportsDecoded(c: Comparison, before: Option<Json>, after: Option<Json>, owners: seq<FieldOwner>) {
    if before.None? || after.None? then c.entries == [] && !c.truncated
    else Reports(c, before.value, after.value, owners)
  }

  method CompareDecoded(before: Option<Json>, after: Option<Json>, owners: seq<FieldOwner>)
    returns (entries: seq<DiffEntry>, truncated: bool)
    ensures forall seqNo, baseline :: ReportsDecoded(Comparison(seqNo, baseline, entries, truncated), before, after,
                                                     owners)
  {
    if before.None? || after.None? { return [], false; }
    entries, truncated := Compare(before.value, after.value, owners);
  }

  method Compare(before: Json, after: Json, owners: seq<FieldOwner>) returns (entries: seq<DiffEntry>, truncated: bool)
    ensures forall seqNo, baseline :: Reports(Comparison(seqNo, baseline, entries, truncated), before, after, owners)
  {
    var d := new Accumulator();
    d.Walk("", before, after, []);
    ghost var walked := Render([], D.Walk(before, after));
    assert [] + walked == walked;
    assert Unattributed(d.entries) == d.entries;
    var sorted := SortByPath(d.entries);
    SortedUnattributed(sorted, d.entries);
    entries := AttributeAll(sorted, owners);
    truncated := d.truncated;
    AttributedSorted(entries, sorted);
  }

  lemma SortedUnattributed(sorted: seq<DiffEntry>, entries: seq<DiffEntry>)
    requires multiset(sorted) == multiset(entries) && Unattributed(entries) == entries
    ensures Unattributed(sorted) == sorted
  {
    forall i | 0 <= i < |sorted| ensures sorted[i].manager == "" {
      assert multiset(sorted)[sorted[i]] > 0;
      var k :| 0 <= k < |entries| && entries[k] == sorted[i];
      assert Unattributed(entries)[k] == entries[k];
    }
  }

  lemma AttributedSorted(named: seq<DiffEntry>, sorted: seq<DiffEntry>)
    requires SortedByPath(sorted) && Unattributed(named) == sorted
    ensures SortedByPath(named)
  {
    assert forall i :: 0 <= i < |named| ==> sorted[i].path == named[i].path;
  }

  /** Store.Diff: absent only when the sequence is not retained. */
  method Diff(s: Store, wanted: nat) returns (diff: Option<Comparison>)
    requires s.Valid()
    ensures diff.None? <==> forall i :: 0 <= i < |s.entries| ==> s.entries[i].seqNo != wanted
    ensures forall i :: 0 <= i < |s.entries| && s.entries[i].seqNo == wanted ==>
              diff.Some? && Compares(diff.value, s.entries, i)
  {
    var i := s.Search(wanted);
    if i >= |s.entries| || s.entries[i].seqNo != wanted { return None; }
    var rev := s.entries[i];
    if rev.manifest.None? {
      diff := Some(Comparison(wanted, None, [], false));
      ComparesNothing(diff.value, s.entries, i);
      return;
    }
    var k := i;
    while k > 0
      invariant 0 <= k <= i
      invariant forall j :: k <= j < i ==> s.entries[j].uid != rev.uid || s.entries[j].manifest.None?
    {
      k := k - 1;
      var base := s.entries[k];
      if base.uid == rev.uid && base.manifest.Some? {
        var entries, truncated := CompareDecoded(base.manifest.value.doc, rev.manifest.value.doc, rev.owners);
        diff := Some(Comparison(wanted, Some(Baseline(base.seqNo, base.observedAt)), entries, truncated));
        ComparesBaseline(diff.value, s.entries, i, k);
        return;
      }
    }
    diff := Some(Comparison(wanted, None, [], false));
    ComparesNothing(diff.value, s.entries, i);
  }

  lemma ComparesBaseline(c: Comparison, entries: seq<Revision>, i: nat, k: nat)
    requires i < |entries| && IsBaseline(entries, i, k) && entries[i].manifest.Some?
    requires c.seqNo == entries[i].seqNo && c.baseline == Some(Baseline(entries[k].seqNo, entries[k].observedAt))
    requires ReportsDecoded(c, entries[k].manifest.value.doc, entries[i].manifest.value.doc, entries[i].owners)
    ensures Compares(c, entries, i)
  {
    assert forall j: nat :: IsBaseline(entries, i, j) ==> j == k;
  }

  lemma ComparesNothing(c: Comparison, entries: seq<Revision>, i: nat)
    requires i < |entries| && c == Comparison(entries[i].seqNo, None, [], false)
    requires entries[i].manifest.None?
             || forall j :: 0 <= j < i ==> entries[j].uid != entries[i].uid || entries[j].manifest.None?
    ensures Compares(c, entries, i)
  {
  }

  /* ---------- what a reader is shown ---------- */

  datatype Shown = Shown(path: string, op: D.DiffOp, before: seq<byte>, after: seq<byte>, manager: string)

  ghost predicate ShowsValue(value: Option<Json>, encode: Json -> Option<seq<byte>>, rendered: seq<byte>) {
    if value.None? || encode(value.value).None? then rendered == [] else R.Renders(encode(value.value).value, rendered)
  }

  ghost predicate ShowsEntry(e: DiffEntry, encode: Json -> Option<seq<byte>>, s: Shown) {
    && (s.path, s.op, s.manager) == (e.path, e.op, e.manager)
    && ShowsValue(e.before, encode, s.before) && ShowsValue(e.after, encode, s.after)
  }

  method ShowValue(value: Option<Json>, encode: Json -> Option<seq<byte>>) returns (rendered: seq<byte>)
    ensures ShowsValue(value, encode, rendered) && |rendered| <= R.MAX_VALUE_LEN + |R.ELLIPSIS|
  {
    if value.None? { return []; }
    rendered := R.RenderValue(value.value, encode);
  }

  /** The entries as a page carries them: an absent side is empty, a present one bounded. */
  method ShowAll(entries: seq<DiffEntry>, encode: Json -> Option<seq<byte>>) returns (shown: seq<Shown>)
    ensures |shown| == |entries| && forall i :: 0 <= i < |shown| ==> ShowsEntry(entries[i], encode, shown[i])
  {
    shown := [];
    for i := 0 to |entries|
      invariant |shown| == i && forall j :: 0 <= j < i ==> ShowsEntry(entries[j], encode, shown[j])
    {
      var before := ShowValue(entries[i].before, encode);
      var after := ShowValue(entries[i].after, encode);
      shown := shown + [Shown(entries[i].path, entries[i].op, before, after, entries[i].manager)];
    }
  }

  /** A comparison is empty exactly when the two definitions have one normal form. */
  lemma EmptyIffUnchanged(c: Comparison, before: Json, after: Json, owners: seq<FieldOwner>)
    requires Reports(c, before, after, owners)
    ensures c.entries == [] <==> DE.NormEqual(before, after)
  {
    DE.WalkExact(before, after);
    var walked := Render([], D.Walk(before, after));
    assert |multiset(Unattributed(c.entries))| == |c.entries|;
    assert |multiset(Cut(walked))| == |Cut(walked)|;
  }
}
