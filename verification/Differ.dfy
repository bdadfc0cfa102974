/** The bounded differ: it accumulates entries under encoded paths and stops at its bound,
    and is proved to keep exactly the first entries of the unbounded walk. */
module Differ {
  import opened Prelude
  import opened Lex
  import opened Json
  import opened FieldPaths
  import D = Diff

  const MAX_DIFF_ENTRIES := 256

  datatype DiffEntry = DiffEntry(path: string, op: D.DiffOp, before: Option<Json>, after: Option<Json>, manager: string)

  /** Edits found below a path, as entries under its encoding. */
  ghost function Render(at: seq<Seg>, edits: seq<D.Edit>): (r: seq<DiffEntry>)
    ensures |r| == |edits|
    ensures forall i :: 0 <= i < |r| ==>
              r[i] == DiffEntry(Encode(at + edits[i].path), edits[i].op, edits[i].before, edits[i].after, "")
  {
    seq(|edits|, i requires 0 <= i < |edits| =>
      DiffEntry(Encode(at + edits[i].path), edits[i].op, edits[i].before, edits[i].after, ""))
  }

  function Cut<T>(s: seq<T>): (r: seq<T>)
    ensures r <= s && |r| <= MAX_DIFF_ENTRIES && (|r| < MAX_DIFF_ENTRIES ==> r == s)
  {
    if |s| > MAX_DIFF_ENTRIES then s[..MAX_DIFF_ENTRIES] else s
  }

  /** What an accumulator holds after more entries were offered to it: the first ones up
      to the bound, and whether any was turned away. */
  ghost function Offered(base: seq<DiffEntry>, cut: bool, more: seq<DiffEntry>): (seq<DiffEntry>, bool) {
    (Cut(base + more), cut || |base + more| > MAX_DIFF_ENTRIES)
  }

  /** A value's part at a segment, if it has one. */
  ghost function Part(v: Json, r: D.Reading, s: Seg): Option<Json>
    requires D.Reads(v, r)
  {
    if s in D.Segs(v, r) then Some(D.Kid(v, r, s)) else None
  }

  /** The encoded path and the two parts at the i-th visited segment. */
  ghost predicate IsKid(child: string, at: seq<Seg>, before: Json, after: Json, r: D.Reading, i: nat, b: Option<Json>,
                        a: Option<Json>)
    requires D.Reads(before, r) && D.Reads(after, r) && i < |D.Visit(before, after, r)|
  {
    var seg := D.Visit(before, after, r)[i];
    (child, b, a) == (Encode(at + [seg]), Part(before, r, seg), Part(after, r, seg))
  }

  lemma CutAgain<T>(x: seq<T>, y: seq<T>)
    ensures Cut(Cut(x) + y) == Cut(x + y)
    ensures |Cut(x) + y| > MAX_DIFF_ENTRIES || |x| > MAX_DIFF_ENTRIES
            <==> |x + y| > MAX_DIFF_ENTRIES || |x| > MAX_DIFF_ENTRIES
  {
  }

  lemma RenderConcat(at: seq<Seg>, a: seq<D.Edit>, b: seq<D.Edit>)
    ensures Render(at, a + b) == Render(at, a) + Render(at, b)
  {
  }

  lemma RenderUnder(at: seq<Seg>, s: Seg, edits: seq<D.Edit>)
    ensures Render(at, D.Under(s, edits)) == Render(at + [s], edits)
  {
    forall i | 0 <= i < |edits| ensures at + ([s] + edits[i].path) == (at + [s]) + edits[i].path {}
  }

  lemma EncodeExtend(at: seq<Seg>, s: Seg)
    ensures Encode(at + [s]) == Extend(Encode(at), s)
  {
    assert (at + [s])[..|at|] == at;
  }

  lemma {:induction false} WalkKidsConcat(a: Json, b: Json, r: D.Reading, x: seq<Seg>, y: seq<Seg>)
    requires D.Reads(a, r) && D.Reads(b, r)
    ensures D.WalkKids(a, b, r, x + y) == D.WalkKids(a, b, r, x) + D.WalkKids(a, b, r, y)
    decreases |x|
  {
    if x == [] {
      assert x + y == y;
    } else {
      assert (x + y)[1..] == x[1..] + y;
      WalkKidsConcat(a, b, r, x[1..], y);
    }
  }

  lemma WalkKidsNext(a: Json, b: Json, r: D.Reading, segs: seq<Seg>, i: nat)
    requires D.Reads(a, r) && D.Reads(b, r) && i < |segs|
    ensures D.WalkKids(a, b, r, segs[..i + 1])
            == D.WalkKids(a, b, r, segs[..i]) + D.Under(segs[i], D.KidEdits(a, b, r, segs[i]))
  {
    assert segs[..i + 1] == segs[..i] + [segs[i]];
    WalkKidsConcat(a, b, r, segs[..i], [segs[i]]);
    assert [segs[i]][1..] == [];
  }

  /** A uniquely named list as the map of its elements by name. */
  ghost function ByName(items: seq<Json>): map<string, Json>
    requires D.IsNamed(items)
  {
    map n | n in D.Names(items) :: items[D.IndexOfName(items, n)]
  }

  /** An index exists exactly for lists whose elements are all named, uniquely. */
  method NamedElements(items: seq<Json>) returns (named: Option<map<string, Json>>)
    ensures named.Some? <==> D.IsNamed(items)
    ensures named.Some? ==> named.value == ByName(items)
  {
    if |items| == 0 { return None; }
    var found: map<string, Json> := map[];
    for i := 0 to |items|
      invariant i > 0 ==> D.IsNamed(items[..i]) && found.Keys == D.Names(items[..i])
      invariant i == 0 ==> found == map[]
      invariant forall j :: 0 <= j < i
                  ==> D.HasName(items[j]) && D.NameOf(items[j]) in found && found[D.NameOf(items[j])] == items[j]
    {
      if !D.HasName(items[i]) { return None; }
      var name := D.NameOf(items[i]);
      if name in found {
        assert exists j :: 0 <= j < i && D.NameOf(items[j]) == name by {
          assert name in D.Names(items[..i]);
        }
        return None;
      }
      NamesNext(items, i);
      found := found[name := items[i]];
    }
    assert items[..|items|] == items;
    return Some(found);
  }

  lemma NamesNext(items: seq<Json>, i: nat)
    requires i < |items| && D.HasName(items[i])
    requires i > 0 ==> D.IsNamed(items[..i]) && D.NameOf(items[i]) !in D.Names(items[..i])
    ensures D.IsNamed(items[..i + 1])
    ensures D.Names(items[..i + 1]) == (if i > 0 then D.Names(items[..i]) else {}) + {D.NameOf(items[i])}
  {
    var more := items[..i + 1];
    forall j, k | 0 <= j < k < |more|
      ensures D.HasName(more[j]) && D.HasName(more[k]) && D.NameOf(more[j]) != D.NameOf(more[k]) {
      assert more[j] == items[..i][j];
      assert D.NameOf(items[..i][j]) in D.Names(items[..i]);
      if k < i { assert more[k] == items[..i][k]; }
    }
    forall j | 0 <= j < |more| ensures D.HasName(more[j]) {
      if j < i { assert more[j] == items[..i][j]; }
    }
    forall n ensures n in D.Names(more) <==> n == D.NameOf(items[i]) || (i > 0 && n in D.Names(items[..i])) {
      if n in D.Names(more) {
        var j :| 0 <= j < |more| && D.NameOf(more[j]) == n;
        if j < i { assert items[..i][j] == more[j]; }
      }
      if i > 0 && n in D.Names(items[..i]) {
        var j :| 0 <= j < i && D.NameOf(items[..i][j]) == n;
        assert more[j] == items[..i][j];
      }
      assert more[i] == items[i];
    }
  }

  class Accumulator {
    var entries: seq<DiffEntry>
    var truncated: bool

    ghost predicate Valid()
      reads this
    {
      |entries| <= MAX_DIFF_ENTRIES
    }

    ghost function Held(): (seq<DiffEntry>, bool)
      reads this
    {
      (entries, truncated)
    }

    constructor ()
      ensures Valid() && entries == [] && !truncated
    {
      entries, truncated := [], false;
    }

    /** What the accumulator holds after more entries were offered to it. */
    twostate predicate Took(more: seq<DiffEntry>)
      reads this
    {
      Held() == Offered(old(entries), old(truncated), more)
    }

    /** One more entry is offered; at the bound it only leaves its mark. */
    method Add(path: string, op: D.DiffOp, before: Option<Json>, after: Option<Json>)
      requires Valid()
      modifies this
      ensures Valid() && Took([DiffEntry(path, op, before, after, "")])
    {
      if |entries| >= MAX_DIFF_ENTRIES {
        truncated := true;
        return;
      }
      entries := entries + [DiffEntry(path, op, before, after, "")];
    }

    /** Offers exactly the edits of the unbounded walk, rendered below this path. */
    method Walk(path: string, before: Json, after: Json, ghost at: seq<Seg>)
      requires Valid() && path == Encode(at)
      modifies this
      ensures Valid() && Took(Render(at, D.Walk(before, after)))
      decreases before, 5
    {
      if before.Obj? && after.Obj? {
        WalkMaps(path, before, after, at);
        return;
      }
      if before.Arr? && after.Arr? {
        WalkLists(path, before, after, at);
        return;
      }
      if before != after {
        Add(path, D.Changed, Some(before), Some(after));
        assert at + [] == at;
        assert Render(at, D.Walk(before, after)) == [DiffEntry(path, D.Changed, Some(before), Some(after), "")];
      } else {
        assert old(entries) + Render(at, []) == entries;
      }
    }

    /** The entries are those held before plus those of the first i visited segments. */
    ghost predicate Reached(base: seq<DiffEntry>, cut: bool, at: seq<Seg>, a: Json, b: Json, r: D.Reading, i: nat)
      requires D.Reads(a, r) && D.Reads(b, r) && i <= |D.Visit(a, b, r)|
      reads this
    {
      Held() == Offered(base, cut, Render(at, D.WalkKids(a, b, r, D.Visit(a, b, r)[..i])))
    }

    /** One visited segment: added, removed or compared further. */
    method WalkKid(child: string, before: Json, after: Json, r: D.Reading, b: Option<Json>, a: Option<Json>,
                   ghost at: seq<Seg>, ghost i: nat, ghost base: seq<DiffEntry>, ghost cut: bool)
      requires Valid() && D.Reads(before, r) && D.Reads(after, r) && i < |D.Visit(before, after, r)|
      requires |base| <= MAX_DIFF_ENTRIES && Reached(base, cut, at, before, after, r, i)
      requires IsKid(child, at, before, after, r, i, b, a)
      modifies this
      ensures Valid() && Reached(base, cut, at, before, after, r, i + 1)
      decreases before, 0
    {
      ghost var seg := D.Visit(before, after, r)[i];
      D.VisitsAll(before, after, r);
      assert seg in D.Visit(before, after, r);
      NextKid(base, cut, at, before, after, r, D.Visit(before, after, r), i);
      assert (at + [seg]) + [] == at + [seg];
      ghost var more := Render(at + [seg], D.KidEdits(before, after, r, seg));
      if b.None? {
        assert more == [DiffEntry(child, D.Added, None, a, "")];
        Add(child, D.Added, None, a);
      } else if a.None? {
        assert more == [DiffEntry(child, D.Removed, b, None, "")];
        Add(child, D.Removed, b, None);
      } else {
        Walk(child, b.value, a.value, at + [seg]);
      }
    }

    /** The same for two objects; the loop follows the order in which the walk visits. */
    method WalkMaps(path: string, before: Json, after: Json, ghost at: seq<Seg>)
      requires Valid() && path == Encode(at) && before.Obj? && after.Obj?
      modifies this
      ensures Valid() && Took(Render(at, D.Walk(before, after)))
      decreases before, 4
    {
      var keys := SortKeys(before.fields.Keys + after.fields.Keys);
      ghost var base, cut := entries, truncated;
      NoneReached(base, at, before, after, D.AsFields);
      for i := 0 to |keys|
        invariant Valid() && Reached(base, cut, at, before, after, D.AsFields, i)
      {
        var key := keys[i];
        var b := if key in before.fields then Some(before.fields[key]) else None;
        var a := if key in after.fields then Some(after.fields[key]) else None;
        FieldKid(path, at, before, after, i, b, a);
        WalkKid(FieldPathKey(path, key), before, after, D.AsFields, b, a, at, i, base, cut);
      }
      AllReached(before, after, D.AsFields);
    }

    /** The same for two lists, read as the walk reads them. */
    method WalkLists(path: string, before: Json, after: Json, ghost at: seq<Seg>)
      requires Valid() && path == Encode(at) && before.Arr? && after.Arr?
      modifies this
      ensures Valid() && Took(Render(at, D.Walk(before, after)))
      decreases before, 4
    {
      var beforeNames := NamedElements(before.items);
      var afterNames := NamedElements(after.items);
      if beforeNames.Some? && afterNames.Some? {
        WalkNamed(path, before, after, beforeNames.value, afterNames.value, at);
      } else {
        WalkItems(path, before, after, at);
      }
    }

    method WalkNamed(path: string, before: Json, after: Json, beforeNames: map<string, Json>,
                     afterNames: map<string, Json>, ghost at: seq<Seg>)
      requires Valid() && path == Encode(at) && D.Reads(before, D.AsNamed) && D.Reads(after, D.AsNamed)
      requires beforeNames == ByName(before.items) && afterNames == ByName(after.items)
      modifies this
      ensures Valid() && Took(Render(at, D.Walk(before, after)))
      decreases before, 3
    {
      var names := SortKeys(beforeNames.Keys + afterNames.Keys);
      ghost var base, cut := entries, truncated;
      NamedVisits(before, after, at, base, cut);
      WalkNames(path, before, after, beforeNames, afterNames, names, at, base, cut);
    }

    method WalkNames(path: string, before: Json, after: Json, beforeNames: map<string, Json>,
                     afterNames: map<string, Json>,
                     names: seq<string>, ghost at: seq<Seg>, ghost base: seq<DiffEntry>, ghost cut: bool)
      requires Valid() && path == Encode(at) && D.Reads(before, D.AsNamed) && D.Reads(after, D.AsNamed)
      requires beforeNames == ByName(before.items) && afterNames == ByName(after.items)
      requires names == Ascending(beforeNames.Keys + afterNames.Keys) && |names| == |D.Visit(before, after, D.AsNamed)|
      requires |base| <= MAX_DIFF_ENTRIES && Reached(base, cut, at, before, after, D.AsNamed, 0)
      modifies this
      ensures Valid() && Reached(base, cut, at, before, after, D.AsNamed, |names|)
      decreases before, 2
    {
      for i := 0 to |names|
        invariant Valid() && Reached(base, cut, at, before, after, D.AsNamed, i)
      {
        WalkElement(path, before, after, beforeNames, afterNames, names, i, at, base, cut);
      }
    }

    method WalkElement(path: string, before: Json, after: Json, beforeNames: map<string, Json>,
                       afterNames: map<string, Json>, names: seq<string>, i: nat, ghost at: seq<Seg>,
                       ghost base: seq<DiffEntry>, ghost cut: bool)
      requires Valid() && path == Encode(at) && D.Reads(before, D.AsNamed) && D.Reads(after, D.AsNamed)
      requires beforeNames == ByName(before.items) && afterNames == ByName(after.items)
      requires names == Ascending(beforeNames.Keys + afterNames.Keys) && |names| == |D.Visit(before, after, D.AsNamed)|
      requires i < |names| && |base| <= MAX_DIFF_ENTRIES && Reached(base, cut, at, before, after, D.AsNamed, i)
      modifies this
      ensures Valid() && Reached(base, cut, at, before, after, D.AsNamed, i + 1)
      decreases before, 1
    {
      var b := if names[i] in beforeNames then Some(beforeNames[names[i]]) else None;
      var a := if names[i] in afterNames then Some(afterNames[names[i]]) else None;
      NamedKid(path, at, before, after, i, b, a);
      WalkKid(FieldPathNamed(path, names[i]), before, after, D.AsNamed, b, a, at, i, base, cut);
    }

    method WalkItems(path: string, before: Json, after: Json, ghost at: seq<Seg>)
      requires Valid() && path == Encode(at) && before.Arr? && after.Arr?
      requires !(D.IsNamed(before.items) && D.IsNamed(after.items))
      modifies this
      ensures Valid() && Took(Render(at, D.Walk(before, after)))
      decreases before, 1
    {
      var shared := |before.items|;
      if |after.items| < shared { shared := |after.items|; }
      ghost var base, cut := entries, truncated;
      NoneReached(base, at, before, after, D.AsItems);
      for i := 0 to shared
        invariant Valid() && Reached(base, cut, at, before, after, D.AsItems, i)
      {
        ItemKid(path, at, before, after, i);
        WalkKid(FieldPathIndex(path, i), before, after, D.AsItems, Some(before.items[i]), Some(after.items[i]), at, i,
                base, cut);
      }
      for i := shared to |after.items|
        invariant Valid() && Reached(base, cut, at, before, after, D.AsItems, i)
      {
        ItemKid(path, at, before, after, i);
        WalkKid(FieldPathIndex(path, i), before, after, D.AsItems, None, Some(after.items[i]), at, i, base, cut);
      }
      for i := shared to |before.items|
        invariant Valid()
        invariant Reached(base, cut, at, before, after, D.AsItems, if |after.items| > shared then |after.items| else i)
      {
        ItemKid(path, at, before, after, i);
        WalkKid(FieldPathIndex(path, i), before, after, D.AsItems, Some(before.items[i]), None, at, i, base, cut);
      }
      AllReached(before, after, D.AsItems);
    }
  }

  lemma FieldKid(path: string, at: seq<Seg>, before: Json, after: Json, i: nat, b: Option<Json>, a: Option<Json>)
    requires path == Encode(at) && before.Obj? && after.Obj?
    requires i < |Ascending(before.fields.Keys + after.fields.Keys)|
    requires var key := Ascending(before.fields.Keys + after.fields.Keys)[i];
             && b == (if key in before.fields then Some(before.fields[key]) else None)
             && a == (if key in after.fields then Some(after.fields[key]) else None)
    ensures var keys := Ascending(before.fields.Keys + after.fields.Keys);
            |D.Visit(before, after, D.AsFields)| == |keys|
              && IsKid(FieldPathKey(path, keys[i]), at, before, after, D.AsFields, i, b, a)
  {
    EncodeExtend(at, Key(Ascending(before.fields.Keys + after.fields.Keys)[i]));
  }

  lemma NamedVisits(before: Json, after: Json, at: seq<Seg>, base: seq<DiffEntry>, cut: bool)
    requires D.Reads(before, D.AsNamed) && D.Reads(after, D.AsNamed) && |base| <= MAX_DIFF_ENTRIES
    ensures var visit := D.Visit(before, after, D.AsNamed);
            && |visit| == |Ascending(ByName(before.items).Keys + ByName(after.items).Keys)|
            && Offered(base, cut, Render(at, D.WalkKids(before, after, D.AsNamed, visit[..0]))) == (base, cut)
            && Render(at, D.WalkKids(before, after, D.AsNamed, visit[..|visit|])) == Render(at, D.Walk(before, after))
  {
    assert ByName(before.items).Keys == D.Names(before.items) && ByName(after.items).Keys == D.Names(after.items);
    NoneReached(base, at, before, after, D.AsNamed);
    AllReached(before, after, D.AsNamed);
  }

  lemma NamedKid(path: string, at: seq<Seg>, before: Json, after: Json, i: nat, b: Option<Json>, a: Option<Json>)
    requires path == Encode(at) && D.Reads(before, D.AsNamed) && D.Reads(after, D.AsNamed)
    requires i < |Ascending(ByName(before.items).Keys + ByName(after.items).Keys)|
    requires var name := Ascending(ByName(before.items).Keys + ByName(after.items).Keys)[i];
             && b == (if name in ByName(before.items) then Some(ByName(before.items)[name]) else None)
             && a == (if name in ByName(after.items) then Some(ByName(after.items)[name]) else None)
    ensures var names := Ascending(ByName(before.items).Keys + ByName(after.items).Keys);
            |D.Visit(before, after, D.AsNamed)| == |names|
              && IsKid(FieldPathNamed(path, names[i]), at, before, after, D.AsNamed, i, b, a)
  {
    assert ByName(before.items).Keys == D.Names(before.items) && ByName(after.items).Keys == D.Names(after.items);
    var name := Ascending(D.Names(before.items) + D.Names(after.items))[i];
    EncodeExtend(at, Named(name));
    NamedPart(before, name);
    NamedPart(after, name);
  }

  lemma NamedPart(v: Json, name: string)
    requires D.Reads(v, D.AsNamed)
    ensures Part(v, D.AsNamed, Named(name)) == if name in ByName(v.items) then Some(ByName(v.items)[name]) else None
  {
  }

  lemma ItemKid(path: string, at: seq<Seg>, before: Json, after: Json, i: nat)
    requires path == Encode(at) && D.Reads(before, D.AsItems) && D.Reads(after, D.AsItems)
    requires i < |before.items| || i < |after.items|
    ensures i < |D.Visit(before, after, D.AsItems)|
    ensures IsKid(FieldPathIndex(path, i), at, before, after, D.AsItems, i,
                  if i < |before.items| then Some(before.items[i]) else None,
                  if i < |after.items| then Some(after.items[i]) else None)
  {
    EncodeExtend(at, Index(i));
  }

  lemma NoneReached(base: seq<DiffEntry>, at: seq<Seg>, a: Json, b: Json, r: D.Reading)
    requires D.Reads(a, r) && D.Reads(b, r)
    ensures base + Render(at, D.WalkKids(a, b, r, D.Visit(a, b, r)[..0])) == base
  {
  }

  lemma AllReached(a: Json, b: Json, r: D.Reading)
    requires D.Reads(a, r) && D.Reads(b, r)
    ensures D.Visit(a, b, r)[..|D.Visit(a, b, r)|] == D.Visit(a, b, r)
  {
  }

  lemma RenderNext(at: seq<Seg>, a: Json, b: Json, r: D.Reading, segs: seq<Seg>, i: nat)
    requires D.Reads(a, r) && D.Reads(b, r) && i < |segs|
    ensures Render(at, D.WalkKids(a, b, r, segs[..i + 1]))
            == Render(at, D.WalkKids(a, b, r, segs[..i])) + Render(at + [segs[i]], D.KidEdits(a, b, r, segs[i]))
  {
    var kid := D.KidEdits(a, b, r, segs[i]);
    WalkKidsNext(a, b, r, segs, i);
    RenderConcat(at, D.WalkKids(a, b, r, segs[..i]), D.Under(segs[i], kid));
    RenderUnder(at, segs[i], kid);
  }

  /** Offering the next part's entries to what the earlier parts left. */
  lemma NextKid(base: seq<DiffEntry>, cut: bool, at: seq<Seg>, a: Json, b: Json, r: D.Reading, segs: seq<Seg>, i: nat)
    requires D.Reads(a, r) && D.Reads(b, r) && i < |segs|
    ensures var done := Offered(base, cut, Render(at, D.WalkKids(a, b, r, segs[..i])));
            Offered(done.0, done.1, Render(at + [segs[i]], D.KidEdits(a, b, r, segs[i])))
            == Offered(base, cut, Render(at, D.WalkKids(a, b, r, segs[..i + 1])))
  {
    var x, more := Render(at, D.WalkKids(a, b, r, segs[..i])), Render(at + [segs[i]], D.KidEdits(a, b, r, segs[i]));
    RenderNext(at, a, b, r, segs, i);
    assert base + (x + more) == (base + x) + more;
    CutAgain(base + x, more);
  }
}
