/** The untruncated walk is exact: it reports nothing precisely when the values have one
    normal form, and its edits replayed on the older value rebuild the newer one. */
module DiffExact {
  import opened Prelude
  import opened Json
  import opened FieldPaths
  import opened Diff

  /* ---------- normal forms of lists ---------- */

  lemma NormNameAgrees(v: Json)
    ensures HasName(v) <==> NormHasName(NormOf(v))
    ensures HasName(v) ==> NormName(NormOf(v)) == NameOf(v)
  {
    if v.Obj? {
      assert Key("name") in Segs(v, AsFields) <==> "name" in v.fields;
      if "name" in v.fields {
        assert NormKids(v, AsFields)[Key("name")] == NormOf(v.fields["name"]);
        var n := v.fields["name"];
        if n.Obj? || n.Arr? { assert NormOf(n).Node?; }
      }
    }
  }

  /** A list reads as named exactly when its elements' normal forms do. */
  lemma NormNamedAgrees(v: Json)
    requires v.Arr?
    ensures IsNamed(v.items) <==> NormNamed(NormKids(v, AsItems))
  {
    var kids := NormKids(v, AsItems);
    forall i | 0 <= i < |v.items| ensures Index(i) in kids && kids[Index(i)] == NormOf(v.items[i]) {
      assert Index(i) in Segs(v, AsItems);
    }
    forall i | 0 <= i < |v.items| { NormNameAgrees(v.items[i]); }
    if NormNamed(kids) {
      var s :| s in kids;
      assert s.Index?;
      forall i, j | 0 <= i < j < |v.items|
        ensures HasName(v.items[i]) && HasName(v.items[j]) && NameOf(v.items[i]) != NameOf(v.items[j])
      {
        assert Index(i) != Index(j);
        NormNameAgrees(v.items[i]);
        NormNameAgrees(v.items[j]);
      }
      forall i | 0 <= i < |v.items| ensures HasName(v.items[i]) { NormNameAgrees(v.items[i]); }
    }
    if IsNamed(v.items) {
      assert Index(0) in kids;
      forall s | s in kids ensures s.Index? && s.i < |v.items| && NormHasName(kids[s]) {
        NormNameAgrees(v.items[s.i]);
      }
    }
  }

  lemma NamedPart(v: Json, i: nat)
    requires v.Arr? && IsNamed(v.items) && i < |v.items|
    ensures Index(i) in NormKids(v, AsItems) && NormKids(v, AsItems)[Index(i)] == NormOf(v.items[i])
    ensures NormHasName(NormOf(v.items[i])) && NormName(NormOf(v.items[i])) == NameOf(v.items[i])
    ensures Named(NameOf(v.items[i])) in NormKids(v, AsNamed)
    ensures NormKids(v, AsNamed)[Named(NameOf(v.items[i]))] == NormOf(v.items[i])
  {
    assert Index(i) in Segs(v, AsItems);
    var name := NameOf(v.items[i]);
    assert name in Names(v.items);
    assert Named(name) in Segs(v, AsNamed);
    NormNameAgrees(v.items[i]);
    assert IndexOfName(v.items, name) == i;
  }

  ghost predicate NamesPart(items: map<Seg, Norm>, byName: map<Seg, Norm>, s: Seg)
    requires NormNamed(items) && s in items
  {
    var t := Named(NormName(items[s]));
    t in byName && byName[t] == items[s]
  }

  ghost predicate IsNameOf(items: map<Seg, Norm>, t: Seg, s: Seg)
    requires NormNamed(items)
  {
    s in items && t == Named(NormName(items[s]))
  }

  lemma RekeyedMaps(items: map<Seg, Norm>, byName: map<Seg, Norm>)
    requires NormNamed(items)
    requires forall s :: s in items ==> NamesPart(items, byName, s)
    requires forall t :: t in byName ==> exists s :: IsNameOf(items, t, s)
    ensures ByNormName(items) == byName
  {
    var rekeyed := ByNormName(items);
    forall t ensures t in rekeyed <==> t in byName {
      if t in byName {
        var s :| IsNameOf(items, t, s);
      }
      if t in rekeyed {
        var s :| s in items && t == Named(NormName(items[s]));
        assert NamesPart(items, byName, s);
      }
    }
    forall t | t in rekeyed ensures rekeyed[t] == byName[t] {
      var s :| s in items && t == Named(NormName(items[s]));
      assert NamesPart(items, byName, s);
    }
  }

  /** Rekeying positional parts by their names gives the parts by name. */
  lemma Rekeyed(v: Json)
    requires v.Arr? && IsNamed(v.items) && NormNamed(NormKids(v, AsItems))
    ensures ByNormName(NormKids(v, AsItems)) == NormKids(v, AsNamed)
  {
    var byIndex, byName := NormKids(v, AsItems), NormKids(v, AsNamed);
    forall s | s in byIndex ensures NamesPart(byIndex, byName, s) {
      NamedPart(v, s.i);
    }
    forall t | t in byName ensures exists s :: IsNameOf(byIndex, t, s) {
      var i := IndexOfName(v.items, t.name);
      NamedPart(v, i);
      assert IsNameOf(byIndex, t, Index(i));
    }
    RekeyedMaps(byIndex, byName);
  }

  /** A uniquely named list is its elements by name. */
  lemma NamedNorm(v: Json)
    requires v.Arr? && IsNamed(v.items)
    ensures NormOf(v) == Node(AsNamed, NormKids(v, AsNamed))
  {
    NormNamedAgrees(v);
    Rekeyed(v);
  }

  lemma UnnamedNorm(v: Json)
    requires v.Arr? && !IsNamed(v.items)
    ensures NormOf(v) == Node(AsItems, NormKids(v, AsItems))
  {
    NormNamedAgrees(v);
  }

  /** Under the reading two values share, their normal forms are equal exactly when the
      normal forms of their parts are. */
  lemma NormBySharedReading(a: Json, b: Json)
    requires Shared(a, b).Some?
    ensures NormOf(a) == NormOf(b) <==> NormKids(a, Shared(a, b).value) == NormKids(b, Shared(a, b).value)
  {
    if a.Arr? {
      if IsNamed(a.items) { NamedNorm(a); } else { UnnamedNorm(a); }
      if IsNamed(b.items) { NamedNorm(b); } else { UnnamedNorm(b); }
    }
  }

  lemma NormApart(a: Json, b: Json)
    requires Shared(a, b).None?
    ensures NormOf(a) == NormOf(b) <==> a == b
  {
    if a.Arr? { if IsNamed(a.items) { NamedNorm(a); } else { UnnamedNorm(a); } }
    if b.Arr? { if IsNamed(b.items) { NamedNorm(b); } else { UnnamedNorm(b); } }
  }

  /* ---------- nothing reported iff nothing differs ---------- */

  lemma {:induction false} WalkKidsEmpty(a: Json, b: Json, r: Reading, segs: seq<Seg>)
    requires Reads(a, r) && Reads(b, r)
    ensures WalkKids(a, b, r, segs) == [] <==> forall s :: s in segs ==> KidEdits(a, b, r, s) == []
    decreases |segs|
  {
    if segs != [] {
      WalkKidsEmpty(a, b, r, segs[1..]);
      assert segs[0] in segs;
      assert forall s :: s in segs <==> s == segs[0] || s in segs[1..];
    }
  }

  ghost predicate PartExact(a: Json, b: Json, r: Reading, s: Seg)
    requires Reads(a, r) && Reads(b, r)
  {
    s in Segs(a, r) && s in Segs(b, r) ==>
      (KidEdits(a, b, r, s) == [] <==> NormOf(Kid(a, r, s)) == NormOf(Kid(b, r, s)))
  }

  ghost predicate SamePart(a: Json, b: Json, r: Reading, s: Seg)
    requires Reads(a, r) && Reads(b, r)
  {
    s in Segs(a, r) && s in Segs(b, r) && NormOf(Kid(a, r, s)) == NormOf(Kid(b, r, s))
  }

  lemma PartIff(a: Json, b: Json, r: Reading, s: Seg)
    requires Reads(a, r) && Reads(b, r) && PartExact(a, b, r, s) && (s in Segs(a, r) || s in Segs(b, r))
    ensures KidEdits(a, b, r, s) == [] <==> SamePart(a, b, r, s)
  {
  }

  lemma KidsSame(a: Json, b: Json, r: Reading)
    requires Reads(a, r) && Reads(b, r)
    ensures (forall s :: s in Segs(a, r) || s in Segs(b, r) ==> SamePart(a, b, r, s))
            <==> NormKids(a, r) == NormKids(b, r)
  {
    var x, y := NormKids(a, r), NormKids(b, r);
    assert x.Keys == Segs(a, r) && y.Keys == Segs(b, r);
    if x == y {
      forall s | s in Segs(a, r) || s in Segs(b, r) ensures SamePart(a, b, r, s) {
        assert s in x && s in y && x[s] == y[s];
      }
    }
  }

  /** No part differs exactly when the parts' normal forms are one map. */
  lemma KidsExact(a: Json, b: Json, r: Reading)
    requires Reads(a, r) && Reads(b, r)
    requires forall s :: PartExact(a, b, r, s)
    ensures (forall s :: s in Segs(a, r) || s in Segs(b, r) ==> KidEdits(a, b, r, s) == [])
            <==> NormKids(a, r) == NormKids(b, r)
  {
    forall s | s in Segs(a, r) || s in Segs(b, r) ensures KidEdits(a, b, r, s) == [] <==> SamePart(a, b, r, s) {
      PartIff(a, b, r, s);
    }
    KidsSame(a, b, r);
  }

  /** The walk reports nothing if and only if the two values have equal normal forms. */
  lemma {:induction false} WalkExact(a: Json, b: Json)
    ensures Walk(a, b) == [] <==> NormOf(a) == NormOf(b)
    decreases a
  {
    if Shared(a, b).None? {
      NormApart(a, b);
    } else {
      var r := Shared(a, b).value;
      forall s ensures PartExact(a, b, r, s) {
        if s in Segs(a, r) && s in Segs(b, r) { WalkExact(Kid(a, r, s), Kid(b, r, s)); }
      }
      KidsExact(a, b, r);
      WalkKidsEmpty(a, b, r, Visit(a, b, r));
      VisitsAll(a, b, r);
      NormBySharedReading(a, b);
    }
  }

  ghost predicate NormEqual(a: Json, b: Json) {
    NormOf(a) == NormOf(b)
  }

  /* ---------- replaying the edits ---------- */

  /** The edits below one segment, relative to it. */
  ghost function Below(edits: seq<Edit>, s: Seg): seq<Edit> {
    if edits == [] then []
    else (if edits[0].path != [] && edits[0].path[0] == s then [edits[0].(path := edits[0].path[1..])] else [])
         + Below(edits[1..], s)
  }

  ghost predicate AtRoot(edits: seq<Edit>, op: DiffOp) {
    edits != [] && edits[0].path == [] && edits[0].op == op
  }

  ghost function Heads(edits: seq<Edit>): set<Seg> {
    set i | 0 <= i < |edits| && edits[i].path != [] :: edits[i].path[0]
  }

  /** The reading the edits address the value's parts in. */
  ghost function Addressed(v: Json, edits: seq<Edit>): Option<Reading> {
    if v.Obj? then Some(AsFields)
    else if !v.Arr? then None
    else if edits != [] && edits[0].path != [] && edits[0].path[0].Named? && IsNamed(v.items) then Some(AsNamed)
    else Some(AsItems)
  }

  /** The normal form after every edit is applied where its path leads: additions and
      changes put their new value, removals take the part away, the rest stays. */
  ghost function Patch(v: Json, edits: seq<Edit>): Norm
    decreases v, 1
  {
    if edits == [] then NormOf(v)
    else if AtRoot(edits, Changed) && edits[0].after.Some? then NormOf(edits[0].after.value)
    else if Addressed(v, edits).None? then NormOf(v)
    else
      var r := Addressed(v, edits).value;
      if r == AsItems then Collect(PatchKids(v, r, edits)) else Node(r, PatchKids(v, r, edits))
  }

  ghost function PatchKids(v: Json, r: Reading, edits: seq<Edit>): map<Seg, Norm>
    requires Reads(v, r)
    decreases v, 0
  {
    map s | s in Segs(v, r) + Heads(edits) && Stays(v, r, edits, s)
      :: if Gained(edits, s) then NormOf(Below(edits, s)[0].after.value)
         else Patch(Kid(v, r, s), Below(edits, s))
  }

  ghost predicate Gained(edits: seq<Edit>, s: Seg) {
    AtRoot(Below(edits, s), Added) && Below(edits, s)[0].after.Some?
  }

  ghost predicate Stays(v: Json, r: Reading, edits: seq<Edit>, s: Seg)
    requires Reads(v, r)
  {
    Gained(edits, s) || (s in Segs(v, r) && !AtRoot(Below(edits, s), Removed))
  }

  lemma {:induction false} BelowConcat(a: seq<Edit>, b: seq<Edit>, s: Seg)
    ensures Below(a + b, s) == Below(a, s) + Below(b, s)
  {
    if a == [] {
      assert a + b == b;
    } else {
      assert (a + b)[1..] == a[1..] + b;
      BelowConcat(a[1..], b, s);
    }
  }

  lemma {:induction false} BelowUnder(t: Seg, edits: seq<Edit>, s: Seg)
    ensures Below(Under(t, edits), s) == if s == t then edits else []
  {
    if edits != [] {
      var u := Under(t, edits);
      assert u[1..] == Under(t, edits[1..]);
      assert u[0].path[1..] == edits[0].path;
      assert u[0].(path := edits[0].path) == edits[0];
      BelowUnder(t, edits[1..], s);
    }
  }

  /** Below a visited segment the walk's edits are that part's own. */
  lemma {:induction false} BelowWalkKids(a: Json, b: Json, r: Reading, segs: seq<Seg>, s: Seg)
    requires Reads(a, r) && Reads(b, r) && DistinctSegs(segs)
    ensures Below(WalkKids(a, b, r, segs), s) == if s in segs then KidEdits(a, b, r, s) else []
    decreases |segs|
  {
    if segs != [] {
      var t, rest := segs[0], segs[1..];
      BelowConcat(Under(t, KidEdits(a, b, r, t)), WalkKids(a, b, r, rest), s);
      BelowUnder(t, KidEdits(a, b, r, t), s);
      BelowWalkKids(a, b, r, rest, s);
      assert s in segs <==> s == t || s in rest;
    }
  }

  lemma {:induction false} WalkKidsHeads(a: Json, b: Json, r: Reading, segs: seq<Seg>)
    requires Reads(a, r) && Reads(b, r)
    ensures forall i :: 0 <= i < |WalkKids(a, b, r, segs)| ==>
              WalkKids(a, b, r, segs)[i].path != [] && WalkKids(a, b, r, segs)[i].path[0] in segs
    decreases |segs|
  {
    if segs != [] { WalkKidsHeads(a, b, r, segs[1..]); }
  }

  /** A part added or removed whole is reported as one edit at its own path, and a part
      present on both sides never is. */
  lemma WalkRoot(a: Json, b: Json)
    ensures !AtRoot(Walk(a, b), Added) && !AtRoot(Walk(a, b), Removed)
    ensures AtRoot(Walk(a, b), Changed) ==> Walk(a, b)[0].after == Some(b)
    ensures Shared(a, b).Some? ==> !AtRoot(Walk(a, b), Changed)
  {
    if Shared(a, b).Some? { WalkKidsHeads(a, b, Shared(a, b).value, Visit(a, b, Shared(a, b).value)); }
  }

  lemma AddressedAsShared(a: Json, b: Json)
    requires Shared(a, b).Some? && Walk(a, b) != []
    ensures Addressed(a, Walk(a, b)) == Shared(a, b)
    ensures Heads(Walk(a, b)) <= Segs(a, Shared(a, b).value) + Segs(b, Shared(a, b).value)
  {
    var r := Shared(a, b).value;
    var visit := Visit(a, b, r);
    WalkKidsHeads(a, b, r, visit);
    VisitsAll(a, b, r);
    assert Walk(a, b)[0].path[0] in visit;
  }

  /** Replaying one part: a kept or changed part becomes the newer part, an added one
      appears and a removed one goes. */
  lemma PatchPart(a: Json, b: Json, r: Reading, edits: seq<Edit>, s: Seg)
    requires Reads(a, r) && Reads(b, r) && (s in Segs(a, r) || s in Segs(b, r))
    requires Below(edits, s) == KidEdits(a, b, r, s)
    requires s in Segs(a, r) && s in Segs(b, r) ==>
               Patch(Kid(a, r, s), Walk(Kid(a, r, s), Kid(b, r, s))) == NormOf(Kid(b, r, s))
    ensures s in PatchKids(a, r, edits) <==> s in Segs(b, r)
    ensures s in Segs(b, r) ==> PatchKids(a, r, edits)[s] == NormOf(Kid(b, r, s))
  {
    if s in Segs(a, r) && s in Segs(b, r) {
      WalkRoot(Kid(a, r, s), Kid(b, r, s));
    } else if s in Segs(b, r) {
      GainedHead(edits, s);
    }
  }

  ghost predicate PartReported(a: Json, b: Json, r: Reading, edits: seq<Edit>, s: Seg)
    requires Reads(a, r) && Reads(b, r)
  {
    Below(edits, s) == KidEdits(a, b, r, s)
  }

  ghost predicate PartRebuilt(a: Json, b: Json, r: Reading, s: Seg)
    requires Reads(a, r) && Reads(b, r)
  {
    s in Segs(a, r) && s in Segs(b, r) ==>
      Patch(Kid(a, r, s), Walk(Kid(a, r, s), Kid(b, r, s))) == NormOf(Kid(b, r, s))
  }

  lemma SameMaps<K, V>(x: map<K, V>, y: map<K, V>, keys: set<K>)
    requires x.Keys <= keys && y.Keys <= keys
    requires forall k :: k in keys ==> (k in x <==> k in y) && (k in y ==> x[k] == y[k])
    ensures x == y
  {
  }

  lemma PatchKidsKeys(v: Json, r: Reading, edits: seq<Edit>)
    requires Reads(v, r)
    ensures PatchKids(v, r, edits).Keys <= Segs(v, r) + Heads(edits)
  {
  }

  lemma PatchKidsRebuild(a: Json, b: Json, r: Reading, edits: seq<Edit>)
    requires Reads(a, r) && Reads(b, r)
    requires forall s :: s in Segs(a, r) + Segs(b, r) ==> PartReported(a, b, r, edits, s) && PartRebuilt(a, b, r, s)
    requires Heads(edits) <= Segs(a, r) + Segs(b, r)
    ensures PatchKids(a, r, edits) == NormKids(b, r)
  {
    var kids, want, keys := PatchKids(a, r, edits), NormKids(b, r), Segs(a, r) + Segs(b, r);
    assert want.Keys == Segs(b, r);
    PatchKidsKeys(a, r, edits);
    forall s | s in keys ensures (s in kids <==> s in want) && (s in want ==> kids[s] == want[s]) {
      assert PartReported(a, b, r, edits, s) && PartRebuilt(a, b, r, s);
      PatchPart(a, b, r, edits, s);
    }
    SameMaps(kids, want, keys);
  }

  /** Replaying the walk's edits on the older value rebuilds the newer one, up to the
      order of uniquely named lists. */
  lemma {:induction false} PatchRebuilds(a: Json, b: Json)
    ensures Patch(a, Walk(a, b)) == NormOf(b)
    decreases a
  {
    var edits := Walk(a, b);
    WalkRoot(a, b);
    if edits == [] {
      WalkExact(a, b);
    } else if Shared(a, b).Some? {
      var r := Shared(a, b).value;
      AddressedAsShared(a, b);
      VisitsAll(a, b, r);
      forall s | s in Segs(a, r) + Segs(b, r)
        ensures PartReported(a, b, r, edits, s) && PartRebuilt(a, b, r, s)
      {
        BelowWalkKids(a, b, r, Visit(a, b, r), s);
        if s in Segs(a, r) && s in Segs(b, r) { PatchRebuilds(Kid(a, r, s), Kid(b, r, s)); }
      }
      PatchKidsRebuild(a, b, r, edits);
      if r == AsNamed { NamedNorm(b); }
    }
  }

  /** Edits below a segment come from edits whose path starts with it. */
  lemma {:induction false} GainedHead(edits: seq<Edit>, s: Seg)
    requires Below(edits, s) != []
    ensures s in Heads(edits)
  {
    if edits[0].path != [] && edits[0].path[0] == s {
    } else {
      GainedHead(edits[1..], s);
      var i :| 0 <= i < |edits[1..]| && edits[1..][i].path != [] && edits[1..][i].path[0] == s;
      assert edits[i + 1].path[0] == s;
    }
  }

  /* ---------- swapping the sides ---------- */

  ghost function FlipOp(op: DiffOp): DiffOp {
    match op
    case Added => Removed
    case Removed => Added
    case Changed => Changed
  }

  /** The same paths in the same order, seen from the other side. */
  ghost function Flip(edits: seq<Edit>): (r: seq<Edit>)
    ensures |r| == |edits|
    ensures forall i :: 0 <= i < |r|
              ==> r[i] == Edit(edits[i].path, FlipOp(edits[i].op), edits[i].after, edits[i].before)
  {
    seq(|edits|,
        i requires 0 <= i < |edits| => Edit(edits[i].path, FlipOp(edits[i].op), edits[i].after, edits[i].before))
  }

  lemma {:induction false} WalkKidsFlip(a: Json, b: Json, r: Reading, segs: seq<Seg>)
    requires Reads(a, r) && Reads(b, r)
    requires forall s :: s in segs ==> KidEdits(b, a, r, s) == Flip(KidEdits(a, b, r, s))
    ensures WalkKids(b, a, r, segs) == Flip(WalkKids(a, b, r, segs))
    decreases |segs|
  {
    if segs != [] {
      assert segs[0] in segs;
      WalkKidsFlip(a, b, r, segs[1..]);
    }
  }

  /** Comparing the other way round reports the same paths in the same order, with
      additions and removals, and old and new values, exchanged. */
  lemma {:induction false} WalkFlips(a: Json, b: Json)
    ensures Walk(b, a) == Flip(Walk(a, b))
    decreases a
  {
    if Shared(a, b).Some? {
      var r := Shared(a, b).value;
      assert Visit(b, a, r) == Visit(a, b, r) by {
        match r {
          case AsFields => assert a.fields.Keys + b.fields.Keys == b.fields.Keys + a.fields.Keys;
          case AsNamed => assert Names(a.items) + Names(b.items) == Names(b.items) + Names(a.items);
          case AsItems =>
        }
      }
      forall s | s in Visit(a, b, r) ensures KidEdits(b, a, r, s) == Flip(KidEdits(a, b, r, s)) {
        if s in Segs(a, r) && s in Segs(b, r) { WalkFlips(Kid(a, r, s), Kid(b, r, s)); }
      }
      WalkKidsFlip(a, b, r, Visit(a, b, r));
    }
  }
}
