/** The structural comparison of two JSON values as a list of edits, and what it means
    for that list to be exact. */
module Diff {
  import opened Prelude
  import opened Lex
  import opened Json
  import opened FieldPaths

  datatype DiffOp = Added | Removed | Changed

  /** One changed path. */
  datatype Edit = Edit(path: seq<Seg>, op: DiffOp, before: Option<Json>, after: Option<Json>)

  /** How a composite value is read: an object by key, a list by name or by position. */
  datatype Reading = AsFields | AsNamed | AsItems

  /* ---------- the named-list convention ---------- */

  predicate HasName(v: Json) {
    v.Obj? && "name" in v.fields && v.fields["name"].Str? && v.fields["name"].text != ""
  }

  function NameOf(v: Json): string
    requires HasName(v)
  {
    v.fields["name"].text
  }

  /** No element lacks a name, and no two share one. */
  predicate IsNamed(items: seq<Json>) {
    && items != []
    && (forall i :: 0 <= i < |items| ==> HasName(items[i]))
    && (forall i, j :: 0 <= i < j < |items| ==> NameOf(items[i]) != NameOf(items[j]))
  }

  function Names(items: seq<Json>): set<string>
    requires IsNamed(items)
  {
    set i | 0 <= i < |items| :: NameOf(items[i])
  }

  ghost function IndexOfName(items: seq<Json>, name: string): (i: nat)
    requires IsNamed(items) && name in Names(items)
    ensures i < |items| && NameOf(items[i]) == name
  {
    var i :| 0 <= i < |items| && NameOf(items[i]) == name;
    i
  }

  /* ---------- reading a value ---------- */

  predicate Reads(v: Json, r: Reading) {
    match r
    case AsFields => v.Obj?
    case AsNamed => v.Arr? && IsNamed(v.items)
    case AsItems => v.Arr?
  }

  ghost function Segs(v: Json, r: Reading): set<Seg>
    requires Reads(v, r)
  {
    match r
    case AsFields => set k | k in v.fields :: Key(k)
    case AsNamed => set n | n in Names(v.items) :: Named(n)
    case AsItems => set i: nat | i < |v.items| :: Index(i)
  }

  ghost function Kid(v: Json, r: Reading, s: Seg): (k: Json)
    requires Reads(v, r) && s in Segs(v, r)
    ensures k < v
  {
    match r
    case AsFields => v.fields[s.key]
    case AsNamed => v.items[IndexOfName(v.items, s.name)]
    case AsItems => v.items[s.i]
  }

  /** The reading two values are compared under, if both are composite alike. */
  function Shared(a: Json, b: Json): Option<Reading> {
    if a.Obj? && b.Obj? then Some(AsFields)
    else if a.Arr? && b.Arr? then
      if IsNamed(a.items) && IsNamed(b.items) then Some(AsNamed) else Some(AsItems)
    else None
  }

  ghost function Keys(names: seq<string>): seq<Seg> {
    seq(|names|, i requires 0 <= i < |names| => Key(names[i]))
  }

  ghost function Nameds(names: seq<string>): seq<Seg> {
    seq(|names|, i requires 0 <= i < |names| => Named(names[i]))
  }

  ghost function Indexes(n: nat): seq<Seg> {
    seq(n, i requires 0 <= i < n => Index(i))
  }

  /** The segments of either value, in the order the walk visits them. */
  ghost function Visit(a: Json, b: Json, r: Reading): seq<Seg>
    requires Reads(a, r) && Reads(b, r)
  {
    match r
    case AsFields => Keys(Ascending(a.fields.Keys + b.fields.Keys))
    case AsNamed => Nameds(Ascending(Names(a.items) + Names(b.items)))
    case AsItems => Indexes(if |a.items| >= |b.items| then |a.items| else |b.items|)
  }

  ghost predicate DistinctSegs(s: seq<Seg>) {
    forall i, j :: 0 <= i < j < |s| ==> s[i] != s[j]
  }

  lemma VisitsAll(a: Json, b: Json, r: Reading)
    requires Reads(a, r) && Reads(b, r)
    ensures DistinctSegs(Visit(a, b, r))
    ensures forall s :: s in Visit(a, b, r) <==> s in Segs(a, r) || s in Segs(b, r)
  {
    match r {
      case AsFields => VisitsNames(a.fields.Keys + b.fields.Keys);
      case AsNamed => VisitsNames(Names(a.items) + Names(b.items));
      case AsItems =>
        var visit := Visit(a, b, r);
        forall s ensures s in visit <==> s in Segs(a, r) || s in Segs(b, r) {
          if s in Segs(a, r) || s in Segs(b, r) { assert visit[s.i] == s; }
        }
    }
  }

  lemma VisitsNames(names: set<string>)
    ensures DistinctSegs(Keys(Ascending(names))) && DistinctSegs(Nameds(Ascending(names)))
    ensures forall s :: s in Keys(Ascending(names)) <==> s.Key? && s.key in names
    ensures forall s :: s in Nameds(Ascending(names)) <==> s.Named? && s.name in names
  {
    var sorted := Ascending(names);
    SortedDistinct(sorted);
    assert forall n :: n in names <==> n in sorted by {
      assert forall n :: n in sorted <==> n in Elements(sorted);
    }
    forall s ensures s in Keys(sorted) <==> s.Key? && s.key in names {
      if s.Key? && s.key in names {
        var i :| 0 <= i < |sorted| && sorted[i] == s.key;
        assert Keys(sorted)[i] == s;
      }
    }
    forall s ensures s in Nameds(sorted) <==> s.Named? && s.name in names {
      if s.Named? && s.name in names {
        var i :| 0 <= i < |sorted| && sorted[i] == s.name;
        assert Nameds(sorted)[i] == s;
      }
    }
  }

  /* ---------- the walk ---------- */

  ghost function Under(s: Seg, edits: seq<Edit>): (r: seq<Edit>)
    ensures |r| == |edits| && forall i :: 0 <= i < |r| ==> r[i] == edits[i].(path := [s] + edits[i].path)
  {
    seq(|edits|, i requires 0 <= i < |edits| => edits[i].(path := [s] + edits[i].path))
  }

  /** The edits that turn a into b, in the order the walk reports them, unbounded. */
  ghost function Walk(a: Json, b: Json): seq<Edit>
    decreases a, 2, 0
  {
    var r := Shared(a, b);
    if r.None? then
      if a == b then [] else [Edit([], Changed, Some(a), Some(b))]
    else WalkKids(a, b, r.value, Visit(a, b, r.value))
  }

  ghost function WalkKids(a: Json, b: Json, r: Reading, segs: seq<Seg>): seq<Edit>
    requires Reads(a, r) && Reads(b, r)
    decreases a, 1, |segs|
  {
    if segs == [] then []
    else Under(segs[0], KidEdits(a, b, r, segs[0])) + WalkKids(a, b, r, segs[1..])
  }

  ghost function KidEdits(a: Json, b: Json, r: Reading, s: Seg): seq<Edit>
    requires Reads(a, r) && Reads(b, r)
    decreases a, 0, 0
  {
    if s in Segs(a, r) && s in Segs(b, r) then Walk(Kid(a, r, s), Kid(b, r, s))
    else if s in Segs(b, r) then [Edit([], Added, None, Some(Kid(b, r, s)))]
    else if s in Segs(a, r) then [Edit([], Removed, Some(Kid(a, r, s)), None)]
    else []
  }

  /* ---------- normal forms ---------- */

  /** A value up to the order of uniquely named lists. */
  datatype Norm = Leaf(value: Json) | Node(reading: Reading, kids: map<Seg, Norm>)

  ghost predicate NormHasName(n: Norm) {
    && n.Node? && n.reading == AsFields && Key("name") in n.kids
    && n.kids[Key("name")].Leaf? && n.kids[Key("name")].value.Str? && n.kids[Key("name")].value.text != ""
  }

  ghost function NormName(n: Norm): string
    requires NormHasName(n)
  {
    n.kids[Key("name")].value.text
  }

  ghost predicate NormNamed(items: map<Seg, Norm>) {
    && items != map[]
    && (forall s :: s in items ==> NormHasName(items[s]))
    && (forall s, t :: s in items && t in items && s != t ==> NormName(items[s]) != NormName(items[t]))
  }

  ghost function ByNormName(items: map<Seg, Norm>): map<Seg, Norm>
    requires NormNamed(items)
  {
    map s | s in items :: Named(NormName(items[s])) := items[s]
  }

  /** A list from its positional elements: keyed by name when the convention holds. */
  ghost function Collect(items: map<Seg, Norm>): Norm {
    if NormNamed(items) then Node(AsNamed, ByNormName(items))
    else Node(AsItems, items)
  }

  ghost function NormOf(v: Json): Norm
    decreases v, 1
  {
    match v
    case Obj(_) => Node(AsFields, NormKids(v, AsFields))
    case Arr(_) => Collect(NormKids(v, AsItems))
    case _ => Leaf(v)
  }

  ghost function NormKids(v: Json, r: Reading): map<Seg, Norm>
    requires Reads(v, r)
    decreases v, 0
  {
    map s | s in Segs(v, r) :: NormOf(Kid(v, r, s))
  }
}
