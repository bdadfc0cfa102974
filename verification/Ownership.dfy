/** Who owns which field path, read from an object's managed fields under one budget. */
module Ownership {
  import opened Prelude
  import opened Counting
  import opened Lex
  import opened Json
  import opened FieldPaths
  import H = History
  import A = Attribution

  const MAX_OWNED_PATHS := 128

  /** JSON as the encoding library reads and writes it. */
  datatype Codec = Codec(decode: string -> Option<Json>, encode: Json -> Option<string>)

  /* ---------- associative keys ---------- */

  /** The merge keys of one list element; a null reads as none. */
  function MergeKeys(raw: string, codec: Codec): Option<map<string, Json>> {
    match codec.decode(raw)
    case Some(Obj(fields)) => Some(fields)
    case Some(Null) => Some(map[])
    case _ => None
  }

  predicate IsNameOnly(raw: string, codec: Codec) {
    var keys := MergeKeys(raw, codec);
    keys.Some? && |keys.value| == 1 && "name" in keys.value && keys.value["name"].Str?
  }

  function NameIn(raw: string, codec: Codec): string
    requires IsNameOnly(raw, codec)
  {
    MergeKeys(raw, codec).value["name"].text
  }

  function Part(key: string, value: Json, codec: Codec): seq<string> {
    match codec.encode(value)
    case Some(text) => [key + "=" + text]
    case None => []
  }

  function Parts(fields: map<string, Json>, keys: seq<string>, codec: Codec): seq<string>
    requires forall i :: 0 <= i < |keys| ==> keys[i] in fields
  {
    if keys == [] then []
    else
      var n := |keys| - 1;
      Parts(fields, keys[..n], codec) + Part(keys[n], fields[keys[n]], codec)
  }

  function Join(parts: seq<string>): string {
    if parts == [] then "" else if |parts| == 1 then parts[0] else parts[0] + "," + Join(parts[1..])
  }

  /** Every part is there, in order, a comma before each but the first. */
  lemma {:induction false} JoinConcat(a: seq<string>, b: seq<string>)
    requires a != [] && b != []
    ensures Join(a + b) == Join(a) + "," + Join(b)
    ensures Join([a[0]]) == a[0]
    decreases |a|
  {
    assert (a + b)[1..] == a[1..] + b && (a + b)[0] == a[0];
    if |a| > 1 {
      JoinConcat(a[1..], b);
      assert a[0] + "," + (Join(a[1..]) + "," + Join(b)) == a[0] + "," + Join(a[1..]) + "," + Join(b);
    } else {
      assert a[1..] + b == b;
    }
  }

  /** What stands between the brackets of a rendered element. */
  ghost function Body(raw: string, codec: Codec): string {
    var keys := MergeKeys(raw, codec);
    if keys.None? then raw
    else if IsNameOnly(raw, codec) then "name=" + NameIn(raw, codec)
    else
      AscendingKeys(keys.value.Keys);
      Join(Parts(keys.value, Ascending(keys.value.Keys), codec))
  }

  ghost function AssociativeSegment(raw: string, codec: Codec): string {
    "[" + Body(raw, codec) + "]"
  }

  method RenderSegment(raw: string, codec: Codec) returns (s: string)
    ensures s == AssociativeSegment(raw, codec)
    ensures IsNameOnly(raw, codec) ==> s == FieldPathNamed("", NameIn(raw, codec))
  {
    if IsNameOnly(raw, codec) { NameOnlySegment(raw, codec); }
    var fields := MergeKeys(raw, codec);
    if fields.None? { return "[" + raw + "]"; }
    if IsNameOnly(raw, codec) { return FieldPathNamed("", fields.value["name"].text); }
    var body := RenderParts(fields.value, codec);
    s := "[" + body + "]";
  }

  lemma NameOnlySegment(raw: string, codec: Codec)
    requires IsNameOnly(raw, codec)
    ensures AssociativeSegment(raw, codec) == FieldPathNamed("", NameIn(raw, codec))
  {
    Regroup("[", "name=", NameIn(raw, codec));
  }

  /** What each kind of key renders as: the one textual name as the differ renders an element,
      any other merge keys in key order, a null as none, and the rest as it is spelled. */
  lemma SegmentMeans(raw: string, codec: Codec)
    ensures var d, segment := codec.decode(raw), AssociativeSegment(raw, codec);
            if d.Some? && d.value.Obj? then
              && (forall i :: 0 <= i < |Ascending(d.value.fields.Keys)|
                    ==> Ascending(d.value.fields.Keys)[i] in d.value.fields)
              && (if d.value.fields.Keys == {"name"} && d.value.fields["name"].Str? then
                    segment == "[name=" + d.value.fields["name"].text + "]"
                  else segment == "[" + Join(Parts(d.value.fields, Ascending(d.value.fields.Keys), codec)) + "]")
            else if d == Some(Null) then segment == "[]"
            else segment == "[" + raw + "]"
  {
    var d := codec.decode(raw);
    if d.Some? && d.value.Obj? {
      AscendingKeys(d.value.fields.Keys);
      OneKey(d.value.fields);
      if IsNameOnly(raw, codec) { NameOnlySegment(raw, codec); }
    } else if d == Some(Null) {
      var none: map<string, Json> := map[];
      AscendingKeys(none.Keys);
      assert Ascending(none.Keys) == [];
    }
  }

  lemma OneKey(fields: map<string, Json>)
    ensures |fields| == 1 && "name" in fields <==> fields.Keys == {"name"}
  {
    assert |fields.Keys| == |fields|;
    if |fields| == 1 && "name" in fields { SubsetCount({"name"}, fields.Keys); }
  }

  method RenderParts(fields: map<string, Json>, codec: Codec) returns (body: string)
    ensures (forall i :: 0 <= i < |Ascending(fields.Keys)| ==> Ascending(fields.Keys)[i] in fields)
            && body == Join(Parts(fields, Ascending(fields.Keys), codec))
  {
    var keys := SortKeys(fields.Keys);
    AscendingKeys(fields.Keys);
    var parts: seq<string> := [];
    for i := 0 to |keys|
      invariant parts == Parts(fields, keys[..i], codec)
    {
      PartsNext(fields, keys, i, codec);
      var encoded := codec.encode(fields[keys[i]]);
      if encoded.Some? { parts := parts + [keys[i] + "=" + encoded.value]; }
    }
    assert keys[..|keys|] == keys;
    body := Join(parts);
  }

  lemma {:induction false} PartsNext(fields: map<string, Json>, keys: seq<string>, i: nat, codec: Codec)
    requires i < |keys| && forall j :: 0 <= j < |keys| ==> keys[j] in fields
    ensures var before, part := Parts(fields, keys[..i], codec), Part(keys[i], fields[keys[i]], codec);
            Parts(fields, keys[..i + 1], codec) == before + part && (part == [] ==> before + part == before)
  {
    assert keys[..i + 1][..i] == keys[..i];
  }

  /* ---------- the paths one tree owns ---------- */

  /** The paths claimed under one key: its own node for "." and "v:", a field's for "f:",
      a list element's for "k:". */
  ghost function OwnedAt(prefix: string, node: Json, key: string, codec: Codec): seq<string>
    requires node.Obj? && key in node.fields
    decreases node, 0, 0
  {
    if key == "." || "v:" <= key then (if prefix != "" then [prefix] else [])
    else if "f:" <= key then Below(FieldPathKey(prefix, key[2..]), node.fields[key], codec)
    else if "k:" <= key then Below(prefix + AssociativeSegment(key[2..], codec), node.fields[key], codec)
    else []
  }

  /** A non-empty subtree's paths, or the leaf itself. */
  ghost function Below(path: string, v: Json, codec: Codec): seq<string>
    decreases v, 2, 0
  {
    if v.Obj? && v.fields != map[] then Owned(path, v, Ascending(v.fields.Keys), codec) else [path]
  }

  ghost function Owned(prefix: string, node: Json, keys: seq<string>, codec: Codec): seq<string>
    requires node.Obj? && forall i :: 0 <= i < |keys| ==> keys[i] in node.fields
    decreases node, 1, |keys|
  {
    if keys == [] then []
    else
      var n := |keys| - 1;
      Owned(prefix, node, keys[..n], codec) + OwnedAt(prefix, node, keys[n], codec)
  }

  lemma AscendingKeys(keys: set<string>)
    ensures forall i :: 0 <= i < |Ascending(keys)| ==> Ascending(keys)[i] in keys
  {
    assert forall i :: 0 <= i < |Ascending(keys)| ==> Ascending(keys)[i] in Elements(Ascending(keys));
  }

  function First<T>(n: nat, s: seq<T>): (f: seq<T>)
    ensures |f| == if |s| <= n then |s| else n
  {
    if |s| <= n then s else s[..n]
  }

  lemma FirstThen<T>(n: nat, a: seq<T>, b: seq<T>)
    ensures First(n, a + b) == First(n, a) + First(n - |First(n, a)|, b)
  {
  }

  class Walker {
    const codec: Codec
    var paths: seq<string>
    var budget: nat

    constructor (codec: Codec, budget: nat)
      ensures this.codec == codec && paths == [] && this.budget == budget
    {
      this.codec, paths, this.budget := codec, [], budget;
    }

    ghost function Held(): (seq<string>, nat)
      reads this
    {
      (paths, budget)
    }

    /** Offers the paths of a whole tree; the budget decides how many are taken. */
    method CollectOwned(prefix: string, node: Json)
      requires node.Obj?
      modifies this
      ensures Held() == Spent(old(Held()), KeysOf(prefix, node, codec))
      decreases node, 1
    {
      var keys := SortKeys(node.fields.Keys);
      AscendingKeys(node.fields.Keys);
      ghost var start := Held();
      SpentNone(start);
      for i := 0 to |keys|
        invariant Held() == Spent(start, Owned(prefix, node, keys[..i], codec))
      {
        ghost var some := Owned(prefix, node, keys[..i], codec);
        if budget == 0 {
          OwnedPrefix(prefix, node, keys, i, codec);
          SpentOut(start, some, KeysOf(prefix, node, codec));
          return;
        }
        var key := keys[i];
        OwnedNext(prefix, node, keys, i, codec);
        SpentThen(start, some, OwnedAt(prefix, node, key, codec));
        Take(prefix, node, key);
      }
      assert keys[..|keys|] == keys;
    }

    /** One key of the tree. */
    method Take(prefix: string, node: Json, key: string)
      requires node.Obj? && key in node.fields && budget > 0
      modifies this
      ensures Held() == Spent(old(Held()), OwnedAt(prefix, node, key, codec))
      decreases node, 0
    {
      SpentNone(Held());
      if key == "." || "v:" <= key {
        if prefix != "" {
          paths, budget := paths + [prefix], budget - 1;
        }
      } else if "f:" <= key {
        Descend(FieldPathKey(prefix, key[2..]), node.fields[key]);
      } else if "k:" <= key {
        var element := RenderSegment(key[2..], codec);
        Descend(prefix + element, node.fields[key]);
      }
    }

    /** Offers the paths at or below one path, with at least one unit left to spend. */
    method Descend(path: string, v: Json)
      requires budget > 0
      modifies this
      ensures Held() == Spent(old(Held()), Below(path, v, codec))
      decreases v, 2
    {
      if v.Obj? && v.fields != map[] {
        CollectOwned(path, v);
        return;
      }
      paths, budget := paths + [path], budget - 1;
    }
  }

  ghost function KeysOf(prefix: string, node: Json, codec: Codec): seq<string>
    requires node.Obj?
  {
    AscendingKeys(node.fields.Keys);
    Owned(prefix, node, Ascending(node.fields.Keys), codec)
  }

  /** What a walker holds after it was offered more paths. */
  ghost function Spent(held: (seq<string>, nat), more: seq<string>): (seq<string>, nat) {
    (held.0 + First(held.1, more), held.1 - |First(held.1, more)|)
  }

  lemma SpentThen(held: (seq<string>, nat), a: seq<string>, b: seq<string>)
    ensures Spent(Spent(held, a), b) == Spent(held, a + b)
  {
    FirstThen(held.1, a, b);
    var x, y := First(held.1, a), First(held.1 - |First(held.1, a)|, b);
    assert (held.0 + x) + y == held.0 + (x + y);
  }

  lemma SpentNone(held: (seq<string>, nat))
    ensures Spent(held, []) == held
  {
    assert held.0 + [] == held.0;
  }

  lemma SpentOut(held: (seq<string>, nat), a: seq<string>, all: seq<string>)
    requires a <= all && Spent(held, a).1 == 0
    ensures Spent(held, a) == Spent(held, all)
  {
    assert all == a + all[|a|..];
    SpentThen(held, a, all[|a|..]);
    assert First(0, all[|a|..]) == [];
    assert Spent(held, a).0 + [] == Spent(held, a).0;
  }

  lemma OwnedNext(prefix: string, node: Json, keys: seq<string>, i: nat, codec: Codec)
    requires node.Obj? && i < |keys| && forall j :: 0 <= j < |keys| ==> keys[j] in node.fields
    ensures Owned(prefix, node, keys[..i + 1], codec)
            == Owned(prefix, node, keys[..i], codec) + OwnedAt(prefix, node, keys[i], codec)
  {
    assert keys[..i + 1][..i] == keys[..i];
  }

  lemma {:induction false} OwnedPrefix(prefix: string, node: Json, keys: seq<string>, i: nat, codec: Codec)
    requires node.Obj? && i <= |keys| && forall j :: 0 <= j < |keys| ==> keys[j] in node.fields
    ensures Owned(prefix, node, keys[..i], codec) <= Owned(prefix, node, keys, codec)
    decreases |keys| - i
  {
    if i < |keys| {
      OwnedNext(prefix, node, keys, i, codec);
      OwnedPrefix(prefix, node, keys, i + 1, codec);
    } else {
      assert keys[..i] == keys;
    }
  }

  /* ---------- owners ---------- */

  /** One managed-fields entry; fields is absent where it is not an object. */
  datatype Entry = Entry(manager: string, fields: Option<map<string, Json>>)

  datatype Claim = Claim(manager: string, path: string)

  ghost function Claims(manager: string, paths: seq<string>): (c: seq<Claim>)
    ensures |c| == |paths| && forall i :: 0 <= i < |c| ==> c[i] == Claim(manager, paths[i])
  {
    seq(|paths|, i requires 0 <= i < |paths| => Claim(manager, paths[i]))
  }

  predicate Counts(e: Entry) { e.manager != "" && e.fields.Some? }

  /** Every claim of every named manager, in order. */
  ghost function AllClaims(entries: seq<Entry>, codec: Codec): seq<Claim> {
    if entries == [] then []
    else
      var e := entries[|entries| - 1];
      AllClaims(entries[..|entries| - 1], codec)
      + (if Counts(e) then Claims(e.manager, KeysOf("", Obj(e.fields.value), codec)) else [])
  }

  /** The paths each manager was found to own are exactly its claims. */
  ghost predicate Groups(byManager: map<string, seq<string>>, claims: seq<Claim>) {
    && (forall c :: c in claims ==> c.manager in byManager && c.path in byManager[c.manager])
    && (forall m, p :: m in byManager && p in byManager[m] ==> Claim(m, p) in claims)
    && forall m :: m in byManager ==> byManager[m] != [] && m != ""
  }

  lemma GroupsMore(byManager: map<string, seq<string>>, claims: seq<Claim>, m: string, paths: seq<string>)
    requires Groups(byManager, claims) && m != "" && paths != []
    ensures Groups(byManager[m := (if m in byManager then byManager[m] else []) + paths], claims + Claims(m, paths))
  {
    var all := claims + Claims(m, paths);
    forall p | p in paths ensures Claim(m, p) in all {
      var i :| 0 <= i < |paths| && paths[i] == p;
      assert Claims(m, paths)[i] == Claim(m, p);
      assert all[|claims| + i] == Claim(m, p);
    }
  }

  /** The claims one entry adds under a budget. */
  ghost function ClaimsOf(e: Entry, budget: nat, codec: Codec): seq<Claim> {
    if Counts(e) then Claims(e.manager, First(budget, KeysOf("", Obj(e.fields.value), codec))) else []
  }

  lemma ClaimsNext(entries: seq<Entry>, i: nat, codec: Codec)
    requires i < |entries|
    ensures var done := First(MAX_OWNED_PATHS, AllClaims(entries[..i], codec));
            First(MAX_OWNED_PATHS, AllClaims(entries[..i + 1], codec))
              == done + ClaimsOf(entries[i], MAX_OWNED_PATHS - |done|, codec)
  {
    var e, before := entries[i], AllClaims(entries[..i], codec);
    assert entries[..i + 1][..i] == entries[..i];
    if Counts(e) {
      FirstThen(MAX_OWNED_PATHS, before, Claims(e.manager, KeysOf("", Obj(e.fields.value), codec)));
    } else {
      assert before + [] == before;
    }
  }

  /** What was grouped so far, with the budget it leaves. */
  ghost predicate Grouped(byManager: map<string, seq<string>>, budget: nat, claims: seq<Claim>) {
    Groups(byManager, claims) && budget + |claims| == MAX_OWNED_PATHS
  }

  method GroupEntry(e: Entry, codec: Codec, byManager: map<string, seq<string>>, budget: nat, ghost claims: seq<Claim>)
    returns (grouped: map<string, seq<string>>, left: nat)
    requires Grouped(byManager, budget, claims)
    ensures Grouped(grouped, left, claims + ClaimsOf(e, budget, codec))
  {
    assert claims + [] == claims;
    if e.manager == "" || e.fields.None? {
      return byManager, budget;
    }
    var walker := new Walker(codec, budget);
    walker.CollectOwned("", Obj(e.fields.value));
    var paths := walker.paths;
    assert paths == First(budget, KeysOf("", Obj(e.fields.value), codec));
    if |paths| == 0 {
      return byManager, walker.budget;
    }
    GroupsMore(byManager, claims, e.manager, paths);
    return byManager[e.manager := (if e.manager in byManager then byManager[e.manager] else []) + paths], walker.budget;
  }

  /** ownersOf, the grouping by manager. */
  method Group(entries: seq<Entry>, codec: Codec) returns (byManager: map<string, seq<string>>)
    ensures Groups(byManager, First(MAX_OWNED_PATHS, AllClaims(entries, codec)))
  {
    var budget: nat;
    byManager, budget := map[], MAX_OWNED_PATHS;
    for i := 0 to |entries|
      invariant Grouped(byManager, budget, First(MAX_OWNED_PATHS, AllClaims(entries[..i], codec)))
    {
      ClaimsNext(entries, i, codec);
      byManager, budget := GroupEntry(entries[i], codec, byManager, budget,
                                      First(MAX_OWNED_PATHS, AllClaims(entries[..i], codec)));
    }
    assert entries[..|entries|] == entries;
  }

  /** The owners as published: by manager, each with its paths in order and once, exactly
      the first claims of the managed fields up to the budget. */
  ghost predicate Publishes(owners: seq<H.FieldOwner>, claims: seq<Claim>) {
    && (forall i, j :: 0 <= i < j < |owners| ==> Less(owners[i].manager, owners[j].manager))
    && (forall i :: 0 <= i < |owners| ==> owners[i].manager != "" && owners[i].paths != [] && Sorted(owners[i].paths))
    && (forall i, p :: 0 <= i < |owners| && p in owners[i].paths ==> Claim(owners[i].manager, p) in claims)
    && forall c :: c in claims
         ==> exists i :: 0 <= i < |owners| && owners[i].manager == c.manager && c.path in owners[i].paths
  }

  method OwnersOf(entries: seq<Entry>, codec: Codec) returns (owners: seq<H.FieldOwner>)
    ensures Publishes(owners, First(MAX_OWNED_PATHS, AllClaims(entries, codec)))
  {
    ghost var claims := First(MAX_OWNED_PATHS, AllClaims(entries, codec));
    var byManager := Group(entries, codec);
    var managers := SortKeys(byManager.Keys);
    AscendingKeys(byManager.Keys);
    owners := [];
    for i := 0 to |managers|
      invariant |owners| == i
      invariant forall j :: 0 <= j < i ==> OwnerIs(owners[j], managers[j], byManager)
    {
      var paths := SortKeys(set p | p in byManager[managers[i]]);
      owners := owners + [H.FieldOwner(managers[i], paths)];
    }
    GroupedPublishes(owners, managers, byManager, claims);
  }

  ghost predicate OwnerIs(o: H.FieldOwner, m: string, byManager: map<string, seq<string>>) {
    m in byManager && o.manager == m && Sorted(o.paths) && Elements(o.paths) == Elements(byManager[m])
  }

  lemma GroupedPublishes(owners: seq<H.FieldOwner>, managers: seq<string>, byManager: map<string, seq<string>>,
                         claims: seq<Claim>)
    requires Groups(byManager, claims) && managers == Ascending(byManager.Keys) && |owners| == |managers|
    requires forall j :: 0 <= j < |owners| ==> OwnerIs(owners[j], managers[j], byManager)
    ensures Publishes(owners, claims)
  {
    forall i, p | 0 <= i < |owners| ensures p in owners[i].paths <==> p in byManager[owners[i].manager] {
      assert OwnerIs(owners[i], managers[i], byManager);
      assert p in Elements(owners[i].paths) <==> p in Elements(byManager[managers[i]]);
    }
    forall i | 0 <= i < |owners| ensures owners[i].paths != [] {
      assert byManager[owners[i].manager][0] in owners[i].paths;
    }
    forall c | c in claims
      ensures exists i :: 0 <= i < |owners| && owners[i].manager == c.manager && c.path in owners[i].paths {
      assert c.manager in Elements(managers);
      var i :| 0 <= i < |managers| && managers[i] == c.manager;
      assert owners[i].manager == c.manager;
    }
  }

  /** Captured owners are all named, so what a change is attributed to is the same in every
      order in which they are listed. */
  lemma CapturedOrderless(path: string, owners: seq<H.FieldOwner>, claims: seq<Claim>)
    requires Publishes(owners, claims)
    ensures "" !in A.Claimants(path, owners)
    ensures forall others :: multiset(others) == multiset(owners)
              ==> A.Attributed(path, others) == A.Attributed(path, owners)
  {
    NoneUnnamed(path, owners);
    A.OwnersOrderlessIff(path, owners);
  }

  lemma {:induction false} NoneUnnamed(path: string, owners: seq<H.FieldOwner>)
    requires forall i :: 0 <= i < |owners| ==> owners[i].manager != ""
    ensures "" !in A.Claimants(path, owners)
    decreases |owners|
  {
    if owners != [] { NoneUnnamed(path, owners[..|owners| - 1]); }
  }
}
