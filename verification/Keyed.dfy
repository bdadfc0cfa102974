/** The bounded item set of a collection collector, and the unbounded map it stands in for. */
module Keyed {
  import opened Counting
  import opened Lex

  /** How one resource's items are identified and which of them lose at the bound. A limit
      of zero is unbounded retention. */
  datatype Retention<!T> = Retention(name: T -> string, uid: T -> string, limit: nat, evictable: (T, T) -> bool)

  /* ---------- the policy as an order ---------- */

  ghost predicate StrictOrder<T(!new)>(lt: (T, T) -> bool) {
    && (forall a, b :: lt(a, b) ==> !lt(b, a))
    && (forall a, b, c :: lt(a, b) && lt(b, c) ==> lt(a, c))
  }

  /** A strict weak order: what an eviction policy must be for its loser to be well defined. */
  ghost predicate WeakOrder<T(!new)>(lt: (T, T) -> bool) {
    && (forall a, b :: lt(a, b) ==> !lt(b, a))
    && (forall a, b, c :: lt(a, b) ==> lt(a, c) || lt(c, b))
  }

  ghost predicate Distinguishes<T>(lt: (T, T) -> bool, m: map<string, T>) {
    forall a, b :: a in m && b in m && a != b ==> lt(m[a], m[b]) || lt(m[b], m[a])
  }

  /** The entry dropped at the bound: nothing retained would have been dropped before it. */
  ghost predicate Loses<T>(loser: string, m: map<string, T>, evictable: (T, T) -> bool) {
    loser in m && forall n :: n in m ==> !evictable(m[n], m[loser])
  }

  /* ---------- one put, one remove ---------- */

  ghost predicate Full<T>(m: map<string, T>, p: Retention<T>, name: string) {
    name !in m && p.limit > 0 && |m| >= p.limit
  }

  ghost predicate PutInto<T>(before: map<string, T>, after: map<string, T>, item: T, p: Retention<T>, evicted: bool) {
    var name := p.name(item);
    && evicted == Full(before, p, name)
    && if evicted then exists loser :: Loses(loser, before, p.evictable) && after == (before - {loser})[name := item]
       else after == before[name := item]
  }

  function Remove<T>(m: map<string, T>, name: string, uid: string, p: Retention<T>): map<string, T> {
    if name in m && p.uid(m[name]) == uid then m - {name} else m
  }

  ghost predicate Submap<T>(m: map<string, T>, whole: map<string, T>) {
    forall n :: n in m ==> n in whole && m[n] == whole[n]
  }

  /* ---------- the first items in an order ---------- */

  /** The first n of a map's items: no fewer than there are, and every one before all the rest. */
  ghost predicate Leads<T>(lead: set<string>, m: map<string, T>, n: nat, lt: (T, T) -> bool) {
    && lead <= m.Keys
    && |lead| == (if |m| <= n then |m| else n)
    && forall a, b :: a in lead && b in m && b !in lead ==> lt(m[a], m[b])
  }

  ghost predicate First<T>(k: string, m: map<string, T>, keys: set<string>, lt: (T, T) -> bool)
    requires keys <= m.Keys
  {
    k in keys && forall d :: d in keys && d != k ==> lt(m[k], m[d])
  }

  lemma FirstExists<T(!new)>(m: map<string, T>, keys: set<string>, lt: (T, T) -> bool)
    requires keys != {} && keys <= m.Keys && StrictOrder(lt) && Distinguishes(lt, m)
    ensures exists k :: First(k, m, keys, lt)
    decreases |keys|
  {
    var k :| k in keys;
    var rest := keys - {k};
    if rest == {} {
      assert forall d :: d in keys ==> d == k || d in rest;
      assert First(k, m, keys, lt);
    } else {
      FirstExists(m, rest, lt);
      var f :| First(f, m, rest, lt);
      assert forall d :: d in keys ==> d == k || d in rest;
      assert First(if lt(m[k], m[f]) then k else f, m, keys, lt);
    }
  }

  lemma {:induction false} LeadExists<T(!new)>(m: map<string, T>, n: nat, lt: (T, T) -> bool)
    requires StrictOrder(lt) && Distinguishes(lt, m)
    ensures exists lead :: Leads(lead, m, n, lt)
    decreases n
  {
    assert |m.Keys| == |m|;
    if |m| <= n {
      assert Leads(m.Keys, m, n, lt);
    } else if n == 0 {
      assert Leads({}, m, n, lt);
    } else {
      assert m.Keys != {};
      FirstExists(m, m.Keys, lt);
      var f :| First(f, m, m.Keys, lt);
      var rest := m - {f};
      DropCount(m, f);
      LeadExists(rest, n - 1, lt);
      var lead :| Leads(lead, rest, n - 1, lt);
      assert |lead + {f}| == n;
      forall a, b | a in lead + {f} && b in m && b !in lead + {f} ensures lt(m[a], m[b]) {
        if a != f { assert b in rest && lt(rest[a], rest[b]); }
      }
      assert Leads(lead + {f}, m, n, lt);
    }
  }

  /** Two sets that cannot each hold something the other lacks are nested. */
  lemma Nested<T>(a: set<T>, b: set<T>)
    requires forall x, y :: x in a && y in b ==> x in b || y in a
    ensures |b| <= |a| ==> b <= a
  {
    if !(b <= a) {
      var y :| y in b && y !in a;
      assert a <= b;
      SubsetCount(a, b);
    }
  }

  /** One put admits at most the item it puts to the first n. */
  lemma LeadGrows<T(!new)>(m: map<string, T>, lead: set<string>, name: string, item: T, lead': set<string>, n: nat,
                           lt: (T, T) -> bool)
    requires StrictOrder(lt) && Leads(lead, m, n, lt) && Leads(lead', m[name := item], n, lt)
    requires name in lead ==> !lt(m[name], item)
    ensures lead' <= lead + {name}
  {
    var m' := m[name := item];
    PutCount(m, name, item);
    if |m| <= n {
      assert |m.Keys| == |m|;
      SubsetCount(lead, m.Keys);
    } else if y :| y in lead' && y !in lead + {name} {
      assert lead <= lead';
      SubsetCount(lead + {y}, lead');
    }
  }

  /* ---------- the retained set against the unbounded map ---------- */

  /** Whatever the policy, a put into both keeps the retained set a part of the whole, and
      nothing is lost that the result does not report. */
  lemma PutRefines<T>(before: map<string, T>, after: map<string, T>, whole: map<string, T>, item: T, p: Retention<T>,
                      evicted: bool)
    requires Submap(before, whole) && PutInto(before, after, item, p, evicted)
    ensures Submap(after, whole[p.name(item) := item])
    ensures before == whole && !evicted ==> after == whole[p.name(item) := item]
  {
  }

  /** A put evicts exactly when it would otherwise exceed the limit. */
  lemma PutCounts<T>(before: map<string, T>, after: map<string, T>, item: T, p: Retention<T>, evicted: bool)
    requires PutInto(before, after, item, p, evicted)
    ensures |after| == if evicted || p.name(item) in before then |before| else |before| + 1
    ensures p.limit > 0 && |before| <= p.limit ==> |after| <= p.limit
  {
    PutCount(before, p.name(item), item);
    if evicted {
      var loser :| Loses(loser, before, p.evictable) && after == (before - {loser})[p.name(item) := item];
      DropCount(before, loser);
      PutCount(before - {loser}, p.name(item), item);
    }
  }

  /** A deletion matched by incarnation keeps the retained set a part of the whole. */
  lemma RemoveRefines<T>(m: map<string, T>, whole: map<string, T>, name: string, uid: string, p: Retention<T>)
    requires Submap(m, whole)
    ensures Submap(Remove(m, name, uid, p), Remove(whole, name, uid, p))
    ensures |Remove(m, name, uid, p)| <= |m|
  {
    DropCount(m, name);
  }

  /* ---------- publication ---------- */

  /** The published list: the first n items, in order. */
  ghost predicate Published<T>(out: seq<string>, m: map<string, T>, n: nat, lt: (T, T) -> bool) {
    && Leads(Elements(out), m, n, lt)
    && |out| == |Elements(out)|
    && forall i, j :: 0 <= i < j < |out| ==> out[i] in m && out[j] in m && lt(m[out[i]], m[out[j]])
  }

  lemma LeadUnique<T(!new)>(a: set<string>, b: set<string>, m: map<string, T>, n: nat, lt: (T, T) -> bool)
    requires StrictOrder(lt) && Leads(a, m, n, lt) && Leads(b, m, n, lt)
    ensures a == b
  {
    forall x, y | x in a && y in b ensures x in b || y in a {
      if x !in b { assert lt(m[y], m[x]); }
    }
    Nested(a, b);
    Nested(b, a);
  }

  /** The retained set holds the first n items of the whole. */
  ghost predicate HoldsLead<T>(m: map<string, T>, whole: map<string, T>, n: nat, lt: (T, T) -> bool) {
    Submap(m, whole) && exists lead :: Leads(lead, whole, n, lt) && lead <= m.Keys
  }

  lemma LeadWithin<T>(m: map<string, T>, whole: map<string, T>, lead: set<string>, n: nat, lt: (T, T) -> bool)
    requires Submap(m, whole) && Leads(lead, whole, n, lt) && lead <= m.Keys
    ensures Leads(lead, m, n, lt)
    ensures |whole| <= n ==> m.Keys == whole.Keys
  {
    SubmapCount(m, whole);
    SubsetCount(lead, m.Keys);
    assert |m.Keys| == |m| && |whole.Keys| == |whole|;
    if |whole| <= n { SubsetCount(lead, whole.Keys); }
  }

  /** What is published from the retained set is what the unbounded map would publish. */
  lemma PublishesWhole<T(!new)>(out: seq<string>, m: map<string, T>, whole: map<string, T>, n: nat, lt: (T, T) -> bool)
    requires StrictOrder(lt) && HoldsLead(m, whole, n, lt)
    ensures Published(out, m, n, lt) <==> Published(out, whole, n, lt)
  {
    var lead :| Leads(lead, whole, n, lt) && lead <= m.Keys;
    LeadWithin(m, whole, lead, n, lt);
    if Published(out, m, n, lt) {
      LeadUnique(Elements(out), lead, m, n, lt);
      assert forall i :: 0 <= i < |out| ==> out[i] in Elements(out);
    }
    if Published(out, whole, n, lt) {
      LeadUnique(Elements(out), lead, whole, n, lt);
      assert forall i :: 0 <= i < |out| ==> out[i] in Elements(out);
    }
  }

  /** There is one published list. */
  lemma {:induction false} PublishedUnique<T(!new)>(a: seq<string>, b: seq<string>, m: map<string, T>, n: nat,
                                                    lt: (T, T) -> bool)
    requires StrictOrder(lt) && Published(a, m, n, lt) && Published(b, m, n, lt)
    ensures a == b
  {
    LeadUnique(Elements(a), Elements(b), m, n, lt);
    OrderedUnique(a, b, m, lt);
  }

  ghost predicate OrderedBy<T>(s: seq<string>, m: map<string, T>, lt: (T, T) -> bool) {
    && (forall i :: 0 <= i < |s| ==> s[i] in m)
    && forall i, j :: 0 <= i < j < |s| ==> lt(m[s[i]], m[s[j]])
  }

  lemma {:induction false} OrderedUnique<T(!new)>(a: seq<string>, b: seq<string>, m: map<string, T>, lt: (T, T) -> bool)
    requires StrictOrder(lt) && |a| == |b| && Elements(a) == Elements(b) && Elements(a) <= m.Keys
    requires forall i, j :: 0 <= i < j < |a| ==> a[i] in m && a[j] in m && lt(m[a[i]], m[a[j]])
    requires forall i, j :: 0 <= i < j < |b| ==> b[i] in m && b[j] in m && lt(m[b[i]], m[b[j]])
    ensures a == b
    decreases |a|
  {
    if a != [] {
      assert a[0] in Elements(a);
      assert a[0] in Elements(b);
      var i :| 0 <= i < |b| && b[i] == a[0];
      assert b[0] in Elements(b);
      assert b[0] in Elements(a);
      var j :| 0 <= j < |a| && a[j] == b[0];
      assert i == 0;
      assert forall x :: x in Elements(a[1..]) ==> x in Elements(a) && x != a[0];
      assert forall x :: x in Elements(b[1..]) ==> x in Elements(b) && x != b[0];
      assert Elements(a[1..]) == Elements(a) - {a[0]};
      assert Elements(b[1..]) == Elements(b) - {b[0]};
      OrderedUnique(a[1..], b[1..], m, lt);
    }
  }

  /* ---------- the two policies ---------- */

  datatype Item = Item(name: string, uid: string, created: int, facts: string)

  function ByName(a: Item, b: Item): bool { Less(a.name, b.name) }

  function NameAfter(a: Item, b: Item): bool { Less(b.name, a.name) }

  function ByRecency(a: Item, b: Item): bool {
    if a.created != b.created then a.created > b.created else Less(a.name, b.name)
  }

  function Older(a: Item, b: Item): bool { a.created < b.created }

  ghost predicate Named(m: map<string, Item>) {
    forall k :: k in m ==> m[k].name == k
  }

  lemma OrdersLawful()
    ensures StrictOrder(ByName) && WeakOrder(NameAfter)
    ensures StrictOrder(ByRecency) && WeakOrder(Older)
  {
    LessLaws();
    assert forall a, b :: ByName(a, b) <==> Less(a.name, b.name);
    assert forall a, b :: NameAfter(a, b) <==> Less(b.name, a.name);
  }

  lemma LessLaws()
    ensures forall a, b :: Less(a, b) ==> !Less(b, a)
    ensures forall a, b, c :: Less(a, b) && Less(b, c) ==> Less(a, c)
    ensures forall a, b, c :: Less(a, b) ==> Less(a, c) || Less(c, b)
  {
    forall a, b ensures Less(a, b) ==> !Less(b, a) { LessTotal(a, b); }
    forall a, b, c | Less(a, b) && Less(b, c) ensures Less(a, c) { LessTransitive(a, b, c); }
    forall a, b, c | Less(a, b) ensures Less(a, c) || Less(c, b) {
      LessTotal(a, c);
      if Less(c, a) { LessTransitive(c, a, b); }
    }
  }

  lemma TellsApart(m: map<string, Item>)
    requires Named(m)
    ensures Distinguishes(ByName, m) && Distinguishes(ByRecency, m)
  {
    forall a, b | a in m && b in m && a != b
      ensures ByName(m[a], m[b]) || ByName(m[b], m[a])
      ensures ByRecency(m[a], m[b]) || ByRecency(m[b], m[a])
    {
      LessTotal(a, b);
    }
  }

  const NAME: Item -> string := (i: Item) => i.name
  const UID: Item -> string := (i: Item) => i.uid

  function NameRetention(n: nat): Retention<Item> { Retention(NAME, UID, n + 1, NameAfter) }

  function AgeRetention(n: nat): Retention<Item> { Retention(NAME, UID, n + 1, Older) }
}
