/** A collector's retained set over its whole life, beside the unbounded map a reader
    would expect, and the pages published from it. */
module KeyedStore {
  import opened Counting
  import opened Lex
  import opened Keyed
  import opened KeyedPages

  /* ---------- a retained set and what it stands for ---------- */

  /** The unbounded map holds everything handed over since the seed, less what was deleted.
      A partial seed handed over less than the source had; a growing one saw no deletion since. */
  datatype Account = Account(retained: map<string, Item>, truncated: bool, whole: map<string, Item>, partial: bool,
                             growing: bool)

  datatype Op = Start(partial: bool) | Put(item: Item) | Delete(name: string, uid: string)

  const EMPTY := Account(map[], false, map[], false, true)

  ghost predicate Kept(a: Account, n: nat) {
    && Named(a.whole) && Submap(a.retained, a.whole) && |a.retained| <= n + 1
    && (!a.truncated ==> a.retained == a.whole && !a.partial)
    && (a.growing && a.truncated ==> a.partial || |a.whole| > n)
  }

  ghost predicate Moves(a: Account, op: Op, b: Account, p: Retention<Item>) {
    match op
    case Start(partial) => b == Account(map[], partial, map[], partial, true)
    case Put(item) =>
      && PutInto(a.retained, b.retained, item, p, Full(a.retained, p, item.name))
      && b == Account(b.retained, a.truncated || Full(a.retained, p, item.name), a.whole[item.name := item], a.partial,
                      a.growing)
    case Delete(name, uid) =>
      b == Account(Remove(a.retained, name, uid, p), a.truncated, Remove(a.whole, name, uid, p), a.partial,
                   a.growing && Remove(a.whole, name, uid, p) == a.whole)
  }

  ghost predicate Lawful(p: Retention<Item>, n: nat) {
    p.name == NAME && p.uid == UID && p.limit == n + 1 && WeakOrder(p.evictable)
  }

  lemma PutKept(a: Account, b: Account, item: Item, p: Retention<Item>, n: nat)
    requires Kept(a, n) && p.name == NAME && p.limit == n + 1 && Moves(a, Put(item), b, p)
    ensures Kept(b, n)
  {
    PutRefines(a.retained, b.retained, a.whole, item, p, Full(a.retained, p, item.name));
    PutSizes(a.retained, b.retained, a.whole, item, p, n);
  }

  lemma PutSizes(before: map<string, Item>, after: map<string, Item>, whole: map<string, Item>, item: Item,
                 p: Retention<Item>, n: nat)
    requires p.name == NAME && p.limit == n + 1 && Submap(before, whole) && |before| <= n + 1
    requires PutInto(before, after, item, p, Full(before, p, item.name))
    ensures |after| <= n + 1 && |whole| <= |whole[item.name := item]|
    ensures Full(before, p, item.name) ==> |whole[item.name := item]| > n
  {
    PutCounts(before, after, item, p, Full(before, p, item.name));
    PutCount(whole, item.name, item);
    SubmapCount(before, whole);
  }

  lemma MovesKept(a: Account, op: Op, b: Account, p: Retention<Item>, n: nat)
    requires Kept(a, n) && p.name == NAME && p.limit == n + 1 && Moves(a, op, b, p)
    ensures Kept(b, n)
  {
    match op
    case Start(_) =>
    case Put(item) => PutKept(a, b, item, p, n);
    case Delete(name, uid) => RemoveRefines(a.retained, a.whole, name, uid, p);
  }

  /* ---------- a set's life ---------- */

  /** What was done to a set, and the account after each step. */
  datatype Life = Life(ops: seq<Op>, states: seq<Account>)

  ghost predicate Lived(l: Life, p: Retention<Item>) {
    && |l.states| == |l.ops| + 1 && l.states[0] == EMPTY
    && forall i :: 0 <= i < |l.ops| ==> Moves(l.states[i], l.ops[i], l.states[i + 1], p)
  }

  ghost function Now(l: Life): Account
    requires l.states != []
  {
    l.states[|l.states| - 1]
  }

  ghost function Then(l: Life, op: Op, b: Account): Life {
    Life(l.ops + [op], l.states + [b])
  }

  lemma LivesOn(l: Life, op: Op, b: Account, p: Retention<Item>)
    requires Lived(l, p) && Moves(Now(l), op, b, p)
    ensures Lived(Then(l, op, b), p) && Now(Then(l, op, b)) == b
  {
  }

  lemma {:induction false} LivedKept(l: Life, p: Retention<Item>, n: nat, i: nat)
    requires Lived(l, p) && p.name == NAME && p.limit == n + 1 && i <= |l.ops|
    ensures Kept(l.states[i], n)
    decreases i
  {
    if i > 0 {
      LivedKept(l, p, n, i - 1);
      NextKept(l, p, n, i - 1);
    }
  }

  lemma {:induction false} NextKept(l: Life, p: Retention<Item>, n: nat, i: nat)
    requires Lived(l, p) && p.name == NAME && p.limit == n + 1 && i < |l.ops| && Kept(l.states[i], n)
    ensures Kept(l.states[i + 1], n)
  {
    MovesKept(l.states[i], l.ops[i], l.states[i + 1], p, n);
  }

  /** The unbounded map, from what was done alone. */
  function Whole(ops: seq<Op>): map<string, Item> {
    if ops == [] then map[]
    else
      var before, op := Whole(ops[..|ops| - 1]), ops[|ops| - 1];
      match op
      case Start(_) => map[]
      case Put(item) => before[item.name := item]
      case Delete(name, uid) => if name in before && before[name].uid == uid then before - {name} else before
  }

  lemma WholeNext(ops: seq<Op>, i: nat, a: Account, b: Account, p: Retention<Item>)
    requires i < |ops| && p.uid == UID && Moves(a, ops[i], b, p) && a.whole == Whole(ops[..i])
    ensures b.whole == Whole(ops[..i + 1])
  {
    assert ops[..i + 1][..i] == ops[..i];
  }

  lemma {:induction false} WholeOfLife(l: Life, p: Retention<Item>, i: nat)
    requires Lived(l, p) && p.uid == UID && i <= |l.ops|
    ensures l.states[i].whole == Whole(l.ops[..i])
    decreases i
  {
    if i > 0 {
      WholeOfLife(l, p, i - 1);
      WholeNext(l.ops, i - 1, l.states[i - 1], l.states[i], p);
    }
  }

  /** No deletion freed a place in the page for an item the set no longer holds. */
  ghost predicate FreesNothing(a: Account, op: Op, p: Retention<Item>, n: nat, lt: (Item, Item) -> bool) {
    op.Delete? ==> forall lead :: Leads(lead, a.retained, n, lt)
                     ==> Frees(a.retained, a.whole, op.name, op.uid, p, lead, lt)
  }

  lemma DeleteStepIff(a: Account, op: Op, b: Account, p: Retention<Item>, n: nat, lt: (Item, Item) -> bool)
    requires StrictOrder(lt) && Distinguishes(lt, a.whole) && Kept(a, n) && op.Delete? && Moves(a, op, b, p)
    requires SamePage(a.retained, a.whole, n, lt)
    ensures SamePage(b.retained, b.whole, n, lt) <==> FreesNothing(a, op, p, n, lt)
  {
    assert Distinguishes(lt, a.retained);
    LeadExists(a.retained, n, lt);
    var lead :| Leads(lead, a.retained, n, lt);
    DeleteSamePageIff(a.retained, a.whole, op.name, op.uid, p, lead, n, lt);
    forall l | Leads(l, a.retained, n, lt) ensures l == lead { LeadUnique(l, lead, a.retained, n, lt); }
  }

  lemma StartSamePage(n: nat, lt: (Item, Item) -> bool)
    requires StrictOrder(lt)
    ensures SamePage<Item>(map[], map[], n, lt)
  {
  }

  /** The set starts empty, and starts over at every listing. */
  ghost predicate StartsAt(l: Life, from: nat) {
    from <= |l.ops| && (from == 0 || l.ops[from - 1].Start?)
  }

  lemma StartsEmpty(l: Life, p: Retention<Item>, from: nat)
    requires Lived(l, p) && StartsAt(l, from)
    ensures l.states[from].retained == map[] && l.states[from].whole == map[]
  {
    if from > 0 { assert Moves(l.states[from - 1], l.ops[from - 1], l.states[from], p); }
  }

  lemma {:induction false} NamePagesHold(l: Life, n: nat, from: nat, i: nat)
    requires Lived(l, NameRetention(n)) && StartsAt(l, from) && from <= i <= |l.ops|
    requires forall j :: from <= j < i ==> FreesNothing(l.states[j], l.ops[j], NameRetention(n), n, ByName)
    ensures SamePage(l.states[i].retained, l.states[i].whole, n, ByName)
    decreases i
  {
    if i == from {
      StartsEmpty(l, NameRetention(n), from);
      OrdersLawful();
      StartSamePage(n, ByName);
    } else {
      NamePagesHold(l, n, from, i - 1);
      LivedKept(l, NameRetention(n), n, i - 1);
      NameStep(l.states[i - 1], l.ops[i - 1], l.states[i], n);
    }
  }

  /** Name-ordered sets: since the last listing the page is the one of the unbounded map,
      whatever the order of arrival, until a deletion frees a place for an item no longer
      held; and that very deletion parts the pages. */
  lemma NamePages(l: Life, n: nat, from: nat, i: nat)
    requires Lived(l, NameRetention(n)) && StartsAt(l, from) && from <= i <= |l.ops|
    requires forall j :: from <= j < i ==> FreesNothing(l.states[j], l.ops[j], NameRetention(n), n, ByName)
    ensures SamePage(l.states[i].retained, l.states[i].whole, n, ByName)
    ensures i < |l.ops| ==> (SamePage(l.states[i + 1].retained, l.states[i + 1].whole, n, ByName)
                             <==> FreesNothing(l.states[i], l.ops[i], NameRetention(n), n, ByName))
  {
    NamePagesHold(l, n, from, i);
    if i < |l.ops| {
      LivedKept(l, NameRetention(n), n, i);
      NameStep(l.states[i], l.ops[i], l.states[i + 1], n);
    }
  }

  lemma PutStep(a: Account, item: Item, b: Account, p: Retention<Item>, n: nat, lt: (Item, Item) -> bool)
    requires Kept(a, n) && p.name == NAME && p.limit == n + 1 && Moves(a, Put(item), b, p)
             && SamePage(a.retained, a.whole, n, lt)
    requires StrictOrder(lt) && (lt == ByName || lt == ByRecency) && DropsLast(a.retained, p.evictable, lt)
    requires item.name in a.whole ==> !lt(a.whole[item.name], item)
    ensures SamePage(b.retained, b.whole, n, lt)
  {
    TellsApart(a.whole);
    TellsApart(a.whole[item.name := item]);
    assert p.name(item) == item.name;
    PutSamePage(a.retained, b.retained, a.whole, item, p, Full(a.retained, p, item.name), n, lt);
  }

  lemma NameStep(a: Account, op: Op, b: Account, n: nat)
    requires Kept(a, n) && Moves(a, op, b, NameRetention(n)) && SamePage(a.retained, a.whole, n, ByName)
    ensures SamePage(b.retained, b.whole, n, ByName) <==> FreesNothing(a, op, NameRetention(n), n, ByName)
  {
    OrdersLawful();
    TellsApart(a.whole);
    match op
    case Start(_) => StartSamePage(n, ByName);
    case Put(item) =>
      NameDropsLast(a.retained);
      LessTotal(item.name, item.name);
      PutStep(a, item, b, NameRetention(n), n, ByName);
    case Delete(_, _) => DeleteStepIff(a, op, b, NameRetention(n), n, ByName);
  }

  ghost predicate Moments(m: map<string, Item>) {
    forall a, b :: a in m && b in m && a != b ==> m[a].created != m[b].created
  }

  /** A backup put has a creation time of its own, and one put again is not older than before. */
  ghost predicate OwnMoment(a: Account, op: Op) {
    op.Put? ==>
      && (forall k :: k in a.whole && k != op.item.name ==> a.whole[k].created != op.item.created)
      && (op.item.name in a.whole ==> a.whole[op.item.name].created <= op.item.created)
  }

  lemma {:induction false} AgePagesHold(l: Life, n: nat, from: nat, i: nat)
    requires Lived(l, AgeRetention(n)) && StartsAt(l, from) && from <= i <= |l.ops|
    requires forall j :: from <= j < i ==> OwnMoment(l.states[j], l.ops[j])
    requires forall j :: from <= j < i ==> FreesNothing(l.states[j], l.ops[j], AgeRetention(n), n, ByRecency)
    ensures SamePage(l.states[i].retained, l.states[i].whole, n, ByRecency) && Moments(l.states[i].whole)
    decreases i
  {
    if i == from {
      StartsEmpty(l, AgeRetention(n), from);
      OrdersLawful();
      StartSamePage(n, ByRecency);
    } else {
      AgePagesHold(l, n, from, i - 1);
      LivedKept(l, AgeRetention(n), n, i - 1);
      AgeStep(l.states[i - 1], l.ops[i - 1], l.states[i], n);
      MomentsKept(l.states[i - 1], l.ops[i - 1], l.states[i], AgeRetention(n));
    }
  }

  lemma MomentsKept(a: Account, op: Op, b: Account, p: Retention<Item>)
    requires Moves(a, op, b, p) && Moments(a.whole) && OwnMoment(a, op)
    ensures Moments(b.whole)
  {
  }

  /** Backups: the same over any life in which no two backups were created at one moment. */
  lemma AgePages(l: Life, n: nat, from: nat, i: nat)
    requires Lived(l, AgeRetention(n)) && StartsAt(l, from) && from <= i <= |l.ops|
    requires forall j :: from <= j < i ==> OwnMoment(l.states[j], l.ops[j])
    requires forall j :: from <= j < i ==> FreesNothing(l.states[j], l.ops[j], AgeRetention(n), n, ByRecency)
    ensures SamePage(l.states[i].retained, l.states[i].whole, n, ByRecency)
    ensures i < |l.ops| && OwnMoment(l.states[i], l.ops[i]) ==>
              (SamePage(l.states[i + 1].retained, l.states[i + 1].whole, n, ByRecency)
               <==> FreesNothing(l.states[i], l.ops[i], AgeRetention(n), n, ByRecency))
  {
    AgePagesHold(l, n, from, i);
    if i < |l.ops| && OwnMoment(l.states[i], l.ops[i]) {
      LivedKept(l, AgeRetention(n), n, i);
      AgeStep(l.states[i], l.ops[i], l.states[i + 1], n);
    }
  }

  lemma AgeStep(a: Account, op: Op, b: Account, n: nat)
    requires Kept(a, n) && Moves(a, op, b, AgeRetention(n)) && SamePage(a.retained, a.whole, n, ByRecency)
    requires Moments(a.whole) && OwnMoment(a, op)
    ensures SamePage(b.retained, b.whole, n, ByRecency) <==> FreesNothing(a, op, AgeRetention(n), n, ByRecency)
  {
    OrdersLawful();
    TellsApart(a.whole);
    match op
    case Start(_) => StartSamePage(n, ByRecency);
    case Put(item) =>
      AgeDropsLast(a.retained);
      LessTotal(item.name, item.name);
      PutStep(a, item, b, AgeRetention(n), n, ByRecency);
    case Delete(_, _) => DeleteStepIff(a, op, b, AgeRetention(n), n, ByRecency);
  }

  /** A page not marked truncated lists the unbounded map whole; and before any deletion
      the mark is set exactly when something is missing. */
  lemma PageHonest(a: Account, names: seq<string>, lt: (Item, Item) -> bool, n: nat)
    requires Kept(a, n) && StrictOrder(lt) && Published(names, a.retained, n, lt)
    ensures var truncated := a.truncated || |a.retained| > n;
            && (!truncated ==> Elements(names) == a.whole.Keys && Published(names, a.whole, n, lt))
            && (a.growing ==> (truncated <==> a.partial || |a.whole| > n))
  {
    assert |a.retained.Keys| == |a.retained|;
    SubmapCount(a.retained, a.whole);
    if |a.retained| <= n { SubsetCount(Elements(names), a.retained.Keys); }
  }

  /* ---------- publication ---------- */

  /** The keys of a map in order, sort.Slice under a comparison that tells names apart:
      whatever order the items arrive in, each place takes the first of those left. */
  method SortBy(m: map<string, Item>, less: (Item, Item) -> bool) returns (kept: seq<string>)
    requires StrictOrder(less) && Distinguishes(less, m)
    ensures OrderedBy(kept, m, less) && Elements(kept) == m.Keys
  {
    var left := m.Keys;
    kept := [];
    while left != {}
      invariant left <= m.Keys && Elements(kept) == m.Keys - left && Placed(kept, left, m, less)
      decreases |left|
    {
      var k := TakeFirst(m, left, less);
      ElementsPush(kept, k);
      PlacesNext(kept, left, k, m, less);
      kept := kept + [k];
      left := left - {k};
    }
  }

  method TakeFirst(m: map<string, Item>, left: set<string>, less: (Item, Item) -> bool) returns (k: string)
    requires StrictOrder(less) && Distinguishes(less, m) && left != {} && left <= m.Keys
    ensures First(k, m, left, less)
  {
    FirstExists(m, left, less);
    k :| k in left && forall d :: d in left && d != k ==> less(m[k], m[d]);
  }

  ghost predicate Placed(kept: seq<string>, left: set<string>, m: map<string, Item>, less: (Item, Item) -> bool)
    requires left <= m.Keys
  {
    OrderedBy(kept, m, less) && forall i, b :: 0 <= i < |kept| && b in left ==> less(m[kept[i]], m[b])
  }

  lemma PlacesNext(kept: seq<string>, left: set<string>, k: string, m: map<string, Item>, less: (Item, Item) -> bool)
    requires left <= m.Keys && Placed(kept, left, m, less) && First(k, m, left, less)
    ensures Placed(kept + [k], left - {k}, m, less)
  {
  }

  lemma ElementsPush(s: seq<string>, k: string)
    ensures Elements(s + [k]) == Elements(s) + {k}
  {
    ElementsNext(s + [k], |s|);
    assert (s + [k])[..|s|] == s && (s + [k])[..|s| + 1] == s + [k];
  }

  function Cut(all: seq<string>, limit: nat): seq<string> {
    if |all| > limit then all[..limit] else all
  }

  lemma CutPrecedes(all: seq<string>, m: map<string, Item>, limit: nat, less: (Item, Item) -> bool, a: string,
                    b: string)
    requires OrderedBy(all, m, less) && Elements(all) == m.Keys
    requires a in Cut(all, limit) && b in m && b !in Cut(all, limit)
    ensures less(m[a], m[b])
  {
    assert b in Elements(all);
    var i :| 0 <= i < |Cut(all, limit)| && Cut(all, limit)[i] == a;
    var j :| 0 <= j < |all| && all[j] == b;
    assert forall x :: 0 <= x < |Cut(all, limit)| ==> all[x] in Cut(all, limit);
    assert all[i] == a && j >= |Cut(all, limit)|;
  }

  lemma CutPublishes(all: seq<string>, m: map<string, Item>, limit: nat, less: (Item, Item) -> bool)
    requires StrictOrder(less) && OrderedBy(all, m, less) && Elements(all) == m.Keys
    ensures |all| == |m| && Published(Cut(all, limit), m, limit, less)
  {
    OrderedDistinct(all, m, less);
    assert OrderedBy(Cut(all, limit), m, less);
    OrderedDistinct(Cut(all, limit), m, less);
    assert |m.Keys| == |m|;
    forall a, b | a in Elements(Cut(all, limit)) && b in m && b !in Elements(Cut(all, limit)) ensures less(m[a], m[b]) {
      CutPrecedes(all, m, limit, less, a, b);
    }
  }

  ghost predicate Lists(items: seq<Item>, names: seq<string>, m: map<string, Item>) {
    |items| == |names| && forall i :: 0 <= i < |names| ==> names[i] in m && items[i] == m[names[i]]
  }

  /** bounded: the items in order, cut at the limit, and whether the cut removed any. */
  method Bounded(m: map<string, Item>, less: (Item, Item) -> bool, limit: nat)
    returns (out: seq<Item>, cut: bool, ghost names: seq<string>)
    requires StrictOrder(less) && Distinguishes(less, m)
    ensures Published(names, m, limit, less) && Lists(out, names, m)
    ensures cut <==> |m| > limit
  {
    var kept := SortBy(m, less);
    CutPublishes(kept, m, limit, less);
    cut := |kept| > limit;
    if cut { kept := kept[..limit]; }
    names := kept;
    assert forall i :: 0 <= i < |kept| ==> kept[i] in m;
    out := seq(|kept|, i requires 0 <= i < |kept| && kept[i] in m => m[kept[i]]);
  }

  /* ---------- the set as a collector keeps it ---------- */

  class RetainedSet {
    const policy: Retention<Item>
    const less: (Item, Item) -> bool
    const bound: nat
    var retained: map<string, Item>
    var truncated: bool
    ghost var life: Life

    ghost predicate Valid()
      reads this
    {
      && Lawful(policy, bound) && Lived(life, policy)
      && Now(life).retained == retained && Now(life).truncated == truncated
    }

    constructor (policy: Retention<Item>, less: (Item, Item) -> bool, bound: nat)
      requires Lawful(policy, bound)
      ensures Valid() && life.ops == []
      ensures this.policy == policy && this.less == less && this.bound == bound
    {
      this.policy, this.less, this.bound := policy, less, bound;
      retained, truncated := map[], false;
      life := Life([], [EMPTY]);
    }

    /** Whatever order the map yields, the loser is one nothing retained would go before. */
    method Evictee() returns (loser: string)
      requires WeakOrder(policy.evictable) && retained != map[]
      ensures Loses(loser, retained, policy.evictable)
    {
      var names := AnyOrder(retained.Keys);
      assert forall i :: 0 <= i < |names| ==> names[i] in Elements(names);
      var some :| some in retained;
      assert some in Elements(names);
      var chosen := false;
      loser := "";
      for i := 0 to |names|
        invariant chosen <==> i > 0
        invariant chosen ==> loser in retained
        invariant chosen ==> forall j :: 0 <= j < i ==> !policy.evictable(retained[names[j]], retained[loser])
      {
        var name := names[i];
        if !chosen || policy.evictable(retained[name], retained[loser]) {
          loser, chosen := name, true;
        }
      }
      forall n | n in retained ensures !policy.evictable(retained[n], retained[loser]) {
        assert n in Elements(names);
        var j :| 0 <= j < |names| && names[j] == n;
      }
    }

    /** At the limit a new name costs one loser, chosen before the name is in. */
    method Put(item: Item) returns (evicted: bool)
      requires policy.name == NAME && WeakOrder(policy.evictable)
      modifies this`retained
      ensures evicted == Full(old(retained), policy, item.name)
      ensures PutInto(old(retained), retained, item, policy, evicted)
    {
      evicted := item.name !in retained && policy.limit > 0 && |retained| >= policy.limit;
      if evicted {
        var loser := Evictee();
        retained := retained - {loser};
      }
      retained := retained[item.name := item];
    }

    /** A put, with the flag its collector records from it. */
    method Apply(item: Item)
      requires Valid()
      modifies this`retained, this`truncated, this`life
      ensures Valid() && life.ops == old(life.ops) + [Op.Put(item)]
    {
      ghost var a := Now(life);
      var evicted := Put(item);
      if evicted { truncated := true; }
      ghost var b := Account(retained, truncated, a.whole[item.name := item], a.partial, a.growing);
      LivesOn(life, Op.Put(item), b, policy);
      life := Then(life, Op.Put(item), b);
    }

    /** remove: a deletion whose incarnation is no longer the retained one changes nothing. */
    method Delete(name: string, uid: string)
      requires Valid()
      modifies this`retained, this`life
      ensures Valid() && life.ops == old(life.ops) + [Op.Delete(name, uid)]
      ensures retained == Remove(old(retained), name, uid, policy)
    {
      ghost var a := Now(life);
      if name in retained && policy.uid(retained[name]) == uid {
        retained := retained - {name};
      }
      ghost var whole := Remove(a.whole, name, uid, policy);
      ghost var b := Account(retained, truncated, whole, a.partial, a.growing && whole == a.whole);
      LivesOn(life, Op.Delete(name, uid), b, policy);
      life := Then(life, Op.Delete(name, uid), b);
    }

    /** A listing starts the set over. */
    method Seed(items: seq<Item>, sourceTruncated: bool)
      requires Valid()
      modifies this`retained, this`truncated, this`life
      ensures Valid() && life.ops == old(life.ops) + [Start(sourceTruncated)] + Puts(items)
    {
      retained, truncated := map[], sourceTruncated;
      ghost var b := Account(map[], sourceTruncated, map[], sourceTruncated, true);
      LivesOn(life, Start(sourceTruncated), b, policy);
      life := Then(life, Start(sourceTruncated), b);
      ghost var ops := life.ops;
      for i := 0 to |items|
        invariant Valid() && life.ops == ops + Puts(items[..i])
      {
        Apply(items[i]);
        PutsNext(ops, items, i);
      }
      assert items[..|items|] == items;
    }

    /** The page and its mark. A page not marked lists the unbounded map whole, and one
        published while the pages are one is the page of that map. */
    method Page() returns (items: seq<Item>, mark: bool, ghost names: seq<string>)
      requires Valid() && StrictOrder(less) && (less == ByName || less == ByRecency)
      ensures Published(names, retained, bound, less) && Lists(items, names, Whole(life.ops))
      ensures mark == (truncated || |retained| > bound)
      ensures !mark ==> Elements(names) == Whole(life.ops).Keys && Published(names, Whole(life.ops), bound, less)
      ensures SamePage(retained, Whole(life.ops), bound, less) ==> Published(names, Whole(life.ops), bound, less)
    {
      LivedKept(life, policy, bound, |life.ops|);
      WholeOfLife(life, policy, |life.ops|);
      assert life.ops[..|life.ops|] == life.ops;
      TellsApart(retained);
      var out, cut, ns := Bounded(retained, less, bound);
      PageHonest(Now(life), ns, less, bound);
      items, mark, names := out, truncated || cut, ns;
    }
  }

  function Puts(items: seq<Item>): (ops: seq<Op>)
    ensures |ops| == |items| && forall i :: 0 <= i < |ops| ==> ops[i] == Put(items[i])
  {
    seq(|items|, i requires 0 <= i < |items| => Put(items[i]))
  }

  lemma PutsNext(ops: seq<Op>, items: seq<Item>, i: nat)
    requires i < |items|
    ensures (ops + Puts(items[..i])) + [Put(items[i])] == ops + Puts(items[..i + 1])
  {
  }

  /** The last item of its name in a listing. */
  ghost predicate LastNamed(items: seq<Item>, i: nat) {
    i < |items| && forall j :: i < j < |items| ==> items[j].name != items[i].name
  }

  ghost predicate HoldsListing(w: map<string, Item>, items: seq<Item>) {
    && (forall i :: 0 <= i < |items| ==> items[i].name in w)
    && (forall n :: n in w ==> exists i: nat :: LastNamed(items, i) && items[i] == w[n] && w[n].name == n)
  }

  /** A listing leaves exactly its own items, whatever was there before: for each name the
      last item listed under it. */
  lemma {:induction false} WholeOfListing(ops: seq<Op>, partial: bool, items: seq<Item>)
    ensures HoldsListing(Whole(ops + [Start(partial)] + Puts(items)), items)
    decreases |items|
  {
    var all := ops + [Start(partial)] + Puts(items);
    if items == [] {
      assert all == ops + [Start(partial)];
    } else {
      var front, last := items[..|items| - 1], items[|items| - 1];
      WholeOfListing(ops, partial, front);
      assert items[..|front|] == front && items[..|front| + 1] == items;
      PutsNext(ops + [Start(partial)], items, |front|);
      assert all[..|all| - 1] == ops + [Start(partial)] + Puts(front) && all[|all| - 1] == Put(last);
      ListingNext(Whole(ops + [Start(partial)] + Puts(front)), front, last);
      assert items == front + [last];
    }
  }

  lemma ListingNext(w: map<string, Item>, front: seq<Item>, last: Item)
    requires HoldsListing(w, front)
    ensures HoldsListing(w[last.name := last], front + [last])
  {
    var items, next := front + [last], w[last.name := last];
    forall n | n in next ensures exists i: nat :: LastNamed(items, i) && items[i] == next[n] && next[n].name == n {
      if n == last.name {
        assert LastNamed(items, |front|) && items[|front|] == last;
      } else {
        var i: nat :| LastNamed(front, i) && front[i] == w[n] && w[n].name == n;
        assert LastNamed(items, i) && items[i] == next[n];
      }
    }
  }

  lemma PoliciesLawful(n: nat)
    ensures Lawful(NameRetention(n), n) && Lawful(AgeRetention(n), n)
    ensures StrictOrder(ByName) && StrictOrder(ByRecency)
  {
    OrdersLawful();
  }
}
