/** Naming the one manager that owns a changed path, or nobody. */
module Attribution {
  import opened FieldPaths
  import H = History

  predicate Owns(owner: H.FieldOwner, path: string) {
    exists k :: 0 <= k < |owner.paths| && PathsRelate(path, owner.paths[k])
  }

  /** The managers owning a related path, in the order the owners are listed. */
  function Claimants(path: string, owners: seq<H.FieldOwner>): seq<string> {
    if owners == [] then []
    else
      var n := |owners| - 1;
      Claimants(path, owners[..n]) + (if Owns(owners[n], path) then [owners[n].manager] else [])
  }

  ghost predicate SoleFrom(claims: seq<string>, m: string, k: nat) {
    && k < |claims|
    && (forall i :: 0 <= i < k ==> claims[i] == "")
    && (forall i :: k <= i < |claims| ==> claims[i] == m)
  }

  /** The claims after any leading unnamed ones all name m. */
  ghost predicate Sole(claims: seq<string>, m: string) {
    m != "" && exists k :: SoleFrom(claims, m, k)
  }

  lemma SoleIsLast(claims: seq<string>, m: string)
    requires Sole(claims, m)
    ensures claims != [] && claims[|claims| - 1] == m
  {
    var k: nat :| SoleFrom(claims, m, k);
  }

  /** The manager a path is attributed to, or none. */
  ghost function Attributed(path: string, owners: seq<H.FieldOwner>): (manager: string)
    ensures forall m :: m != "" ==> (manager == m <==> Sole(Claimants(path, owners), m))
  {
    if m :| m != "" && Sole(Claimants(path, owners), m) then
      SoleIsLast(Claimants(path, owners), m);
      assert forall x :: Sole(Claimants(path, owners), x) ==> x == m by {
        forall x | Sole(Claimants(path, owners), x) ensures x == m { SoleIsLast(Claimants(path, owners), x); }
      }
      m
    else ""
  }

  /** attribute: names m exactly when m is the only claimant. */
  method Attribute(path: string, owners: seq<H.FieldOwner>) returns (manager: string)
    ensures manager == Attributed(path, owners)
  {
    manager := "";
    ghost var k := 0;
    for i := 0 to |owners|
      invariant 0 <= k <= |Claimants(path, owners[..i])|
      invariant manager == "" ==> k == |Claimants(path, owners[..i])|
      invariant manager != "" ==> k < |Claimants(path, owners[..i])|
      invariant forall j :: 0 <= j < k ==> Claimants(path, owners[..i])[j] == ""
      invariant forall j :: k <= j < |Claimants(path, owners[..i])| ==> Claimants(path, owners[..i])[j] == manager
    {
      ghost var before := Claimants(path, owners[..i]);
      ClaimantsNext(path, owners, i);
      var owned := false;
      for j := 0 to |owners[i].paths|
        invariant !owned && forall n :: 0 <= n < j ==> !PathsRelate(path, owners[i].paths[n])
      {
        if PathsRelate(path, owners[i].paths[j]) {
          owned := true;
          break;
        }
      }
      if owned {
        if manager != "" && manager != owners[i].manager {
          ConflictIsNobody(path, owners, i, k, manager);
          manager := "";
          IsAttributed(path, owners, manager);
          return;
        }
        if manager == "" && owners[i].manager == "" { k := k + 1; }
        manager := owners[i].manager;
      }
    }
    assert owners[..|owners|] == owners;
    if manager != "" { assert SoleFrom(Claimants(path, owners), manager, k); }
    forall m | Sole(Claimants(path, owners), m) ensures m == manager { SoleIsLast(Claimants(path, owners), m); }
    IsAttributed(path, owners, manager);
  }

  lemma IsAttributed(path: string, owners: seq<H.FieldOwner>, manager: string)
    requires forall m :: m != "" ==> (manager == m <==> Sole(Claimants(path, owners), m))
    ensures manager == Attributed(path, owners)
  {
    if manager != "" { assert Sole(Claimants(path, owners), manager); }
  }

  lemma ClaimantsNext(path: string, owners: seq<H.FieldOwner>, i: nat)
    requires i < |owners|
    ensures Claimants(path, owners[..i + 1])
            == Claimants(path, owners[..i]) + (if Owns(owners[i], path) then [owners[i].manager] else [])
  {
    assert owners[..i + 1][..i] == owners[..i];
  }

  lemma {:induction false} ClaimantsPrefix(path: string, owners: seq<H.FieldOwner>, i: nat)
    requires i <= |owners|
    ensures Claimants(path, owners[..i]) <= Claimants(path, owners)
    decreases |owners| - i
  {
    if i < |owners| {
      ClaimantsNext(path, owners, i);
      ClaimantsPrefix(path, owners, i + 1);
    } else {
      assert owners[..i] == owners;
    }
  }

  lemma ConflictIsNobody(path: string, owners: seq<H.FieldOwner>, i: nat, k: nat, manager: string)
    requires i < |owners| && Owns(owners[i], path) && manager != "" && manager != owners[i].manager
    requires k < |Claimants(path, owners[..i])| && Claimants(path, owners[..i])[k] == manager
    ensures forall m :: !Sole(Claimants(path, owners), m)
  {
    var all, at := Claimants(path, owners), |Claimants(path, owners[..i])|;
    ClaimantsNext(path, owners, i);
    ClaimantsPrefix(path, owners, i + 1);
    assert all[k] == manager && all[at] == owners[i].manager;
  }

  /* ---------- the order of owners ---------- */

  ghost predicate Permutation(a: seq<string>, b: seq<string>) {
    multiset(a) == multiset(b)
  }

  /** With every claimant named, m is sole exactly when it is the only name claimed. */
  lemma SoleOfNamed(claims: seq<string>, m: string)
    requires "" !in claims
    ensures Sole(claims, m) <==> m in claims && forall x :: x in claims ==> x == m
  {
    assert forall i :: 0 <= i < |claims| ==> claims[i] in claims;
    if Sole(claims, m) {
      var k: nat :| SoleFrom(claims, m, k);
      assert claims[0] in claims && k == 0;
      assert claims[k] in claims;
    }
    if m in claims && forall x :: x in claims ==> x == m {
      assert SoleFrom(claims, m, 0);
    }
  }

  /** The claims mix an unnamed manager with exactly one named one. */
  ghost predicate Mixed(claims: seq<string>) {
    "" in claims && exists m :: m in claims && m != "" && forall x :: x in claims ==> x == m || x == ""
  }

  lemma PermutationMembers(a: seq<string>, b: seq<string>, x: string)
    requires Permutation(a, b)
    ensures x in a <==> x in b
  {
    assert x in a <==> multiset(a)[x] > 0;
    assert x in b <==> multiset(b)[x] > 0;
  }

  lemma SoleMembers(claims: seq<string>, m: string)
    requires Sole(claims, m)
    ensures m in claims && forall x :: x in claims ==> x == m || x == ""
  {
    var k: nat :| SoleFrom(claims, m, k);
    assert claims[k] == m;
  }

  lemma UnmixedIsOrderless(a: seq<string>, b: seq<string>, m: string)
    requires !Mixed(a) && Permutation(a, b) && Sole(a, m)
    ensures Sole(b, m)
  {
    SoleMembers(a, m);
    assert "" !in a;
    forall x ensures x in a <==> x in b { PermutationMembers(a, b, x); }
    SoleOfNamed(a, m);
    SoleOfNamed(b, m);
  }

  /** Attribution does not depend on the order the owners are listed in, if and only if
      the claims do not mix an unnamed manager with a single named one: listed first,
      the unnamed one is passed over, listed last it makes the path nobody's. */
  lemma OrderlessIffNotMixed(a: seq<string>)
    ensures !Mixed(a) <==> forall b, m :: Permutation(a, b) ==> (Sole(a, m) <==> Sole(b, m))
  {
    if !Mixed(a) {
      forall b, m | Permutation(a, b) ensures Sole(a, m) <==> Sole(b, m) {
        forall x ensures x in a <==> x in b { PermutationMembers(a, b, x); }
        assert !Mixed(b);
        if Sole(a, m) { UnmixedIsOrderless(a, b, m); }
        if Sole(b, m) { UnmixedIsOrderless(b, a, m); }
      }
    } else {
      var m :| m in a && m != "" && forall x :: x in a ==> x == m || x == "";
      var named, unnamed := Repeat(m, multiset(a)[m]), Repeat("", multiset(a)[""]);
      var first, last := unnamed + named, named + unnamed;
      MixedSplit(a, m);
      assert Permutation(a, first) && Permutation(a, last);
      assert Sole(first, m) by {
        assert SoleFrom(first, m, |unnamed|);
      }
      assert !Sole(last, m) by {
        if Sole(last, m) { SoleIsLast(last, m); }
      }
    }
  }

  ghost function Repeat(x: string, n: nat): (r: seq<string>)
    ensures |r| == n && forall i :: 0 <= i < n ==> r[i] == x
  {
    seq(n, _ => x)
  }

  lemma {:induction false} RepeatCount(x: string, n: nat)
    ensures multiset(Repeat(x, n)) == multiset{}[x := n]
  {
    if n > 0 {
      RepeatCount(x, n - 1);
      assert Repeat(x, n) == Repeat(x, n - 1) + [x];
    }
  }

  lemma MixedSplit(a: seq<string>, m: string)
    requires m != "" && forall x :: x in a ==> x == m || x == ""
    ensures var named, unnamed := Repeat(m, multiset(a)[m]), Repeat("", multiset(a)[""]);
            multiset(a) == multiset(unnamed + named) == multiset(named + unnamed)
  {
    RepeatCount(m, multiset(a)[m]);
    RepeatCount("", multiset(a)[""]);
    var named, unnamed := Repeat(m, multiset(a)[m]), Repeat("", multiset(a)[""]);
    forall x ensures multiset(a)[x] == (multiset(unnamed) + multiset(named))[x] {
      if x != m && x != "" { assert x !in a; }
    }
    assert multiset(unnamed + named) == multiset(unnamed) + multiset(named);
    assert multiset(named + unnamed) == multiset(named) + multiset(unnamed);
  }

  /* ---------- permuted owners ---------- */

  lemma {:induction false} ClaimantsConcat(path: string, a: seq<H.FieldOwner>, b: seq<H.FieldOwner>)
    ensures Claimants(path, a + b) == Claimants(path, a) + Claimants(path, b)
    decreases |b|
  {
    if b == [] {
      assert a + b == a;
    } else {
      var n := |b| - 1;
      assert (a + b)[..|a + b| - 1] == a + b[..n];
      ClaimantsConcat(path, a, b[..n]);
    }
  }

  /** A permutation of a list holds its last element, and the rest beside it. */
  lemma TakenOut<T>(a: seq<T>, b: seq<T>) returns (j: nat)
    requires a != [] && multiset(a) == multiset(b)
    ensures j < |b| && b == b[..j] + ([a[|a| - 1]] + b[j + 1..])
    ensures multiset(a[..|a| - 1]) == multiset(b[..j] + b[j + 1..])
  {
    var o := a[|a| - 1];
    assert a == a[..|a| - 1] + [o];
    assert o in multiset(b);
    j :| 0 <= j < |b| && b[j] == o;
    OneOut(b[..j], o, b[j + 1..]);
    assert b == b[..j] + ([o] + b[j + 1..]);
    Cancelled(multiset(a[..|a| - 1]), multiset(b[..j] + b[j + 1..]), o);
  }

  lemma OneOut<T>(x: seq<T>, o: T, y: seq<T>)
    ensures multiset(x + ([o] + y)) == multiset(x + y) + multiset{o}
  {
    assert multiset(x + y) == multiset(x) + multiset(y);
    assert multiset(x + ([o] + y)) == multiset(x) + (multiset{o} + multiset(y));
  }

  lemma Cancelled<T>(a: multiset<T>, b: multiset<T>, o: T)
    requires a + multiset{o} == b + multiset{o}
    ensures a == b
  {
    assert a == (a + multiset{o}) - multiset{o};
    assert b == (b + multiset{o}) - multiset{o};
  }

  lemma {:induction false} ClaimantsPermute(path: string, a: seq<H.FieldOwner>, b: seq<H.FieldOwner>)
    requires multiset(a) == multiset(b)
    ensures Permutation(Claimants(path, a), Claimants(path, b))
    decreases |a|
  {
    if a == [] {
      assert |multiset(b)| == 0;
    } else {
      var j := TakenOut(a, b);
      assert a == a[..|a| - 1] + [a[|a| - 1]];
      ClaimantsPermute(path, a[..|a| - 1], b[..j] + b[j + 1..]);
      MovedOwner(path, a[..|a| - 1], a[|a| - 1], b[..j], b[j + 1..]);
    }
  }

  lemma MovedOwner(path: string, a: seq<H.FieldOwner>, o: H.FieldOwner, x: seq<H.FieldOwner>, y: seq<H.FieldOwner>)
    requires Permutation(Claimants(path, a), Claimants(path, x + y))
    ensures Permutation(Claimants(path, a + [o]), Claimants(path, x + ([o] + y)))
  {
    ClaimantsConcat(path, a, [o]);
    ClaimantsConcat(path, x, [o] + y);
    ClaimantsConcat(path, [o], y);
    ClaimantsConcat(path, x, y);
    MovedClaims(Claimants(path, a), Claimants(path, [o]), Claimants(path, x), Claimants(path, y));
  }

  lemma MovedClaims(a: seq<string>, o: seq<string>, x: seq<string>, y: seq<string>)
    requires Permutation(a, x + y)
    ensures Permutation(a + o, x + (o + y))
  {
    assert multiset(a + o) == multiset(a) + multiset(o);
    assert multiset(x + (o + y)) == multiset(x) + multiset(o) + multiset(y);
    assert multiset(x + y) == multiset(x) + multiset(y);
  }

  ghost function Unnamed(owners: seq<H.FieldOwner>): seq<H.FieldOwner> {
    if owners == [] then []
    else Unnamed(owners[..|owners| - 1]) + (if owners[|owners| - 1].manager == "" then [owners[|owners| - 1]] else [])
  }

  ghost function Named(owners: seq<H.FieldOwner>): seq<H.FieldOwner> {
    if owners == [] then []
    else Named(owners[..|owners| - 1]) + (if owners[|owners| - 1].manager != "" then [owners[|owners| - 1]] else [])
  }

  lemma {:induction false} PartedOwners(owners: seq<H.FieldOwner>)
    ensures multiset(owners) == multiset(Unnamed(owners)) + multiset(Named(owners))
    decreases |owners|
  {
    if owners != [] {
      PartedOwners(owners[..|owners| - 1]);
      assert owners == owners[..|owners| - 1] + [owners[|owners| - 1]];
    }
  }

  lemma {:induction false} PartedClaims(path: string, owners: seq<H.FieldOwner>)
    ensures forall x :: x in Claimants(path, Unnamed(owners)) ==> x == ""
    ensures forall x :: x in Claimants(path, Named(owners)) ==> x != ""
    decreases |owners|
  {
    if owners != [] {
      var front, o := owners[..|owners| - 1], owners[|owners| - 1];
      PartedClaims(path, front);
      assert Named(front) + [] == Named(front) && Unnamed(front) + [] == Unnamed(front);
      if o.manager == "" { PushedClaim(path, Unnamed(front), o); } else { PushedClaim(path, Named(front), o); }
    }
  }

  lemma PushedClaim(path: string, owners: seq<H.FieldOwner>, o: H.FieldOwner)
    ensures forall x :: x in Claimants(path, owners + [o]) ==> x in Claimants(path, owners) || x == o.manager
  {
    assert (owners + [o])[..|owners|] == owners;
  }

  lemma MixedOrders(path: string, owners: seq<H.FieldOwner>) returns (first: seq<H.FieldOwner>, last: seq<H.FieldOwner>)
    requires Mixed(Claimants(path, owners))
    ensures multiset(first) == multiset(owners) == multiset(last) && Attributed(path, first) != Attributed(path, last)
  {
    var u, n := Unnamed(owners), Named(owners);
    first, last := u + n, n + u;
    PartedOwners(owners);
    PartedClaims(path, owners);
    var cu, cn := Claimants(path, u), Claimants(path, n);
    ClaimantsConcat(path, u, n);
    ClaimantsConcat(path, n, u);
    ClaimantsPermute(path, owners, first);
    var all := Claimants(path, owners);
    var m :| m in all && m != "" && forall x :: x in all ==> x == m || x == "";
    forall x ensures x in all <==> x in cu || x in cn {
      PermutationMembers(all, cu + cn, x);
      assert x in cu + cn <==> x in cu || x in cn;
    }
    MixedParts(cu, cn, m);
    assert Attributed(path, first) == m;
    assert Attributed(path, last) != m;
  }

  lemma MixedParts(cu: seq<string>, cn: seq<string>, m: string)
    requires m != "" && "" in cu && m in cn
    requires (forall x :: x in cu ==> x == "") && forall x :: x in cn ==> x == m
    ensures Sole(cu + cn, m) && !Sole(cn + cu, m)
  {
    assert SoleFrom(cu + cn, m, |cu|) by {
      assert forall i :: 0 <= i < |cu| ==> cu[i] in cu;
      assert forall i :: 0 <= i < |cn| ==> cn[i] in cn;
    }
    assert cu[|cu| - 1] in cu;
    if Sole(cn + cu, m) { SoleIsLast(cn + cu, m); }
  }

  /** The manager a path is attributed to is the same in every order of the owners, if and
      only if the claims do not mix an unnamed manager with a single named one. */
  lemma OwnersOrderlessIff(path: string, owners: seq<H.FieldOwner>)
    ensures !Mixed(Claimants(path, owners))
            <==> forall others :: multiset(others) == multiset(owners)
                   ==> Attributed(path, others) == Attributed(path, owners)
  {
    if !Mixed(Claimants(path, owners)) {
      forall others | multiset(others) == multiset(owners)
        ensures Attributed(path, others) == Attributed(path, owners) {
        ClaimantsPermute(path, owners, others);
        OrderlessIffNotMixed(Claimants(path, owners));
        assert forall m :: Sole(Claimants(path, owners), m) <==> Sole(Claimants(path, others), m);
      }
    } else {
      var first, last := MixedOrders(path, owners);
    }
  }

  /* ---------- attribution over segments ---------- */

  /** Owned paths that encode safe segment paths. */
  ghost predicate EncodesSafely(owners: seq<H.FieldOwner>, owned: seq<seq<seq<Seg>>>) {
    && |owned| == |owners|
    && forall i :: 0 <= i < |owners| ==>
         && |owned[i]| == |owners[i].paths|
         && forall k :: 0 <= k < |owned[i]| ==>
              owned[i][k] != [] && SafePath(owned[i][k]) && owners[i].paths[k] == Encode(owned[i][k])
  }

  /** On safe paths an owner claims a change exactly when one of its paths contains the
      changed path or lies inside it. */
  lemma OwnsIsContainment(owners: seq<H.FieldOwner>, owned: seq<seq<seq<Seg>>>, i: nat, path: seq<Seg>)
    requires EncodesSafely(owners, owned) && i < |owners| && path != [] && SafePath(path)
    ensures Owns(owners[i], Encode(path))
            <==> exists k :: 0 <= k < |owned[i]| && (owned[i][k] <= path || path <= owned[i][k])
  {
    forall k | 0 <= k < |owned[i]|
      ensures PathsRelate(Encode(path), owners[i].paths[k]) <==> owned[i][k] <= path || path <= owned[i][k]
    {
      RelateFaithful(path, owned[i][k]);
    }
  }
}
