/** The order Go gives strings, and the one ascending enumeration of a finite
    set of strings. Every sorted list in this project is that enumeration, so
    nothing proved here depends on the order in which a map is ranged over. */
module Lex {

  predicate Less(a: string, b: string)
    decreases |b|
  {
    if b == "" then false
    else if a == "" then true
    else if a[0] != b[0] then a[0] < b[0]
    else Less(a[1..], b[1..])
  }

  lemma {:induction false} LessTotal(a: string, b: string)
    ensures a == b || Less(a, b) || Less(b, a)
    ensures !(Less(a, b) && Less(b, a))
    ensures a == b ==> !Less(a, b)
    decreases |a|
  {
    if a != "" && b != "" && a[0] == b[0] {
      LessTotal(a[1..], b[1..]);
      assert a == [a[0]] + a[1..] && b == [b[0]] + b[1..];
    }
  }

  /** They agree up to some place, where the first ends or has the smaller character. */
  ghost predicate Precedes(a: string, b: string, k: nat) {
    && k <= |a| && k < |b| && a[..k] == b[..k] && (k == |a| || a[k] < b[k])
  }

  lemma {:induction false} LessIff(a: string, b: string)
    ensures Less(a, b) <==> exists k: nat :: Precedes(a, b, k)
    decreases |a|
  {
    if b == "" {
    } else if a == "" {
      assert Precedes(a, b, 0);
    } else if a[0] != b[0] {
      if a[0] < b[0] { assert Precedes(a, b, 0); }
    } else {
      LessIff(a[1..], b[1..]);
      if k: nat :| Precedes(a[1..], b[1..], k) { PrecedesMore(a, b, k); }
      if k: nat :| Precedes(a, b, k) {
        assert k > 0;
        assert a[1..][..k - 1] == a[..k][1..] && b[1..][..k - 1] == b[..k][1..];
        assert Precedes(a[1..], b[1..], k - 1);
      }
    }
  }

  lemma PrecedesMore(a: string, b: string, k: nat)
    requires a != "" && b != "" && a[0] == b[0] && Precedes(a[1..], b[1..], k)
    ensures Precedes(a, b, k + 1)
  {
    assert a[..k + 1] == [a[0]] + a[1..][..k] && b[..k + 1] == [b[0]] + b[1..][..k];
  }

  lemma {:induction false} LessTransitive(a: string, b: string, c: string)
    requires Less(a, b) && Less(b, c)
    ensures Less(a, c)
    decreases |a|
  {
    if a != "" && a[0] == b[0] == c[0] {
      LessTransitive(a[1..], b[1..], c[1..]);
    }
  }

  ghost predicate Sorted(s: seq<string>) {
    forall i, j :: 0 <= i < j < |s| ==> Less(s[i], s[j])
  }

  ghost function Elements<T>(s: seq<T>): set<T> {
    set x | x in s
  }

  ghost predicate IsLeast(m: string, s: set<string>) {
    m in s && forall x :: x in s && x != m ==> Less(m, x)
  }

  lemma LeastExists(s: set<string>)
    requires s != {}
    ensures exists m :: IsLeast(m, s)
  {
    var x :| x in s;
    var rest := s - {x};
    if rest == {} {
      assert forall y :: y in s && y != x ==> y in rest;
      assert IsLeast(x, s);
    } else {
      LeastExists(rest);
      var m :| IsLeast(m, rest);
      LessTotal(x, m);
      forall y | y in rest && y != m && Less(x, m) ensures Less(x, y) {
        LessTransitive(x, m, y);
      }
      assert IsLeast(if Less(x, m) then x else m, s);
    }
  }

  /** The elements of s in ascending order. */
  ghost function Ascending(s: set<string>): (r: seq<string>)
    ensures Sorted(r) && Elements(r) == s
  {
    if s == {} then [] else
      LeastExists(s);
      var m :| IsLeast(m, s);
      var rest := Ascending(s - {m});
      assert forall i :: 0 <= i < |rest| ==> rest[i] in Elements(rest);
      assert Elements([m] + rest) == {m} + Elements(rest) by {
        assert forall x :: x in [m] + rest <==> x == m || x in rest;
      }
      [m] + rest
  }

  lemma SortedDistinct(s: seq<string>)
    requires Sorted(s)
    ensures forall i, j :: 0 <= i < j < |s| ==> s[i] != s[j]
  {
    forall i, j | 0 <= i < j < |s| ensures s[i] != s[j] {
      LessTotal(s[i], s[j]);
    }
  }

  /** A sorted list is determined by its elements. */
  lemma {:induction false} SortedUnique(a: seq<string>, b: seq<string>)
    requires Sorted(a) && Sorted(b) && Elements(a) == Elements(b)
    ensures a == b
    decreases |a|
  {
    if a == [] {
      assert forall i :: 0 <= i < |b| ==> b[i] in Elements(b);
    } else {
      assert a[0] in Elements(a);
      assert b[0] in Elements(b);
      var i :| 0 <= i < |b| && b[i] == a[0];
      var j :| 0 <= j < |a| && a[j] == b[0];
      LessTotal(a[0], b[0]);
      SortedDistinct(a);
      SortedDistinct(b);
      assert a[0] == b[0];
      assert Elements(a[1..]) == Elements(a) - {a[0]};
      assert Elements(b[1..]) == Elements(b) - {b[0]};
      SortedUnique(a[1..], b[1..]);
    }
  }

  /** Inserts x before the first element that does not precede it. */
  function Insert(x: string, s: seq<string>): (r: seq<string>)
    ensures multiset(r) == multiset(s) + multiset{x}
  {
    if s == [] || !Less(s[0], x) then [x] + s
    else
      assert s == [s[0]] + s[1..];
      [s[0]] + Insert(x, s[1..])
  }

  lemma {:induction false} InsertSorted(x: string, s: seq<string>)
    requires Sorted(s) && x !in s
    ensures Sorted(Insert(x, s)) && Elements(Insert(x, s)) == Elements(s) + {x}
  {
    var r := Insert(x, s);
    forall y ensures y in r <==> y in s || y == x {
      assert multiset(r)[y] == (multiset(s) + multiset{x})[y];
    }
    if s == [] {
    } else if !Less(s[0], x) {
      LessTotal(s[0], x);
      assert Less(x, s[0]);
      forall j | 0 <= j < |s| ensures Less(x, s[j]) {
        if j > 0 { LessTransitive(x, s[0], s[j]); }
      }
    } else {
      InsertSorted(x, s[1..]);
      var rest := Insert(x, s[1..]);
      forall j | 0 <= j < |rest| ensures Less(s[0], rest[j]) {
        assert rest[j] in Elements(rest);
      }
    }
  }

  /** sort.Strings over the keys a map yields in some order: whatever that
      order, the result is the ascending enumeration. */
  method SortKeys(keys: set<string>) returns (r: seq<string>)
    ensures r == Ascending(keys)
  {
    r := [];
    var left := keys;
    while left != {}
      invariant left <= keys
      invariant Sorted(r) && Elements(r) == keys - left
      decreases |left|
    {
      var k :| k in left;
      assert k !in Elements(r);
      InsertSorted(k, r);
      r := Insert(k, r);
      left := left - {k};
    }
    SortedUnique(r, Ascending(keys));
  }

  lemma ElementsNext<T>(s: seq<T>, i: nat)
    requires i < |s|
    ensures s[..i + 1] == s[..i] + [s[i]] && Elements(s[..i + 1]) == Elements(s[..i]) + {s[i]}
  {
  }

  /** Ranging over a map: its keys, each once, in an order of the map's choosing. */
  method AnyOrder(keys: set<string>) returns (r: seq<string>)
    ensures Elements(r) == keys
    ensures forall i, j :: 0 <= i < j < |r| ==> r[i] != r[j]
  {
    r := [];
    var left := keys;
    while left != {}
      invariant left <= keys && Elements(r) == keys - left
      invariant forall i, j :: 0 <= i < j < |r| ==> r[i] != r[j]
      decreases |left|
    {
      var k :| k in left;
      assert k !in Elements(r);
      ElementsNext(r + [k], |r|);
      assert (r + [k])[..|r|] == r && (r + [k])[..|r| + 1] == r + [k];
      r := r + [k];
      left := left - {k};
    }
  }
}
