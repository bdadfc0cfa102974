/** A value that may be absent: Go's nil pointers, zero times and comma-ok results. */
module Prelude {
  datatype Option<+T> = None | Some(value: T)

  newtype byte = x: int | 0 <= x < 256
}

/** Counting facts about finite sets and maps. */
module Counting {
  lemma SubsetCount<T>(a: set<T>, b: set<T>)
    requires a <= b
    ensures |a| <= |b|
    ensures |a| == |b| ==> a == b
  {
    assert b == a + (b - a);
    assert |b| == |a| + |b - a|;
  }

  lemma Surplus<T>(a: set<T>, b: set<T>)
    requires |a| > |b|
    ensures exists x :: x in a && x !in b
  {
    if a <= b { SubsetCount(a, b); }
  }

  lemma SubmapCount<K, V, W>(a: map<K, V>, b: map<K, W>)
    requires a.Keys <= b.Keys
    ensures |a| <= |b|
    ensures |a| == |b| ==> a.Keys == b.Keys
  {
    assert |a.Keys| == |a| && |b.Keys| == |b|;
    SubsetCount(a.Keys, b.Keys);
  }

  lemma PutCount<K, V>(m: map<K, V>, k: K, v: V)
    ensures m[k := v].Keys == m.Keys + {k}
    ensures |m[k := v]| == if k in m then |m| else |m| + 1
  {
    assert m[k := v].Keys == m.Keys + {k};
    assert |m[k := v].Keys| == |m[k := v]| && |m.Keys| == |m|;
    if k in m { assert m.Keys + {k} == m.Keys; }
  }

  lemma DropCount<K, V>(m: map<K, V>, k: K)
    ensures (m - {k}).Keys == m.Keys - {k}
    ensures |m - {k}| == if k in m then |m| - 1 else |m|
  {
    var rest := m - {k};
    assert rest.Keys == m.Keys - {k};
    assert |rest.Keys| == |rest| && |m.Keys| == |m|;
    if k in m { assert m.Keys == rest.Keys + {k}; } else { assert rest.Keys == m.Keys; }
  }
}
