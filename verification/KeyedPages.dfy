/** When a bounded page and the page of the unbounded map are one, and exactly which puts
    and deletions part them. */
module KeyedPages {
  import opened Counting
  import opened Lex
  import opened Keyed

  /** One page: the retained set and the unbounded map publish the same list. */
  ghost predicate SamePage<T>(m: map<string, T>, whole: map<string, T>, n: nat, lt: (T, T) -> bool) {
    forall out :: Published(out, m, n, lt) <==> Published(out, whole, n, lt)
  }

  lemma {:induction false} OrderExists<T(!new)>(m: map<string, T>, keys: set<string>, lt: (T, T) -> bool)
    requires keys <= m.Keys && StrictOrder(lt) && Distinguishes(lt, m)
    ensures exists s :: OrderedBy(s, m, lt) && Elements(s) == keys
    decreases |keys|
  {
    if keys == {} {
      assert OrderedBy([], m, lt) && Elements<string>([]) == {};
    } else {
      FirstExists(m, keys, lt);
      var f :| First(f, m, keys, lt);
      OrderExists(m, keys - {f}, lt);
      var s :| OrderedBy(s, m, lt) && Elements(s) == keys - {f};
      FirstPrepends(s, f, m, keys, lt);
    }
  }

  lemma FirstPrepends<T(!new)>(s: seq<string>, f: string, m: map<string, T>, keys: set<string>, lt: (T, T) -> bool)
    requires keys <= m.Keys && First(f, m, keys, lt) && OrderedBy(s, m, lt) && Elements(s) == keys - {f}
    ensures OrderedBy([f] + s, m, lt) && Elements([f] + s) == keys
  {
    assert forall i :: 0 <= i < |s| ==> s[i] in Elements(s);
    assert Elements([f] + s) == {f} + Elements(s) by {
      assert forall x :: x in [f] + s <==> x == f || x in s;
    }
  }

  lemma DistinctCount(s: seq<string>)
    requires forall i, j :: 0 <= i < j < |s| ==> s[i] != s[j]
    ensures |Elements(s)| == |s|
  {
    if s == [] {
      assert Elements(s) == {};
    } else {
      var n := |s| - 1;
      DistinctCount(s[..n]);
      ElementsNext(s, n);
      assert s[..n + 1] == s;
      assert s[n] !in s[..n];
    }
  }

  lemma OrderedDistinct<T(!new)>(s: seq<string>, m: map<string, T>, lt: (T, T) -> bool)
    requires StrictOrder(lt) && OrderedBy(s, m, lt)
    ensures forall i, j :: 0 <= i < j < |s| ==> s[i] != s[j]
    ensures |Elements(s)| == |s|
  {
    forall i, j | 0 <= i < j < |s| ensures s[i] != s[j] {
      assert lt(m[s[i]], m[s[j]]);
    }
    DistinctCount(s);
  }

  lemma PublishedExists<T(!new)>(m: map<string, T>, n: nat, lt: (T, T) -> bool)
    requires StrictOrder(lt) && Distinguishes(lt, m)
    ensures exists out :: Published(out, m, n, lt)
  {
    LeadExists(m, n, lt);
    var lead :| Leads(lead, m, n, lt);
    OrderExists(m, lead, lt);
    var out :| OrderedBy(out, m, lt) && Elements(out) == lead;
    OrderedDistinct(out, m, lt);
    assert Published(out, m, n, lt);
  }

  /** The pages are one exactly when the first n items of the whole are retained. */
  lemma SamePageIff<T(!new)>(m: map<string, T>, whole: map<string, T>, n: nat, lt: (T, T) -> bool)
    requires StrictOrder(lt) && Distinguishes(lt, whole) && Submap(m, whole)
    ensures SamePage(m, whole, n, lt) <==> HoldsLead(m, whole, n, lt)
  {
    if HoldsLead(m, whole, n, lt) {
      forall out ensures Published(out, m, n, lt) <==> Published(out, whole, n, lt) {
        PublishesWhole(out, m, whole, n, lt);
      }
    }
    if SamePage(m, whole, n, lt) {
      PublishedExists(whole, n, lt);
      var out :| Published(out, whole, n, lt);
      assert Published(out, m, n, lt);
      assert Leads(Elements(out), whole, n, lt) && Elements(out) <= m.Keys;
    }
  }

  lemma LeadOfWhole<T(!new)>(m: map<string, T>, whole: map<string, T>, lead: set<string>, n: nat, lt: (T, T) -> bool)
    requires StrictOrder(lt) && HoldsLead(m, whole, n, lt) && Leads(lead, m, n, lt)
    ensures Leads(lead, whole, n, lt) && lead <= m.Keys
    ensures |whole| <= n ==> m.Keys == whole.Keys
  {
    var l :| Leads(l, whole, n, lt) && l <= m.Keys;
    LeadWithin(m, whole, l, n, lt);
    LeadUnique(l, lead, m, n, lt);
  }

  /* ---------- a put that evicts ---------- */

  ghost predicate Last<T>(k: string, m: map<string, T>, lt: (T, T) -> bool) {
    k in m && forall d :: d in m && d != k ==> lt(m[d], m[k])
  }

  /** k comes last but for e. */
  ghost predicate LastBut<T>(k: string, e: string, m: map<string, T>, lt: (T, T) -> bool) {
    && k in m && Last(e, m, lt) && e != k
    && forall d :: d in m && d != k && d != e ==> lt(m[d], m[k])
  }

  /** An eviction that leaves the pages one: the loser was listed last, or last but one
      and the item put is listed before it. */
  ghost predicate Spares<T>(loser: string, m: map<string, T>, item: T, lt: (T, T) -> bool) {
    Last(loser, m, lt) || ((exists e :: LastBut(loser, e, m, lt)) && lt(item, m[loser]))
  }

  /** The one retained item beyond the page. */
  lemma Sentinel<T(!new)>(m: map<string, T>, whole: map<string, T>, lead: set<string>, n: nat, lt: (T, T) -> bool)
    returns (e: string)
    requires Submap(m, whole) && |m| == n + 1 && Leads(lead, whole, n, lt) && lead <= m.Keys
    ensures e in m && e !in lead && m.Keys == lead + {e} && |lead| == n && Last(e, m, lt)
  {
    SubmapCount(m, whole);
    assert |m.Keys| == n + 1;
    Surplus(m.Keys, lead);
    e :| e in m.Keys && e !in lead;
    SubsetCount(lead + {e}, m.Keys);
  }

  lemma Chain<T(!new)>(lt: (T, T) -> bool, a: T, b: T, c: T)
    requires StrictOrder(lt) && lt(a, b) && lt(b, c)
    ensures lt(a, c)
  {
  }

  lemma LastHolds<T(!new)>(m: map<string, T>, whole: map<string, T>, e: string, name: string, item: T,
                           lead: set<string>, n: nat, lt: (T, T) -> bool)
    requires StrictOrder(lt) && Submap(m, whole) && name !in lead && Distinguishes(lt, whole[name := item])
    requires Leads(lead, whole, n, lt) && m.Keys == lead + {e} && e !in lead
    ensures HoldsLead((m - {e})[name := item], whole[name := item], n, lt)
  {
    var after := (m - {e})[name := item];
    SubmapReplaced(m, whole, e, name, item);
    assert after.Keys == lead + {name} by { assert (m - {e}).Keys == lead; }
    LeadWithinGrown(whole, lead, name, item, after.Keys, n, lt);
  }

  lemma SubmapReplaced<T>(m: map<string, T>, whole: map<string, T>, e: string, name: string, item: T)
    requires Submap(m, whole)
    ensures Submap((m - {e})[name := item], whole[name := item])
  {
  }

  lemma LeadWithinGrown<T(!new)>(whole: map<string, T>, lead: set<string>, name: string, item: T, keys: set<string>,
                                 n: nat, lt: (T, T) -> bool)
    requires StrictOrder(lt) && Distinguishes(lt, whole[name := item]) && Leads(lead, whole, n, lt)
    requires name in lead ==> !lt(whole[name], item)
    requires lead + {name} <= keys
    ensures exists lead' :: Leads(lead', whole[name := item], n, lt) && lead' <= keys
  {
    LeadExists(whole[name := item], n, lt);
    var lead' :| Leads(lead', whole[name := item], n, lt);
    LeadGrows(whole, lead, name, item, lead', n, lt);
    assert lead' <= keys;
  }

  lemma LastButHolds<T(!new)>(m: map<string, T>, whole: map<string, T>, loser: string, name: string, item: T,
                              lead: set<string>, n: nat, lt: (T, T) -> bool)
    requires Submap(m, whole) && name !in lead && loser in lead && |lead| == n && Leads(lead, whole, n, lt)
             && lead <= m.Keys
    requires forall a :: a in lead && a != loser ==> lt(whole[a], whole[loser])
    requires lt(item, whole[loser]) && forall b :: b in whole && b !in lead ==> lt(item, whole[b])
    ensures HoldsLead((m - {loser})[name := item], whole[name := item], n, lt)
  {
    PutCount(whole, name, item);
    var lead', whole' := lead - {loser} + {name}, whole[name := item];
    assert |lead'| == n;
    forall a, b | a in lead' && b in whole' && b !in lead' ensures lt(whole'[a], whole'[b]) {
      if a != name { assert lt(whole[a], whole[b]); }
    }
    assert Leads(lead', whole', n, lt) && lead' <= (m - {loser})[name := item].Keys;
  }

  lemma SparedHolds<T(!new)>(m: map<string, T>, whole: map<string, T>, loser: string, name: string, item: T,
                             lead: set<string>, e: string, n: nat, lt: (T, T) -> bool)
    requires StrictOrder(lt) && Submap(m, whole) && loser in m && name !in m && Distinguishes(lt, whole[name := item])
    requires Leads(lead, whole, n, lt) && m.Keys == lead + {e} && e !in lead && |lead| == n && Last(e, m, lt)
    requires Spares(loser, m, item, lt)
    ensures HoldsLead((m - {loser})[name := item], whole[name := item], n, lt)
  {
    if loser == e {
      LastHolds(m, whole, e, name, item, lead, n, lt);
    } else {
      LoserIsLastBut(m, loser, e, lt);
      forall b | b in whole && b !in lead ensures lt(item, whole[b]) {
        Chain(lt, item, whole[loser], whole[b]);
      }
      LastButHolds(m, whole, loser, name, item, lead, n, lt);
    }
  }

  lemma LoserIsLastBut<T(!new)>(m: map<string, T>, loser: string, e: string, lt: (T, T) -> bool)
    requires StrictOrder(lt) && Last(e, m, lt) && loser in m && loser != e
    requires Last(loser, m, lt) || exists f :: LastBut(loser, f, m, lt)
    ensures LastBut(loser, e, m, lt)
  {
    assert lt(m[loser], m[e]);
    var f :| LastBut(loser, f, m, lt);
  }

  lemma HoldsSpared<T(!new)>(m: map<string, T>, whole: map<string, T>, loser: string, name: string, item: T,
                             lead: set<string>, e: string, n: nat, lt: (T, T) -> bool)
    requires StrictOrder(lt) && Submap(m, whole) && loser in m && name !in m
    requires Leads(lead, whole, n, lt) && m.Keys == lead + {e} && e !in lead && |lead| == n && Last(e, m, lt)
    requires HoldsLead((m - {loser})[name := item], whole[name := item], n, lt)
    ensures Spares(loser, m, item, lt)
  {
    if loser != e {
      var whole' := whole[name := item];
      var lead' :| Leads(lead', whole', n, lt) && lead' <= (m - {loser})[name := item].Keys;
      LeadGrows(whole, lead, name, item, lead', n, lt);
      PutCount(whole, name, item);
      assert lead' <= lead - {loser} + {name};
      SubsetCount(lead', lead - {loser} + {name});
      ReplacedIsLastBut(m, whole, whole', lead, loser, name, e, n, lt);
    }
  }

  lemma ReplacedIsLastBut<T(!new)>(m: map<string, T>, whole: map<string, T>, whole': map<string, T>, lead: set<string>,
                                   loser: string, name: string, e: string, n: nat, lt: (T, T) -> bool)
    requires Submap(m, whole) && loser in lead && name !in m && e !in lead && m.Keys == lead + {e} && Last(e, m, lt)
    requires name in whole' && forall k :: k in whole && k != name ==> k in whole' && whole'[k] == whole[k]
    requires Leads(lead - {loser} + {name}, whole', n, lt)
    ensures LastBut(loser, e, m, lt) && lt(whole'[name], m[loser])
  {
    assert forall a :: a in lead - {loser} + {name} ==> lt(whole'[a], whole'[loser]);
  }

  /** Putting a new item at the bound leaves the pages one if and only if the loser was
      listed last, or last but one with the item before it. */
  lemma EvictSamePageIff<T(!new)>(m: map<string, T>, whole: map<string, T>, loser: string, name: string, item: T,
                                  n: nat, lt: (T, T) -> bool)
    requires StrictOrder(lt) && Distinguishes(lt, whole) && Distinguishes(lt, whole[name := item])
    requires Submap(m, whole) && SamePage(m, whole, n, lt) && |m| == n + 1 && loser in m && name !in m
    ensures SamePage((m - {loser})[name := item], whole[name := item], n, lt) <==> Spares(loser, m, item, lt)
  {
    SamePageIff(m, whole, n, lt);
    SamePageIff((m - {loser})[name := item], whole[name := item], n, lt);
    var lead :| Leads(lead, whole, n, lt) && lead <= m.Keys;
    var e := Sentinel(m, whole, lead, n, lt);
    if Spares(loser, m, item, lt) { SparedHolds(m, whole, loser, name, item, lead, e, n, lt); }
    if HoldsLead((m - {loser})[name := item], whole[name := item], n, lt) {
      HoldsSpared(m, whole, loser, name, item, lead, e, n, lt);
    }
  }

  /* ---------- a put that evicts nothing ---------- */

  /** Every item that is not retained is listed after a retained one beyond the page. */
  ghost predicate Fenced<T>(d: string, m: map<string, T>, whole: map<string, T>, lead: set<string>, lt: (T, T) -> bool)
    requires d in whole
  {
    exists e :: e in m && e !in lead && lt(m[e], whole[d])
  }

  /** A new item that finds room leaves the pages one. */
  lemma AddSamePage<T(!new)>(m: map<string, T>, whole: map<string, T>, name: string, item: T, n: nat,
                             lt: (T, T) -> bool)
    requires StrictOrder(lt) && Distinguishes(lt, whole) && Distinguishes(lt, whole[name := item])
    requires Submap(m, whole) && SamePage(m, whole, n, lt) && name !in m
    ensures SamePage(m[name := item], whole[name := item], n, lt)
  {
    SamePageIff(m, whole, n, lt);
    SamePageIff(m[name := item], whole[name := item], n, lt);
    var lead :| Leads(lead, whole, n, lt) && lead <= m.Keys;
    LeadWithinGrown(whole, lead, name, item, m[name := item].Keys, n, lt);
  }

  /** The first item beyond the page is retained if nothing unretained can be it. */
  lemma FirstRetained<T(!new)>(m: map<string, T>, whole: map<string, T>, lead: set<string>, w: string,
                               lt: (T, T) -> bool)
    requires StrictOrder(lt) && Submap(m, whole) && First(w, whole, whole.Keys - lead, lt)
    requires w !in m ==> Fenced(w, m, whole, lead, lt)
    ensures w in m
  {
  }

  lemma UpsertExchange<T>(m: map<string, T>, whole: map<string, T>, name: string, item: T, lead: set<string>, w: string,
                          n: nat, lt: (T, T) -> bool)
    requires Submap(m, whole) && Leads(lead, whole, n, lt) && lead <= m.Keys && name in lead && w in m
             && First(w, whole, whole.Keys - lead, lt)
    requires lt(whole[w], item) && forall a :: a in lead ==> lt(whole[a], item)
    ensures HoldsLead(m[name := item], whole[name := item], n, lt)
  {
    var whole', lead' := whole[name := item], lead - {name} + {w};
    PutCount(whole, name, item);
    assert |lead'| == |lead|;
    forall a, b | a in lead' && b in whole' && b !in lead' ensures lt(whole'[a], whole'[b]) {
      if b != name && a != w { assert lt(whole[a], whole[b]); }
    }
    assert Leads(lead', whole', n, lt) && lead' <= m[name := item].Keys;
  }

  lemma UpsertStays<T>(m: map<string, T>, whole: map<string, T>, name: string, item: T, lead: set<string>, n: nat,
                       lt: (T, T) -> bool)
    requires Submap(m, whole) && Leads(lead, whole, n, lt) && lead <= m.Keys && name in lead
    requires forall b :: b in whole && b !in lead ==> lt(item, whole[b])
    ensures HoldsLead(m[name := item], whole[name := item], n, lt)
  {
    PutCount(whole, name, item);
    assert Leads(lead, whole[name := item], n, lt) && lead <= m[name := item].Keys;
  }

  lemma UpsertHolds<T(!new)>(m: map<string, T>, whole: map<string, T>, name: string, item: T, lead: set<string>, n: nat,
                             lt: (T, T) -> bool)
    requires StrictOrder(lt) && Distinguishes(lt, whole) && Distinguishes(lt, whole[name := item])
    requires Submap(m, whole) && Leads(lead, whole, n, lt) && lead <= m.Keys && name in lead && lt(whole[name], item)
    requires forall d :: d in whole && d !in m ==> lt(item, whole[d]) || Fenced(d, m, whole, lead, lt)
    ensures HoldsLead(m[name := item], whole[name := item], n, lt)
  {
    var rest := whole.Keys - lead;
    if rest == {} {
      assert forall b :: b in whole ==> b in rest || b in lead;
      UpsertStays(m, whole, name, item, lead, n, lt);
    } else {
      FirstExists(whole, rest, lt);
      var w :| First(w, whole, rest, lt);
      Apart(whole[name := item], name, w, lt);
      if lt(item, whole[w]) {
        forall b | b in whole && b !in lead ensures lt(item, whole[b]) {
          if b != w { Chain(lt, item, whole[w], whole[b]); }
        }
        UpsertStays(m, whole, name, item, lead, n, lt);
      } else {
        FirstRetained(m, whole, lead, w, lt);
        forall a | a in lead ensures lt(whole[a], item) { Chain(lt, whole[a], whole[w], item); }
        UpsertExchange(m, whole, name, item, lead, w, n, lt);
      }
    }
  }

  lemma Apart<T>(m: map<string, T>, a: string, b: string, lt: (T, T) -> bool)
    requires Distinguishes(lt, m) && a in m && b in m && a != b
    ensures lt(m[a], m[b]) || lt(m[b], m[a])
  {
  }

  lemma HoldsUpsert<T(!new)>(m: map<string, T>, whole: map<string, T>, name: string, item: T, lead: set<string>, n: nat,
                             lt: (T, T) -> bool, d: string)
    requires Submap(m, whole) && Leads(lead, whole, n, lt) && lead <= m.Keys && name in lead && d in whole && d !in m
    requires HoldsLead(m[name := item], whole[name := item], n, lt)
    ensures lt(item, whole[d]) || Fenced(d, m, whole, lead, lt)
  {
    var whole' := whole[name := item];
    var lead' :| Leads(lead', whole', n, lt) && lead' <= m[name := item].Keys;
    PutCount(whole, name, item);
    assert lt(whole'[name], whole'[d]) || name !in lead';
    if name !in lead' {
      Surplus(lead', lead - {name});
      var e :| e in lead' && e !in lead - {name};
      assert e in m && e !in lead && lt(whole'[e], whole'[d]);
    }
  }

  /** Putting a retained item again leaves the pages one if and only if it was not listed
      and then moved behind something the set no longer holds. */
  lemma UpsertSamePageIff<T(!new)>(m: map<string, T>, whole: map<string, T>, name: string, item: T, lead: set<string>,
                                   n: nat, lt: (T, T) -> bool)
    requires StrictOrder(lt) && Distinguishes(lt, whole) && Distinguishes(lt, whole[name := item])
    requires Submap(m, whole) && SamePage(m, whole, n, lt) && Leads(lead, m, n, lt) && name in m
    ensures SamePage(m[name := item], whole[name := item], n, lt)
            <==> (name in lead && lt(m[name], item) ==>
                    forall d :: d in whole && d !in m ==> lt(item, whole[d]) || Fenced(d, m, whole, lead, lt))
  {
    SamePageIff(m, whole, n, lt);
    SamePageIff(m[name := item], whole[name := item], n, lt);
    LeadOfWhole(m, whole, lead, n, lt);
    if name in lead && lt(m[name], item) {
      if HoldsLead(m[name := item], whole[name := item], n, lt) {
        forall d | d in whole && d !in m ensures lt(item, whole[d]) || Fenced(d, m, whole, lead, lt) {
          HoldsUpsert(m, whole, name, item, lead, n, lt, d);
        }
      }
      if forall d :: d in whole && d !in m ==> lt(item, whole[d]) || Fenced(d, m, whole, lead, lt) {
        UpsertHolds(m, whole, name, item, lead, n, lt);
      }
    } else {
      LeadWithinGrown(whole, lead, name, item, m[name := item].Keys, n, lt);
    }
  }

  /* ---------- removal ---------- */

  lemma RemoveExchange<T>(m: map<string, T>, whole: map<string, T>, name: string, lead: set<string>, w: string, n: nat,
                          lt: (T, T) -> bool)
    requires Submap(m, whole) && Leads(lead, whole, n, lt) && lead <= m.Keys && name in lead && w in m
             && First(w, whole, whole.Keys - lead, lt)
    ensures HoldsLead(m - {name}, whole - {name}, n, lt)
  {
    var whole', lead' := whole - {name}, lead - {name} + {w};
    DropCount(whole, name);
    assert |whole.Keys| == |whole|;
    SubsetCount(lead + {w}, whole.Keys);
    assert |lead'| == n;
    forall a, b | a in lead' && b in whole' && b !in lead' ensures lt(whole'[a], whole'[b]) {
      if a != w { assert lt(whole[a], whole[b]); }
    }
    assert Leads(lead', whole', n, lt) && lead' <= (m - {name}).Keys;
  }

  lemma RemoveWhole<T>(m: map<string, T>, whole: map<string, T>, name: string, n: nat, lt: (T, T) -> bool)
    requires Submap(m, whole) && whole.Keys <= m.Keys && name in m && |whole| <= n
    ensures HoldsLead(m - {name}, whole - {name}, n, lt)
  {
    DropCount(whole, name);
    assert Leads((whole - {name}).Keys, whole - {name}, n, lt) && (whole - {name}).Keys <= (m - {name}).Keys;
  }

  lemma RemoveHolds<T(!new)>(m: map<string, T>, whole: map<string, T>, name: string, lead: set<string>, n: nat,
                             lt: (T, T) -> bool)
    requires StrictOrder(lt) && Distinguishes(lt, whole)
    requires Submap(m, whole) && Leads(lead, whole, n, lt) && lead <= m.Keys && name in lead
    requires forall d :: d in whole && d !in m ==> Fenced(d, m, whole, lead, lt)
    ensures HoldsLead(m - {name}, whole - {name}, n, lt)
  {
    var rest := whole.Keys - lead;
    if rest == {} {
      assert forall b :: b in whole ==> b in rest || b in lead;
      assert lead == whole.Keys && |whole.Keys| == |whole|;
      RemoveWhole(m, whole, name, n, lt);
    } else {
      FirstExists(whole, rest, lt);
      var w :| First(w, whole, rest, lt);
      FirstRetained(m, whole, lead, w, lt);
      RemoveExchange(m, whole, name, lead, w, n, lt);
    }
  }

  lemma HoldsRemove<T(!new)>(m: map<string, T>, whole: map<string, T>, name: string, lead: set<string>, n: nat,
                             lt: (T, T) -> bool, d: string)
    requires Submap(m, whole) && Leads(lead, whole, n, lt) && lead <= m.Keys && name in lead && d in whole && d !in m
    requires HoldsLead(m - {name}, whole - {name}, n, lt)
    ensures Fenced(d, m, whole, lead, lt)
  {
    var whole' := whole - {name};
    var lead' :| Leads(lead', whole', n, lt) && lead' <= (m - {name}).Keys;
    DropCount(whole, name);
    assert |whole.Keys| == |whole|;
    SubsetCount(lead + {d}, whole.Keys);
    Surplus(lead', lead - {name});
    var e :| e in lead' && e !in lead - {name};
    assert e in m && e !in lead && lt(whole'[e], whole'[d]);
  }

  /** Deleting a retained item leaves the pages one if and only if it was not listed, or
      every item the set no longer holds is listed after a retained one beyond the page. */
  lemma RemoveSamePageIff<T(!new)>(m: map<string, T>, whole: map<string, T>, name: string, lead: set<string>, n: nat,
                                   lt: (T, T) -> bool)
    requires StrictOrder(lt) && Distinguishes(lt, whole)
    requires Submap(m, whole) && SamePage(m, whole, n, lt) && Leads(lead, m, n, lt) && name in m
    ensures SamePage(m - {name}, whole - {name}, n, lt)
            <==> name !in lead || forall d :: d in whole && d !in m ==> Fenced(d, m, whole, lead, lt)
  {
    SamePageIff(m, whole, n, lt);
    SamePageIff(m - {name}, whole - {name}, n, lt);
    LeadOfWhole(m, whole, lead, n, lt);
    if name !in lead {
      UnlistedHolds(m, whole, name, lead, n, lt);
    } else {
      if HoldsLead(m - {name}, whole - {name}, n, lt) {
        forall d | d in whole && d !in m ensures Fenced(d, m, whole, lead, lt) {
          HoldsRemove(m, whole, name, lead, n, lt, d);
        }
      }
      if forall d :: d in whole && d !in m ==> Fenced(d, m, whole, lead, lt) {
        RemoveHolds(m, whole, name, lead, n, lt);
      }
    }
  }

  lemma UnlistedHolds<T(!new)>(m: map<string, T>, whole: map<string, T>, name: string, lead: set<string>, n: nat,
                               lt: (T, T) -> bool)
    requires Submap(m, whole) && Leads(lead, whole, n, lt) && lead <= m.Keys && name !in lead && name in whole
    ensures HoldsLead(m - {name}, whole - {name}, n, lt)
  {
    UnlistedLeads(whole, name, lead, n, lt);
    assert lead <= (m - {name}).Keys;
  }

  /** Deleting an item the set no longer holds leaves the pages one. */
  lemma RemoveEvicted<T(!new)>(m: map<string, T>, whole: map<string, T>, name: string, n: nat, lt: (T, T) -> bool)
    requires StrictOrder(lt) && Distinguishes(lt, whole)
    requires Submap(m, whole) && SamePage(m, whole, n, lt) && name !in m && name in whole
    ensures SamePage(m, whole - {name}, n, lt)
  {
    SamePageIff(m, whole, n, lt);
    SamePageIff(m, whole - {name}, n, lt);
    var lead :| Leads(lead, whole, n, lt) && lead <= m.Keys;
    UnlistedLeads(whole, name, lead, n, lt);
  }

  lemma UnlistedLeads<T>(whole: map<string, T>, name: string, lead: set<string>, n: nat, lt: (T, T) -> bool)
    requires Leads(lead, whole, n, lt) && name !in lead && name in whole
    ensures Leads(lead, whole - {name}, n, lt)
  {
    DropCount(whole, name);
    assert |whole.Keys| == |whole|;
    SubsetCount(lead + {name}, whole.Keys);
  }

  /** The source's own deletion, matched by incarnation: the pages stay one if and only if
      it removes nothing listed, or nothing unretained could take the free place. */
  lemma DeleteSamePageIff<T(!new)>(m: map<string, T>, whole: map<string, T>, name: string, uid: string, p: Retention<T>,
                                   lead: set<string>, n: nat, lt: (T, T) -> bool)
    requires StrictOrder(lt) && Distinguishes(lt, whole)
    requires Submap(m, whole) && SamePage(m, whole, n, lt) && Leads(lead, m, n, lt)
    ensures SamePage(Remove(m, name, uid, p), Remove(whole, name, uid, p), n, lt)
            <==> Frees(m, whole, name, uid, p, lead, lt)
  {
    if name in m && p.uid(m[name]) == uid {
      RemoveSamePageIff(m, whole, name, lead, n, lt);
    } else if name in whole && p.uid(whole[name]) == uid {
      RemoveEvicted(m, whole, name, n, lt);
    }
  }

  ghost predicate Frees<T>(m: map<string, T>, whole: map<string, T>, name: string, uid: string, p: Retention<T>,
                           lead: set<string>, lt: (T, T) -> bool)
  {
    name in lead && name in m && p.uid(m[name]) == uid ==> forall d :: d in whole && d !in m
                                                             ==> Fenced(d, m, whole, lead, lt)
  }

  /* ---------- any put, under a policy that drops the last ---------- */

  /** The policy drops the item that comes last in the order. */
  ghost predicate DropsLast<T>(m: map<string, T>, evictable: (T, T) -> bool, lt: (T, T) -> bool) {
    forall a, b :: a in m && b in m && a != b && lt(m[a], m[b]) ==> evictable(m[b], m[a])
  }

  lemma LoserIsLast<T>(m: map<string, T>, loser: string, evictable: (T, T) -> bool, lt: (T, T) -> bool)
    requires DropsLast(m, evictable, lt) && Distinguishes(lt, m) && Loses(loser, m, evictable)
    ensures Last(loser, m, lt)
  {
    forall d | d in m && d != loser ensures lt(m[d], m[loser]) {
      assert !evictable(m[d], m[loser]);
    }
  }

  /** Although a put evicts before it inserts, and whatever the order of arrival, the pages
      stay one while the policy drops the last item and nothing put again moves back. */
  lemma PutSamePage<T(!new)>(before: map<string, T>, after: map<string, T>, whole: map<string, T>, item: T,
                             p: Retention<T>, evicted: bool, n: nat, lt: (T, T) -> bool)
    requires p.limit == n + 1 && StrictOrder(lt) && Distinguishes(lt, whole)
             && Distinguishes(lt, whole[p.name(item) := item])
    requires Submap(before, whole) && |before| <= n + 1 && SamePage(before, whole, n, lt)
    requires PutInto(before, after, item, p, evicted)
    requires evicted ==> DropsLast(before, p.evictable, lt)
    requires p.name(item) in before ==> !lt(before[p.name(item)], item)
    ensures SamePage(after, whole[p.name(item) := item], n, lt)
  {
    var name := p.name(item);
    if evicted {
      var loser :| Loses(loser, before, p.evictable) && after == (before - {loser})[name := item];
      LoserIsLast(before, loser, p.evictable, lt);
      EvictSamePageIff(before, whole, loser, name, item, n, lt);
    } else if name in before {
      LeadExists(before, n, lt);
      var lead :| Leads(lead, before, n, lt);
      UpsertSamePageIff(before, whole, name, item, lead, n, lt);
    } else {
      AddSamePage(before, whole, name, item, n, lt);
    }
  }

  /** By name, whatever loses was listed last. */
  lemma NameDropsLast(m: map<string, Item>)
    ensures DropsLast(m, NameAfter, ByName)
  {
  }

  /** By age, the same while no two backups were created at one moment. */
  lemma AgeDropsLast(m: map<string, Item>)
    requires forall a, b :: a in m && b in m && a != b ==> m[a].created != m[b].created
    ensures DropsLast(m, Older, ByRecency)
  {
  }

  /* ---------- what parts the pages ---------- */

  /** A put and a deletion after which the page is not the one of the unbounded map. */
  ghost predicate Uncovers(m: map<string, Item>, after: map<string, Item>, c: Item, d: string, n: nat) {
    && PutInto(m, after, c, NameRetention(n), true)
    && SamePage(after, m[c.name := c], n, ByName)
    && !SamePage(after - {d}, m[c.name := c] - {d}, n, ByName)
  }

  ghost predicate ComesLast(c: Item, m: map<string, Item>) {
    forall k :: k in m ==> Less(k, c.name) && !Less(c.name, k) && k != c.name
  }

  lemma Displaces(m: map<string, Item>, c: Item, e: string, n: nat)
    requires Named(m) && |m| == n + 1 && ComesLast(c, m) && Last(e, m, ByName)
    ensures PutInto(m, (m - {e})[c.name := c], c, NameRetention(n), true)
    ensures SamePage((m - {e})[c.name := c], m[c.name := c], n, ByName)
  {
    OrdersLawful();
    TellsApart(m);
    TellsApart(m[c.name := c]);
    assert Loses(e, m, NameAfter) by {
      forall k | k in m ensures !NameAfter(m[k], m[e]) { LessTotal(k, e); }
    }
    EvictSamePageIff(m, m, e, c.name, c, n, ByName);
  }

  /** For every bound: c, the last name, displaces the item before it, and then deleting
      any listed item d leaves a page the unbounded map would not publish. */
  lemma RemovalUncovers(m: map<string, Item>, c: Item, d: string, lead: set<string>, n: nat)
    requires Named(m) && |m| == n + 1 && ComesLast(c, m)
    requires Leads(lead, m, n, ByName) && d in lead
    ensures exists after :: Uncovers(m, after, c, d, n)
  {
    var e := Sentinel(m, m, lead, n, ByName);
    Displaces(m, c, e, n);
    Parts(m, c, e, d, lead, n);
    assert Uncovers(m, (m - {e})[c.name := c], c, d, n);
  }

  lemma Parts(m: map<string, Item>, c: Item, e: string, d: string, lead: set<string>, n: nat)
    requires Named(m) && ComesLast(c, m) && m.Keys == lead + {e} && e !in lead && |lead| == n && d in lead
    requires Leads(lead, m, n, ByName) && SamePage((m - {e})[c.name := c], m[c.name := c], n, ByName)
    ensures !SamePage((m - {e})[c.name := c] - {d}, m[c.name := c] - {d}, n, ByName)
  {
    OrdersLawful();
    TellsApart(m[c.name := c]);
    DisplacedLead(m, c, e, lead, n);
    RemoveSamePageIff((m - {e})[c.name := c], m[c.name := c], d, lead, n, ByName);
    Unfenced(m, c, e, lead);
  }

  lemma Unfenced(m: map<string, Item>, c: Item, e: string, lead: set<string>)
    requires Named(m) && ComesLast(c, m) && m.Keys == lead + {e} && e !in lead
    ensures !Fenced(e, (m - {e})[c.name := c], m[c.name := c], lead, ByName)
  {
  }

  lemma DisplacedLead(m: map<string, Item>, c: Item, e: string, lead: set<string>, n: nat)
    requires Named(m) && Leads(lead, m, n, ByName) && m.Keys == lead + {e} && e !in lead && |lead| == n
    requires ComesLast(c, m)
    ensures Leads(lead, (m - {e})[c.name := c], n, ByName)
  {
    DropCount(m, e);
    PutCount(m - {e}, c.name, c);
    assert |m.Keys| == |m| == n + 1;
  }

  function Letters(k: nat): string { seq(k, _ => 'a') }

  lemma {:induction false} LettersLess(i: nat, j: nat)
    requires i < j
    ensures Less(Letters(i), Letters(j)) && !Less(Letters(j), Letters(i)) && Letters(i) != Letters(j)
    decreases i
  {
    assert Letters(j)[1..] == Letters(j - 1);
    if i > 0 {
      assert Letters(i)[1..] == Letters(i - 1);
      LettersLess(i - 1, j - 1);
    }
    assert |Letters(i)| == i && |Letters(j)| == j;
  }

  function Rows(k: nat): map<string, Item> {
    if k == 0 then map[] else Rows(k - 1)[Letters(k) := Item(Letters(k), "", 0, "")]
  }

  lemma {:induction false} RowsCount(k: nat)
    ensures Named(Rows(k)) && |Rows(k)| == k && forall x :: x in Rows(k) <==> 0 < |x| <= k && x == Letters(|x|)
  {
    if k > 0 {
      RowsCount(k - 1);
      assert |Letters(k)| == k;
      assert Letters(k) !in Rows(k - 1);
      PutCount(Rows(k - 1), Letters(k), Item(Letters(k), "", 0, ""));
      assert Rows(k).Keys == Rows(k - 1).Keys + {Letters(k)};
    }
  }

  /** Such a set exists for every bound that lists anything. */
  lemma RemovalUncoversEverywhere(n: nat)
    requires n > 0
    ensures exists m, after, c, d :: Named(m) && |m| == n + 1 && Uncovers(m, after, c, d, n)
  {
    var m, c := Rows(n + 1), Item(Letters(n + 2), "", 0, "");
    RowsCount(n + 1);
    forall k | k in m ensures Less(k, c.name) && !Less(c.name, k) && k != c.name { LettersLess(|k|, n + 2); }
    OrdersLawful();
    TellsApart(m);
    LeadExists(m, n, ByName);
    var lead :| Leads(lead, m, n, ByName);
    var d :| d in lead;
    RemovalUncovers(m, c, d, lead, n);
  }

  /* ---------- ties of age ---------- */

  ghost predicate Oldest(k: string, m: map<string, Item>) {
    k in m && forall d :: d in m ==> m[k].created <= m[d].created
  }

  ghost predicate Alone(k: string, m: map<string, Item>) {
    Oldest(k, m) && forall d :: Oldest(d, m) ==> d == k
  }

  ghost predicate Paired(j: string, k: string, m: map<string, Item>) {
    Oldest(j, m) && Oldest(k, m) && Less(j, k) && forall d :: Oldest(d, m) ==> d == j || d == k
  }

  ghost predicate OneOldest(m: map<string, Item>) {
    exists k :: Alone(k, m)
  }

  /** Exactly two are oldest, and the item is listed before the one named first. */
  ghost predicate TwoOldest(m: map<string, Item>, item: Item) {
    exists j, k :: Paired(j, k, m) && ByRecency(item, m[j])
  }

  lemma OldestLoses(m: map<string, Item>, k: string)
    ensures Loses(k, m, Older) <==> Oldest(k, m)
  {
  }

  lemma OldestExists(m: map<string, Item>, keys: set<string>)
    requires keys != {} && keys <= m.Keys
    ensures exists k :: k in keys && forall d :: d in keys ==> m[k].created <= m[d].created
    decreases |keys|
  {
    var k :| k in keys;
    var rest := keys - {k};
    if rest == {} {
      assert forall d :: d in keys ==> d == k || d in rest;
      assert forall d :: d in keys ==> m[k].created <= m[d].created;
    } else {
      OldestExists(m, rest);
      var o :| o in rest && forall d :: d in rest ==> m[o].created <= m[d].created;
      assert forall d :: d in keys ==> d == k || d in rest;
      var best := if m[k].created < m[o].created then k else o;
      assert forall d :: d in keys ==> m[best].created <= m[d].created;
    }
  }

  lemma OldestPrecedes(m: map<string, Item>, k: string, d: string)
    requires Named(m) && Oldest(k, m) && d in m && d != k
    ensures ByRecency(m[d], m[k]) || (Oldest(d, m) && Less(k, d))
  {
    LessTotal(k, d);
  }

  lemma OneOldestSpared(m: map<string, Item>, loser: string)
    requires Named(m) && Alone(loser, m)
    ensures Last(loser, m, ByRecency)
  {
    forall d | d in m && d != loser ensures ByRecency(m[d], m[loser]) { OldestPrecedes(m, loser, d); }
  }

  lemma TwoOldestSpared(m: map<string, Item>, j: string, k: string)
    requires Named(m) && Paired(j, k, m)
    ensures LastBut(j, k, m, ByRecency)
  {
    LessTotal(j, k);
    forall d | d in m && d != k ensures ByRecency(m[d], m[k]) { OldestPrecedes(m, k, d); }
    forall d | d in m && d != j && d != k ensures ByRecency(m[d], m[j]) { OldestPrecedes(m, j, d); }
  }

  lemma OldestSpared(m: map<string, Item>, item: Item, loser: string)
    requires Named(m) && Oldest(loser, m) && (OneOldest(m) || TwoOldest(m, item))
    ensures Spares(loser, m, item, ByRecency)
  {
    if OneOldest(m) {
      OneOldestSpared(m, loser);
    } else {
      var j, k :| Paired(j, k, m) && ByRecency(item, m[j]);
      TwoOldestSpared(m, j, k);
    }
  }

  lemma TiedLast(m: map<string, Item>, i: string, k: string)
    requires Named(m) && Last(k, m, ByRecency) && Oldest(i, m) && i != k
    ensures !Last(i, m, ByRecency) && Oldest(k, m) && Less(i, k)
  {
    LessTotal(i, k);
    assert ByRecency(m[i], m[k]);
    assert m[i].created == m[k].created;
  }

  lemma SparedOldest(m: map<string, Item>, item: Item)
    requires Named(m) && m != map[] && forall k :: Oldest(k, m) ==> Spares(k, m, item, ByRecency)
    ensures OneOldest(m) || TwoOldest(m, item)
  {
    OldestExists(m, m.Keys);
    var k :| k in m.Keys && forall d :: d in m.Keys ==> m[k].created <= m[d].created;
    assert Oldest(k, m) && Spares(k, m, item, ByRecency);
    if !Alone(k, m) {
      var i :| Oldest(i, m) && i != k;
      if Last(k, m, ByRecency) { TiedLast(m, i, k); }
      var j := if Last(k, m, ByRecency) then i else k;
      assert Spares(j, m, item, ByRecency);
      var e :| LastBut(j, e, m, ByRecency);
      TiedLast(m, j, e);
      forall d | Oldest(d, m) && d != e ensures d == j { TiedOnce(m, item, j, d, e); }
      assert Paired(j, e, m);
    }
  }

  lemma TiedOnce(m: map<string, Item>, item: Item, j: string, d: string, e: string)
    requires Named(m) && LastBut(j, e, m, ByRecency) && Oldest(d, m) && d != e && Spares(d, m, item, ByRecency)
    ensures d == j
  {
    TiedLast(m, d, e);
    var f :| LastBut(d, f, m, ByRecency);
    LastUnique(m, e, f);
    LastButUnique(m, j, d, e);
  }

  lemma LastUnique(m: map<string, Item>, e: string, f: string)
    requires Last(e, m, ByRecency) && Last(f, m, ByRecency)
    ensures e == f
  {
    OrdersLawful();
  }

  lemma LastButUnique(m: map<string, Item>, j: string, d: string, e: string)
    requires LastBut(j, e, m, ByRecency) && LastBut(d, e, m, ByRecency)
    ensures j == d
  {
    OrdersLawful();
  }

  /** Backups at the bound: whichever of the oldest the policy drops, the pages stay one,
      if and only if one retained backup is oldest, or two are and the new one is listed
      before the first of them. */
  lemma AgePutSamePageIff(m: map<string, Item>, whole: map<string, Item>, item: Item, n: nat)
    requires Named(whole) && Submap(m, whole) && SamePage(m, whole, n, ByRecency) && |m| == n + 1 && item.name !in m
    ensures (forall after :: PutInto(m, after, item, AgeRetention(n), true)
               ==> SamePage(after, whole[item.name := item], n, ByRecency))
            <==> OneOldest(m) || TwoOldest(m, item)
  {
    if OneOldest(m) || TwoOldest(m, item) {
      forall after | PutInto(m, after, item, AgeRetention(n), true)
        ensures SamePage(after, whole[item.name := item], n, ByRecency) {
        var loser :| Loses(loser, m, Older) && after == (m - {loser})[item.name := item];
        OldestLoses(m, loser);
        OldestSpared(m, item, loser);
        AgeEvictIff(m, whole, loser, item, n);
      }
    }
    if forall after :: PutInto(m, after, item, AgeRetention(n), true) ==>
                         SamePage(after, whole[item.name := item], n, ByRecency)
    {
      forall k | Oldest(k, m) ensures Spares(k, m, item, ByRecency) {
        OldestLoses(m, k);
        AgeEvictIff(m, whole, k, item, n);
      }
      SparedOldest(m, item);
    }
  }

  lemma AgeEvictIff(m: map<string, Item>, whole: map<string, Item>, loser: string, item: Item, n: nat)
    requires Named(whole) && Submap(m, whole) && SamePage(m, whole, n, ByRecency) && |m| == n + 1 && item.name !in m
    requires Loses(loser, m, Older)
    ensures PutInto(m, (m - {loser})[item.name := item], item, AgeRetention(n), true)
    ensures SamePage((m - {loser})[item.name := item], whole[item.name := item], n, ByRecency)
            <==> Spares(loser, m, item, ByRecency)
  {
    OrdersLawful();
    TellsApart(whole);
    TellsApart(whole[item.name := item]);
    EvictSamePageIff(m, whole, loser, item.name, item, n, ByRecency);
  }

  /** A tie that parts the pages: a and b of one moment are retained, c is older, and the
      policy may drop a; the page then lists b where the unbounded map lists a. */
  lemma TieParts(a: Item, b: Item, c: Item)
    requires a.created == b.created > c.created && Less(a.name, b.name) && a.name != b.name && c.name != a.name
             && c.name != b.name
    ensures PutInto(map[a.name := a, b.name := b], map[b.name := b, c.name := c], c, AgeRetention(1), true)
    ensures Published([b.name], map[b.name := b, c.name := c], 1, ByRecency)
    ensures Published([a.name], map[a.name := a, b.name := b, c.name := c], 1, ByRecency)
  {
    TieEvicts(a, b, c);
    ListsFirst(map[b.name := b, c.name := c], b.name);
    ListsFirst(map[a.name := a, b.name := b, c.name := c], a.name);
  }

  lemma TieEvicts(a: Item, b: Item, c: Item)
    requires a.created == b.created && a.name != b.name && c.name != a.name && c.name != b.name
    ensures PutInto(map[a.name := a, b.name := b], map[b.name := b, c.name := c], c, AgeRetention(1), true)
  {
    var m := map[a.name := a, b.name := b];
    assert m == map[a.name := a][b.name := b];
    PutCount(map[a.name := a], b.name, b);
    assert Loses(a.name, m, Older);
    assert map[b.name := b, c.name := c] == (m - {a.name})[c.name := c];
  }

  lemma ListsFirst(m: map<string, Item>, name: string)
    requires name in m && forall k :: k in m && k != name ==> ByRecency(m[name], m[k])
    ensures Published([name], m, 1, ByRecency)
  {
    assert Elements([name]) == {name};
    assert m.Keys != {} && |m.Keys| == |m|;
  }
}
