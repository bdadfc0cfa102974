/** Captured owners in terms of segment paths: what ownership and the differ meet on. */
module OwnedPaths {
  import opened Prelude
  import opened Lex
  import opened Json
  import opened FieldPaths
  import opened Ownership
  import opened Misreadings
  import H = History
  import A = Attribution

  /** Where a captured path leads: the segment path down to the first list element whose key
      is not one textual name, that key, and the text that follows it. */
  datatype Captured = Captured(path: seq<Seg>, other: Option<string>, tail: string)

  const ROOT := Captured([], None, "")

  ghost function Text(c: Captured, codec: Codec): string {
    match c.other
    case None => Encode(c.path)
    case Some(raw) => Encode(c.path) + (AssociativeSegment(raw, codec) + c.tail)
  }

  ghost predicate WellFormed(c: Captured, codec: Codec) {
    match c.other
    case None => c.tail == ""
    case Some(raw) => !IsNameOnly(raw, codec) && Continues(c.tail)
  }

  predicate Descends(key: string) { "f:" <= key || "k:" <= key }

  /** What a key of an ownership tree adds to a path's text. */
  ghost function Rendered(key: string, codec: Codec): string
    requires Descends(key)
  {
    if "f:" <= key then FieldPathKey("", key[2..]) else AssociativeSegment(key[2..], codec)
  }

  ghost function Into(c: Captured, key: string, codec: Codec): Captured
    requires Descends(key)
  {
    if c.other.Some? then c.(tail := c.tail + Rendered(key, codec))
    else if "f:" <= key then c.(path := c.path + [Key(key[2..])])
    else if IsNameOnly(key[2..], codec) then c.(path := c.path + [Named(NameIn(key[2..], codec))])
    else c.(other := Some(key[2..]))
  }

  lemma RenderedShape(key: string, codec: Codec)
    requires Descends(key)
    ensures Rendered(key, codec) != "" && IsBoundary(Rendered(key, codec)[0])
  {
    if "f:" <= key { PieceShape(Key(key[2..])); }
  }

  lemma FieldText(path: string, key: string)
    ensures FieldPathKey(path, key) == path + FieldPathKey("", key)
  {
    ExtendPiece(path, Key(key));
  }

  /** The descent is rendered as the source renders it, and stays well formed. */
  lemma IntoText(c: Captured, key: string, codec: Codec)
    requires Descends(key) && WellFormed(c, codec)
    ensures WellFormed(Into(c, key, codec), codec)
    ensures Text(Into(c, key, codec), codec) == Text(c, codec) + Rendered(key, codec) != ""
  {
    RenderedShape(key, codec);
    match c.other {
      case Some(raw) =>
        Regroup(AssociativeSegment(raw, codec), c.tail, Rendered(key, codec));
        Regroup(Encode(c.path), AssociativeSegment(raw, codec) + c.tail, Rendered(key, codec));
      case None =>
        if "f:" <= key {
          ExtendText(c.path, Key(key[2..]));
        } else if IsNameOnly(key[2..], codec) {
          NameOnlySegment(key[2..], codec);
          ExtendText(c.path, Named(NameIn(key[2..], codec)));
        } else {
          assert AssociativeSegment(key[2..], codec) + "" == AssociativeSegment(key[2..], codec);
        }
    }
  }

  lemma ExtendText(path: seq<Seg>, seg: Seg)
    ensures Encode(path + [seg]) == Encode(path) + Piece(seg)
  {
    assert (path + [seg])[..|path|] == path;
    EncodeBack(path + [seg]);
  }

  /* ---------- the paths of a tree ---------- */

  ghost function CapturedAt(c: Captured, node: Json, key: string, codec: Codec): seq<Captured>
    requires node.Obj? && key in node.fields
    decreases node, 0, 0
  {
    if key == "." || "v:" <= key then (if Text(c, codec) != "" then [c] else [])
    else if Descends(key) then CapturedBelow(Into(c, key, codec), node.fields[key], codec)
    else []
  }

  ghost function CapturedBelow(c: Captured, v: Json, codec: Codec): seq<Captured>
    decreases v, 2, 0
  {
    if v.Obj? && v.fields != map[] then
      AscendingKeys(v.fields.Keys);
      CapturedOf(c, v, Ascending(v.fields.Keys), codec)
    else [c]
  }

  /** What a tree's walk captures below c. */
  ghost function CapturedOf(c: Captured, node: Json, keys: seq<string>, codec: Codec): seq<Captured>
    requires node.Obj? && forall i :: 0 <= i < |keys| ==> keys[i] in node.fields
    decreases node, 1, |keys|
  {
    if keys == [] then []
    else CapturedOf(c, node, keys[..|keys| - 1], codec) + CapturedAt(c, node, keys[|keys| - 1], codec)
  }

  ghost function Texts(cs: seq<Captured>, codec: Codec): (r: seq<string>)
    ensures |r| == |cs| && forall i :: 0 <= i < |r| ==> r[i] == Text(cs[i], codec)
  {
    seq(|cs|, i requires 0 <= i < |cs| => Text(cs[i], codec))
  }

  lemma TextsConcat(a: seq<Captured>, b: seq<Captured>, codec: Codec)
    ensures Texts(a + b, codec) == Texts(a, codec) + Texts(b, codec)
  {
  }

  lemma {:induction false} AtCaptured(c: Captured, node: Json, key: string, codec: Codec)
    requires node.Obj? && key in node.fields && WellFormed(c, codec)
    ensures OwnedAt(Text(c, codec), node, key, codec) == Texts(CapturedAt(c, node, key, codec), codec)
    decreases node, 0, 0
  {
    if key == "." || "v:" <= key {
    } else if Descends(key) {
      IntoText(c, key, codec);
      if "f:" <= key { FieldText(Text(c, codec), key[2..]); }
      BelowCaptured(Into(c, key, codec), node.fields[key], codec);
    }
  }

  lemma {:induction false} BelowCaptured(c: Captured, v: Json, codec: Codec)
    requires WellFormed(c, codec)
    ensures Below(Text(c, codec), v, codec) == Texts(CapturedBelow(c, v, codec), codec)
    decreases v, 2, 0
  {
    if v.Obj? && v.fields != map[] {
      AscendingKeys(v.fields.Keys);
      OwnedCaptured(c, v, Ascending(v.fields.Keys), codec);
    }
  }

  /** What the walk of any tree collects is, path by path and in order, what it leads to. */
  lemma {:induction false} OwnedCaptured(c: Captured, node: Json, keys: seq<string>, codec: Codec)
    requires node.Obj? && WellFormed(c, codec) && forall i :: 0 <= i < |keys| ==> keys[i] in node.fields
    ensures Owned(Text(c, codec), node, keys, codec) == Texts(CapturedOf(c, node, keys, codec), codec)
    decreases node, 1, |keys|
  {
    if keys != [] {
      var n := |keys| - 1;
      OwnedCaptured(c, node, keys[..n], codec);
      AtCaptured(c, node, keys[n], codec);
      TextsConcat(CapturedOf(c, node, keys[..n], codec), CapturedAt(c, node, keys[n], codec), codec);
    }
  }

  ghost predicate Sound(cs: seq<Captured>, codec: Codec) {
    forall i :: 0 <= i < |cs| ==> WellFormed(cs[i], codec) && Text(cs[i], codec) != ""
  }

  lemma {:induction false} AtSound(c: Captured, node: Json, key: string, codec: Codec)
    requires node.Obj? && key in node.fields && WellFormed(c, codec)
    ensures Sound(CapturedAt(c, node, key, codec), codec)
    decreases node, 0, 0
  {
    if Descends(key) && key != "." && !("v:" <= key) {
      var v, below := node.fields[key], Into(c, key, codec);
      IntoText(c, key, codec);
      if v.Obj? && v.fields != map[] {
        AscendingKeys(v.fields.Keys);
        OfSound(below, v, Ascending(v.fields.Keys), codec);
      }
    }
  }

  /** Every captured path has a text, down to a key that is no textual name if there is one. */
  lemma {:induction false} OfSound(c: Captured, node: Json, keys: seq<string>, codec: Codec)
    requires node.Obj? && WellFormed(c, codec) && forall i :: 0 <= i < |keys| ==> keys[i] in node.fields
    ensures Sound(CapturedOf(c, node, keys, codec), codec)
    decreases node, 1, |keys|
  {
    if keys != [] {
      OfSound(c, node, keys[..|keys| - 1], codec);
      AtSound(c, node, keys[|keys| - 1], codec);
    }
  }

  /* ---------- the paths of all managers ---------- */

  datatype Holding = Holding(manager: string, captured: Captured)

  ghost function HoldingsOf(e: Entry, codec: Codec): (hs: seq<Holding>)
    requires Counts(e)
    ensures forall i :: 0 <= i < |hs| ==> hs[i].manager == e.manager
  {
    AscendingKeys(e.fields.value.Keys);
    var cs := CapturedOf(ROOT, Obj(e.fields.value), Ascending(e.fields.value.Keys), codec);
    seq(|cs|, i requires 0 <= i < |cs| => Holding(e.manager, cs[i]))
  }

  /** Everything the managed fields hold, in order, before the budget. */
  ghost function AllHoldings(entries: seq<Entry>, codec: Codec): seq<Holding> {
    if entries == [] then []
    else
      var e := entries[|entries| - 1];
      AllHoldings(entries[..|entries| - 1], codec) + (if Counts(e) then HoldingsOf(e, codec) else [])
  }

  ghost predicate Claimed(claims: seq<Claim>, hs: seq<Holding>, codec: Codec) {
    && |claims| == |hs|
    && forall i :: 0 <= i < |hs| ==>
         && claims[i] == Claim(hs[i].manager, Text(hs[i].captured, codec))
         && WellFormed(hs[i].captured, codec) && Text(hs[i].captured, codec) != ""
  }

  lemma ClaimedConcat(a: seq<Claim>, b: seq<Claim>, x: seq<Holding>, y: seq<Holding>, codec: Codec)
    requires Claimed(a, x, codec) && Claimed(b, y, codec)
    ensures Claimed(a + b, x + y, codec)
  {
  }

  lemma EntryClaims(e: Entry, codec: Codec)
    requires Counts(e)
    ensures Claimed(Claims(e.manager, KeysOf("", Obj(e.fields.value), codec)), HoldingsOf(e, codec), codec)
  {
    var node := Obj(e.fields.value);
    AscendingKeys(node.fields.Keys);
    assert Text(ROOT, codec) == "";
    OwnedCaptured(ROOT, node, Ascending(node.fields.Keys), codec);
    OfSound(ROOT, node, Ascending(node.fields.Keys), codec);
  }

  /** Any managed fields at all: what is claimed is what is held, claim by claim. */
  lemma {:induction false} ClaimsHold(entries: seq<Entry>, codec: Codec)
    ensures Claimed(AllClaims(entries, codec), AllHoldings(entries, codec), codec)
    decreases |entries|
  {
    if entries != [] {
      var e, front := entries[|entries| - 1], entries[..|entries| - 1];
      ClaimsHold(front, codec);
      if Counts(e) {
        EntryClaims(e, codec);
        ClaimedConcat(AllClaims(front, codec), Claims(e.manager, KeysOf("", Obj(e.fields.value), codec)),
                      AllHoldings(front, codec), HoldingsOf(e, codec), codec);
      }
    }
  }

  /* ---------- attribution ---------- */

  /** A captured path no reader can take for another: its segments are safe, and the key it
      may end at does not mislead. */
  ghost predicate Legible(c: Captured, codec: Codec) {
    SafePath(c.path) && (c.other.Some? ==> !Misleads(c.other.value, codec))
  }

  /** The change contains the captured path, or the part of it before a key that is no name;
      or it lies inside a captured path that is segments throughout. */
  predicate Touches(c: Captured, x: seq<Seg>) {
    x <= c.path || (c.other.None? && c.path <= x)
  }

  lemma RelateSymmetric(a: string, b: string)
    ensures PathsRelate(a, b) <==> PathsRelate(b, a)
  {
  }

  /** The character test decides exactly that. */
  lemma RelatesIffTouches(c: Captured, x: seq<Seg>, codec: Codec)
    requires WellFormed(c, codec) && Text(c, codec) != "" && Legible(c, codec) && x != [] && SafePath(x)
    ensures PathsRelate(Encode(x), Text(c, codec)) <==> Touches(c, x)
  {
    match c.other {
      case None =>
        EncodeShape(c.path);
        RelateFaithful(x, c.path);
      case Some(raw) =>
        MisleadsIff(raw, codec);
        UnreadIff(c.path, Body(raw, codec), c.tail, x);
        RelateSymmetric(Encode(x), Text(c, codec));
    }
  }

  /** Some holding of the manager, within the budget, touches the change. */
  ghost predicate Holds(entries: seq<Entry>, codec: Codec, manager: string, x: seq<Seg>) {
    exists i :: 0 <= i < |Kept(entries, codec)| && Kept(entries, codec)[i].manager == manager
                && Touches(Kept(entries, codec)[i].captured, x)
  }

  ghost function Kept(entries: seq<Entry>, codec: Codec): seq<Holding> {
    First(MAX_OWNED_PATHS, AllHoldings(entries, codec))
  }

  ghost predicate AllLegible(entries: seq<Entry>, codec: Codec, manager: string) {
    forall i :: 0 <= i < |Kept(entries, codec)| && Kept(entries, codec)[i].manager == manager ==>
                  Legible(Kept(entries, codec)[i].captured, codec)
  }

  lemma KeptClaims(entries: seq<Entry>, codec: Codec)
    ensures Claimed(First(MAX_OWNED_PATHS, AllClaims(entries, codec)), Kept(entries, codec), codec)
  {
    ClaimsHold(entries, codec);
  }

  lemma OwnerOf(owners: seq<H.FieldOwner>, claims: seq<Claim>, i: nat, path: string)
    requires Publishes(owners, claims) && i < |owners|
    ensures Claim(owners[i].manager, path) in claims <==> path in owners[i].paths
  {
    if Claim(owners[i].manager, path) in claims {
      var j :| 0 <= j < |owners| && owners[j].manager == owners[i].manager && path in owners[j].paths;
      LessTotal(owners[i].manager, owners[j].manager);
    }
  }

  /** From any managed fields to attribution: while what a manager holds is legible, it owns
      a safe change exactly when something it holds touches the change. */
  lemma CapturedContainment(entries: seq<Entry>, codec: Codec, owners: seq<H.FieldOwner>, i: nat, x: seq<Seg>)
    requires Publishes(owners, First(MAX_OWNED_PATHS, AllClaims(entries, codec)))
    requires i < |owners| && x != [] && SafePath(x) && AllLegible(entries, codec, owners[i].manager)
    ensures A.Owns(owners[i], Encode(x)) <==> Holds(entries, codec, owners[i].manager, x)
  {
    var claims, kept := First(MAX_OWNED_PATHS, AllClaims(entries, codec)), Kept(entries, codec);
    KeptClaims(entries, codec);
    if k :| 0 <= k < |owners[i].paths| && PathsRelate(Encode(x), owners[i].paths[k]) {
      OwnerOf(owners, claims, i, owners[i].paths[k]);
      var j :| 0 <= j < |claims| && claims[j] == Claim(owners[i].manager, owners[i].paths[k]);
      RelatesIffTouches(kept[j].captured, x, codec);
    }
    if Holds(entries, codec, owners[i].manager, x) {
      var j :| 0 <= j < |kept| && kept[j].manager == owners[i].manager && Touches(kept[j].captured, x);
      RelatesIffTouches(kept[j].captured, x, codec);
      assert claims[j] in claims;
      OwnerOf(owners, claims, i, Text(kept[j].captured, codec));
      var k :| 0 <= k < |owners[i].paths| && owners[i].paths[k] == Text(kept[j].captured, codec);
    }
  }

  ghost predicate EveryLegible(entries: seq<Entry>, codec: Codec) {
    forall m :: AllLegible(entries, codec, m)
  }

  lemma {:induction false} ClaimantsHold(entries: seq<Entry>, codec: Codec, owners: seq<H.FieldOwner>, n: nat,
                                         x: seq<Seg>, m: string)
    requires Publishes(owners, First(MAX_OWNED_PATHS, AllClaims(entries, codec))) && EveryLegible(entries, codec)
    requires n <= |owners| && x != [] && SafePath(x)
    ensures m in A.Claimants(Encode(x), owners[..n])
            <==> exists i :: 0 <= i < n && owners[i].manager == m && Holds(entries, codec, m, x)
    decreases n
  {
    if n > 0 {
      ClaimantsHold(entries, codec, owners, n - 1, x, m);
      A.ClaimantsNext(Encode(x), owners, n - 1);
      CapturedContainment(entries, codec, owners, n - 1, x);
    }
  }

  lemma HolderOwns(entries: seq<Entry>, codec: Codec, owners: seq<H.FieldOwner>, x: seq<Seg>, m: string)
    requires Publishes(owners, First(MAX_OWNED_PATHS, AllClaims(entries, codec))) && Holds(entries, codec, m, x)
    ensures m != "" && exists i :: 0 <= i < |owners| && owners[i].manager == m
  {
    var claims, kept := First(MAX_OWNED_PATHS, AllClaims(entries, codec)), Kept(entries, codec);
    KeptClaims(entries, codec);
    var j :| 0 <= j < |kept| && kept[j].manager == m && Touches(kept[j].captured, x);
    assert claims[j] in claims;
  }

  /** End to end: while everything held is legible, a safe change is attributed to a manager
      exactly when that one alone holds something that touches it. */
  lemma CapturedAttribution(entries: seq<Entry>, codec: Codec, owners: seq<H.FieldOwner>, x: seq<Seg>, m: string)
    requires Publishes(owners, First(MAX_OWNED_PATHS, AllClaims(entries, codec))) && EveryLegible(entries, codec)
    requires x != [] && SafePath(x) && m != ""
    ensures A.Attributed(Encode(x), owners) == m
            <==> Holds(entries, codec, m, x) && forall other :: Holds(entries, codec, other, x) ==> other == m
  {
    var claims := A.Claimants(Encode(x), owners);
    assert owners[..|owners|] == owners;
    forall other ensures other in claims <==> Holds(entries, codec, other, x) {
      ClaimantsHold(entries, codec, owners, |owners|, x, other);
      if Holds(entries, codec, other, x) { HolderOwns(entries, codec, owners, x, other); }
    }
    NoneUnnamed(Encode(x), owners);
    A.SoleOfNamed(claims, m);
  }
}
