/** The log buffer: per-container queues under two byte bounds. */
module LogBuffer {
  import opened Prelude

  datatype Key = Key(pod: string, container: string)

  datatype Entry = Entry(at: int, text: seq<byte>, gap: bool)

  function Size(e: Entry): (n: nat)
    ensures n >= 48
  {
    |e.text| + 48
  }

  function Total(entries: seq<Entry>): nat {
    if entries == [] then 0 else Size(entries[0]) + Total(entries[1..])
  }

  lemma {:induction false} TotalPush(entries: seq<Entry>, e: Entry)
    ensures Total(entries + [e]) == Total(entries) + Size(e)
    decreases |entries|
  {
    if entries == [] {
      assert [] + [e] == [e];
    } else {
      assert (entries + [e])[1..] == entries[1..] + [e];
      TotalPush(entries[1..], e);
    }
  }

  function Texts(entries: seq<Entry>): seq<byte> {
    if entries == [] then [] else entries[0].text + Texts(entries[1..])
  }

  /** What is counted is every byte of text, and a fixed overhead for each entry. */
  lemma {:induction false} TotalMeans(entries: seq<Entry>)
    ensures Total(entries) == |Texts(entries)| + 48 * |entries|
    decreases |entries|
  {
    if entries != [] { TotalMeans(entries[1..]); }
  }

  /** A queue and its cached byte count. */
  datatype Stream = Stream(entries: seq<Entry>, bytes: int)

  type Streams = map<Key, Stream>

  /* ---------- the sum over all streams ---------- */

  ghost function Held(streams: Streams, keys: set<Key>): nat
    requires keys <= streams.Keys
  {
    if keys == {} then 0
    else
      var k :| k in keys;
      Total(streams[k].entries) + Held(streams, keys - {k})
  }

  /** The sum does not depend on the order in which the streams are taken. */
  lemma {:induction false} HeldSplit(streams: Streams, keys: set<Key>, k: Key)
    requires keys <= streams.Keys && k in keys
    ensures Held(streams, keys) == Total(streams[k].entries) + Held(streams, keys - {k})
    decreases |keys|
  {
    var c :| c in keys && Held(streams, keys) == Total(streams[c].entries) + Held(streams, keys - {c});
    if c != k {
      HeldSplit(streams, keys - {c}, k);
      HeldSplit(streams, keys - {k}, c);
      assert keys - {c} - {k} == keys - {k} - {c};
    }
  }

  lemma {:induction false} HeldSame(a: Streams, b: Streams, keys: set<Key>)
    requires keys <= a.Keys && keys <= b.Keys && forall k :: k in keys ==> a[k].entries == b[k].entries
    ensures Held(a, keys) == Held(b, keys)
    decreases |keys|
  {
    if keys != {} {
      var k :| k in keys;
      HeldSplit(a, keys, k);
      HeldSplit(b, keys, k);
      HeldSame(a, b, keys - {k});
    }
  }

  ghost function HeldAll(streams: Streams): nat { Held(streams, streams.Keys) }

  lemma HeldPut(streams: Streams, k: Key, s: Stream)
    ensures HeldAll(streams[k := s]) + (if k in streams then Total(streams[k].entries) else 0)
            == HeldAll(streams) + Total(s.entries)
  {
    var next := streams[k := s];
    var rest := streams.Keys - {k};
    HeldSplit(next, next.Keys, k);
    assert next.Keys - {k} == rest;
    HeldSame(streams, next, rest);
    if k in streams { HeldSplit(streams, streams.Keys, k); } else { assert rest == streams.Keys; }
  }

  lemma HeldDrop(streams: Streams, k: Key)
    requires k in streams
    ensures HeldAll(streams) == HeldAll(streams - {k}) + Total(streams[k].entries)
  {
    HeldSplit(streams, streams.Keys, k);
    var next := streams - {k};
    assert next.Keys == streams.Keys - {k};
    HeldSame(streams, next, next.Keys);
  }

  /* ---------- what the buffer keeps of what it was given ---------- */

  /** Every stream has entries and counts them. */
  ghost predicate Counted(streams: Streams) {
    forall k :: k in streams ==> streams[k].entries != [] && streams[k].bytes == Total(streams[k].entries)
  }

  ghost predicate IsSuffix(s: seq<Entry>, all: seq<Entry>) {
    |s| <= |all| && s == all[|all| - |s|..]
  }

  /** Each container's retained entries are the newest of all it was given since its pod
      was last forgotten. */
  ghost predicate Suffixes(streams: Streams, given: map<Key, seq<Entry>>) {
    forall k :: k in streams ==> k in given && IsSuffix(streams[k].entries, given[k])
  }

  lemma SuffixPush(s: seq<Entry>, all: seq<Entry>, e: Entry)
    requires IsSuffix(s, all)
    ensures IsSuffix(s + [e], all + [e])
  {
  }

  ghost function Given(given: map<Key, seq<Entry>>, k: Key): seq<Entry> { if k in given then given[k] else [] }

  function EntriesOf(streams: Streams, k: Key): seq<Entry> {
    if k in streams then streams[k].entries else []
  }

  function Pushed(streams: Streams, k: Key, e: Entry): Streams {
    streams[k := Stream(EntriesOf(streams, k) + [e], Total(EntriesOf(streams, k) + [e]))]
  }

  lemma PushHeld(streams: Streams, k: Key, e: Entry)
    ensures HeldAll(Pushed(streams, k, e)) == HeldAll(streams) + Size(e)
  {
    TotalPush(EntriesOf(streams, k), e);
    HeldPut(streams, k, Stream(EntriesOf(streams, k) + [e], Total(EntriesOf(streams, k) + [e])));
  }

  lemma SuffixesPut(streams: Streams, given: map<Key, seq<Entry>>, k: Key, s: Stream, all: seq<Entry>)
    requires Suffixes(streams, given) && IsSuffix(s.entries, all)
    ensures Suffixes(streams[k := s], given[k := all])
  {
  }

  lemma OwnSuffix(streams: Streams, given: map<Key, seq<Entry>>, k: Key)
    requires Suffixes(streams, given)
    ensures IsSuffix(EntriesOf(streams, k), Given(given, k))
  {
  }

  lemma PushSuffixes(streams: Streams, given: map<Key, seq<Entry>>, k: Key, e: Entry)
    requires Suffixes(streams, given)
    ensures Suffixes(Pushed(streams, k, e), given[k := Given(given, k) + [e]])
  {
    var own, all := EntriesOf(streams, k), Given(given, k);
    OwnSuffix(streams, given, k);
    SuffixPush(own, all, e);
    SuffixesPut(streams, given, k, Stream(own + [e], Total(own + [e])), all + [e]);
  }

  lemma PushKeeps(streams: Streams, given: map<Key, seq<Entry>>, k: Key, e: Entry)
    requires Kept(streams, given)
    ensures Kept(Pushed(streams, k, e), given[k := Given(given, k) + [e]])
  {
    PushSuffixes(streams, given, k, e);
  }

  /** Removing the oldest entry of one stream, and the stream with its last entry. */
  function DropOldest(streams: Streams, k: Key): Streams
    requires k in streams && streams[k].entries != []
  {
    var s := streams[k];
    if |s.entries| == 1 then streams - {k}
    else streams[k := Stream(s.entries[1..], s.bytes - Size(s.entries[0]))]
  }

  ghost predicate Kept(streams: Streams, given: map<Key, seq<Entry>>) {
    Counted(streams) && Suffixes(streams, given)
  }

  lemma DropHeld(streams: Streams, k: Key)
    requires k in streams && streams[k].entries != []
    ensures HeldAll(DropOldest(streams, k)) == HeldAll(streams) - Size(streams[k].entries[0])
  {
    var s := streams[k];
    if |s.entries| == 1 {
      HeldDrop(streams, k);
      assert Total(s.entries) == Size(s.entries[0]);
    } else {
      HeldPut(streams, k, Stream(s.entries[1..], s.bytes - Size(s.entries[0])));
    }
  }

  lemma SuffixRest(s: seq<Entry>, all: seq<Entry>)
    requires IsSuffix(s, all) && s != []
    ensures IsSuffix(s[1..], all)
  {
  }

  lemma DropSuffixes(streams: Streams, given: map<Key, seq<Entry>>, k: Key)
    requires Suffixes(streams, given) && k in streams && streams[k].entries != []
    ensures Suffixes(DropOldest(streams, k), given)
  {
    SuffixRest(streams[k].entries, given[k]);
  }

  lemma DropCounted(streams: Streams, k: Key)
    requires Counted(streams) && k in streams
    ensures Counted(DropOldest(streams, k))
  {
  }

  lemma DropKeeps(streams: Streams, given: map<Key, seq<Entry>>, k: Key)
    requires Kept(streams, given) && k in streams
    ensures Kept(DropOldest(streams, k), given)
    ensures HeldAll(DropOldest(streams, k)) == HeldAll(streams) - Size(streams[k].entries[0])
  {
    DropHeld(streams, k);
    DropCounted(streams, k);
    DropSuffixes(streams, given, k);
  }

  /* ---------- which entries go ---------- */

  /** The container's own bound: entries go from the front until the rest fits. */
  function Trim(entries: seq<Entry>, cap: int): seq<Entry>
    decreases |entries|
  {
    if entries == [] || Total(entries) <= cap then entries else Trim(entries[1..], cap)
  }

  /** What is left is the longest run of newest entries that fits. */
  lemma {:induction false} TrimLongest(entries: seq<Entry>, cap: nat, n: nat)
    requires n <= |entries|
    ensures Total(entries[n..]) <= cap <==> |entries[n..]| <= |Trim(entries, cap)|
    ensures IsSuffix(Trim(entries, cap), entries)
    decreases |entries|
  {
    if Total(entries) <= cap {
      TotalSuffix(entries, n);
    } else {
      TrimLongest(entries[1..], cap, if n > 0 then n - 1 else 0);
      if n > 0 { assert entries[n..] == entries[1..][n - 1..]; } else { assert entries[0..] == entries; }
    }
  }

  lemma {:induction false} TrimFits(entries: seq<Entry>, cap: nat)
    ensures Total(Trim(entries, cap)) <= cap
    decreases |entries|
  {
    if entries != [] && Total(entries) > cap { TrimFits(entries[1..], cap); }
  }

  lemma {:induction false} TotalSuffix(entries: seq<Entry>, n: nat)
    requires n <= |entries|
    ensures Total(entries[n..]) <= Total(entries)
    decreases n
  {
    if n > 0 {
      assert entries[n..] == entries[1..][n - 1..];
      TotalSuffix(entries[1..], n - 1);
    } else {
      assert entries[0..] == entries;
    }
  }

  function WithOwn(streams: Streams, k: Key, own: seq<Entry>): Streams {
    if own == [] then streams - {k} else streams[k := Stream(own, Total(own))]
  }

  lemma PushedIsOwn(streams: Streams, k: Key, e: Entry)
    ensures Pushed(streams, k, e) == WithOwn(streams, k, EntriesOf(streams, k) + [e])
  {
  }

  lemma DropOwn(streams: Streams, k: Key, own: seq<Entry>)
    requires own != []
    ensures DropOldest(WithOwn(streams, k, own), k) == WithOwn(streams, k, own[1..])
  {
    if |own| == 1 {
      assert streams[k := Stream(own, Total(own))] - {k} == streams - {k};
    }
  }

  ghost predicate OldestHead(streams: Streams, k: Key) {
    && k in streams && streams[k].entries != []
    && forall j :: j in streams && streams[j].entries != [] ==> streams[k].entries[0].at <= streams[j].entries[0].at
  }

  /** The global bound: while too much is held, the oldest front entry goes. */
  ghost predicate Drains(streams: Streams, path: seq<Key>, total: int, after: Streams)
    decreases |path|
  {
    if path == [] then after == streams
    else
      && HeldAll(streams) > total && OldestHead(streams, path[0])
      && Drains(DropOldest(streams, path[0]), path[1..], total, after)
  }

  lemma {:induction false} DrainsNext(streams: Streams, path: seq<Key>, total: int, after: Streams, k: Key)
    requires Drains(streams, path, total, after) && HeldAll(after) > total && OldestHead(after, k)
    ensures Drains(streams, path + [k], total, DropOldest(after, k))
    decreases |path|
  {
    if path != [] {
      assert (path + [k])[1..] == path[1..] + [k];
      DrainsNext(DropOldest(streams, path[0]), path[1..], total, after, k);
    } else {
      assert [] + [k] == [k] && [k][1..] == [];
    }
  }

  /** A queue whose entries arrived in time order. */
  ghost predicate InOrder(streams: Streams) {
    forall k, i, j :: k in streams && 0 <= i < j < |streams[k].entries|
      ==> streams[k].entries[i].at <= streams[k].entries[j].at
  }

  ghost predicate NoneOlder(streams: Streams, at: int) {
    forall k, i :: k in streams && 0 <= i < |streams[k].entries| ==> at <= streams[k].entries[i].at
  }

  /** The entries a drain takes, in the order it takes them. */
  function Taken(streams: Streams, path: seq<Key>): seq<Entry>
    decreases |path|
  {
    if path == [] || EntriesOf(streams, path[0]) == [] then []
    else [EntriesOf(streams, path[0])[0]] + Taken(DropOldest(streams, path[0]), path[1..])
  }

  /** When entries arrived in time order, the global bound drops the oldest entries of the
      whole buffer: nothing that goes is newer than anything that stays. */
  lemma {:induction false} DrainTakesOldest(streams: Streams, path: seq<Key>, total: int, after: Streams)
    requires InOrder(streams) && Drains(streams, path, total, after)
    ensures InOrder(after)
    ensures forall e :: e in Taken(streams, path) ==> NoneOlder(after, e.at)
    ensures forall at :: NoneOlder(streams, at) ==> NoneOlder(after, at)
    decreases |path|
  {
    if path != [] {
      var at, next := streams[path[0]].entries[0].at, DropOldest(streams, path[0]);
      assert NoneOlder(streams, at) by {
        forall k, i | k in streams && 0 <= i < |streams[k].entries| ensures at <= streams[k].entries[i].at {
          assert streams[k].entries[0].at <= streams[k].entries[i].at;
        }
      }
      forall a | NoneOlder(streams, a) ensures NoneOlder(next, a) {
        DropInOrder(streams, path[0], a);
      }
      DropInOrder(streams, path[0], at);
      DrainTakesOldest(next, path[1..], total, after);
    }
  }

  /** A drain takes no entry too many: before its last one the buffer still held too much. */
  lemma {:induction false} DrainIsLeast(streams: Streams, given: map<Key, seq<Entry>>, path: seq<Key>, total: int,
                                        after: Streams)
    requires Kept(streams, given) && Drains(streams, path, total, after)
    ensures var taken := Taken(streams, path);
            && |taken| == |path| && HeldAll(streams) == Total(taken) + HeldAll(after)
            && (taken != [] ==> HeldAll(after) + Size(taken[|taken| - 1]) > total)
    decreases |path|
  {
    if path != [] {
      var next := DropOldest(streams, path[0]);
      DropKeeps(streams, given, path[0]);
      DrainIsLeast(next, given, path[1..], total, after);
      var first, rest := streams[path[0]].entries[0], Taken(next, path[1..]);
      assert Taken(streams, path) == [first] + rest;
      LeastStep(first, rest, HeldAll(next), HeldAll(after), total);
    }
  }

  lemma TakenCounts(first: Entry, rest: seq<Entry>)
    ensures Total([first] + rest) == Size(first) + Total(rest)
    ensures var taken := [first] + rest; taken[|taken| - 1] == if rest == [] then first else rest[|rest| - 1]
  {
    assert ([first] + rest)[1..] == rest;
  }

  lemma LeastStep(first: Entry, rest: seq<Entry>, held: int, left: int, total: int)
    requires held == Total(rest) + left && held + Size(first) > total
    requires rest != [] ==> left + Size(rest[|rest| - 1]) > total
    ensures var taken := [first] + rest;
            held + Size(first) == Total(taken) + left && left + Size(taken[|taken| - 1]) > total
  {
    TakenCounts(first, rest);
  }

  lemma DropInOrder(streams: Streams, k: Key, at: int)
    requires InOrder(streams) && NoneOlder(streams, at) && k in streams && streams[k].entries != []
    ensures InOrder(DropOldest(streams, k)) && NoneOlder(DropOldest(streams, k), at)
  {
  }

  /** While any byte is held some stream has an entry to give up. */
  lemma HeldSome(streams: Streams)
    requires HeldAll(streams) > 0
    ensures streams.Keys != {}
  {
  }

  ghost predicate Within(streams: Streams, cap: int) {
    forall k :: k in streams ==> streams[k].bytes <= cap
  }

  lemma DropWithin(streams: Streams, k: Key, cap: int)
    requires Within(streams, cap) && k in streams && streams[k].entries != []
    ensures Within(DropOldest(streams, k), cap)
  {
  }

  lemma OwnFits(streams: Streams, k: Key, pushed: seq<Entry>, cap: nat)
    requires Within(streams, cap)
    ensures Within(WithOwn(streams, k, Trim(pushed, cap)), cap)
  {
    TrimFits(pushed, cap);
  }

  class Buffer {
    const perContainer: int
    const total: int
    var streams: Streams
    var bytes: int
    /** Everything each container was given since its pod was last forgotten. */
    ghost var given: map<Key, seq<Entry>>

    predicate Enabled() { perContainer > 0 && total > 0 }

    ghost predicate Bounded()
      reads this
    {
      Within(streams, perContainer) && bytes <= total
    }

    ghost predicate Valid()
      reads this
    {
      && Kept(streams, given) && bytes == HeldAll(streams)
      && (if Enabled() then Bounded() else streams == map[])
    }

    constructor (perContainer: int, total: int)
      ensures Valid() && streams == map[] && given == map[]
      ensures this.perContainer == perContainer && this.total == total
    {
      this.perContainer, this.total := perContainer, total;
      streams, bytes, given := map[], 0, map[];
    }

    /** dropOldest. */
    method Drop(k: Key)
      requires k in streams && streams[k].entries != []
      modifies this`streams, this`bytes
      ensures streams == DropOldest(old(streams), k)
      ensures bytes == old(bytes) - Size(old(streams[k].entries[0]))
    {
      var s := streams[k];
      var size := Size(s.entries[0]);
      s := Stream(s.entries[1..], s.bytes - size);
      bytes := bytes - size;
      if |s.entries| == 0 { streams := streams - {k}; } else { streams := streams[k := s]; }
    }

    /** oldestStream: ranges over the streams in any order. */
    method OldestStream() returns (found: Option<Key>)
      ensures found.None? <==> forall k :: k in streams ==> streams[k].entries == []
      ensures found.Some? ==> OldestHead(streams, found.value)
    {
      found := None;
      var left := streams.Keys;
      while left != {}
        invariant left <= streams.Keys
        invariant found.None? ==> forall k :: k in streams && k !in left ==> streams[k].entries == []
        invariant found.Some? ==>
                    && found.value in streams && streams[found.value].entries != []
                    && forall k :: k in streams && k !in left && streams[k].entries != [] ==>
                         streams[found.value].entries[0].at <= streams[k].entries[0].at
        decreases |left|
      {
        var k :| k in left;
        left := left - {k};
        if streams[k].entries != [] && (found.None? || streams[k].entries[0].at < streams[found.value].entries[0].at) {
          found := Some(k);
        }
      }
    }

    /** append, the entry added to its container's queue. */
    method Push(k: Key, e: Entry)
      requires Counted(streams)
      modifies this
      ensures streams == Pushed(old(streams), k, e)
      ensures bytes == old(bytes) + Size(e) && given == old(given)[k := Given(old(given), k) + [e]]
    {
      var s := if k in streams then streams[k] else Stream([], 0);
      TotalPush(s.entries, e);
      s := Stream(s.entries + [e], s.bytes + Size(e));
      streams := streams[k := s];
      bytes := bytes + Size(e);
      given := given[k := Given(given, k) + [e]];
    }

    /** append, the container's own bound. */
    method TrimOwn(k: Key, ghost before: Streams, ghost pushed: seq<Entry>)
      requires Kept(streams, given) && bytes == HeldAll(streams) && streams == WithOwn(before, k, pushed)
      modifies this`streams, this`bytes
      ensures Kept(streams, given) && bytes == HeldAll(streams)
      ensures streams == WithOwn(before, k, Trim(pushed, perContainer))
    {
      ghost var own := pushed;
      while k in streams && streams[k].bytes > perContainer
        invariant Kept(streams, given) && bytes == HeldAll(streams)
        invariant streams == WithOwn(before, k, own) && Trim(own, perContainer) == Trim(pushed, perContainer)
        decreases bytes
      {
        DropKeeps(streams, given, k);
        DropOwn(before, k, own);
        own := own[1..];
        Drop(k);
      }
    }

    /** The global loop. Over the total some byte is held, so a front entry is always found
        and the source's escape is never taken. */
    method Drain() returns (ghost path: seq<Key>)
      requires Kept(streams, given) && bytes == HeldAll(streams) && Within(streams, perContainer) && total > 0
      modifies this`streams, this`bytes
      ensures Kept(streams, given) && bytes == HeldAll(streams) && Within(streams, perContainer) && bytes <= total
      ensures Drains(old(streams), path, total, streams)
    {
      path := [];
      while bytes > total
        invariant Kept(streams, given) && bytes == HeldAll(streams) && Within(streams, perContainer)
        invariant Drains(old(streams), path, total, streams)
        decreases bytes
      {
        HeldSome(streams);
        var oldest := OldestStream();
        assert oldest.Some?;
        DropKeeps(streams, given, oldest.value);
        DropWithin(streams, oldest.value, perContainer);
        DrainsNext(old(streams), path, total, streams, oldest.value);
        path := path + [oldest.value];
        Drop(oldest.value);
      }
    }

    /** Everything given is a suffix away: what goes is what the two bounds take, in turn. */
    method Append(k: Key, e: Entry) returns (ghost path: seq<Key>)
      requires Valid() && Enabled()
      modifies this
      ensures Valid() && given == old(given)[k := Given(old(given), k) + [e]]
      ensures Drains(WithOwn(old(streams), k, Trim(EntriesOf(old(streams), k) + [e], perContainer)), path, total,
                     streams)
    {
      AppendOwn(k, e);
      path := Drain();
    }

    /** append, before the global bound. */
    method AppendOwn(k: Key, e: Entry)
      requires Valid() && Enabled()
      modifies this
      ensures Kept(streams, given) && bytes == HeldAll(streams) && Within(streams, perContainer)
      ensures given == old(given)[k := Given(old(given), k) + [e]]
      ensures streams == WithOwn(old(streams), k, Trim(EntriesOf(old(streams), k) + [e], perContainer))
    {
      OwnFits(streams, k, EntriesOf(streams, k) + [e], perContainer);
      ghost var before := streams;
      PushKeeps(streams, given, k, e);
      PushHeld(streams, k, e);
      PushedIsOwn(streams, k, e);
      Push(k, e);
      TrimOwn(k, before, EntriesOf(before, k) + [e]);
    }

    /** Observe and Gap: a disabled buffer accepts an entry and keeps none. */
    method Observe(pod: string, container: string, at: int, text: seq<byte>, gap: bool)
      requires Valid()
      modifies this
      ensures Valid()
      ensures perContainer <= 0 || total <= 0 ==> streams == map[] && given == old(given)
      ensures perContainer > 0 && total > 0 ==>
                var k, e := Key(pod, container), Entry(at, text, gap);
                && given == old(given)[k := Given(old(given), k) + [e]]
                && exists path ::
                     Drains(WithOwn(old(streams), k, Trim(EntriesOf(old(streams), k) + [e], perContainer)), path, total,
                            streams)
    {
      if !Enabled() { return; }
      var path := Append(Key(pod, container), Entry(at, text, gap));
    }

    /** Filters one queue by age, and tells an empty result from a container never held. */
    method Tail(pod: string, container: string, now: int, maxAge: int) returns (out: seq<Entry>, held: bool)
      requires Valid()
      ensures held <==> Key(pod, container) in streams
      ensures held ==> exists at :: Picks(out, at, streams[Key(pod, container)].entries, now, maxAge)
      ensures !held ==> out == []
    {
      if !Enabled() || Key(pod, container) !in streams { return [], false; }
      var entries := streams[Key(pod, container)].entries;
      out := [];
      for i := 0 to |entries|
        invariant out == Recent(entries[..i], now, maxAge)
      {
        assert entries[..i + 1][..i] == entries[..i];
        if maxAge > 0 && entries[i].at < now - maxAge { continue; }
        out := out + [entries[i]];
      }
      assert entries[..|entries|] == entries;
      var at := RecentPicks(entries, now, maxAge);
      held := true;
    }

    /** The pod's streams go and no other; what was given to it no longer counts. */
    method Forget(pod: string)
      requires Valid()
      modifies this
      ensures Valid()
      ensures given == Other(old(given), pod) && streams == Forgotten(old(streams), pod, {})
    {
      if !Enabled() {
        given := Other(given, pod);
        return;
      }
      var left := streams.Keys;
      assert streams == Forgotten(streams, pod, left);
      while left != {}
        invariant left <= old(streams).Keys && given == old(given)
        invariant streams == Forgotten(old(streams), pod, left)
        invariant bytes == HeldAll(streams) && bytes <= old(bytes)
        decreases |left|
      {
        var k :| k in left;
        ForgetOne(old(streams), pod, left, k);
        left := left - {k};
        if k.pod == pod {
          HeldDrop(streams, k);
          bytes := bytes - streams[k].bytes;
          streams := streams - {k};
        }
      }
      ForgottenKept(old(streams), given, pod, perContainer);
      given := Other(given, pod);
    }
  }

  function Other(given: map<Key, seq<Entry>>, pod: string): map<Key, seq<Entry>> {
    map k | k in given && k.pod != pod :: given[k]
  }

  /** What is left of the streams while a pod's are being dropped: its others, and those still to come. */
  function Forgotten(streams: Streams, pod: string, left: set<Key>): Streams {
    map k | k in streams && (k.pod != pod || k in left) :: streams[k]
  }

  lemma ForgetOne(streams: Streams, pod: string, left: set<Key>, k: Key)
    requires k in left && left <= streams.Keys
    ensures Forgotten(streams, pod, left - {k})
            == if k.pod == pod then Forgotten(streams, pod, left) - {k} else Forgotten(streams, pod, left)
  {
  }

  lemma ForgottenKept(streams: Streams, given: map<Key, seq<Entry>>, pod: string, cap: int)
    requires Kept(streams, given) && Within(streams, cap)
    ensures Kept(Forgotten(streams, pod, {}), Other(given, pod)) && Within(Forgotten(streams, pod, {}), cap)
  {
  }

  function Recent(entries: seq<Entry>, now: int, maxAge: int): seq<Entry> {
    if entries == [] then []
    else
      var n := |entries| - 1;
      Recent(entries[..n], now, maxAge) + (if maxAge > 0 && entries[n].at < now - maxAge then [] else [entries[n]])
  }

  /** Young enough to be shown; without a bound everything is. */
  ghost predicate Shown(e: Entry, now: int, maxAge: int) { maxAge <= 0 || now - maxAge <= e.at }

  /** out is the entries at these places, in order, and these are all the places of entries
      young enough. */
  ghost predicate Picks(out: seq<Entry>, at: seq<nat>, entries: seq<Entry>, now: int, maxAge: int) {
    && |out| == |at| && (forall j :: 0 <= j < |at| ==> at[j] < |entries| && out[j] == entries[at[j]])
    && (forall i, j :: 0 <= i < j < |at| ==> at[i] < at[j])
    && forall i: nat :: i in at <==> i < |entries| && Shown(entries[i], now, maxAge)
  }

  lemma PicksMore(out: seq<Entry>, at: seq<nat>, entries: seq<Entry>, e: Entry, now: int, maxAge: int)
    requires Picks(out, at, entries, now, maxAge) && Shown(e, now, maxAge)
    ensures Picks(out + [e], at + [|entries|], entries + [e], now, maxAge)
  {
    var all, next := entries + [e], at + [|entries|];
    forall i: nat ensures i in next <==> i < |all| && Shown(all[i], now, maxAge) {
      assert i in next <==> i in at || i == |entries|;
      assert i < |entries| ==> all[i] == entries[i];
    }
  }

  lemma PicksSame(out: seq<Entry>, at: seq<nat>, entries: seq<Entry>, e: Entry, now: int, maxAge: int)
    requires Picks(out, at, entries, now, maxAge) && !Shown(e, now, maxAge)
    ensures Picks(out, at, entries + [e], now, maxAge)
  {
    var all := entries + [e];
    forall i: nat ensures i in at <==> i < |all| && Shown(all[i], now, maxAge) {
      assert i < |entries| ==> all[i] == entries[i];
    }
  }

  lemma RecentNext(front: seq<Entry>, e: Entry, now: int, maxAge: int)
    ensures Recent(front + [e], now, maxAge)
            == if Shown(e, now, maxAge) then Recent(front, now, maxAge) + [e] else Recent(front, now, maxAge)
  {
    assert (front + [e])[..|front|] == front;
    assert Recent(front, now, maxAge) + [] == Recent(front, now, maxAge);
  }

  lemma {:induction false} RecentPicks(entries: seq<Entry>, now: int, maxAge: int) returns (at: seq<nat>)
    ensures Picks(Recent(entries, now, maxAge), at, entries, now, maxAge)
    decreases |entries|
  {
    if entries == [] { return []; }
    var n := |entries| - 1;
    var front, e := entries[..n], entries[n];
    assert entries == front + [e];
    at := RecentPicks(front, now, maxAge);
    RecentNext(front, e, now, maxAge);
    if Shown(e, now, maxAge) {
      PicksMore(Recent(front, now, maxAge), at, front, e, now, maxAge);
      at := at + [n];
    } else {
      PicksSame(Recent(front, now, maxAge), at, front, e, now, maxAge);
    }
  }
}
