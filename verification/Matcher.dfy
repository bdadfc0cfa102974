/** The log matcher: what each rule has seen on each container, and which containers are
    not being read. */
module Matcher {
  import opened Prelude
  import opened Counting
  import opened Rules

  datatype Member = Member(pod: string, container: string)

  datatype Line = Line(member: Member, at: int, text: Text)

  /** What reaches the matcher. A line comes with the rules that match it; a read drops
      what has expired. */
  datatype Event =
    | Seen(line: Line, hits: seq<string>)
    | Attached(member: Member)
    | Detached(member: Member, at: int, reason: string)
    | Dropped(member: Member)
    | Forgotten(pod: string)
    | Read(now: int)

  const MAX_LINE := 2048

  function Bounded(text: Text): (t: Text)
    ensures |t| <= MAX_LINE && t <= text
  {
    if |text| > MAX_LINE then text[..MAX_LINE] else text
  }

  /* ---------- blind windows ---------- */

  datatype Detachment = Detachment(at: int, reason: string)

  /** The detachments of the window open now, if one is. */
  function Blind(log: seq<Event>, m: Member): seq<Detachment> {
    if log == [] then []
    else
      var before, e := Blind(log[..|log| - 1], m), log[|log| - 1];
      if Closes(e, m) then []
      else if e.Detached? && e.member == m then before + [Detachment(e.at, e.reason)]
      else before
  }

  predicate Closes(e: Event, m: Member) {
    ((e.Attached? || e.Dropped?) && e.member == m) || (e.Forgotten? && e.pod == m.pod)
  }

  ghost predicate Unclosed(log: seq<Event>, m: Member, i: nat) {
    forall j :: i <= j < |log| ==> !Closes(log[j], m)
  }

  /** The i-th event detached the container, which has not come back or gone away since. */
  ghost predicate Standing(log: seq<Event>, m: Member, i: nat) {
    i < |log| && log[i].Detached? && log[i].member == m && Unclosed(log, m, i)
  }

  ghost predicate Opens(log: seq<Event>, m: Member, i: nat) {
    Standing(log, m, i) && forall j: nat :: j < i ==> !Standing(log, m, j)
  }

  lemma StandingPush(log: seq<Event>, e: Event, m: Member, i: nat)
    ensures Standing(log + [e], m, i)
            <==> !Closes(e, m) && (Standing(log, m, i) || (i == |log| && e.Detached? && e.member == m))
  {
    assert (log + [e])[|log|] == e;
    assert forall j :: 0 <= j < |log| ==> (log + [e])[j] == log[j];
  }

  lemma OpensPush(log: seq<Event>, e: Event, m: Member, i: nat)
    requires !Closes(e, m)
    requires Opens(log, m, i) || (i == |log| && e.Detached? && e.member == m && forall j: nat :: !Standing(log, m, j))
    ensures Opens(log + [e], m, i)
  {
    forall j: nat
      ensures Standing(log + [e], m, j) <==> Standing(log, m, j) || (j == |log| && e.Detached? && e.member == m)
    {
      StandingPush(log, e, m, j);
    }
  }

  /** A container is unread exactly when a detachment has not been followed by an
      attachment or by its going away; the window dates from the first such detachment. */
  lemma {:induction false} BlindSinceFirst(log: seq<Event>, m: Member)
    ensures Blind(log, m) != [] <==> exists i: nat :: Standing(log, m, i)
    ensures Blind(log, m) != [] ==> exists i: nat :: Opens(log, m, i) && log[i].at == Blind(log, m)[0].at
    decreases |log|
  {
    if log != [] {
      var front, e := log[..|log| - 1], log[|log| - 1];
      assert log == front + [e];
      BlindSinceFirst(front, m);
      BlindPush(front, e, m);
    }
  }

  ghost predicate Dated(log: seq<Event>, m: Member) {
    && (Blind(log, m) != [] <==> exists i: nat :: Standing(log, m, i))
    && (Blind(log, m) != [] ==> exists i: nat :: Opens(log, m, i) && log[i].at == Blind(log, m)[0].at)
  }

  lemma BlindPush(front: seq<Event>, e: Event, m: Member)
    requires Dated(front, m)
    ensures Dated(front + [e], m)
  {
    var log := front + [e];
    assert log[..|log| - 1] == front;
    forall i: nat
      ensures Standing(log, m, i)
              <==> !Closes(e, m) && (Standing(front, m, i) || (i == |front| && e.Detached? && e.member == m))
    {
      StandingPush(front, e, m, i);
    }
    if !Closes(e, m) {
      if Blind(front, m) != [] {
        var i: nat :| Opens(front, m, i) && front[i].at == Blind(front, m)[0].at;
        OpensPush(front, e, m, i);
        assert Standing(log, m, i);
        assert log[i] == front[i];
      } else if e.Detached? && e.member == m {
        OpensPush(front, e, m, |front|);
        assert Standing(log, m, |front|);
      }
    }
  }

  /* ---------- observations ---------- */

  datatype Key = Key(rule: string, member: Member)

  datatype Hit = Hit(at: int, text: Text)

  function Repeat(hit: Hit, hits: seq<string>, rule: string): seq<Hit> {
    if hits == [] then []
    else Repeat(hit, hits[..|hits| - 1], rule) + (if hits[|hits| - 1] == rule then [hit] else [])
  }

  /** The matching lines an observation accounts for: all of them since its container was
      last forgotten, or since a read last found it expired. */
  function Live(log: seq<Event>, k: Key, maxAge: int): seq<Hit> {
    if log == [] then []
    else Next(Live(log[..|log| - 1], k, maxAge), log[|log| - 1], k, maxAge)
  }

  function Next(before: seq<Hit>, e: Event, k: Key, maxAge: int): seq<Hit> {
    if e.Seen? && e.line.member == k.member then before + Repeat(Hit(e.line.at, e.line.text), e.hits, k.rule)
    else if e.Forgotten? && e.pod == k.member.pod then []
    else if e.Read? && maxAge > 0 && before != [] && before[|before| - 1].at < e.now - maxAge then []
    else before
  }

  /** Every matching line of a log, whatever happened since. */
  function HitsOf(log: seq<Event>, k: Key): seq<Hit> {
    if log == [] then [] else HitsOf(log[..|log| - 1], k) + HitsIn(log[|log| - 1], k)
  }

  function HitsIn(e: Event, k: Key): seq<Hit> {
    if e.Seen? && e.line.member == k.member then Repeat(Hit(e.line.at, e.line.text), e.hits, k.rule) else []
  }

  /** An event ends what was accounted for: the pod was forgotten, or a read found the last
      of the matching lines before it older than the horizon. */
  predicate Ends(hits: seq<Hit>, e: Event, k: Key, maxAge: int) {
    || (e.Forgotten? && e.pod == k.member.pod)
    || (e.Read? && maxAge > 0 && hits != [] && hits[|hits| - 1].at < e.now - maxAge)
  }

  predicate Clears(log: seq<Event>, j: nat, k: Key, maxAge: int)
    requires j < |log|
  {
    Ends(HitsOf(log[..j], k), log[j], k, maxAge)
  }

  /** Nothing from the c-th event on ended it, and what is before did, unless c is the start. */
  ghost predicate Since(log: seq<Event>, c: nat, k: Key, maxAge: int) {
    && c <= |log| && (c > 0 ==> Clears(log, c - 1, k, maxAge))
    && forall j :: c <= j < |log| ==> !Clears(log, j, k, maxAge)
  }

  lemma {:induction false} HitsConcat(a: seq<Event>, b: seq<Event>, k: Key)
    ensures HitsOf(a + b, k) == HitsOf(a, k) + HitsOf(b, k)
    decreases |b|
  {
    if b == [] {
      assert a + b == a;
    } else {
      var front, e := b[..|b| - 1], b[|b| - 1];
      HitsConcat(a, front, k);
      assert a + b == (a + front) + [e];
      HitsLast(a + front, e, k);
      Regroup(HitsOf(a, k), HitsOf(front, k), HitsIn(e, k));
    }
  }

  lemma HitsLast(log: seq<Event>, e: Event, k: Key)
    ensures HitsOf(log + [e], k) == HitsOf(log, k) + HitsIn(e, k)
  {
    assert (log + [e])[..|log|] == log;
  }

  lemma Regroup<T>(a: seq<T>, b: seq<T>, c: seq<T>)
    ensures (a + b) + c == a + (b + c)
  {
  }

  lemma ClearsPush(front: seq<Event>, e: Event, k: Key, maxAge: int, j: nat)
    requires j < |front|
    ensures Clears(front + [e], j, k, maxAge) == Clears(front, j, k, maxAge)
  {
    assert (front + [e])[..j] == front[..j];
  }

  lemma SincePush(front: seq<Event>, e: Event, k: Key, maxAge: int, c: nat)
    requires Since(front, c, k, maxAge)
    ensures var log := front + [e];
            if Clears(log, |front|, k, maxAge) then Since(log, |log|, k, maxAge) else Since(log, c, k, maxAge)
  {
    forall j | 0 <= j < |front| ensures Clears(front + [e], j, k, maxAge) == Clears(front, j, k, maxAge) {
      ClearsPush(front, e, k, maxAge, j);
    }
  }

  lemma HitsPush(front: seq<Event>, e: Event, k: Key, c: nat)
    requires c <= |front|
    ensures HitsOf((front + [e])[c..], k) == HitsOf(front[c..], k) + HitsIn(e, k)
  {
    assert (front + [e])[c..] == front[c..] + [e];
    HitsLast(front[c..], e, k);
  }

  lemma LastHit(front: seq<Event>, k: Key, c: nat)
    requires c <= |front| && HitsOf(front[c..], k) != []
    ensures var all, recent := HitsOf(front, k), HitsOf(front[c..], k);
            all != [] && all[|all| - 1] == recent[|recent| - 1]
  {
    assert front == front[..c] + front[c..];
    HitsConcat(front[..c], front[c..], k);
  }

  lemma ReadEnds(front: seq<Event>, e: Event, k: Key, maxAge: int, c: nat)
    requires c <= |front| && HitsOf(front[c..], k) != []
    ensures Ends(HitsOf(front, k), e, k, maxAge) == Ends(HitsOf(front[c..], k), e, k, maxAge)
  {
    LastHit(front, k, c);
  }

  lemma NextMeans(before: seq<Hit>, e: Event, k: Key, maxAge: int)
    ensures Next(before, e, k, maxAge) == if Ends(before, e, k, maxAge) then [] else before + HitsIn(e, k)
  {
    assert before + [] == before;
  }

  lemma LivePush(front: seq<Event>, e: Event, k: Key, maxAge: int, c: nat)
    requires Since(front, c, k, maxAge) && Live(front, k, maxAge) == HitsOf(front[c..], k)
    ensures var log := front + [e];
            Live(log, k, maxAge) == if Clears(log, |front|, k, maxAge) then [] else HitsOf(log[c..], k)
  {
    var log, before := front + [e], HitsOf(front[c..], k);
    assert log[..|log| - 1] == front && log[..|front|] == front;
    assert Live(log, k, maxAge) == Next(before, e, k, maxAge);
    HitsPush(front, e, k, c);
    NextMeans(before, e, k, maxAge);
    if before != [] {
      ReadEnds(front, e, k, maxAge, c);
    } else if Clears(log, |front|, k, maxAge) {
      assert HitsIn(e, k) == [];
    }
  }

  /** A matching line is accounted for exactly when nothing ended the account since: its pod
      was not forgotten, and no later read found the last matching line before it expired. */
  lemma {:induction false} AccountedSince(log: seq<Event>, k: Key, maxAge: int)
    ensures exists c: nat :: Since(log, c, k, maxAge) && Live(log, k, maxAge) == HitsOf(log[c..], k)
    decreases |log|
  {
    if log == [] {
      assert Since(log, 0, k, maxAge) && HitsOf(log[0..], k) == [];
    } else {
      var front, e := log[..|log| - 1], log[|log| - 1];
      assert log == front + [e];
      AccountedSince(front, k, maxAge);
      var c: nat :| Since(front, c, k, maxAge) && Live(front, k, maxAge) == HitsOf(front[c..], k);
      SincePush(front, e, k, maxAge, c);
      LivePush(front, e, k, maxAge, c);
      assert log[|log|..] == [];
    }
  }

  /** What is kept of the matching lines: the first, bounded; the times of the first and
      the last; how many. */
  datatype Observation = Observation(line: Text, first: int, last: int, count: nat)

  function Account(hits: seq<Hit>): Option<Observation> {
    if hits == [] then None
    else Some(Observation(Bounded(hits[0].text), hits[0].at, hits[|hits| - 1].at, |hits|))
  }

  function Window(d: seq<Detachment>): Option<Detachment> {
    if d == [] then None else Some(Detachment(d[0].at, d[|d| - 1].reason))
  }

  function Look<K, V>(m: map<K, V>, k: K): Option<V> { if k in m then Some(m[k]) else None }

  class Matcher {
    const rules: seq<Rule>
    const maxAge: int
    var observed: map<Key, Observation>
    var unread: map<Member, Detachment>
    ghost var log: seq<Event>

    /** Two maps of fixed-size records stand for the whole log. */
    ghost predicate Valid()
      reads this
    {
      && (forall k :: Look(observed, k) == Account(Live(log, k, maxAge)))
      && (forall m :: Look(unread, m) == Window(Blind(log, m)))
      && HitsWithin(log, Ids(rules))
    }

    constructor (rules: seq<Rule>, maxAge: int)
      ensures Valid() && log == [] && this.rules == rules && this.maxAge == maxAge
    {
      this.rules, this.maxAge := rules, maxAge;
      observed, unread, log := map[], map[], [];
    }

    /** The loop over the rules: each that matches counts the line, the first line of each is kept. */
    method CountAll(line: Line, doc: Option<map<Text, Doc>>)
      requires Valid()
      modifies this`observed
      ensures Accounts(observed, log, line, Hits(rules, line.text, doc), maxAge)
    {
      AccountsStart(observed, log, line, maxAge);
      assert rules[..0] == [];
      for i := 0 to |rules|
        invariant Accounts(observed, log, line, Hits(rules[..i], line.text, doc), maxAge)
      {
        HitsNext(rules, i, line.text, doc);
        var hit := MatchRule(rules[i], line.text, doc);
        if hit {
          AccountsNext(observed, log, line, Hits(rules[..i], line.text, doc), rules[i].id, maxAge);
          observed := Count(observed, Key(rules[i].id, line.member), line);
        }
      }
      assert rules[..|rules|] == rules;
    }

    /** One line is decoded at most once, for all rules, and only if some rule reads fields. */
    method Observe(line: Line, decode: Text -> Option<map<Text, Doc>>)
      requires Valid()
      modifies this`observed, this`log
      ensures Valid() && log == old(log) + [Seen(line, Hits(rules, line.text, decode(line.text)))]
    {
      var doc := None;
      if Structured(rules) {
        doc := decode(line.text);
      } else {
        DecodingNeededOnly(rules, line.text, decode(line.text));
      }
      CountAll(line, doc);
      ghost var e := Seen(line, Hits(rules, line.text, doc));
      assert (log + [e])[..|log|] == log;
      HitsAreIds(rules, line.text, doc);
      log := log + [e];
    }

    /** Attached and Dropped both end the container's blind window. */
    method Close(m: Member, attached: bool)
      requires Valid()
      modifies this`unread, this`log
      ensures Valid() && log == old(log) + [if attached then Attached(m) else Dropped(m)]
      ensures unread == old(unread) - {m}
    {
      log := log + [if attached then Attached(m) else Dropped(m)];
      assert log[..|log| - 1] == old(log);
      unread := unread - {m};
    }

    /** Detached opens a window or extends the one open, whose start stays. */
    method Detach(m: Member, at: int, reason: string)
      requires Valid()
      modifies this`unread, this`log
      ensures Valid() && log == old(log) + [Detached(m, at, reason)]
      ensures unread == old(unread)[m := Detachment(if m in old(unread) then old(unread)[m].at else at, reason)]
    {
      log := log + [Detached(m, at, reason)];
      assert log[..|log| - 1] == old(log);
      var window := Detachment(at, reason);
      if m in unread { window := window.(at := unread[m].at); }
      unread := unread[m := window];
    }

    /** Forget: the pod's observations and its windows go together. */
    method Forget(pod: string)
      requires Valid()
      modifies this
      ensures Valid() && log == old(log) + [Forgotten(pod)]
      ensures observed == map k | k in old(observed) && k.member.pod != pod :: old(observed)[k]
      ensures unread == map m | m in old(unread) && m.pod != pod :: old(unread)[m]
    {
      log := log + [Forgotten(pod)];
      assert log[..|log| - 1] == old(log);
      observed := map k | k in observed && k.member.pod != pod :: observed[k];
      unread := map m | m in unread && m.pod != pod :: unread[m];
    }

    /** The expiry that each call of Observations begins with: exactly what was last seen
        before the horizon goes, and all the rest stays as it was. */
    method Expire(now: int)
      requires Valid()
      modifies this`observed, this`log
      ensures Valid() && log == old(log) + [Read(now)]
      ensures observed == map k | k in old(observed) && (maxAge <= 0 || old(observed)[k].last >= now - maxAge)
                            :: old(observed)[k]
    {
      log := log + [Read(now)];
      assert log[..|log| - 1] == old(log);
      if maxAge > 0 {
        observed := map k | k in observed && observed[k].last >= now - maxAge :: observed[k];
      }
    }
  }

  /** One more matching line for one rule on one container. */
  function Count(observed: map<Key, Observation>, k: Key, line: Line): map<Key, Observation> {
    if k in observed then observed[k := observed[k].(count := observed[k].count + 1, last := line.at)]
    else observed[k := Observation(Bounded(line.text), line.at, line.at, 1)]
  }

  /** The observations once a line was counted for some of its rules. */
  ghost predicate Accounts(observed: map<Key, Observation>, before: seq<Event>, line: Line, hits: seq<string>,
                           maxAge: int) {
    forall k :: Look(observed, k) == Account(Next(Live(before, k, maxAge), Seen(line, hits), k, maxAge))
  }

  lemma AccountsStart(observed: map<Key, Observation>, log: seq<Event>, line: Line, maxAge: int)
    requires forall k :: Look(observed, k) == Account(Live(log, k, maxAge))
    ensures Accounts(observed, log, line, [], maxAge)
  {
    forall k ensures Look(observed, k) == Account(Next(Live(log, k, maxAge), Seen(line, []), k, maxAge)) {
      assert Live(log, k, maxAge) + [] == Live(log, k, maxAge);
    }
  }

  lemma NextHit(live: seq<Hit>, line: Line, hits: seq<string>, id: string, k: Key, maxAge: int)
    ensures Next(live, Seen(line, hits + [id]), k, maxAge)
            == Next(live, Seen(line, hits), k, maxAge)
              + (if k == Key(id, line.member) then [Hit(line.at, line.text)] else [])
  {
    assert (hits + [id])[..|hits|] == hits;
  }

  lemma AccountsNext(observed: map<Key, Observation>, before: seq<Event>, line: Line, hits: seq<string>, id: string,
                     maxAge: int)
    requires Accounts(observed, before, line, hits, maxAge)
    ensures Accounts(Count(observed, Key(id, line.member), line), before, line, hits + [id], maxAge)
  {
    forall k
      ensures Look(Count(observed, Key(id, line.member), line), k)
              == Account(Next(Live(before, k, maxAge), Seen(line, hits + [id]), k, maxAge))
    {
      NextHit(Live(before, k, maxAge), line, hits, id, k, maxAge);
      assert Look(observed, k) == Account(Next(Live(before, k, maxAge), Seen(line, hits), k, maxAge));
    }
  }

  /* ---------- how much is kept ---------- */

  ghost function Ids(rules: seq<Rule>): set<string> {
    set i | 0 <= i < |rules| :: rules[i].id
  }

  ghost predicate HitsWithin(log: seq<Event>, ids: set<string>) {
    forall i, h :: 0 <= i < |log| && log[i].Seen? && h in log[i].hits ==> h in ids
  }

  lemma {:induction false} HitsAreIds(rules: seq<Rule>, text: Text, doc: Option<map<Text, Doc>>)
    ensures forall h :: h in Hits(rules, text, doc) ==> h in Ids(rules)
    decreases |rules|
  {
    if rules != [] {
      var front := rules[..|rules| - 1];
      HitsAreIds(front, text, doc);
      assert forall i :: 0 <= i < |front| ==> front[i] == rules[i];
    }
  }

  /** The containers a line was read from since their pod was last forgotten. */
  ghost function Followed(log: seq<Event>): set<Member> {
    if log == [] then {}
    else
      var before, e := Followed(log[..|log| - 1]), log[|log| - 1];
      match e
      case Seen(line, _) => before + {line.member}
      case Forgotten(pod) => set m | m in before && m.pod != pod
      case _ => before
  }

  ghost predicate ReadFrom(log: seq<Event>, m: Member, i: nat) {
    && i < |log| && log[i].Seen? && log[i].line.member == m
    && forall j :: i <= j < |log| ==> !(log[j].Forgotten? && log[j].pod == m.pod)
  }

  lemma {:induction false} FollowedIff(log: seq<Event>, m: Member)
    ensures m in Followed(log) <==> exists i: nat :: ReadFrom(log, m, i)
    decreases |log|
  {
    if log != [] {
      var front, e, n := log[..|log| - 1], log[|log| - 1], |log| - 1;
      FollowedIff(front, m);
      assert forall j :: 0 <= j < n ==> front[j] == log[j];
      var gone := e.Forgotten? && e.pod == m.pod;
      forall i: nat ensures ReadFrom(log, m, i) <==> !gone && (ReadFrom(front, m, i) || (i == n && e.Seen?
                                                                                         && e.line.member == m)) {
      }
      if e.Seen? && e.line.member == m { assert ReadFrom(log, m, n); }
    }
  }

  lemma {:induction false} RepeatHits(hit: Hit, hits: seq<string>, rule: string)
    ensures Repeat(hit, hits, rule) != [] ==> rule in hits
    decreases |hits|
  {
    if hits != [] { RepeatHits(hit, hits[..|hits| - 1], rule); }
  }

  lemma {:induction false} LiveFollowed(log: seq<Event>, k: Key, maxAge: int, ids: set<string>)
    requires HitsWithin(log, ids) && Live(log, k, maxAge) != []
    ensures k.rule in ids && k.member in Followed(log)
    decreases |log|
  {
    var front, e := log[..|log| - 1], log[|log| - 1];
    assert log == front + [e];
    if e.Seen? && e.line.member == k.member && Live(front, k, maxAge) == [] {
      RepeatHits(Hit(e.line.at, e.line.text), e.hits, k.rule);
    } else {
      LiveFollowed(front, k, maxAge, ids);
    }
  }

  ghost function Pairs(ids: set<string>, members: set<Member>): set<Key> {
    set r, m | r in ids && m in members :: Key(r, m)
  }

  lemma {:induction false} PairsCount(ids: set<string>, members: set<Member>)
    ensures |Pairs(ids, members)| == |ids| * |members|
    decreases |members|
  {
    if members == {} {
      assert Pairs(ids, members) == {};
    } else {
      var m :| m in members;
      PairsCount(ids, members - {m});
      RowCount(ids, m);
      PairsRow(ids, members, m);
      assert |ids| * |members| == |ids| * (|members| - 1) + |ids|;
    }
  }

  lemma PairsRow(ids: set<string>, members: set<Member>, m: Member)
    requires m in members
    ensures |Pairs(ids, members)| == |Pairs(ids, members - {m})| + |Row(ids, m)|
  {
    assert Pairs(ids, members) == Pairs(ids, members - {m}) + Row(ids, m);
    assert Pairs(ids, members - {m}) !! Row(ids, m);
  }

  ghost function Row(ids: set<string>, m: Member): set<Key> {
    set r | r in ids :: Key(r, m)
  }

  lemma RowCount(ids: set<string>, m: Member)
    ensures |Row(ids, m)| == |ids|
    decreases |ids|
  {
    if ids == {} {
      assert Row(ids, m) == {};
    } else {
      var r :| r in ids;
      RowCount(ids - {r}, m);
      assert Row(ids, m) == Row(ids - {r}, m) + {Key(r, m)};
    }
  }

  /** However many lines were read, what is kept is bounded by rules times containers, one
      bounded line each. */
  lemma {:induction false} Footprint(observed: map<Key, Observation>, log: seq<Event>, rules: seq<Rule>, maxAge: int)
    requires forall k :: Look(observed, k) == Account(Live(log, k, maxAge))
    requires HitsWithin(log, Ids(rules))
    ensures |observed| <= |Ids(rules)| * |Followed(log)|
    ensures forall k :: k in observed ==> |observed[k].line| <= MAX_LINE && k.member in Followed(log)
  {
    forall k | k in observed ensures k in Pairs(Ids(rules), Followed(log)) && |observed[k].line| <= MAX_LINE {
      assert Look(observed, k) == Some(observed[k]);
      LiveFollowed(log, k, maxAge, Ids(rules));
    }
    SubsetCount(observed.Keys, Pairs(Ids(rules), Followed(log)));
    PairsCount(Ids(rules), Followed(log));
    assert |observed.Keys| == |observed|;
  }
}
