# Verified models of pgConsole's bounded state

pgConsole shows what a PostgreSQL operator reports, and remembers a little of it: revisions of
definitions, samples of metrics, lines of logs, catalogs of backups. Everything it remembers is a
bounded structure standing in for an unbounded one, and must never misreport what it holds. This
project models those structures in Dafny and proves, for every run, what they may be trusted to say.

Check it with `dafny verify dfyconfig.toml`.

## The parts

**History timeline** (`History*.dfy`). `History` specifies the store as functions on a value,
`Timeline`; `HistoryStore` is the store itself, a class whose methods change its fields in place,
each proved to leave the state the specification says. Three bounds evict, deletions are synthesized
from complete listings, status changes coalesce, and every mutation is mirrored to a persister.
`HistoryInvariants` proves what every run keeps, `HistoryRestart` and `HistoryRestarts` when restarts
are invisible and what survives them all, `HistoryRetention` that eviction changes neither
classification nor the surviving timeline and that no transition is lost count of, `HistorySeed` that
a listing reconciles exactly, and `HistoryRecords` what each observation records, field by field.

**Structural diff and attribution** (`Diff*.dfy`, `Differ.dfy`, `FieldPaths.dfy`, `Attribution.dfy`,
`HistoryDiff.dfy`, `Rendering.dfy`, `Ownership.dfy`, `OwnedPaths.dfy`, `Misreadings.dfy`). `Diff` is
the unbounded comparison over structured paths; `Differ` is the bounded accumulator over encoded
paths; `Ownership` reads who owns which path, `OwnedPaths` says where each leads, and `Misreadings`
which keys can be taken for a path of the differ.

**Metrics window** (`Ring.dfy`, `Rollup.dfy`, `Metrics*.dfy`). Ring buffers over arrays, exact
rollups, counters turned into rates, the instance cap and the snapshot; in `MetricsRuns` what each
instrument stands for over a run that evicts and readmits instances, and in `MetricsRestart` how a
run goes on after a restart.

**Bounded retention** (`Keyed*.dfy`, `Catalogs.dfy`). `Keyed` is the retained set against the unbounded
map it stands in for, `KeyedPages` says exactly which puts and deletions part their pages, `KeyedStore`
follows one set over its whole life, and `Catalogs` holds the two collectors built from such sets.

**Held clocks** (`HeldClocks.dfy`), **log buffer, rules and matcher** (`LogBuffer.dfy`, `Rules.dfy`,
`Matcher.dfy`), **evidence poller** (`Poller.dfy`), **version constraints** (`Versions.dfy`,
`Numerals.dfy`). `Prelude`, `Lex` and `Json` are shared.

## How the program is read

- A mutex-guarded method is one atomic step. A clock reading is a parameter. Times and durations are
  integers, floating-point readings are reals, hashes are opaque strings.
- Ranging over a map is a nondeterministic order (`Lex.AnyOrder`, or a choice in the loop), so no
  result depends on it. `sort.Strings` over distinct keys is the ascending enumeration.
- A manifest is its size with the document it decodes to, if it does; an observation carries both.
- Reading and writing JSON are parameters, so a result holds for every codec. Log lines and rendered
  values are bytes; other texts are strings.
- Integer division and remainder truncate as in Go, so bucket starts are right before time zero too.
- An eviction keeps the evicted revision in a ghost list, `dropped`, so that theorems can speak of it.
- The sidecar's pages are a function of the evidence generation, which is what the poller assumes
  when it reuses a collection; a collection that arrives is the one its generation owes.

## What does not hold, and exactly when it does

- **Cached counts** (`HistoryInvariants.RunCountsIff`). A uid observed again after its deletion
  restarts its count while its old revisions still carry its name. Over any run, counts and targets
  are exact if and only if no live object's incarnation began while revisions of an earlier one were
  retained; of one observation, if and only if it is fresh (`HistorySeed.CountsExactIffFresh`).
  Creating, deleting and creating one object again is a failing run (`HistorySeed.CreateDeleteCreate`).
- **Restart** (`HistoryRestart.RestartIff`, `HistoryRestarts.RestartsIff`). A restart recomputes the
  counts, so after any run it is invisible under that same condition, and it shows after that same
  failing run (`HistorySeed.RestartShows`). The classification records survive it always
  (`HistoryRestarts.RestartsClassify`).
- **Per-object cap after priming** (`HistoryRestart.PrimeCapIff`). The pass over the objects takes one
  revision from each that exceeds the cap, and the global bounds then take the oldest. An object ends
  within a lowered cap if and only if it exceeded it by at most one more than the global bounds took
  from it. Three revisions under a cap of one miss it (`HistoryRestart.PrimeMissesCap`).
- **Path encoding** (`FieldPaths.SafeIffFaithful`). A quoted key or an element name that closes its
  own bracket reads as a longer path. The condition is exact, for whole paths.
- **Rendering of list keys** (`Misreadings.FalselyMatchesIff`). A key that is not one textual name
  can still be taken for a safe path of the differ below the same safe path. If it is no object,
  exactly when its text opens with `name=`, with a quote, or with an index that ends there or closes
  its bracket before a boundary; otherwise exactly when its first merge key with an encoding is
  `name`, or opens with `name=`, a quote, or an index that closes its bracket before a boundary. With
  simple merge keys that is `name` alone, so `{"type":"Ready"}` never is. `{"name":5}` is taken for an
  element's name, `{"0][name":5}` for a path of two segments (`Misreadings.NumberedName`,
  `Misreadings.NestedName`).
- **Order of owners** (`Attribution.OwnersOrderlessIff`). An unnamed manager listed before the one
  named claimant is passed over, listed after it hides it. Captured owners are never unnamed
  (`Ownership.CapturedOrderless`).
- **Metrics snapshot** (`MetricsStore.RoundTripIff`). Import never keeps an instance last observed at
  time zero or before, nor one without an instrument; one sweep that reports no charted key leaves
  such an instance (`MetricsRuns.SilentInstanceForgotten`).
- **Instance eviction** (`MetricsRuns.EveryOrderLeastIff`). The empty name doubles as the mark for
  nothing found, so an instance of that name can be passed over. A least recently observed instance
  goes, in every map order, if and only if the empty name is not tracked, or is alone, or some other
  instance was observed no later.
- **Backup page** (`KeyedPages.AgePutSamePageIff`). Eviction by age has no tie-break by name. When a
  put evicts, the page stays the unbounded one for every loser the map order may yield if and only if
  one retained backup is oldest, or exactly two are and the new one is listed before the
  smaller-named. `KeyedPages.TieParts` is an input where the pages differ.
- **After a deletion** (`KeyedPages.DeleteSamePageIff`). A bounded page may list a later name where
  the unbounded map would list an evicted earlier one. The pages stay one if and only if
  the deletion removes nothing listed, or every item no longer retained comes after a retained one
  beyond the page. The failing family exists for every bound (`KeyedPages.RemovalUncovers`); such a
  page is always marked truncated (`KeyedStore.PageHonest`).

Where the source's comments say more than its code does:

- An evicted backup is said to be one the page would have cut anyway
  (`internal/observe/backups.go:292-295`); that holds under the condition above.
- The evicted entry of a declared object is said to be one the page would have cut
  (`internal/observe/databases.go:269-272`); that holds until a deletion as above.
- A list key that is not one name is said never to match a path of the differ
  (`internal/kube/record.go:409-412`); it can, as above.

## Model

| member | source | states |
|---|---|---|
| `HistoryInvariants.RunInvariant` | internal/history/store.go:202-416 | over every run from an empty store, persisted or not: sequences strictly increase, the byte total is the summed size, both global bounds hold, the scope sets partition the live objects, the mirror is exact and no cached count exceeds the cap; if no dead uid returns while its revisions are retained, the per-object cap holds too and every cached count and coalescing target describes the entries |
| `HistoryInvariants.ObserveKeepsInv` | internal/history/store.go:202-416 | one observation, in any state and with no assumption on the uid, keeps order, byte total, global bounds, scope partition and mirror |
| `HistoryInvariants.ObserveKeepsCounts` | internal/history/store.go:202-250 | where the cached counts and targets are exact, whatever the cap, a fresh observation keeps them exact, and no incarnation, live or deleted, grows past the cap or, once over it, at all |
| `HistoryInvariants.StepKeeps` | internal/history/store.go:163-199 | the same for a whole watch delivery or a whole listing; and in any state the invariant is kept, and so is every cached count within the cap |
| `HistoryInvariants.RunCountsIff` | internal/history/store.go:208-250 | over every run, fresh or not, from any state of exact counts, primed under a lowered cap or not: the counts and targets end exact if and only if no live object's present incarnation began while revisions of an earlier one were retained |
| `HistoryInvariants.ObserveParted` | internal/history/store.go:208-250 | observation by observation: what is counted exactly stays so, what is counted short stays short, and only an admitted object can join either |
| `HistoryInvariants.EvictCounted` | internal/history/store.go:399-416 | evicting the oldest entry of an object keeps all cached counts and targets, because the target is never the entry that goes unless it is the last |
| `HistorySeed.CountsExactIffFresh` | internal/history/store.go:208-227 | in any state of exact counts, whatever its cap, an observation leaves every cached count and target exact if and only if it does not bring back a uid whose incarnation ended with revisions still retained |
| `HistorySeed.CreateDeleteCreate` | internal/history/store.go:208-227 | one object created, deleted and created again under its uid: exact before the third observation, not after it |
| `HistorySeed.TargetIsNewest` | internal/history/store.go:399-416 | the coalescing target is the newest retained revision of its object, and is unset exactly when none is retained |
| `HistoryRestart.PrimeSame` | internal/history/store.go:107-161 | priming from the mirror gives back entries, objects with counts and targets, scope sets, byte total, sequence and eviction mark, whatever order the objects are visited in; only the generation moves, to the sequence |
| `HistoryRestart.PrimeSameIff` | internal/history/store.go:107-161 | in any state that keeps the invariant, a restart gives back that state, the generation aside, if and only if its cached counts and targets are exact and its live objects within the cap |
| `HistorySeed.RestartShows` | internal/history/store.go:107-161 | a failing run: after one object is created, deleted and created again no restart gives back the state, whatever the visiting order |
| `HistoryRestart.RestartTransparent` | internal/history/store.go:107-161 | running A, restarting from the mirror and running B leaves what running A and B without a restart leaves, for every B and every A that leaves no live object whose incarnation began while revisions of an earlier one were retained |
| `HistoryRestart.RestartIff` | internal/history/store.go:107-161 | and after no other A: the exact condition over every run from an empty persisted store |
| `HistoryRestarts.RestartsIff` | internal/history/store.go:107-161 | any number of restarts, each visiting the objects in any order: after every one the store is the one never restarted, if and only if at each no live object's incarnation began while revisions of an earlier one were retained |
| `HistoryRestarts.RestartsTransparent` | internal/history/store.go:107-161 | then the whole life ends where the uncut run ends |
| `HistoryRestarts.RestartsFromEmpty` | internal/history/store.go:107-161 | both, from an empty persisted store |
| `HistoryRestarts.RunRecords` | internal/history/store.go:174-261 | the live objects, their hashes, names and last-seen times are a function of the observations alone, under any limits and for any run |
| `HistoryRestarts.RestartsClassify` | internal/history/store.go:107-161 | and so they are through any number of restarts under limits that change from one life to the next, fresh run or not |
| `HistoryRestarts.RestartsScope` | internal/history/store.go:122-156 | and each scope then holds exactly the live objects recorded under it |
| `HistoryRestart.RunSame` | internal/history/store.go:163-199 | two stores that agree up to a shifted generation agree after every operation sequence |
| `HistoryRestart.PrimeInv` | internal/history/store.go:122-161 | priming any well-kept contents under any limits yields exact counts, the mirror and both global bounds |
| `HistoryRestart.PrimeCapIff` | internal/history/store.go:157-160 | after priming an object holds what it had, less one if it exceeded the cap, less what the global bounds took from it; so it is within the cap exactly when it exceeded it by at most one more than they took, and they take nothing from contents within them |
| `HistoryRestart.PrimeMissesCap` | internal/history/store.go:157-160 | three revisions of one object under a cap of one leave two |
| `HistoryRestart.TrimmedLeast` | internal/history/store.go:386-395 | what the global bounds take is the shortest run of oldest entries after which they hold |
| `HistoryRestart.ListBelowBySeq` | internal/history/history.go:258-268 | listing the persisted revisions by sequence returns the retained entries in order |
| `HistoryRetention.ClassificationIgnoresLimits` | internal/history/store.go:202-261 | stores under any two limits, coalescing or not, keep identical hashes, names, last-seen times and scope sets after the same operations |
| `HistoryRetention.GenerationIgnoresLimits` | internal/history/store.go:266-290 | coalescing or not, stores under any two limits count the same transitions over the same operations: where one folds, the other retains |
| `HistoryRetention.RetentionIsSubsequence` | internal/history/store.go:355-416 | without coalescing a bounded timeline is a subsequence of the unbounded one, whole revisions with equal sequence, change kind, previous time and name, and what is missing is exactly what was evicted |
| `HistoryRetention.TransitionsConserved` | internal/history/store.go:266-290 | the generation counts one per retained or evicted revision plus what was folded into it, every sequence exists exactly once, and the evicted mark says whether anything was evicted |
| `HistoryRetention.LedgerKept` | internal/history/store.go:266-290 | from any balanced state the ledger stays balanced over every run and nothing evicted by then is rewritten afterwards |
| `HistorySeed.SeedReconciles` | internal/history/store.go:174-199 | after a complete listing the live uids are the earlier ones without the vanished plus the listed, nobody of another scope is lost or renamed, and the scope holds exactly the listed uids recorded under it |
| `HistorySeed.SeedRecordsVanished` | internal/history/store.go:312-332 | a listing records exactly one unobserved deletion for each uid live under the scope and not listed, carrying its last-seen time and its name, and no other |
| `HistorySeed.SeedIdempotent` | internal/history/store.go:170-199 | repeating a listing records nothing: timeline, counters and scopes stay, at most last-seen times move |
| `HistoryRecords.ObserveRecords` | internal/history/store.go:202-250 | an observation that repeats the last one records nothing; any other of a present object that no revision takes records exactly one, under the next sequence: name, uid, generation, writer, digests, owners and definition are those observed, at the time of observing; a new uid is created, or first observed by a listing, and a live one changed its spec exactly when that digest differs, else its status, since it was last seen, after a gap exactly under a listing |
| `HistoryRecords.ObserveFolds` | internal/history/store.go:266-290 | a watched status transition is taken by a retained revision exactly when that is its object's target, itself a status transition, and younger than the window; the revision keeps its sequence and how its own change was told, and holds the definition, status digest, owners, writer, generation and time of the newest |
| `HistoryRecords.DeletionRecords` | internal/history/store.go:296-305 | a deletion of a uid that is not live changes nothing; of a live one it records exactly one deletion, what was observed but for the definition, and the uid leaves every scope |
| `HistoryRecords.AbsenceRecords` | internal/history/store.go:174-199 | a listing records for each vanished uid, in the order of their names under consecutive sequences, a deletion after a gap with the name it was known by, its last-seen time and nothing else |
| `HistoryRecords.NewestStaysIff` | internal/history/store.go:355-396 | what was just retained is still there after the bounds if and only if it fits the byte bound alone: the cap takes an older revision of the object, the global bounds take the oldest |
| `HistoryRecords.RevisionCost` | internal/history/store.go:469-478 | a revision costs its definition and every byte of its attribution |
| `HistoryStore.Store.constructor` | internal/history/store.go:89-96 | the new store is the empty timeline and satisfies the invariant |
| `HistoryStore.Store.Persisted` | internal/history/store.go:107-161 | the primed store is the specified one for some visiting order of the objects, and satisfies the invariant |
| `HistoryStore.Store.Restore` | internal/history/store.go:122-156 | three loops rebuild entries, byte total, objects, scopes, counts and targets as the specification derives them from the contents |
| `HistoryStore.Store.Evict` | internal/history/store.go:399-416 | the whole state and the mirror after an eviction, including the object that loses its count or target |
| `HistoryStore.Store.EnforceBounds` | internal/history/store.go:386-395 | the oldest-first loop ends in the specified trimmed state |
| `HistoryStore.Store.EnforcePerObject` | internal/history/store.go:373-383 | the scan evicts the oldest entry of the object, and only over the cap |
| `HistoryStore.Store.Append` | internal/history/store.go:355-368 | the whole state and the mirror after a revision is retained under the next sequence and the bounds are enforced |
| `HistoryStore.Store.Retain` | internal/history/store.go:355-366 | the revision is retained, counted and mirrored under the next sequence, before any bound |
| `HistoryStore.Store.Coalesce` | internal/history/store.go:266-290 | folds exactly when the newest retained revision of the object is a status transition inside the window, and says whether it did |
| `HistoryStore.Store.DeleteObserved` | internal/history/store.go:296-305 | the deletion of an unknown uid changes nothing; that of a known one is recorded and its state forgotten |
| `HistoryStore.Store.DeleteUnobserved` | internal/history/store.go:312-332 | the synthesized deletion, named from the classification state |
| `HistoryStore.Store.Forget` | internal/history/store.go:344-352 | the uid leaves the objects and every scope set, and the mirror |
| `HistoryStore.Store.Fold` | internal/history/store.go:202-250 | one observation leads to the state of the specification; what it then holds is said field by field in the rows of `HistoryRecords` |
| `HistoryStore.Store.Observe` | internal/history/store.go:164-168 | keeps the invariant, performs one step of the run the theorems speak of, and records of the observation what the rows of `HistoryRecords` say, stated on its own contract |
| `HistoryStore.Store.Seed` | internal/history/store.go:174-199 | keeps the invariant and performs one listing step, the vanished in sorted order first |
| `HistoryStore.Store.TakeSnapshot` | internal/history/store.go:420-450 | every retained entry once, newest first, each showing the fields of its revision and whether it holds a definition, and whether any is retained |
| `HistoryStore.Store.Revision` | internal/history/store.go:454-465 | binary search finds the revision of a sequence if and only if it is retained |
| `HistoryStore.Persister.Append` | internal/history/history.go:274-291 | the mirror gains the revision and its sequence |
| `HistoryStore.Persister.Evict` | internal/history/history.go:274-291 | the mirror loses one sequence and nothing else |
| `DiffExact.WalkExact` | internal/history/diff.go:158-306 | the unbounded walk reports nothing if and only if the two values have equal normal forms, uniquely named lists read as maps and other lists by position |
| `DiffExact.PatchRebuilds` | internal/history/diff.go:158-253 | replaying the walk on the older value rebuilds the newer one up to that normal form |
| `DiffExact.WalkFlips` | internal/history/diff.go:158-253 | exchanging the inputs gives the same paths in the same order with added and removed, before and after exchanged |
| `Differ.NamedElements` | internal/history/diff.go:255-276 | indexes a list by name exactly when it is non-empty and every element is an object with a unique non-empty name |
| `Differ.Accumulator.Add` | internal/history/diff.go:148-156 | an entry is kept below the bound and otherwise only marks the truncation |
| `Differ.Accumulator.Walk` | internal/history/diff.go:158-175 | the accumulated entries are exactly the first 256 of the unbounded walk, rendered under encoded paths, and the mark is set if and only if there were more |
| `Differ.Accumulator.WalkMaps` | internal/history/diff.go:177-205 | the same for two objects, over the sorted union of their keys |
| `Differ.Accumulator.WalkLists` | internal/history/diff.go:207-253 | the same for two lists, by name when both sides allow it and by position otherwise |
| `HistoryDiff.Diff` | internal/history/diff.go:90-140 | the comparison is absent exactly when the sequence is not retained; its baseline is the newest earlier retained definition of the object; a definition that does not decode compares as nothing; otherwise the entries are the first of the unbounded walk, sorted by path, each naming the sole owner of its path |
| `HistoryDiff.EmptyIffUnchanged` | internal/history/diff.go:90-140 | a comparison is empty if and only if the two definitions have one normal form |
| `HistoryDiff.SortByPath` | internal/history/diff.go:132-134 | the entries in path order, each as often as before |
| `HistoryDiff.ShowAll` | internal/history/diff.go:173-253 | every entry as a page carries it: an absent side is empty, a present one rendered within the bound |
| `Rendering.RenderValue` | internal/history/diff.go:310-323 | a value that does not encode renders as nothing, any other as its encoding cut within the bound, and a valid encoding stays valid |
| `Rendering.RenderText` | internal/history/diff.go:310-323 | a text within the bound is kept; a longer one keeps its longest valid UTF-8 prefix within the bound and gains the ellipsis; a valid text loses at most one character, three bytes, of what fits |
| `Rendering.ValidIff` | internal/history/diff.go:310-323 | a text counts as valid exactly when it is the UTF-8 encoding of some sequence of Unicode scalar values |
| `FieldPaths.KeySpelled` | internal/history/diff.go:371-381 | a key of ASCII letters, digits, underscores and hyphens follows a dot; any other, and the empty one, stands quoted in brackets |
| `FieldPaths.EncodeInjective` | internal/history/diff.go:371-391 | two safe paths with one encoding are one path |
| `FieldPaths.PrefixFaithful` | internal/history/diff.go:362-369 | on safe paths the boundary-aware string prefix is the segment prefix |
| `FieldPaths.RelateFaithful` | internal/history/diff.go:351-369 | on safe paths the character test holds if and only if one path contains the other |
| `FieldPaths.SafeIffFaithful` | internal/history/diff.go:351-391 | the condition is exact for whole paths: a path is safe if and only if the character test relates it to precisely the safe paths that contain it or that it contains |
| `FieldPaths.UnsafeMisleads` | internal/history/diff.go:351-391 | every unsafe path has a safe path that neither contains it nor lies inside it and that the test relates to it |
| `Attribution.Attribute` | internal/history/diff.go:330-349 | names a manager if and only if, after any leading unnamed ones, it is the only claimant of a related path |
| `Attribution.OrderlessIffNotMixed` | internal/history/diff.go:330-349 | permuting the claims leaves the sole claimant if and only if they do not mix an unnamed manager with exactly one named one |
| `Attribution.OwnersOrderlessIff` | internal/history/diff.go:330-349 | the manager a path is attributed to is the same in every order of the owners if and only if their claims do not mix so |
| `Attribution.OwnsIsContainment` | internal/history/diff.go:330-360 | on safe paths an owner claims a change exactly when one of its paths contains the changed path or lies inside it |
| `Ownership.Walker.CollectOwned` | internal/kube/record.go:373-397 | the walk under a budget collects exactly the first paths of the whole tree in sorted key order, and spends one unit for each |
| `Ownership.Walker.Descend` | internal/kube/record.go:400-407 | the same below one node, a leaf claiming itself |
| `Ownership.OwnersOf` | internal/kube/record.go:321-366 | the owners by manager, each with its paths sorted and once, are exactly the first 128 claims of the named managers |
| `Ownership.RenderSegment` | internal/kube/record.go:413-435 | a key with a single textual name renders as the differ renders a named element; any other as its merge keys sorted, or raw where it is no object |
| `Ownership.SegmentMeans` | internal/kube/record.go:413-435 | by what the key decodes to: the one textual name as `[name=…]`, any other object as its merge keys in key order, a null as `[]`, and what is neither as it is spelled |
| `Ownership.JoinConcat` | internal/kube/record.go:434-434 | every rendered merge key is there, in order, with a comma before each but the first |
| `Misreadings.FalselyMatchesIff` | internal/kube/record.go:409-435 | a key that is not one textual name can be taken for a safe path of the differ, below any safe path and whatever is claimed below it, if and only if the raw key misleads: it is no object and its text opens with name=, a quote or an index that ends there, or its first merge key with an encoding is name, or opens with name=, a quote or an index that closes its bracket before a boundary |
| `Misreadings.FalseMatchIff` | internal/kube/record.go:409-435 | the same on the rendered text, over paths of any length and boundary prefixes either way |
| `Misreadings.UnreadIff` | internal/kube/record.go:409-435 | otherwise a safe change is related to such a path exactly when it contains the part before the key |
| `Misreadings.SimpleMisleadsIff` | internal/kube/record.go:413-435 | with simple merge keys that is exactly when name is the first of them with an encoding |
| `Misreadings.NumberedName` | internal/kube/record.go:409-435 | a failing input: {"name":5} renders as the element named 5 |
| `Misreadings.NestedName` | internal/kube/record.go:409-435 | another: {"0][name":5} renders as the element named 5 of the first element |
| `OwnedPaths.OwnedCaptured` | internal/kube/record.go:373-407 | for any tree, the walk collects, path by path and in order, the encoding of the segment path down to the first key that is not one textual name, then that key as rendered and what follows it |
| `OwnedPaths.ClaimsHold` | internal/kube/record.go:321-366 | so does every claim of any managed fields, manager by manager |
| `OwnedPaths.RelatesIffTouches` | internal/history/diff.go:351-369 | such a path, safe and not misleading, is related to a safe change exactly when the change contains it or its part before such a key, or lies inside it and it has no such key |
| `OwnedPaths.CapturedContainment` | internal/kube/record.go:321-407 | from any managed fields to ownership: while what a manager holds within the budget is so, it owns a safe change exactly when something it holds touches the change |
| `OwnedPaths.CapturedAttribution` | internal/history/diff.go:330-349 | and end to end: a safe change is attributed to a manager exactly when that one alone holds something that touches it |
| `Ownership.CapturedOrderless` | internal/kube/record.go:336-366 | captured owners are all named, so the manager a path is attributed to is the same in every order of them |
| `Ring.Ring.Push` | internal/metrics/store.go:62-68 | the contents become the newest capacity-many of the old contents and the new entry, across every wrap |
| `Ring.Ring.Each` | internal/metrics/store.go:71-80 | visits exactly the contents, oldest first |
| `Ring.Ring.Last` | internal/metrics/store.go:83-92 | the newest entry, if there is one |
| `Rollup.RollupExact` | internal/metrics/store.go:221-240 | for non-decreasing times bucket starts strictly increase, each bucket is the minimum, maximum, sum and count of precisely the samples in its interval, and every sample is in one |
| `Rollup.RollupIntervals` | internal/metrics/store.go:221-240 | the same with each interval given by its bounds: from a multiple of the width up to the next, before time zero down to the one before, around zero both |
| `Rollup.StartMeans` | internal/metrics/store.go:224-224 | a bucket starts at a multiple of the width, the last one not after a sample from time zero on and the first one not before an earlier sample |
| `Rollup.SharedIff` | internal/metrics/store.go:224-225 | two samples share a bucket if and only if their times divide alike |
| `Rollup.DroppedBucketsAreSamples` | internal/metrics/store.go:221-240 | the buckets left after dropping the oldest are the rollup of the samples left after dropping the oldest |
| `Rollup.FoldExact` | internal/metrics/store.go:358-397 | folding all buckets gives minimum, maximum, sum and count of exactly the samples, whatever the order of their times |
| `Rollup.WindowStatsExact` | internal/metrics/store.go:358-397 | the same over a bounded ring, for the suffix of the samples the retained buckets stand for |
| `Rollup.MeanBetween` | internal/metrics/store.go:388-394 | the mean lies between minimum and maximum |
| `Rollup.RatesNotNegative` | internal/metrics/store.go:193-201 | no reading of a counter ever yields a negative rate |
| `Rollup.RatesTelescope` | internal/metrics/store.go:193-201 | over a stretch with an advancing clock and no reset every reading yields a rate, and the rates times the elapsed seconds sum to the last value minus the first |
| `Rollup.Rebases` | internal/metrics/store.go:193-201 | a first sight, a reset or a clock that does not advance stores nothing, and what follows is measured from that reading alone |
| `Metrics.InstrumentExact` | internal/metrics/store.go:185-240 | after any readings an instrument retains the newest samples those readings stored and the newest buckets of their exact rollup |
| `Metrics.StatsExact` | internal/metrics/store.go:358-397 | an instrument's statistics are the minimum, maximum and mean of exactly the newest samples its retained and open buckets are the rollup of |
| `Metrics.RingsSpan` | internal/metrics/store.go:185-190 | the raw ring holds as many readings as intervals fit the raw window and the other as many buckets as fit the retention, never fewer than one |
| `Metrics.InstrumentCell.Append` | internal/metrics/store.go:221-240 | both rings and the open bucket end as the value-level append says |
| `Metrics.InstrumentCell.Observe` | internal/metrics/store.go:193-202 | gauge or counter reading, the baseline moved in either case of a counter |
| `Metrics.InstrumentCell.Stats` | internal/metrics/store.go:367-394 | the newest raw value and the fold over ring and open bucket |
| `MetricsStore.SweepRunExact` | internal/metrics/store.go:154-203 | however series are interleaved, an instrument stands for exactly the samples its series stored since its instance was admitted |
| `MetricsRuns.RunTracks` | internal/metrics/store.go:154-218 | over any store run with evictions and readmissions, an instance held is what the readings since its last admission make of a new one |
| `MetricsRuns.RunExact` | internal/metrics/store.go:154-240 | so each of its charted instruments stands for exactly the samples those readings stored |
| `MetricsStore.RunRecent` | internal/metrics/store.go:154-218 | over any run with a clock that never goes back, in which the empty name never hides who should go, the instances tracked are the most recently observed of all ever shown, as many as the cap allows |
| `MetricsWindow.Store.EvictFor` | internal/metrics/store.go:207-218 | below the cap nothing changes; at it one instance goes, a least recently observed one unless the empty name hides it |
| `MetricsRuns.EveryOrderLeastIff` | internal/metrics/store.go:207-218 | the loop takes a least recently observed instance in every map order if and only if the empty name is not tracked, or is alone, or some other instance was observed no later than it |
| `MetricsWindow.Store.Observe` | internal/metrics/store.go:154-203 | the instance cap, ring bounds and catalog are kept, the new state is one sweep of one instance, and its point-in-time claims are overwritten, from nothing if it was not held, no other instance's changing |
| `MetricsWindow.LatestMeans` | internal/metrics/store.go:172-178 | a point-in-time key reported now has its reading and this time, any other keeps its last claim and the time of that claim |
| `MetricsWindow.Store.Export` | internal/metrics/persist.go:97-122 | one record for every instrument and nothing else, strictly ordered by instance and series |
| `MetricsWindow.Store.Import` | internal/metrics/persist.go:130-181 | the state is the fold of all records over a most recent choice of instances, and the bounds hold after an import into an empty store |
| `MetricsWindow.Rebuild` | internal/metrics/persist.go:167-178 | pushing persisted samples and buckets through rings of today's size keeps the newest suffix of each, and the baseline is empty |
| `MetricsWindow.Newest` | internal/metrics/persist.go:138-153 | the names kept are at most the cap and none was seen before a rejected one, ties in any order |
| `MetricsStore.ImportClamps` | internal/metrics/persist.go:124-181 | under other bounds, each charted instrument of a kept instance is back with the newest part of its window, each kept instance with its recency, and the kept are the most recently observed that had something to restore |
| `MetricsStore.ImportRecency` | internal/metrics/persist.go:131-171 | whatever records are imported, each instance ends with the latest time that its charted records give |
| `MetricsStore.LastSeenMeans` | internal/metrics/persist.go:135-140 | an instance counts as seen exactly when some record of it has a time after zero, and then since the latest of them |
| `MetricsStore.RoundTripIff` | internal/metrics/persist.go:97-181 | with the same catalog and bounds the round trip restores every instance, raw window, rollup, open bucket and recency if and only if every instance has an instrument and was observed after time zero |
| `MetricsRuns.SilentInstanceForgotten` | internal/metrics/persist.go:97-181 | one sweep that reports no charted key: the instance is tracked, and no export and import of that state returns it |
| `MetricsWindow.Restart` | internal/metrics/persist.go:97-181 | the same for the store's own export and import, with no assumption but its invariant |
| `MetricsStore.FirstSweepAppendsNothing` | internal/metrics/persist.go:124-129 | the first counter sweep after an import changes no window and no open bucket |
| `MetricsRestart.GaugesContinue` | internal/metrics/persist.go:124-181 | after an exact round trip every run goes on as it would have without the restart and no other way: the same instances tracked, with the same recency, and every gauge with the same window, rollup and open bucket throughout |
| `MetricsRestart.RestoredStands` | internal/metrics/persist.go:124-181 | a restored instrument, swept on, stands for what it stood for and what the new readings store from an empty baseline |
| `MetricsRestart.RestartCostsOne` | internal/metrics/persist.go:124-129 | so a restart costs a counter the one rate of its first reading, and a gauge nothing |
| `KeyedPages.SamePageIff` | internal/observe/keyed.go:102-109 | the retained set and the unbounded map publish one page if and only if the first N items of the map are retained |
| `KeyedPages.EvictSamePageIff` | internal/observe/keyed.go:52-74 | a put that evicts, under any policy: the pages stay one if and only if the loser was listed last, or last but one with the new item before it |
| `KeyedPages.AddSamePage` | internal/observe/keyed.go:52-61 | a put that finds room keeps the pages one |
| `KeyedPages.UpsertSamePageIff` | internal/observe/keyed.go:52-61 | a retained item put again keeps them one if and only if it was not listed, did not move back, or moved behind nothing that could now be listed and is not retained |
| `KeyedPages.PutSamePage` | internal/observe/keyed.go:52-61 | although a put evicts before it inserts, any put keeps the pages one while the policy drops the last item and nothing put again moves back |
| `KeyedPages.DeleteSamePageIff` | internal/observe/keyed.go:78-83 | a deletion matched by uid keeps them one if and only if it removes nothing listed, or every item no longer retained comes after a retained one beyond the page |
| `KeyedPages.RemoveSamePageIff` | internal/observe/keyed.go:78-83 | the same for the removal of a retained item, for every bound and every set, with or without the item beyond the page |
| `KeyedPages.RemovalUncovers` | internal/observe/keyed.go:78-83 | the failing family, for every bound: in a full set a new last name displaces the item beyond the page, and deleting any listed item then parts the pages |
| `KeyedPages.RemovalUncoversEverywhere` | internal/observe/keyed.go:78-83 | such a set, put and deletion exist for every bound that lists anything |
| `KeyedPages.AgePutSamePageIff` | internal/observe/backups.go:281-301 | a backup put at the bound: whichever oldest one the map order drops, the pages stay one if and only if one retained backup is oldest, or exactly two are and the new one is listed before the smaller-named |
| `KeyedPages.TieParts` | internal/observe/backups.go:281-301 | a failing input: two backups of one moment retained, an older one arrives, and the page lists one of the two where the unbounded map lists the other |
| `KeyedStore.NamePages` | internal/observe/databases.go:264-290 | over any life of a name-ordered set of listings, puts and deletions, since the last listing the page is that of the unbounded map as long as no deletion freed a place for an item no longer held, and the first that does parts them |
| `KeyedStore.AgePages` | internal/observe/backups.go:281-312 | the same for backups while no two share a creation time and none is put again as older |
| `KeyedStore.PageHonest` | internal/observe/backups.go:245-268 | whatever the policy, an unmarked page lists the unbounded map whole, and before any deletion the mark is set exactly when something is missing |
| `KeyedStore.RetainedSet.Evictee` | internal/observe/keyed.go:65-74 | whatever the order in which the map is ranged over, nothing retained would have been dropped before the loser |
| `KeyedStore.RetainedSet.Put` | internal/observe/keyed.go:52-61 | reports an eviction exactly when a new name arrives at the limit, and then exactly one loser made room |
| `KeyedStore.RetainedSet.Apply` | internal/observe/backups.go:386-400 | a put is the next step of the life the run theorems speak of, the sticky flag with it |
| `KeyedStore.RetainedSet.Delete` | internal/observe/keyed.go:78-83 | the same for a deletion, one of an older incarnation changing nothing |
| `KeyedStore.RetainedSet.Seed` | internal/observe/backups.go:350-371 | a listing starts the life over and puts its items in order |
| `KeyedStore.WholeOfListing` | internal/observe/databases.go:324-347 | a listing leaves exactly its own items in the map a reader expects, for each name the last listed under it |
| `KeyedStore.RetainedSet.Page` | internal/observe/backups.go:245-256 | the published list is the page of the retained set; unmarked, or while the pages are one, it is the page of the map that everything listed, put and deleted leaves |
| `KeyedStore.Bounded` | internal/observe/keyed.go:102-109 | the first items of the set in order, each once, and whether any were cut |
| `Catalogs.BackupCollector.Seed` | internal/observe/backups.go:350-371 | a failed fetch changes nothing, a listing starts both sets over, each with its own field of the listing under its own mark |
| `Catalogs.BackupCollector.Apply` | internal/observe/backups.go:386-403 | for each set what each kind of change does to it, spelled out: its own put or deletion, and nothing of the other; a change that carries nothing is not recognized |
| `Catalogs.BackupCollector.Publish` | internal/observe/backups.go:245-268 | the next generation carries both lists, each honest about its own set under its own mark |
| `Catalogs.BackupCollector.MarkStale` | internal/observe/backups.go:270-276 | only a snapshot that exists is marked |
| `Catalogs.DatabaseObjectsCollector.Seed` | internal/observe/databases.go:324-347 | a failed fetch changes nothing, a listing starts each of the four sets over with its own field of the listing under one mark |
| `Catalogs.DatabaseObjectsCollector.Apply` | internal/observe/databases.go:364-387 | for each of the four sets what each kind of change does to it, spelled out: its own put or deletion, and nothing of another kind; a change that carries nothing is not recognized |
| `Catalogs.DatabaseObjectsCollector.Publish` | internal/observe/databases.go:239-258 | one mark for four lists: it is set when any of them is cut or incomplete, and each list is honest about its own set |
| `Keyed.PutRefines` | internal/observe/keyed.go:52-61 | under any policy the retained set stays a submap of the unbounded map, and a put that reports no eviction loses nothing |
| `Keyed.RemoveRefines` | internal/observe/keyed.go:78-83 | a deletion matched by uid keeps the submap relation |
| `Keyed.PublishesWhole` | internal/observe/keyed.go:102-109 | the list published from the retained set is one published from the unbounded map, and conversely |
| `Keyed.PublishedUnique` | internal/observe/keyed.go:102-109 | there is one such list |
| `HeldClocks.Store.Publish` | internal/observe/store.go:46-73 | after every publication each clock reads the time of the publication that began the unbroken run showing its state, and only present states have one |
| `HeldClocks.Store.MarkStale` | internal/observe/store.go:78-85 | staleness interrupts no clock |
| `HeldClocks.MatchesIffRunIsOld` | internal/diagnose/status.go:41-59 | whatever the publication times, a minimum-age check matches if and only if the unbroken run that shows the state began at least that long ago; and then some publication that old, and every one since, showed it |
| `HeldClocks.EvidenceIff` | internal/diagnose/status.go:41-59 | while publication times never go back, a minimum-age check matches if and only if some publication at least that old, and every one since, showed the state |
| `HeldClocks.Store.HeldEvidence` | internal/diagnose/status.go:41-59 | the same for the store's own record, the hypothesis on times needed for one half alone; the check is unjudged exactly when the last publication does not show the state; without a minimum age it always matches |
| `LogBuffer.Buffer.Append` | internal/logstream/buffer.go:114-140 | both byte bounds hold, counters equal summed sizes, no stream is empty, each container retains a contiguous suffix of what it received, and the state is its own trimmed queue followed by a least drain of globally oldest entries |
| `LogBuffer.Buffer.Drain` | internal/logstream/buffer.go:129-139 | the global loop always finds an entry to drop, so its break is never taken |
| `LogBuffer.Buffer.OldestStream` | internal/logstream/buffer.go:154-166 | finds a stream whose front entry is oldest, unless all are empty |
| `LogBuffer.Buffer.Forget` | internal/logstream/buffer.go:222-234 | exactly the streams of the pod go, with their bytes, in whatever order the map is ranged over |
| `LogBuffer.Buffer.Observe` | internal/logstream/buffer.go:82-98 | unless both bounds are positive nothing is ever held; otherwise the entry is appended: its container's own trimmed queue, then a least drain |
| `LogBuffer.Buffer.Tail` | internal/logstream/buffer.go:182-201 | whether anything is held for the container, and exactly its entries within the age bound, lines and gap markers, in order, without a bound all of them |
| `LogBuffer.TrimLongest` | internal/logstream/buffer.go:126-128 | what a container keeps of its own queue is the longest run of newest entries that fits its bound |
| `LogBuffer.TotalMeans` | internal/logstream/buffer.go:56-56 | what the bounds count is every byte of text and 48 for each entry |
| `LogBuffer.DrainTakesOldest` | internal/logstream/buffer.go:129-139 | when entries arrived in time order nothing the global bound drops is newer than anything that stays |
| `LogBuffer.DrainIsLeast` | internal/logstream/buffer.go:129-139 | bytes dropped and kept sum to the bytes held before, and before the last drop the buffer still held too much |
| `Matcher.Matcher.Observe` | internal/logstream/logstream.go:351-383 | after every line each observation is the first line, the times of first and last and the count of all lines its rule matched and that are still accounted for; the line is decoded at most once |
| `Rules.MatchRule` | internal/logstream/logstream.go:253-276 | the loops with their early exits decide the match: every required text occurs, every field test holds, no excluded text occurs, and a rule that requires nothing matches nothing |
| `Rules.DecodingNeededOnly` | internal/logstream/logstream.go:278-287 | decoding only when some rule reads fields changes no match |
| `Rules.SplitJoins` | internal/logstream/logstream.go:202-221 | a dotted path is split into segments without dots that join to it again |
| `Rules.FieldReads` | internal/logstream/logstream.go:203-221 | a dotted path reads a text if and only if its segments lead to it object by object; an empty path and an undecoded line read none |
| `Matcher.Matcher.Detach` | internal/logstream/logstream.go:405-414 | extends the window already open, keeping its start and taking the newer reason, and opens one otherwise; no other window changes |
| `Matcher.Matcher.Close` | internal/logstream/logstream.go:394-424 | an attachment or a drop ends the window of that container and no other |
| `Matcher.Matcher.Forget` | internal/logstream/logstream.go:471-486 | exactly the observations and windows of the pod go, together |
| `Matcher.Matcher.Expire` | internal/logstream/logstream.go:446-459 | a read drops exactly what was last seen before the horizon, nothing without a maximum age, and every other observation stays as it was |
| `Matcher.AccountedSince` | internal/logstream/logstream.go:351-486 | over any log, a matching line is accounted for if and only if its pod was not forgotten since and no later read found the rule's last matching line on that container older than the horizon |
| `Matcher.BlindSinceFirst` | internal/logstream/logstream.go:394-424 | a container is unread exactly when a detachment was not followed by an attachment or its going away, and its window dates from the first such detachment |
| `Matcher.Footprint` | internal/logstream/logstream.go:317-332 | however many lines were read, the observations kept are at most rules times followed containers, one bounded line each |
| `Matcher.FollowedIff` | internal/logstream/logstream.go:471-486 | the containers counted are those a line was read from since their pod was last forgotten |
| `Poller.Run` | internal/evidence/poller.go:101-131 | over any polls up to the cancellation, the published pair is the report of the last poll that did not fail, with the collection of its own generation, none for generation zero, stale exactly when a poll failed since; a poll fails exactly when its snapshot does, or when a collection does that is neither empty nor the last served; the failure shown is that of the last poll, and each poll that did not fail advanced the generation |
| `Poller.Poller.Turn` | internal/evidence/poller.go:101-131 | a success publishes a fresh pair; a failure of either fetch leaves the pair and the cache and marks the pair stale, unless cancelled meanwhile, when it changes nothing; a cancellation ends the loop, after a publication if the poll succeeded; the retry delay depends on the failures in a row |
| `Poller.Poller.Assemble` | internal/evidence/poller.go:138-152 | the cached collection is the one the report's generation owes, fetched, reused or empty; on failure nothing changes |
| `Poller.Poller.NextBackoff` | internal/evidence/poller.go:156-163 | returns the current delay and moves to the next |
| `Poller.DelayDoubles` | internal/evidence/poller.go:156-163 | the delay before the n-th retry in a row is the smaller of 2^n seconds and thirty |
| `Poller.Store.Publish` | internal/evidence/store.go:50-64 | replaces the pair, advances the generation, clears staleness and failure |
| `Poller.Store.MarkFailed` | internal/evidence/store.go:68-77 | records the failure, and marks a pair stale only if there is one |
| `Versions.CompareVersions` | internal/diagnose/version.go:261-280 | the loop returns what the order on fields says |
| `Versions.CompareMeans` | internal/diagnose/version.go:261-280 | the result is zero, negative or positive exactly as no field differs, or the first that differs is smaller or larger |
| `Versions.CompareOrders` | internal/diagnose/version.go:261-280 | a total preorder: antisymmetric in sign, transitive, and respecting its own equivalence |
| `Versions.CompareZeroIff` | internal/diagnose/version.go:259-280 | two versions compare equal if and only if they differ by trailing zero fields alone |
| `Versions.SatisfiesLoop` | internal/diagnose/version.go:288-327 | the loop with its early exits decides satisfaction |
| `Versions.OperatorsMean` | internal/diagnose/version.go:293-325 | for representable versions, each operator before a bound, and the bare bound, asks what it says of the first field that differs |
| `Versions.ClausesJoin` | internal/diagnose/version.go:288-327 | clauses parted by white space hold exactly when each part does |
| `Versions.BlankJoins` | internal/diagnose/version.go:288-327 | the same for the blank that constraints are written with |
| `Versions.MalformedFails` | internal/diagnose/version.go:302-305 | a clause whose version cannot be read is met by no version |
| `Versions.NoClause` | internal/diagnose/version.go:283-292 | without a clause every version that can be read satisfies the constraint |
| `Versions.SatisfiesRespects` | internal/diagnose/version.go:288-327 | equal versions satisfy the same constraints |
| `Versions.SatisfiesConvex` | internal/diagnose/version.go:288-327 | without a clause that excludes one version, whatever lies between two satisfying versions satisfies |
| `Versions.ParseJoinIff` | internal/diagnose/version.go:226-257 | parsing joined fields followed by any build suffix returns the fields if and only if there are some and each fits a 64-bit integer |
| `Versions.PrefixedReads` | internal/diagnose/version.go:226-227 | one leading v is skipped, a second is not |
| `Versions.ParsedRoundTrip` | internal/diagnose/version.go:226-257 | a version read from any string and written back reads as itself |
| `Versions.ImageVersionReads` | internal/diagnose/version.go:202-221 | the version an image reference yields, if any, is canonical: it reads back as itself |
| `Versions.TaggedVersionFound` | internal/diagnose/version.go:202-221 | a repository, a tag of a version with or without v and any build variant, and any digest: the version is found, whatever colons and slashes the repository has |

## Left out

- Kubernetes clients and watches, HTTP, TLS, sockets, bolt and gob encoding, files, logging, UI: plumbing over libraries.
- HistoryStore.Store.Coalesce: the coalescing target is held as the revision's unique sequence, not as a shared pointer, so aliasing between the entry list and an object's target is not modelled; classes hold their records as values in sequences and maps.
- MetricsWindow.Store.Observe: instruments are held as values in the store's map; that the rings behind one instrument behave so is proved for `Metrics.InstrumentCell`, and `MetricsWindow.Rebuild` restores through real rings. Point-in-time claims are a map beside the instances rather than a field of each.
- MetricsWindow.Store.Export: records are collected in sorted order rather than collected and then sorted; the order is total, so the list is the same.
- Rollup.RatesTelescope: arithmetic is over reals, without rounding, infinities or NaN.
- Catalogs.DatabaseObjectsCollector.Publish: the source keeps one sticky flag for the four sets; here each set keeps its own and the mark is their disjunction.
- Poller.Poller.Turn: jitter and the wait itself are left out; generations are unbounded naturals.
- Ownership.OwnersOf: sorting and removing duplicates is the ascending enumeration.
- HistoryRestarts.RestartsTransparent: the generation counter is not claimed to be monotonic across a restart; it resumes at the sequence while coalescing advances it alone.
- Wrap-around of 64-bit sequences, generations and byte totals.
- The chart read `Range` (`internal/metrics/store.go:280-350`), which aligns the instances' columns on the union of their times, gives each bucket's mean and inserts rows that break a line across a gap; and the listings that only copy (`Instances`, `Containers`, `Unread`).
- The scheduling of log followers and the capture of observations from raw objects (`internal/kube/record.go:182-303`).
