/** The collectors that keep several sets and publish them as one snapshot. */
module Catalogs {
  import opened Prelude
  import opened Lex
  import opened Keyed
  import opened KeyedPages
  import opened KeyedStore

  const MAX_BACKUPS := 500
  const MAX_SCHEDULES := 200
  const MAX_OBJECTS := 200

  ghost predicate ListsByAge(kept: RetainedSet)
    reads kept
  {
    kept.Valid() && kept.policy == AgeRetention(kept.bound) && kept.less == ByRecency
  }

  ghost predicate ListsByName(kept: RetainedSet)
    reads kept
  {
    kept.Valid() && kept.policy == NameRetention(kept.bound) && kept.less == ByName
  }

  /** What a published list tells about the set it came from: it is the page of what is
      retained; unmarked it lists the unbounded map whole; and while the pages are one it
      is the page of that map. */
  ghost predicate Tells(items: seq<Item>, mark: bool, retained: map<string, Item>, truncated: bool,
                        whole: map<string, Item>, bound: nat, less: (Item, Item) -> bool)
  {
    && mark == (truncated || |retained| > bound)
    && exists names :: PageOf(names, items, mark, retained, whole, bound, less)
  }

  ghost predicate PageOf(names: seq<string>, items: seq<Item>, mark: bool, retained: map<string, Item>,
                         whole: map<string, Item>, bound: nat, less: (Item, Item) -> bool)
  {
    && Published(names, retained, bound, less) && Lists(items, names, whole)
    && (!mark ==> Elements(names) == whole.Keys)
    && (!mark || SamePage(retained, whole, bound, less) ==> Published(names, whole, bound, less))
  }

  method TakePage(kept: RetainedSet) returns (items: seq<Item>, mark: bool)
    requires ListsByAge(kept) || ListsByName(kept)
    ensures Tells(items, mark, kept.retained, kept.truncated, Whole(kept.life.ops), kept.bound, kept.less)
  {
    PoliciesLawful(kept.bound);
    var page, m, names := kept.Page();
    items, mark := page, m;
    assert PageOf(names, items, mark, kept.retained, Whole(kept.life.ops), kept.bound, kept.less);
  }

  /* ---------- the backup catalog ---------- */

  datatype Catalog = Catalog(backups: seq<Item>, backupsTruncated: bool, schedules: seq<Item>, schedulesTruncated: bool,
                             objectStore: string)

  datatype Change =
    | PutBackup(item: Item)
    | DeleteBackup(name: string, uid: string)
    | PutSchedule(item: Item)
    | DeleteSchedule(name: string, uid: string)
    | Nothing

  datatype Snapshot = Snapshot(generation: nat, observedAt: int, stale: bool, catalog: Catalog)

  class BackupCollector {
    const backups: RetainedSet
    const schedules: RetainedSet
    var objectStore: string
    var snap: Snapshot
    var has: bool

    ghost predicate Valid()
      reads this, backups, schedules
    {
      backups != schedules && ListsByAge(backups) && ListsByName(schedules)
      && backups.bound == MAX_BACKUPS && schedules.bound == MAX_SCHEDULES
    }

    constructor ()
      ensures Valid() && fresh(backups) && fresh(schedules) && !has && snap.generation == 0
      ensures backups.life.ops == [] && schedules.life.ops == []
    {
      PoliciesLawful(MAX_BACKUPS);
      PoliciesLawful(MAX_SCHEDULES);
      backups := new RetainedSet(AgeRetention(MAX_BACKUPS), ByRecency, MAX_BACKUPS);
      schedules := new RetainedSet(NameRetention(MAX_SCHEDULES), ByName, MAX_SCHEDULES);
      objectStore := "";
      snap, has := Snapshot(0, 0, false, Catalog([], false, [], false, "")), false;
    }

    /** A fetch that failed changes nothing; one that succeeded starts both sets over. */
    method Seed(state: Option<Catalog>) returns (ok: bool)
      requires Valid()
      modifies this`objectStore, backups, schedules
      ensures Valid() && ok == state.Some?
      ensures backups.life.ops == old(backups.life.ops)
                                  + (if ok then [Start(state.value.backupsTruncated)] + Puts(state.value.backups)
                                     else [])
      ensures schedules.life.ops == old(schedules.life.ops)
                                    + (if ok then [Start(state.value.schedulesTruncated)] + Puts(state.value.schedules)
                                       else [])
      ensures objectStore == if ok then state.value.objectStore else old(objectStore)
    {
      if state.None? { return false; }
      backups.Seed(state.value.backups, state.value.backupsTruncated);
      schedules.Seed(state.value.schedules, state.value.schedulesTruncated);
      objectStore := state.value.objectStore;
      return true;
    }

    /** Each change reaches its own set alone; one carrying nothing is not recognized. */
    method Apply(change: Change) returns (recognized: bool)
      requires Valid()
      modifies backups, schedules
      ensures Valid() && recognized == !change.Nothing?
      ensures backups.life.ops == old(backups.life.ops)
                                  + (match change
                                     case PutBackup(item) => [Put(item)]
                                     case DeleteBackup(name, uid) => [Delete(name, uid)]
                                     case _ => [])
      ensures schedules.life.ops == old(schedules.life.ops)
                                    + (match change
                                       case PutSchedule(item) => [Put(item)]
                                       case DeleteSchedule(name, uid) => [Delete(name, uid)]
                                       case _ => [])
    {
      recognized := true;
      match change {
        case PutBackup(item) => backups.Apply(item);
        case DeleteBackup(name, uid) => backups.Delete(name, uid);
        case PutSchedule(item) => schedules.Apply(item);
        case DeleteSchedule(name, uid) => schedules.Delete(name, uid);
        case Nothing => recognized := false;
      }
    }

    /** The next snapshot carries both lists, each with a mark of its own. */
    method Publish(observedAt: int)
      requires Valid()
      modifies this`snap, this`has
      ensures Valid() && has && snap.generation == old(snap.generation) + 1 && snap.observedAt == observedAt
              && !snap.stale
      ensures Tells(snap.catalog.backups, snap.catalog.backupsTruncated,
                    backups.retained, backups.truncated, Whole(backups.life.ops), MAX_BACKUPS, ByRecency)
      ensures Tells(snap.catalog.schedules, snap.catalog.schedulesTruncated,
                    schedules.retained, schedules.truncated, Whole(schedules.life.ops), MAX_SCHEDULES, ByName)
      ensures snap.catalog.objectStore == objectStore
    {
      var b, bMark := TakePage(backups);
      var s, sMark := TakePage(schedules);
      snap := Snapshot(snap.generation + 1, observedAt, false, Catalog(b, bMark, s, sMark, objectStore));
      has := true;
    }

    method MarkStale()
      modifies this`snap
      ensures snap == if has then old(snap).(stale := true) else old(snap)
    {
      if has { snap := snap.(stale := true); }
    }
  }

  /* ---------- declared database objects ---------- */

  datatype Kind = Database | Role | Publication | Subscription

  datatype Objects = Objects(databases: seq<Item>, roles: seq<Item>, publications: seq<Item>, subscriptions: seq<Item>)

  /** What a listing of all four kinds hands over. */
  datatype ObjectsState = ObjectsState(truncated: bool, objects: Objects)

  ghost predicate ListsObjects(kept: RetainedSet)
    reads kept
  {
    ListsByName(kept) && kept.bound == MAX_OBJECTS
  }

  datatype ObjectChange =
    | PutObject(kind: Kind, item: Item)
    | DeleteObject(kind: Kind, name: string, uid: string)
    | NoObject

  method SeedPair(a: RetainedSet, aItems: seq<Item>, b: RetainedSet, bItems: seq<Item>, truncated: bool)
    requires a != b && ListsObjects(a) && ListsObjects(b)
    modifies a, b
    ensures ListsObjects(a) && a.life.ops == old(a.life.ops) + [Start(truncated)] + Puts(aItems)
    ensures ListsObjects(b) && b.life.ops == old(b.life.ops) + [Start(truncated)] + Puts(bItems)
  {
    a.Seed(aItems, truncated);
    b.Seed(bItems, truncated);
  }

  datatype ObjectsSnapshot = ObjectsSnapshot(generation: nat, observedAt: int, stale: bool, truncated: bool,
                                             objects: Objects)

  /** Four name-ordered sets under one mark. */
  class DatabaseObjectsCollector {
    const databases: RetainedSet
    const roles: RetainedSet
    const publications: RetainedSet
    const subscriptions: RetainedSet
    var snap: ObjectsSnapshot
    var has: bool

    function Of(kind: Kind): RetainedSet {
      match kind
      case Database => databases
      case Role => roles
      case Publication => publications
      case Subscription => subscriptions
    }

    ghost predicate Valid()
      reads this, databases, roles, publications, subscriptions
    {
      && databases != roles && databases != publications && databases != subscriptions
      && roles != publications && roles != subscriptions && publications != subscriptions
      && ListsObjects(databases) && ListsObjects(roles) && ListsObjects(publications) && ListsObjects(subscriptions)
    }

    constructor ()
      ensures Valid() && !has && snap.generation == 0
      ensures fresh(databases) && fresh(roles) && fresh(publications) && fresh(subscriptions)
      ensures databases.life.ops == roles.life.ops == publications.life.ops == subscriptions.life.ops == []
    {
      PoliciesLawful(MAX_OBJECTS);
      databases := new RetainedSet(NameRetention(MAX_OBJECTS), ByName, MAX_OBJECTS);
      roles := new RetainedSet(NameRetention(MAX_OBJECTS), ByName, MAX_OBJECTS);
      publications := new RetainedSet(NameRetention(MAX_OBJECTS), ByName, MAX_OBJECTS);
      subscriptions := new RetainedSet(NameRetention(MAX_OBJECTS), ByName, MAX_OBJECTS);
      snap, has := ObjectsSnapshot(0, 0, false, false, Objects([], [], [], [])), false;
    }

    /** A fetch that failed changes nothing; one that succeeded starts all four sets over,
        each under the mark of the whole listing. */
    method Seed(state: Option<ObjectsState>) returns (ok: bool)
      requires Valid()
      modifies databases, roles, publications, subscriptions
      ensures Valid() && ok == state.Some?
      ensures databases.life.ops == old(databases.life.ops)
              + (if ok then [Start(state.value.truncated)] + Puts(state.value.objects.databases) else [])
      ensures roles.life.ops == old(roles.life.ops)
              + (if ok then [Start(state.value.truncated)] + Puts(state.value.objects.roles) else [])
      ensures publications.life.ops == old(publications.life.ops)
              + (if ok then [Start(state.value.truncated)] + Puts(state.value.objects.publications) else [])
      ensures subscriptions.life.ops == old(subscriptions.life.ops)
              + (if ok then [Start(state.value.truncated)] + Puts(state.value.objects.subscriptions) else [])
    {
      if state.None? { return false; }
      var o, t := state.value.objects, state.value.truncated;
      SeedPair(databases, o.databases, roles, o.roles, t);
      SeedPair(publications, o.publications, subscriptions, o.subscriptions, t);
      return true;
    }

    /** A change reaches the set of its kind and no other; one carrying nothing is not recognized. */
    method Apply(change: ObjectChange) returns (recognized: bool)
      requires Valid()
      modifies databases, roles, publications, subscriptions
      ensures Valid() && recognized == !change.NoObject?
      ensures databases.life.ops == old(databases.life.ops)
              + (match change
                 case PutObject(Database, item) => [Put(item)]
                 case DeleteObject(Database, name, uid) => [Delete(name, uid)]
                 case _ => [])
      ensures roles.life.ops == old(roles.life.ops)
              + (match change
                 case PutObject(Role, item) => [Put(item)]
                 case DeleteObject(Role, name, uid) => [Delete(name, uid)]
                 case _ => [])
      ensures publications.life.ops == old(publications.life.ops)
              + (match change
                 case PutObject(Publication, item) => [Put(item)]
                 case DeleteObject(Publication, name, uid) => [Delete(name, uid)]
                 case _ => [])
      ensures subscriptions.life.ops == old(subscriptions.life.ops)
              + (match change
                 case PutObject(Subscription, item) => [Put(item)]
                 case DeleteObject(Subscription, name, uid) => [Delete(name, uid)]
                 case _ => [])
    {
      recognized := true;
      match change {
        case PutObject(kind, item) => Of(kind).Apply(item);
        case DeleteObject(kind, name, uid) => Of(kind).Delete(name, uid);
        case NoObject => recognized := false;
      }
    }

    method TakePages() returns (objects: Objects, d: bool, r: bool, p: bool, s: bool)
      requires Valid()
      ensures TellsNames(objects.databases, d, databases) && TellsNames(objects.roles, r, roles)
      ensures TellsNames(objects.publications, p, publications) && TellsNames(objects.subscriptions, s, subscriptions)
    {
      var ds, dm := TakePage(databases);
      var rs, rm := TakePage(roles);
      var ps, pm := TakePage(publications);
      var ss, sm := TakePage(subscriptions);
      return Objects(ds, rs, ps, ss), dm, rm, pm, sm;
    }

    /** One mark for all four lists: unmarked, each lists its unbounded map whole. */
    method Publish(observedAt: int)
      requires Valid()
      modifies this`snap, this`has
      ensures Valid() && has && snap.generation == old(snap.generation) + 1 && snap.observedAt == observedAt
              && !snap.stale
      ensures exists d, r, p, s :: snap.truncated == (d || r || p || s) && TellAll(snap.objects, d, r, p, s)
    {
      var objects, d, r, p, s := TakePages();
      snap := ObjectsSnapshot(snap.generation + 1, observedAt, false, d || r || p || s, objects);
      has := true;
      assert TellAll(snap.objects, d, r, p, s);
    }

    ghost predicate TellAll(objects: Objects, d: bool, r: bool, p: bool, s: bool)
      reads databases, roles, publications, subscriptions
    {
      && TellsNames(objects.databases, d, databases) && TellsNames(objects.roles, r, roles)
      && TellsNames(objects.publications, p, publications) && TellsNames(objects.subscriptions, s, subscriptions)
    }
  }

  ghost predicate TellsNames(items: seq<Item>, mark: bool, kept: RetainedSet)
    reads kept
  {
    Tells(items, mark, kept.retained, kept.truncated, Whole(kept.life.ops), kept.bound, kept.less)
  }
}
