/** Global retention over every corpus store of a kind (internal/recordstore/retention.go), with
    the ledger hook of the witness kind (internal/witnesscache/witnesscache.go): abandoned stores
    and unreferenced ledgers go first, then records oldest first until the bytes fit, each
    eviction taking the ledgers it orphans.

    Paths and ledger keys are numbers: paths in their byte order, keys for equality alone. Sizes
    are summed without the 64-bit bound. */
module Retention {
  import opened Ordering
  import opened Sums

  type Path = nat
  type Key = nat

  // A record file and the ledger keys it names, each once.
  datatype RecordFile = RecordFile(size: nat, mod: int, keys: seq<Key>)

  datatype StoreDir = StoreDir(abandoned: bool, records: map<Path, RecordFile>, ledgers: map<Key, nat>)

  datatype Candidate = Candidate(store: nat, path: Path, size: nat, mod: int)

  datatype Report = Report(
    used: int,
    reclaimed: int,
    remaining: int,
    removedFiles: int,
    abandonedStores: nat,
    busyStores: nat,
    skippedEntries: nat)

  // ----- what a pass that evicts the records of gone keeps -----

  function Sizes(s: StoreDir, gone: set<Path>): map<Path, nat>
  {
    map p | p in s.records && p !in gone :: s.records[p].size
  }

  // The surviving records that name a ledger key.
  function Namers(s: StoreDir, gone: set<Path>, k: Key): set<Path>
  {
    set p | p in s.records && p !in gone && k in s.records[p].keys
  }

  function NamedLedgers(s: StoreDir, gone: set<Path>): map<Key, nat>
  {
    map k | k in s.ledgers && Namers(s, gone, k) != {} :: s.ledgers[k]
  }

  ghost function KeptBytes(s: StoreDir, gone: set<Path>): nat
  {
    if s.abandoned then 0 else Sum(Sizes(s, gone)) + Sum(NamedLedgers(s, gone))
  }

  function KeptFiles(s: StoreDir, gone: set<Path>): nat
  {
    if s.abandoned then 0 else |Sizes(s, gone)| + |NamedLedgers(s, gone)|
  }

  // The bytes left: the survivors' own and those of every ledger a survivor names.
  ghost function Retained(stores: seq<StoreDir>, gone: set<Path>): nat
  {
    if stores == [] then 0
    else Retained(stores[..|stores| - 1], gone) + KeptBytes(stores[|stores| - 1], gone)
  }

  function RetainedFiles(stores: seq<StoreDir>, gone: set<Path>): nat
  {
    if stores == [] then 0
    else RetainedFiles(stores[..|stores| - 1], gone) + KeptFiles(stores[|stores| - 1], gone)
  }

  ghost function StoreBytes(s: StoreDir): nat
  {
    Sum(Sizes(s, {})) + Sum(s.ledgers)
  }

  ghost function UsedBytes(stores: seq<StoreDir>): nat
  {
    if stores == [] then 0
    else UsedBytes(stores[..|stores| - 1]) + StoreBytes(stores[|stores| - 1])
  }

  function Files(stores: seq<StoreDir>): nat
  {
    if stores == [] then 0
    else Files(stores[..|stores| - 1]) + |stores[|stores| - 1].records| + |stores[|stores| - 1].ledgers|
  }

  function AbandonedCount(stores: seq<StoreDir>): nat
  {
    if stores == [] then 0
    else AbandonedCount(stores[..|stores| - 1]) + if stores[|stores| - 1].abandoned then 1 else 0
  }

  ghost function Expected(stores: seq<StoreDir>, gone: set<Path>): Report
  {
    Report(
      UsedBytes(stores),
      UsedBytes(stores) - Retained(stores, gone),
      Retained(stores, gone),
      Files(stores) - RetainedFiles(stores, gone),
      AbandonedCount(stores), 0, 0)
  }

  // An abandoned store is emptied and its recorded coordinate removed; a live one keeps the
  // survivors and the ledgers they name.
  function PrunedStore(s: StoreDir, gone: set<Path>): StoreDir
  {
    if s.abandoned then StoreDir(false, map[], map[])
    else StoreDir(false, map p | p in s.records && p !in gone :: s.records[p], NamedLedgers(s, gone))
  }

  function Pruned(stores: seq<StoreDir>, gone: set<Path>): (r: seq<StoreDir>)
    ensures |r| == |stores| && forall i :: 0 <= i < |stores| ==> r[i] == PrunedStore(stores[i], gone)
  {
    if stores == [] then []
    else Pruned(stores[..|stores| - 1], gone) + [PrunedStore(stores[|stores| - 1], gone)]
  }

  // ----- the eviction order -----

  ghost predicate Distinct(stores: seq<StoreDir>)
  {
    && (forall i, j, p :: 0 <= i < j < |stores| && p in stores[i].records ==> p !in stores[j].records)
    && (forall i, p :: 0 <= i < |stores| && p in stores[i].records ==>
          forall a, b :: 0 <= a < b < |stores[i].records[p].keys| ==> stores[i].records[p].keys[a] != stores[i].records[p].keys[b])
  }

  predicate IsCandidate(stores: seq<StoreDir>, c: Candidate)
  {
    && c.store < |stores| && !stores[c.store].abandoned
    && c.path in stores[c.store].records
    && c.size == stores[c.store].records[c.path].size && c.mod == stores[c.store].records[c.path].mod
  }

  // Oldest first, paths breaking ties.
  predicate Older(a: Candidate, b: Candidate)
  {
    a.mod < b.mod || (a.mod == b.mod && a.path < b.path)
  }

  function Paths(cs: seq<Candidate>): set<Path>
  {
    set c | c in cs :: c.path
  }

  // The whole live corpus, oldest first.
  ghost predicate IsOrder(stores: seq<StoreDir>, order: seq<Candidate>)
  {
    Ascending(Older, order) && forall c :: c in order <==> IsCandidate(stores, c)
  }

  // The first n of the order is the shortest prefix whose eviction meets the ceiling.
  ghost predicate IsCut(stores: seq<StoreDir>, max: int, order: seq<Candidate>, n: nat)
  {
    && n <= |order|
    && Retained(stores, Paths(order[..n])) <= max
    && forall m: nat :: m < n ==> Retained(stores, Paths(order[..m])) > max
  }

  // What a pass under the ceiling max evicts: nothing when the bytes fit or no ceiling is set,
  // else the shortest oldest-first prefix that makes them fit.
  ghost predicate IsPrune(stores: seq<StoreDir>, max: int, gone: set<Path>)
  {
    if max < 0 || Retained(stores, {}) <= max then gone == {}
    else exists order: seq<Candidate>, n: nat ::
      IsOrder(stores, order) && IsCut(stores, max, order, n) && gone == Paths(order[..n])
  }

  // An undisturbed pass: the report and the disk of the one prefix the ceiling asks for.
  ghost predicate Outcome(stores: seq<StoreDir>, max: int, dry: bool, r: Report, after: seq<StoreDir>)
  {
    exists gone :: IsPrune(stores, max, gone) && r == Expected(stores, gone)
                   && after == if dry then stores else Pruned(stores, gone)
  }

  // One pass has one outcome.
  lemma PruneUnique(stores: seq<StoreDir>, max: int, a: set<Path>, b: set<Path>)
    requires IsPrune(stores, max, a) && IsPrune(stores, max, b)
    ensures a == b
  {
    if max >= 0 && Retained(stores, {}) > max {
      var order, n: nat :| IsOrder(stores, order) && IsCut(stores, max, order, n) && a == Paths(order[..n]);
      var order', n': nat :| IsOrder(stores, order') && IsCut(stores, max, order', n') && b == Paths(order'[..n']);
      assert Elements(order) == Elements(order') by {
        forall c ensures c in order <==> c in order' { assert c in order <==> IsCandidate(stores, c); }
      }
      AscendingUnique(Older, order, order');
    }
  }

  // ----- the surroundings -----

  datatype LockOutcome = Held | Contended | Failed

  // What the pass cannot decide: cancellation, another holder of a lock, a failing file
  // operation. clean says that none has happened. unread are the records whose references could
  // not be read, stuck those that could not be listed, removed, or locked with their store.
  class World {
    ghost var clean: bool
    ghost var unread: set<Path>
    ghost var stuck: set<Path>
    var cancelled: bool

    constructor ()
      ensures clean && !cancelled && unread == stuck == {}
    {
      clean, cancelled, unread, stuck := true, false, {}, {};
    }

    // The context's error, which once set stays.
    method Cancelled() returns (c: bool)
      modifies this`clean, this`cancelled
      ensures c == cancelled && (old(cancelled) ==> c)
      ensures clean == (old(clean) && !c)
    {
      var now: bool := *;
      cancelled := cancelled || now;
      clean := clean && !cancelled;
      return cancelled;
    }

    // The lock of a store of these records.
    method TryLock(ghost records: set<Path>) returns (outcome: LockOutcome)
      modifies this`clean, this`stuck
      ensures clean == (old(clean) && outcome.Held?)
      ensures stuck == old(stuck) + if outcome.Held? then {} else records
    {
      outcome := *;
      clean := clean && outcome.Held?;
      stuck := stuck + if outcome.Held? then {} else records;
    }

    // Whether one file operation fails.
    method Fails() returns (fails: bool)
      modifies this`clean
      ensures clean == (old(clean) && !fails)
    {
      fails := *;
      clean := clean && !fails;
    }

    method FailsToRead(ghost p: Path) returns (fails: bool)
      modifies this`clean, this`unread
      ensures clean == (old(clean) && !fails)
      ensures unread == old(unread) + if fails then {p} else {}
    {
      fails := Fails();
      unread := unread + if fails then {p} else {};
    }

    // Listing or removing one record's file.
    method FailsAt(ghost p: Path) returns (fails: bool)
      modifies this`clean, this`stuck
      ensures clean == (old(clean) && !fails)
      ensures stuck == old(stuck) + if fails then {p} else {}
    {
      fails := Fails();
      stuck := stuck + if fails then {p} else {};
    }
  }

  function Net(r: Report): int
  {
    r.used - r.reclaimed
  }

  function Gone(r: Report, bytes: nat, files: nat): Report
  {
    r.(used := r.used + bytes, reclaimed := r.reclaimed + bytes, removedFiles := r.removedFiles + files)
  }

  // One file measured and reclaimed: in a dry run without removing it.
  method Reclaim(size: nat, r: Report, dry: bool, world: World) returns (r': Report, removed: bool)
    modifies world`clean
    ensures Net(r') >= Net(r) && world.clean == (old(world.clean) && r'.skippedEntries == r.skippedEntries)
    ensures world.clean ==> removed == !dry
    ensures world.clean ==> r' == Gone(r, size, 1)
    ensures removed ==> !dry && r'.reclaimed == r.reclaimed + size && r'.removedFiles == r.removedFiles + 1
    ensures !dry && !removed ==> r'.reclaimed == r.reclaimed && r'.removedFiles == r.removedFiles
    ensures r'.remaining == r.remaining
  {
    var unreadable := world.Fails();
    if unreadable {
      return r.(skippedEntries := r.skippedEntries + 1), false;
    }
    r' := r.(used := r.used + size);
    if !dry {
      var failed := world.Fails();
      if failed {
        return r'.(skippedEntries := r'.skippedEntries + 1), false;
      }
    }
    return r'.(reclaimed := r'.reclaimed + size, removedFiles := r'.removedFiles + 1), !dry;
  }

  // ----- the ledger hook -----

  // What the hook remembers between the two passes: the references counted per key, the keys by
  // record, and the sizes of the ledgers still live.
  datatype Hook = Hook(refCount: map<Key, int>, refs: map<Path, seq<Key>>, live: map<Key, nat>)

  const NO_HOOK := Hook(map[], map[], map[])

  function Count(refCount: map<Key, int>, k: Key): int
  {
    if k in refCount then refCount[k] else 0
  }

  // The counts are the survivors naming each key, and the live ledgers exactly those named.
  ghost predicate Tracks(h: Hook, s: StoreDir, gone: set<Path>)
  {
    && (forall k :: Count(h.refCount, k) == |Namers(s, gone, k)|)
    && (forall p :: p in h.refs <==> p in s.records && p !in gone && s.records[p].keys != [])
    && (forall p :: p in h.refs ==> h.refs[p] == s.records[p].keys)
    && h.live == NamedLedgers(s, gone)
  }

  function Bump(refCount: map<Key, int>, keys: seq<Key>): map<Key, int>
  {
    if keys == [] then refCount
    else
      var rest := Bump(refCount, keys[..|keys| - 1]);
      var k := keys[|keys| - 1];
      rest[k := Count(rest, k) + 1]
  }

  lemma {:induction false} BumpCounts(refCount: map<Key, int>, keys: seq<Key>, k: Key)
    requires forall a, b :: 0 <= a < b < |keys| ==> keys[a] != keys[b]
    ensures Count(Bump(refCount, keys), k) == Count(refCount, k) + if k in keys then 1 else 0
  {
    if keys != [] {
      var n := |keys| - 1;
      BumpCounts(refCount, keys[..n], k);
      assert keys == keys[..n] + [keys[n]];
    }
  }

  function LedgersBut(ledgers: map<Key, nat>, todo: set<Key>): map<Key, nat>
  {
    map k | k in ledgers && k !in todo :: ledgers[k]
  }

  lemma LedgerDone(ledgers: map<Key, nat>, todo: set<Key>, k: Key)
    requires k in ledgers && k in todo
    ensures LedgersBut(ledgers, todo - {k}) == LedgersBut(ledgers, todo)[k := ledgers[k]]
    ensures Sum(LedgersBut(ledgers, todo - {k})) == Sum(LedgersBut(ledgers, todo)) + ledgers[k]
    ensures |LedgersBut(ledgers, todo - {k})| == |LedgersBut(ledgers, todo)| + 1
  {
    var m := LedgersBut(ledgers, todo);
    assert LedgersBut(ledgers, todo - {k}) == m[k := ledgers[k]];
    SumAdd(m, k, ledgers[k]);
    assert m[k := ledgers[k]].Keys == m.Keys + {k};
  }

  lemma SizesDone(s: StoreDir, todo: set<Path>, p: Path)
    requires p in s.records && p in todo
    ensures Sum(Sizes(s, todo - {p})) == Sum(Sizes(s, todo)) + s.records[p].size
  {
    hide Sum;
    var m := Sizes(s, todo);
    assert Sizes(s, todo - {p}) == m[p := s.records[p].size];
    SumAdd(m, p, s.records[p].size);
  }

  lemma NamersDone(s: StoreDir, gone: set<Path>, p: Path, k: Key)
    requires p in s.records && p in gone
    ensures |Namers(s, gone - {p}, k)| == |Namers(s, gone, k)| + if k in s.records[p].keys then 1 else 0
  {
    assert Namers(s, gone - {p}, k) == Namers(s, gone, k) + if k in s.records[p].keys then {p} else {};
  }

  ghost predicate DistinctKeys(s: StoreDir)
  {
    forall p :: p in s.records ==>
      forall a, b :: 0 <= a < b < |s.records[p].keys| ==> s.records[p].keys[a] != s.records[p].keys[b]
  }

  // One record's references noted.
  function Noted(h: Hook, p: Path, keys: seq<Key>): Hook
  {
    if keys == [] then h else h.(refs := h.refs[p := keys], refCount := Bump(h.refCount, keys))
  }

  // The counts and the references alone: every record not gone, and none other.
  ghost predicate Counts(h: Hook, s: StoreDir, gone: set<Path>)
  {
    Tracks(h.(live := NamedLedgers(s, gone)), s, gone)
  }

  lemma NotedCounts(s: StoreDir, gone: set<Path>, h: Hook, p: Path)
    requires Counts(h, s, gone) && DistinctKeys(s) && p in s.records && p in gone
    ensures Counts(Noted(h, p, s.records[p].keys), s, gone - {p})
  {
    hide NamedLedgers, Namers, Bump;
    var keys := s.records[p].keys;
    forall k ensures Count(Noted(h, p, keys).refCount, k) == |Namers(s, gone - {p}, k)| {
      NamersDone(s, gone, p, k);
      BumpCounts(h.refCount, keys, k);
    }
  }

  lemma NothingCounted(s: StoreDir)
    ensures Counts(NO_HOOK, s, s.records.Keys)
  {
  }

  // References counted over a store are each record's own.
  lemma CountsOnce(h: Hook, s: StoreDir, gone: set<Path>)
    requires Counts(h, s, gone) && DistinctKeys(s)
    ensures RefsOnce(h)
  {
  }

  // The hook's first half: the references every readable record makes. An unread record counts
  // for nothing; only a pass under disturbance leaves any.
  method CountRefs(s: StoreDir, world: World) returns (h: Hook, stop: bool, ghost unread: set<Path>)
    requires DistinctKeys(s)
    modifies world`clean, world`cancelled, world`unread
    ensures world.clean ==> old(world.clean) && !stop && unread == {}
    ensures world.unread == old(world.unread) + unread
    ensures unread <= s.records.Keys && h.live == map[] && RefsOnce(h)
    ensures !stop ==> Counts(h, s, unread)
  {
    hide Counts, RefsOnce, DistinctKeys, Noted;
    h, stop, unread := NO_HOOK, false, {};
    NothingCounted(s);
    NoHookHolds();
    var todo := s.records.Keys;
    assert todo + unread == todo;
    while todo != {}
      invariant todo <= s.records.Keys && unread <= s.records.Keys && todo !! unread && h.live == map[] && !stop
      invariant world.clean ==> old(world.clean) && unread == {}
      invariant world.unread == old(world.unread) + unread
      invariant Counts(h, s, todo + unread)
      decreases todo
    {
      stop := world.Cancelled();
      if stop {
        return NO_HOOK, true, unread;
      }
      var p :| p in todo;
      var unreadable := world.FailsToRead(p);
      if unreadable {
        assert todo - {p} + (unread + {p}) == todo + unread;
        unread := unread + {p};
      } else {
        NotedCounts(s, todo + unread, h, p);
        NotedLive(h, p, s.records[p].keys);
        assert todo + unread - {p} == todo - {p} + unread;
        h := Noted(h, p, s.records[p].keys);
      }
      todo := todo - {p};
    }
    assert todo + unread == unread;
    CountsOnce(h, s, unread);
  }

  lemma NotedLive(h: Hook, p: Path, keys: seq<Key>)
    ensures Noted(h, p, keys).live == h.live
  {
  }

  // ----- what holds whatever fails -----

  function FileCount(s: StoreDir): nat
  {
    |s.records| + |s.ledgers|
  }

  // What a report counts as reclaimed is what went.
  ghost predicate Balanced(s: StoreDir, r: Report, s': StoreDir, r': Report)
  {
    && r'.reclaimed - r.reclaimed == StoreBytes(s) - StoreBytes(s')
    && r'.removedFiles - r.removedFiles == FileCount(s) - FileCount(s')
  }

  // Files only go, and from a live store no ledger that a record left behind names, if the
  // record's references were read.
  ghost predicate Spares(s: StoreDir, s': StoreDir, unread: set<Path>)
  {
    && (s'.abandoned ==> s.abandoned)
    && (forall p :: p in s'.records ==> p in s.records && s'.records[p] == s.records[p])
    && Within(s'.ledgers, s.ledgers)
    && (!s.abandoned ==> forall p, k :: p in s'.records && p !in unread && k in s'.records[p].keys && k in s.ledgers ==> k in s'.ledgers)
  }

  ghost predicate Within(m: map<Key, nat>, m': map<Key, nat>)
  {
    forall k :: k in m ==> k in m' && m'[k] == m[k]
  }

  ghost function Holders(refs: map<Path, seq<Key>>, k: Key): set<Path>
  {
    set p | p in refs && k in refs[p]
  }

  // The hook calls live only ledgers that are there, and counts at least the records it knows.
  ghost predicate Holding(h: Hook, ledgers: map<Key, nat>)
  {
    Within(h.live, ledgers) && Covers(h.refs, h, [])
  }

  ghost predicate Knows(refs: map<Path, seq<Key>>, s: StoreDir, unread: set<Path>)
  {
    forall p :: p in s.records && p !in unread && s.records[p].keys != [] ==> p in refs && refs[p] == s.records[p].keys
  }

  ghost predicate Fits(h: Hook, s: StoreDir, unread: set<Path>)
  {
    Holding(h, s.ledgers) && (h.live != map[] ==> Knows(h.refs, s, unread))
  }

  lemma Untouched(s: StoreDir, r: Report, unread: set<Path>)
    ensures Balanced(s, r, s, r) && Spares(s, s, unread) && Fits(NO_HOOK, s, unread)
  {
  }

  lemma LedgerGone(s: StoreDir, k: Key)
    requires k in s.ledgers
    ensures var s' := s.(ledgers := s.ledgers - {k}); StoreBytes(s') == StoreBytes(s) - s.ledgers[k] && FileCount(s') == FileCount(s) - 1
  {
    SumRemove(s.ledgers, k);
    assert (s.ledgers - {k}).Keys == s.ledgers.Keys - {k};
    assert Sizes(s.(ledgers := s.ledgers - {k}), {}) == Sizes(s, {});
  }

  lemma RecordGone(s: StoreDir, p: Path, ledgers: map<Key, nat>)
    requires p in s.records
    ensures var s' := s.(records := s.records - {p}, ledgers := ledgers);
      && StoreBytes(s) - StoreBytes(s') == s.records[p].size + Sum(s.ledgers) - Sum(ledgers)
      && FileCount(s) - FileCount(s') == 1 + |s.ledgers| - |ledgers|
  {
    hide Sum;
    var s' := s.(records := s.records - {p}, ledgers := ledgers);
    SizesDone(s, {p}, p);
    assert Sizes(s', {}) == Sizes(s, {p});
    assert s'.records.Keys == s.records.Keys - {p} && {p} - {p} == {};
  }

  // Amid the walk over the ledgers: only uncounted ones have gone, and those remembered are there.
  ghost predicate Sweeping(s: StoreDir, refCount: map<Key, int>, s': StoreDir, live: map<Key, nat>, todo: set<Key>)
  {
    && Within(s'.ledgers, s.ledgers) && Within(live, s'.ledgers) && live.Keys !! todo
    && forall k :: k in s.ledgers && k !in s'.ledgers ==> k !in todo && Count(refCount, k) <= 0
  }

  lemma SweepAt(s: StoreDir, refCount: map<Key, int>, s': StoreDir, live: map<Key, nat>, todo: set<Key>, k: Key)
    requires Sweeping(s, refCount, s', live, todo) && k in todo && k in s.ledgers
    ensures k in s'.ledgers && s'.ledgers[k] == s.ledgers[k] && k !in live
  {
  }

  lemma SweepStep(s: StoreDir, refCount: map<Key, int>, s1: StoreDir, live1: map<Key, nat>, todo: set<Key>, k: Key, s2: StoreDir, live2: map<Key, nat>)
    requires Sweeping(s, refCount, s1, live1, todo) && k in todo && k in s.ledgers
    requires s2 == s1 || (s2 == s1.(ledgers := s1.ledgers - {k}) && Count(refCount, k) <= 0 && live2 == live1)
    requires live2 == live1 || (s2 == s1 && live2 == live1[k := s.ledgers[k]])
    ensures Sweeping(s, refCount, s2, live2, todo - {k})
  {
  }

  lemma SweepBegins(s: StoreDir, refCount: map<Key, int>)
    ensures Sweeping(s, refCount, s, map[], s.ledgers.Keys)
  {
  }

  lemma SweepCancelled(s: StoreDir, refCount: map<Key, int>, s': StoreDir, live: map<Key, nat>, todo: set<Key>)
    requires Sweeping(s, refCount, s', live, todo)
    ensures Sweeping(s, refCount, s', map[], todo) && Sweeping(s, refCount, s', live, {})
  {
  }

  // A sweep with the references of all but the unread takes no ledger another record names.
  lemma SweptFits(s: StoreDir, counts: Hook, missed: set<Path>, unread: set<Path>, s': StoreDir, hook: Hook)
    requires Counts(counts, s, missed) && missed <= unread
    requires s' == s.(ledgers := s'.ledgers) && Sweeping(s, counts.refCount, s', hook.live, {})
    requires hook.live == map[] || hook == counts.(live := hook.live)
    ensures Spares(s, s', unread) && Fits(hook, s', unread)
  {
    forall p, k | p in s.records && p !in unread && k in s.records[p].keys && k in s.ledgers ensures k in s'.ledgers {
      assert p in Namers(s, missed, k);
    }
    if hook.live != map[] {
      forall k ensures Holders(counts.refs, k) == Namers(s, missed, k) {}
    }
  }

  // One ledger file: remembered while a record names it, reclaimed otherwise.
  method VisitLedger(k: Key, size: nat, hook: Hook, s: StoreDir, r: Report, dry: bool, world: World)
    returns (s': StoreDir, r': Report, hook': Hook)
    requires k !in hook.live && k in s.ledgers && s.ledgers[k] == size
    modifies world`clean
    ensures Net(r') + Sum(hook.live) >= Net(r) + Sum(hook'.live) && r'.remaining == r.remaining
    ensures hook' == hook.(live := hook'.live) && hook'.live.Keys <= hook.live.Keys + {k}
    ensures s' == s || (!dry && s' == s.(ledgers := s.ledgers - {k}) && Count(hook.refCount, k) <= 0 && hook' == hook)
    ensures hook' == hook || (s' == s && hook'.live == hook.live[k := size])
    ensures !dry ==> Balanced(s, r, s', r')
    ensures world.clean ==> old(world.clean)
    ensures world.clean && Count(hook.refCount, k) > 0 ==>
      hook'.live == hook.live[k := size] && r' == r.(used := r.used + size) && s' == s
    ensures world.clean && Count(hook.refCount, k) <= 0 ==>
      hook' == hook && r' == Gone(r, size, 1) && s' == if dry then s else s.(ledgers := s.ledgers - {k})
  {
    s', r', hook' := s, r, hook;
    if Count(hook.refCount, k) > 0 {
      var unreadable := world.Fails();
      if unreadable {
        r' := r.(skippedEntries := r.skippedEntries + 1);
      } else {
        SumAdd(hook.live, k, size);
        r' := r.(used := r.used + size);
        hook' := hook.(live := hook.live[k := size]);
      }
    } else {
      var removed;
      r', removed := Reclaim(size, r, dry, world);
      if removed {
        LedgerGone(s, k);
        s' := s.(ledgers := s.ledgers - {k});
      }
    }
  }

  function Counted(ledgers: map<Key, nat>, refCount: map<Key, int>, todo: set<Key>): map<Key, nat>
  {
    map k | k in ledgers && k !in todo && Count(refCount, k) > 0 :: ledgers[k]
  }

  function Unswept(ledgers: map<Key, nat>, refCount: map<Key, int>, todo: set<Key>): map<Key, nat>
  {
    map k | k in ledgers && (k in todo || Count(refCount, k) > 0) :: ledgers[k]
  }

  lemma CountedVisited(ledgers: map<Key, nat>, refCount: map<Key, int>, todo: set<Key>, k: Key)
    requires k in ledgers && k in todo
    ensures Count(refCount, k) > 0 ==>
      Counted(ledgers, refCount, todo - {k}) == Counted(ledgers, refCount, todo)[k := ledgers[k]]
    ensures Count(refCount, k) <= 0 ==> Counted(ledgers, refCount, todo - {k}) == Counted(ledgers, refCount, todo)
  {
  }

  lemma UnsweptVisited(ledgers: map<Key, nat>, refCount: map<Key, int>, todo: set<Key>, k: Key)
    requires k in ledgers && k in todo
    ensures Count(refCount, k) > 0 ==> Unswept(ledgers, refCount, todo - {k}) == Unswept(ledgers, refCount, todo)
    ensures Count(refCount, k) <= 0 ==>
      Unswept(ledgers, refCount, todo - {k}) == Unswept(ledgers, refCount, todo) - {k}
  {
  }

  lemma CountedGrows(ledgers: map<Key, nat>, refCount: map<Key, int>, todo: set<Key>, k: Key)
    requires k in ledgers && k in todo && Count(refCount, k) > 0
    ensures Sum(Counted(ledgers, refCount, todo - {k})) == Sum(Counted(ledgers, refCount, todo)) + ledgers[k]
    ensures |Counted(ledgers, refCount, todo - {k})| == |Counted(ledgers, refCount, todo)| + 1
  {
    var m := Counted(ledgers, refCount, todo);
    CountedVisited(ledgers, refCount, todo, k);
    SumAdd(m, k, ledgers[k]);
    assert m[k := ledgers[k]].Keys == m.Keys + {k};
  }

  // One step of the walk, clean: what the counts say of k is done to it.
  lemma VisitStep(ledgers: map<Key, nat>, refCount: map<Key, int>, todo: set<Key>, k: Key, r: Report, r0: Report, r1: Report)
    requires k in ledgers && k in todo
    requires r0 == Swept(r, ledgers, Counted(ledgers, refCount, todo), todo)
    requires r1 == if Count(refCount, k) > 0 then r0.(used := r0.used + ledgers[k]) else Gone(r0, ledgers[k], 1)
    ensures r1 == Swept(r, ledgers, Counted(ledgers, refCount, todo - {k}), todo - {k})
  {
    LedgerDone(ledgers, todo, k);
    if Count(refCount, k) > 0 {
      CountedGrows(ledgers, refCount, todo, k);
    } else {
      CountedVisited(ledgers, refCount, todo, k);
    }
  }

  // The walk over the ledger files with the counts in hand.
  method SweepLedgers(s: StoreDir, counts: Hook, r: Report, dry: bool, world: World)
    returns (s': StoreDir, r': Report, hook: Hook)
    requires counts.live == map[] && RefsOnce(counts)
    modifies world`clean, world`cancelled
    ensures RefsOnce(hook) && (hook == NO_HOOK || hook == counts.(live := hook.live))
    ensures Sweeping(s, counts.refCount, s', hook.live, {}) && (!dry ==> Balanced(s, r, s', r'))
    ensures Net(r') >= Net(r) + Sum(hook.live) && r'.remaining == r.remaining
    ensures s' == s.(ledgers := s'.ledgers) && (dry ==> s' == s)
    ensures world.clean ==> old(world.clean)
    ensures world.clean ==> hook == counts.(live := Counted(s.ledgers, counts.refCount, {}))
    ensures world.clean ==> r' == Swept(r, s.ledgers, hook.live, {})
    ensures world.clean && !dry ==> s'.ledgers == hook.live
  {
    hide LedgersBut, Counted, Unswept, Swept, Sum, RefsOnce, Net, Count, Gone, Sweeping, StoreBytes, FileCount;
    s', r', hook := s, r, counts;
    var todo := s.ledgers.Keys;
    var stop := false;
    SweepEnds(s, counts, r);
    SweepBegins(s, counts.refCount);
    while todo != {} && !stop
      invariant todo <= s.ledgers.Keys && hook == if stop then NO_HOOK else counts.(live := hook.live)
      invariant RefsOnce(hook) && (!dry ==> Balanced(s, r, s', r'))
      invariant Sweeping(s, counts.refCount, s', hook.live, todo)
      invariant Net(r') >= Net(r) + Sum(hook.live) && r'.remaining == r.remaining
      invariant s' == s.(ledgers := s'.ledgers) && (dry ==> s' == s)
      invariant world.clean ==> old(world.clean) && !stop
      invariant world.clean ==> hook.live == Counted(s.ledgers, counts.refCount, todo)
      invariant world.clean ==> r' == Swept(r, s.ledgers, hook.live, todo)
      invariant world.clean && !dry ==> s'.ledgers == Unswept(s.ledgers, counts.refCount, todo)
      decreases todo, !stop
    {
      stop := world.Cancelled();
      if stop {
        NoHookHolds();
        SweepCancelled(s, counts.refCount, s', hook.live, todo);
        hook := NO_HOOK;
      } else {
        var k :| k in todo;
        ghost var r0, s0, live0 := r', s', hook.live;
        SweepAt(s, counts.refCount, s', hook.live, todo, k);
        s', r', hook := VisitLedger(k, s.ledgers[k], hook, s', r', dry, world);
        RefsStay(counts, hook);
        SweepStep(s, counts.refCount, s0, live0, todo, k, s', hook.live);
        if world.clean {
          VisitStep(s.ledgers, counts.refCount, todo, k, r, r0, r');
          CountedVisited(s.ledgers, counts.refCount, todo, k);
          UnsweptVisited(s.ledgers, counts.refCount, todo, k);
        }
        todo := todo - {k};
      }
    }
    SweepCancelled(s, counts.refCount, s', hook.live, todo);
  }

  lemma SweepEnds(s: StoreDir, counts: Hook, r: Report)
    requires counts.live == map[]
    ensures Counted(s.ledgers, counts.refCount, s.ledgers.Keys) == map[] && Sum<Key>(map[]) == 0
    ensures Swept(r, s.ledgers, map[], s.ledgers.Keys) == r
    ensures Unswept(s.ledgers, counts.refCount, s.ledgers.Keys) == s.ledgers
    ensures Unswept(s.ledgers, counts.refCount, {}) == Counted(s.ledgers, counts.refCount, {})
  {
  }

  lemma NoHookHolds()
    ensures RefsOnce(NO_HOOK) && Sum(NO_HOOK.live) == 0
  {
  }

  lemma RefsStay(counts: Hook, hook: Hook)
    requires RefsOnce(counts) && hook.refs == counts.refs
    ensures RefsOnce(hook)
  {
  }

  // The ledgers the counts keep are the named ones.
  lemma CountedTracks(s: StoreDir, counts: Hook)
    requires Counts(counts, s, {})
    ensures Counted(s.ledgers, counts.refCount, {}) == NamedLedgers(s, {})
    ensures Tracks(counts.(live := Counted(s.ledgers, counts.refCount, {})), s, {})
  {
    assert Counted(s.ledgers, counts.refCount, {}) == NamedLedgers(s, {});
  }

  // The hook on a live store: unreferenced ledgers go, referenced ones are remembered with
  // their counts. A cancelled pass leaves no hook behind.
  method Substore(s: StoreDir, r: Report, dry: bool, world: World)
    returns (s': StoreDir, r': Report, hook: Hook)
    requires DistinctKeys(s) && !s.abandoned
    modifies world`clean, world`cancelled, world`unread
    ensures RefsOnce(hook) && old(world.unread) <= world.unread
    ensures !dry ==> Balanced(s, r, s', r')
    ensures Spares(s, s', world.unread) && Fits(hook, s', world.unread)
    ensures Net(r') >= Net(r) + Sum(hook.live) && r'.remaining == r.remaining
    ensures s' == s.(ledgers := s'.ledgers) && (dry ==> s' == s)
    ensures world.clean ==> old(world.clean)
    ensures world.clean ==> r' == Swept(r, s.ledgers, hook.live, {})
    ensures world.clean ==> Tracks(hook, s, {})
    ensures world.clean && !dry ==> s'.ledgers == NamedLedgers(s, {})
  {
    hide Tracks, Counts, Counted, Swept, Sum, NamedLedgers, RefsOnce, Net, Sweeping, Spares, Fits, Balanced;
    NoHookHolds();
    var counts, stop;
    ghost var missed;
    counts, stop, missed := CountRefs(s, world);
    if stop {
      Untouched(s, r, world.unread);
      return s, r, NO_HOOK;
    }
    s', r', hook := SweepLedgers(s, counts, r, dry, world);
    SweptFits(s, counts, missed, world.unread, s', hook);
    if world.clean {
      CountedTracks(s, counts);
    }
  }

  ghost function Swept(r: Report, ledgers: map<Key, nat>, live: map<Key, nat>, todo: set<Key>): Report
  {
    r.(used := r.used + Sum(LedgersBut(ledgers, todo)),
       reclaimed := r.reclaimed + Sum(LedgersBut(ledgers, todo)) - Sum(live),
       removedFiles := r.removedFiles + |LedgersBut(ledgers, todo)| - |live|)
  }

  // ----- the hook's eviction closure -----

  function Unorphaned(live: map<Key, nat>, refCount: map<Key, int>, keys: seq<Key>): map<Key, nat>
  {
    map k | k in live && !(k in keys && Count(refCount, k) <= 1) :: live[k]
  }

  // The ledgers gone are held by no record.
  ghost predicate Unheld(refs: map<Path, seq<Key>>, ledgers: map<Key, nat>, ledgers': map<Key, nat>)
  {
    forall k :: k in ledgers && k !in ledgers' ==> Holders(refs, k) == {}
  }

  // Amid the giving back of an evicted record's references, those of left still to come: the
  // ledgers gone are held by no record the hook knows, and what is reclaimed is what went.
  ghost predicate Releasing(refs: map<Path, seq<Key>>, ledgers: map<Key, nat>, hook: Hook, ledgers': map<Key, nat>, left: seq<Key>, reclaimed: int, removed: int)
  {
    && Within(hook.live, ledgers') && Within(ledgers', ledgers) && Covers(refs, hook, left)
    && Unheld(refs, ledgers, ledgers')
    && reclaimed == Sum(ledgers) - Sum(ledgers') && removed == |ledgers| - |ledgers'|
  }

  lemma ReleaseBegins(hook: Hook, ledgers: map<Key, nat>, p: Path)
    requires Holding(hook, ledgers)
    ensures Releasing(hook.refs - {p}, ledgers, hook.(refs := hook.refs - {p}), ledgers, KeysAt(hook, p), 0, 0)
  {
    forall k ensures |Holders(hook.refs, k)| == |Holders(hook.refs - {p}, k)| + if k in KeysAt(hook, p) then 1 else 0 {
      assert Holders(hook.refs, k) == Holders(hook.refs - {p}, k) + if k in KeysAt(hook, p) then {p} else {};
    }
  }

  // What one reference given back does to the ledgers, whatever fails.
  ghost predicate GaveBack(hook: Hook, ledgers: map<Key, nat>, k: Key, hook': Hook, ledgers': map<Key, nat>, reclaimed: nat, removed: nat)
  {
    && hook'.refCount == hook.refCount[k := Count(hook.refCount, k) - 1]
    && (if ledgers' == ledgers then (hook'.live == hook.live || hook'.live == hook.live - {k}) && reclaimed == removed == 0
        else k in hook.live && Count(hook.refCount, k) <= 1 && hook'.live == hook.live - {k}
             && ledgers' == ledgers - {k} && reclaimed == hook.live[k] && removed == 1)
  }

  // What the hook counts covers its holders and the references still to come.
  ghost predicate Covers(refs: map<Path, seq<Key>>, hook: Hook, left: seq<Key>)
  {
    forall k :: k in hook.live ==> Count(hook.refCount, k) >= |Holders(refs, k)| + if k in left then 1 else 0
  }

  lemma ReleaseStep(refs: map<Path, seq<Key>>, ledgers: map<Key, nat>, before: Hook, ledgers1: map<Key, nat>, left: seq<Key>, bytes: int, files: int,
                    after: Hook, ledgers2: map<Key, nat>, reclaimed: nat, removed: nat)
    requires left != [] && NoRepeats(left) && Releasing(refs, ledgers, before, ledgers1, left, bytes, files)
    requires GaveBack(before, ledgers1, left[0], after, ledgers2, reclaimed, removed)
    ensures Releasing(refs, ledgers, after, ledgers2, left[1..], bytes + reclaimed, files + removed)
  {
    hide *;
    ReleasingParts(refs, ledgers, before, ledgers1, left, bytes, files);
    GaveBackWithin(ledgers, before, ledgers1, left[0], after, ledgers2, reclaimed, removed);
    GaveBackSums(before, ledgers1, left[0], after, ledgers2, reclaimed, removed);
    GaveBackUnheld(refs, ledgers, before, ledgers1, left, after, ledgers2, reclaimed, removed);
    GaveBackCounts(refs, before, ledgers1, left, after, ledgers2, reclaimed, removed);
    ReleasingWhole(refs, ledgers, after, ledgers2, left[1..], bytes + reclaimed, files + removed);
  }

  lemma ReleasingParts(refs: map<Path, seq<Key>>, ledgers: map<Key, nat>, hook: Hook, ledgers': map<Key, nat>, left: seq<Key>, bytes: int, files: int)
    requires Releasing(refs, ledgers, hook, ledgers', left, bytes, files)
    ensures Within(hook.live, ledgers') && Within(ledgers', ledgers) && Covers(refs, hook, left) && Unheld(refs, ledgers, ledgers')
    ensures bytes == Sum(ledgers) - Sum(ledgers') && files == |ledgers| - |ledgers'|
  {
    hide Within, Covers, Unheld, Sum;
  }

  lemma ReleasingWhole(refs: map<Path, seq<Key>>, ledgers: map<Key, nat>, hook: Hook, ledgers': map<Key, nat>, left: seq<Key>, bytes: int, files: int)
    requires Within(hook.live, ledgers') && Within(ledgers', ledgers) && Covers(refs, hook, left) && Unheld(refs, ledgers, ledgers')
    requires bytes == Sum(ledgers) - Sum(ledgers') && files == |ledgers| - |ledgers'|
    ensures Releasing(refs, ledgers, hook, ledgers', left, bytes, files)
  {
    hide Within, Covers, Unheld, Sum;
  }

  lemma GaveBackWithin(was: map<Key, nat>, hook: Hook, ledgers: map<Key, nat>, k: Key, hook': Hook, ledgers': map<Key, nat>, reclaimed: nat, removed: nat)
    requires GaveBack(hook, ledgers, k, hook', ledgers', reclaimed, removed) && Within(hook.live, ledgers) && Within(ledgers, was)
    ensures Within(hook'.live, ledgers') && Within(ledgers', was)
  {
  }

  lemma GaveBackSums(hook: Hook, ledgers: map<Key, nat>, k: Key, hook': Hook, ledgers': map<Key, nat>, reclaimed: nat, removed: nat)
    requires GaveBack(hook, ledgers, k, hook', ledgers', reclaimed, removed) && Within(hook.live, ledgers)
    ensures reclaimed == Sum(ledgers) - Sum(ledgers') && removed == |ledgers| - |ledgers'|
  {
    hide Sum, Count;
    if ledgers' != ledgers {
      SumRemove(ledgers, k);
      assert ledgers'.Keys == ledgers.Keys - {k};
    }
  }

  lemma GaveBackUnheld(refs: map<Path, seq<Key>>, was: map<Key, nat>, hook: Hook, ledgers: map<Key, nat>, left: seq<Key>, hook': Hook, ledgers': map<Key, nat>,
                       reclaimed: nat, removed: nat)
    requires left != [] && GaveBack(hook, ledgers, left[0], hook', ledgers', reclaimed, removed)
    requires Covers(refs, hook, left) && Unheld(refs, was, ledgers)
    ensures Unheld(refs, was, ledgers')
  {
    hide Holders, Covers, Count;
    if ledgers' != ledgers {
      assert left[0] in left;
      NoneLeft(refs, hook, left, left[0]);
    }
  }

  lemma GaveBackCounts(refs: map<Path, seq<Key>>, hook: Hook, ledgers: map<Key, nat>, left: seq<Key>, hook': Hook, ledgers': map<Key, nat>,
                       reclaimed: nat, removed: nat)
    requires left != [] && NoRepeats(left) && GaveBack(hook, ledgers, left[0], hook', ledgers', reclaimed, removed)
    requires Covers(refs, hook, left)
    ensures Covers(refs, hook', left[1..])
  {
    hide Holders, NoRepeats, Covers, Count;
    assert hook'.live.Keys <= hook.live.Keys;
    CoversStep(refs, hook, left, hook');
  }

  lemma OneLess(ledgers: map<Key, nat>, k: Key)
    requires k in ledgers
    ensures Sum(ledgers) == Sum(ledgers - {k}) + ledgers[k] && |ledgers - {k}| == |ledgers| - 1
  {
    SumRemove(ledgers, k);
    assert (ledgers - {k}).Keys == ledgers.Keys - {k};
  }

  lemma CoversStep(refs: map<Path, seq<Key>>, before: Hook, left: seq<Key>, after: Hook)
    requires left != [] && NoRepeats(left) && Covers(refs, before, left) && after.live.Keys <= before.live.Keys
    requires after.refCount == before.refCount[left[0] := Count(before.refCount, left[0]) - 1]
    ensures Covers(refs, after, left[1..])
  {
    hide Holders, NoRepeats;
    forall x | x in after.live ensures Count(after.refCount, x) >= |Holders(refs, x)| + if x in left[1..] then 1 else 0 {
      HeadOnce(left, x);
      assert x in before.live;
    }
  }

  lemma HeadOnce(keys: seq<Key>, k: Key)
    requires keys != [] && NoRepeats(keys)
    ensures k in keys <==> k == keys[0] || k in keys[1..]
    ensures k == keys[0] ==> k !in keys[1..]
  {
  }

  lemma NoneLeft(refs: map<Path, seq<Key>>, hook: Hook, left: seq<Key>, k: Key)
    requires Covers(refs, hook, left) && k in hook.live && k in left && Count(hook.refCount, k) <= 1
    ensures Holders(refs, k) == {}
  {
    assert Count(hook.refCount, k) >= |Holders(refs, k)| + 1;
  }

  lemma ReleaseEnds(refs: map<Path, seq<Key>>, ledgers: map<Key, nat>, hook: Hook, ledgers': map<Key, nat>, left: seq<Key>, reclaimed: int, removed: int)
    requires Releasing(refs, ledgers, hook, ledgers', left, reclaimed, removed)
    ensures Releasing(refs, ledgers, hook, ledgers', [], reclaimed, removed)
  {
    hide Holders, Sum;
  }

  // One reference given back: the ledger it was the last of is reclaimed.
  method GiveBack(hook: Hook, ledgers: map<Key, nat>, k: Key, dry: bool, world: World)
    returns (hook': Hook, ledgers': map<Key, nat>, reclaimed: nat, removed: nat, skipped: nat, stop: bool)
    modifies world`clean, world`cancelled
    ensures reclaimed + Sum(hook'.live) <= Sum(hook.live) && hook'.live.Keys <= hook.live.Keys
    ensures ledgers.Keys - ledgers'.Keys <= hook.live.Keys
    ensures !dry && Within(hook.live, ledgers) ==> GaveBack(hook, ledgers, k, hook', ledgers', reclaimed, removed)
    ensures hook' == hook.(refCount := hook.refCount[k := Count(hook.refCount, k) - 1], live := hook'.live)
    ensures world.clean ==> old(world.clean) && !stop && skipped == 0
    ensures world.clean ==> reclaimed + Sum(hook'.live) == Sum(hook.live) && removed + |hook'.live| == |hook.live|
    ensures world.clean ==> hook'.live == if Count(hook.refCount, k) <= 1 then hook.live - {k} else hook.live
    ensures dry ==> ledgers' == ledgers
    ensures world.clean && !dry ==> ledgers == hook.live ==> ledgers' == hook'.live
    ensures stop ==> world.cancelled
  {
    hook', ledgers', reclaimed, removed, skipped, stop := hook, ledgers, 0, 0, 0, false;
    hook' := hook'.(refCount := hook'.refCount[k := Count(hook'.refCount, k) - 1]);
    if Count(hook'.refCount, k) > 0 {
      return;
    }
    if k !in hook.live {
      assert hook.live - {k} == hook.live;
      return;
    }
    stop := world.Cancelled();
    if stop {
      return;
    }
    var size := hook.live[k];
    SumRemove(hook.live, k);
    assert (hook.live - {k}).Keys == hook.live.Keys - {k};
    hook' := hook'.(live := hook.live - {k});
    if !dry {
      var failed := world.Fails();
      if failed {
        skipped := 1;
        return;
      }
      ledgers' := ledgers - {k};
    }
    reclaimed, removed := size, 1;
  }

  // The references of an evicted record are given back one by one, and a ledger whose last one
  // it was is reclaimed, once.
  method OnEvict(hook: Hook, ledgers: map<Key, nat>, p: Path, dry: bool, world: World)
    returns (hook': Hook, ledgers': map<Key, nat>, reclaimed: nat, removed: nat, skipped: nat, stop: bool)
    requires NoRepeats(KeysAt(hook, p))
    modifies world`clean, world`cancelled
    ensures reclaimed + Sum(hook'.live) <= Sum(hook.live) && hook'.refs == hook.refs - {p} && hook'.live.Keys <= hook.live.Keys
    ensures !dry && Holding(hook, ledgers) ==> Releasing(hook'.refs, ledgers, hook', ledgers', [], reclaimed, removed)
    ensures ledgers.Keys - ledgers'.Keys <= hook.live.Keys
    ensures world.clean ==> old(world.clean) && !stop && skipped == 0
    ensures world.clean ==> ReleasedAll(dry, hook, ledgers, KeysAt(hook, p), hook', ledgers', reclaimed, removed)
    ensures dry ==> ledgers' == ledgers
    ensures stop ==> world.cancelled
  {
    hide *;
    var keys := KeysAt(hook, p);
    hook', ledgers', reclaimed, removed, skipped, stop := hook.(refs := hook.refs - {p}), ledgers, 0, 0, 0, false;
    var j := 0;
    if !dry && Holding(hook, ledgers) {
      ReleaseBegins(hook, ledgers, p);
    }
    assert keys[0..] == keys && keys[..0] == [];
    NothingReleased(dry, hook, ledgers, hook');
    while j < |keys| && !stop
      invariant 0 <= j <= |keys| && hook'.refs == hook.refs - {p} && hook'.live.Keys <= hook.live.Keys
      invariant !dry && Holding(hook, ledgers) ==> Releasing(hook'.refs, ledgers, hook', ledgers', keys[j..], reclaimed, removed)
      invariant reclaimed + Sum(hook'.live) <= Sum(hook.live) && ledgers.Keys - ledgers'.Keys <= hook.live.Keys
      invariant world.clean ==> old(world.clean) && skipped == 0 && !stop
      invariant world.clean ==> ReleasedAll(dry, hook, ledgers, keys[..j], hook', ledgers', reclaimed, removed)
      invariant (dry ==> ledgers' == ledgers) && (stop ==> world.cancelled)
    {
      var bytes, files, faults;
      hook', ledgers', bytes, files, faults, stop := ReleaseNext(hook, ledgers, keys, j, hook', ledgers', reclaimed, removed, dry, world);
      reclaimed, removed, skipped := reclaimed + bytes, removed + files, skipped + faults;
      j := j + 1;
    }
    assert keys[..|keys|] == keys;
    if !dry && Holding(hook, ledgers) {
      ReleaseEnds(hook'.refs, ledgers, hook', ledgers', keys[j..], reclaimed, removed);
    }
  }

  // The next of the references.
  method ReleaseNext(ghost hook: Hook, ghost ledgers: map<Key, nat>, keys: seq<Key>, j: nat, before: Hook, was: map<Key, nat>,
                     ghost got: nat, ghost gone: nat, dry: bool, world: World)
    returns (hook': Hook, ledgers': map<Key, nat>, reclaimed: nat, removed: nat, skipped: nat, stop: bool)
    requires NoRepeats(keys) && j < |keys|
    requires !dry && Holding(hook, ledgers) ==> Releasing(before.refs, ledgers, before, was, keys[j..], got, gone)
    requires world.clean ==> ReleasedAll(dry, hook, ledgers, keys[..j], before, was, got, gone)
    modifies world`clean, world`cancelled
    ensures reclaimed + Sum(hook'.live) <= Sum(before.live) && hook'.refs == before.refs && hook'.live.Keys <= before.live.Keys
    ensures was.Keys - ledgers'.Keys <= before.live.Keys
    ensures !dry && Holding(hook, ledgers) ==> Releasing(hook'.refs, ledgers, hook', ledgers', keys[j + 1..], got + reclaimed, gone + removed)
    ensures world.clean ==> old(world.clean) && !stop && skipped == 0
    ensures world.clean ==> ReleasedAll(dry, hook, ledgers, keys[..j + 1], hook', ledgers', got + reclaimed, gone + removed)
    ensures dry ==> ledgers' == was
    ensures stop ==> world.cancelled
  {
    hide *;
    var k := keys[j];
    if !dry && Holding(hook, ledgers) {
      LeftOver(keys, j);
      ReleasingWithin(before.refs, ledgers, before, was, keys[j..], got, gone);
    }
    hook', ledgers', reclaimed, removed, skipped, stop := GiveBack(before, was, k, dry, world);
    if !dry && Holding(hook, ledgers) {
      ReleaseStep(hook'.refs, ledgers, before, was, keys[j..], got, gone, hook', ledgers', reclaimed, removed);
    }
    if world.clean {
      NotBefore(keys, j);
      ReleaseOne(dry, hook, ledgers, keys[..j], before, was, got, gone, k, hook', ledgers', reclaimed, removed);
      assert keys[..j + 1] == keys[..j] + [k];
    }
  }

  // With nothing failing: the ledgers those keys alone held, and their bytes, have gone.
  ghost predicate ReleasedAll(dry: bool, hook: Hook, ledgers: map<Key, nat>, keys: seq<Key>, hook': Hook, ledgers': map<Key, nat>, reclaimed: int, removed: int)
  {
    && reclaimed + Sum(hook'.live) == Sum(hook.live) && removed + |hook'.live| == |hook.live|
    && Released(hook, keys, hook')
    && (!dry && ledgers == hook.live ==> ledgers' == hook'.live)
  }

  lemma LeftOver(keys: seq<Key>, j: nat)
    requires NoRepeats(keys) && j < |keys|
    ensures NoRepeats(keys[j..]) && keys[j..] != [] && keys[j..][0] == keys[j] && keys[j..][1..] == keys[j + 1..]
  {
  }

  lemma ReleasingWithin(refs: map<Path, seq<Key>>, ledgers: map<Key, nat>, hook: Hook, ledgers': map<Key, nat>, left: seq<Key>, reclaimed: int, removed: int)
    requires Releasing(refs, ledgers, hook, ledgers', left, reclaimed, removed)
    ensures Within(hook.live, ledgers')
  {
    hide Holders, Sum;
  }

  lemma NotBefore(keys: seq<Key>, j: nat)
    requires NoRepeats(keys) && j < |keys|
    ensures keys[j] !in keys[..j]
  {
  }

  // The hook with some references given back, the ledgers they alone held no longer live.
  ghost predicate Released(hook: Hook, keys: seq<Key>, hook': Hook)
  {
    && hook'.live == Unorphaned(hook.live, hook.refCount, keys)
    && forall k :: Count(hook'.refCount, k) == Count(hook.refCount, k) - if k in keys then 1 else 0
  }

  lemma NothingReleased(dry: bool, hook: Hook, ledgers: map<Key, nat>, hook': Hook)
    requires hook'.live == hook.live && hook'.refCount == hook.refCount
    ensures ReleasedAll(dry, hook, ledgers, [], hook', ledgers, 0, 0)
  {
  }

  lemma ReleaseOne(dry: bool, hook: Hook, ledgers: map<Key, nat>, keys: seq<Key>, before: Hook, was: map<Key, nat>, got: int, gone: int, k: Key,
                   after: Hook, ledgers': map<Key, nat>, reclaimed: int, removed: int)
    requires ReleasedAll(dry, hook, ledgers, keys, before, was, got, gone) && k !in keys
    requires after.refCount == before.refCount[k := Count(before.refCount, k) - 1]
    requires after.live == if Count(before.refCount, k) <= 1 then before.live - {k} else before.live
    requires reclaimed + Sum(after.live) == Sum(before.live) && removed + |after.live| == |before.live|
    requires !dry && was == before.live ==> ledgers' == after.live
    ensures ReleasedAll(dry, hook, ledgers, keys + [k], after, ledgers', got + reclaimed, gone + removed)
  {
    hide Sum, Released, Count;
    ReleasedNext(hook, keys, before, k, after);
  }

  lemma ReleasedNext(hook: Hook, keys: seq<Key>, before: Hook, k: Key, after: Hook)
    requires Released(hook, keys, before) && k !in keys
    requires after.refCount == before.refCount[k := Count(before.refCount, k) - 1]
    requires after.live == if Count(before.refCount, k) <= 1 then before.live - {k} else before.live
    ensures Released(hook, keys + [k], after)
  {
  }

  predicate RefsOnce(hook: Hook)
  {
    forall p :: p in hook.refs ==> NoRepeats(hook.refs[p])
  }

  predicate NoRepeats(keys: seq<Key>)
  {
    forall a, b :: 0 <= a < b < |keys| ==> keys[a] != keys[b]
  }

  function KeysAt(hook: Hook, p: Path): seq<Key>
  {
    if p in hook.refs then hook.refs[p] else []
  }

  // Giving back one record's references is counting without it.
  lemma EvictTracks(s: StoreDir, gone: set<Path>, hook: Hook, p: Path, hook': Hook)
    requires Tracks(hook, s, gone) && p in s.records && p !in gone
    requires hook'.refs == hook.refs - {p} && Released(hook, KeysAt(hook, p), hook')
    ensures Tracks(hook', s, gone + {p})
  {
    assert KeysAt(hook, p) == s.records[p].keys;
    forall k ensures Namers(s, gone + {p}, k) == Namers(s, gone, k) - {p}
             ensures |Namers(s, gone + {p}, k)| == |Namers(s, gone, k)| - if k in s.records[p].keys then 1 else 0 {
      assert Namers(s, gone + {p}, k) == Namers(s, gone, k) - {p};
    }
    NamedAfter(s, gone, hook, p);
  }

  lemma NamedAfter(s: StoreDir, gone: set<Path>, hook: Hook, p: Path)
    requires Tracks(hook, s, gone) && p in s.records && p !in gone
    ensures NamedLedgers(s, gone + {p}) == Unorphaned(hook.live, hook.refCount, s.records[p].keys)
  {
    forall k ensures Namers(s, gone + {p}, k) != {}
      <==> |Namers(s, gone, k)| - (if k in s.records[p].keys then 1 else 0) > 0
    {
      assert Namers(s, gone + {p}, k) == Namers(s, gone, k) - {p};
      assert |Namers(s, gone + {p}, k)| == |Namers(s, gone, k)| - if k in s.records[p].keys then 1 else 0;
    }
  }

  // ----- the first pass -----

  // Every file of one directory reclaimed, the context consulted before each.
  method ReclaimAll(sizes: map<nat, nat>, r: Report, dry: bool, world: World)
    returns (left: map<nat, nat>, r': Report, stop: bool)
    modifies world`clean, world`cancelled
    ensures Net(r') >= Net(r) && r'.remaining == r.remaining
    ensures dry ==> left == sizes
    ensures left.Keys <= sizes.Keys && Within(left, sizes)
    ensures !dry ==> Taken(sizes, left, r, r')
    ensures world.clean ==> old(world.clean) && !stop
    ensures world.clean ==> r' == Gone(r, Sum(sizes), |sizes|)
    ensures world.clean && !dry ==> left == map[]
  {
    hide LedgersBut, Gone, Sum, Net, Taken;
    left, r', stop := sizes, r, false;
    var todo := sizes.Keys;
    NothingTaken(sizes, r);
    ReclaimEnds(sizes, r);
    while todo != {} && !stop
      invariant todo <= left.Keys <= sizes.Keys && Within(left, sizes)
      invariant !dry ==> Taken(sizes, left, r, r')
      invariant Net(r') >= Net(r) && r'.remaining == r.remaining
      invariant dry ==> left == sizes
      invariant world.clean ==> old(world.clean) && !stop
      invariant world.clean ==> r' == Gone(r, Sum(LedgersBut(sizes, todo)), |LedgersBut(sizes, todo)|)
      invariant world.clean && !dry ==> left.Keys == todo
      decreases todo, !stop
    {
      stop := world.Cancelled();
      if !stop {
        var k :| k in todo;
        ReclaimStep(sizes, todo, k, r);
        ghost var before := r';
        var removed;
        r', removed := Reclaim(sizes[k], r', dry, world);
        TakenNext(sizes, left, k, r, before, r', removed);
        if removed {
          left := left - {k};
        }
        todo := todo - {k};
      }
    }
  }

  // What is reclaimed of some files is what went of them.
  ghost predicate Taken(sizes: map<nat, nat>, left: map<nat, nat>, r: Report, r': Report)
  {
    r'.reclaimed - r.reclaimed == Sum(sizes) - Sum(left) && r'.removedFiles - r.removedFiles == |sizes| - |left|
  }

  lemma NothingTaken(sizes: map<nat, nat>, r: Report)
    ensures Taken(sizes, sizes, r, r)
  {
  }

  lemma TakenNext(sizes: map<nat, nat>, left: map<nat, nat>, k: nat, r: Report, before: Report, after: Report, removed: bool)
    requires k in left && k in sizes && left[k] == sizes[k]
    requires if removed then after.reclaimed == before.reclaimed + sizes[k] && after.removedFiles == before.removedFiles + 1
             else true
    ensures Taken(sizes, left, r, before) && removed ==> Taken(sizes, left - {k}, r, after)
    ensures Taken(sizes, left, r, before) && after.reclaimed == before.reclaimed && after.removedFiles == before.removedFiles ==>
      Taken(sizes, left, r, after)
  {
    hide Sum;
    OneLess(left, k);
  }

  lemma ReclaimEnds(sizes: map<nat, nat>, r: Report)
    ensures Gone(r, Sum(LedgersBut(sizes, sizes.Keys)), |LedgersBut(sizes, sizes.Keys)|) == r
    ensures LedgersBut(sizes, {}) == sizes
  {
  }

  lemma ReclaimStep(sizes: map<nat, nat>, todo: set<nat>, k: nat, r: Report)
    requires k in sizes && k in todo
    ensures Gone(Gone(r, Sum(LedgersBut(sizes, todo)), |LedgersBut(sizes, todo)|), sizes[k], 1)
      == Gone(r, Sum(LedgersBut(sizes, todo - {k})), |LedgersBut(sizes, todo - {k})|)
  {
    LedgerDone(sizes, todo, k);
  }

  // The files of an abandoned store all go, its ledgers with them, and the coordinate it
  // recorded; a context ending amid the ledgers ends the pass after them.
  method PruneAbandoned(s: StoreDir, r: Report, dry: bool, world: World)
    returns (s': StoreDir, r': Report, stop: bool)
    requires s.abandoned
    modifies world`clean, world`cancelled
    ensures Spares(s, s', world.unread) && (!dry ==> Balanced(s, r, s', r'))
    ensures Net(r') >= Net(r) && r'.remaining == r.remaining
    ensures dry ==> s' == s
    ensures world.clean ==> old(world.clean) && !stop
    ensures world.clean ==> r' == Gone(r, StoreBytes(s), |s.records| + |s.ledgers|).(abandonedStores := r.abandonedStores + 1)
    ensures world.clean && !dry ==> s' == StoreDir(false, map[], map[])
  {
    hide Gone, Sum, Sizes, StoreBytes, Net, Taken, Balanced, Spares, Within, Emptied;
    var sizes := Sizes(s, {});
    AbandonedGone(s, r);
    EmptiedClean(s);
    var records, ledgers := sizes, s.ledgers;
    records, r', stop := ReclaimAll(sizes, r.(abandonedStores := r.abandonedStores + 1), dry, world);
    ghost var r1 := r';
    NothingTaken(s.ledgers, r');
    if !stop {
      ledgers, r', stop := ReclaimAll(s.ledgers, r', dry, world);
      stop := world.Cancelled();
    }
    s' := if dry then s else Emptied(s, records, ledgers, stop);
    if dry {
      Untouched(s, r, world.unread);
    } else {
      EmptiedBalance(s, records, ledgers, stop, r, r1, r', world.unread);
    }
  }

  lemma EmptiedClean(s: StoreDir)
    ensures Emptied(s, map[], map[], false) == StoreDir(false, map[], map[])
    ensures Within(s.ledgers, s.ledgers)
  {
  }

  lemma EmptiedBalance(s: StoreDir, records: map<Path, nat>, ledgers: map<Key, nat>, stop: bool, r: Report, r1: Report, r': Report, unread: set<Path>)
    requires s.abandoned && Within(ledgers, s.ledgers) && Within(records, Sizes(s, {}))
    requires Taken(Sizes(s, {}), records, r.(abandonedStores := r.abandonedStores + 1), r1) && Taken(s.ledgers, ledgers, r1, r')
    ensures Spares(s, Emptied(s, records, ledgers, stop), unread) && Balanced(s, r, Emptied(s, records, ledgers, stop), r')
  {
    hide Sum;
    var s' := Emptied(s, records, ledgers, stop);
    assert s'.records.Keys == records.Keys && Sizes(s', {}) == records && Sizes(s, {}).Keys == s.records.Keys;
  }

  lemma AbandonedGone(s: StoreDir, r: Report)
    ensures var sizes := Sizes(s, {});
      var r' := Gone(r.(abandonedStores := r.abandonedStores + 1), Sum(sizes), |sizes|);
      && Net(r.(abandonedStores := r.abandonedStores + 1)) == Net(r)
      && Gone(r', Sum(s.ledgers), |s.ledgers|)
        == Gone(r, StoreBytes(s), |s.records| + |s.ledgers|).(abandonedStores := r.abandonedStores + 1)
  {
    assert Sizes(s, {}).Keys == s.records.Keys;
  }

  // What is left of a store's files; its recorded coordinate goes when the pass went through.
  function Emptied(s: StoreDir, records: map<Path, nat>, ledgers: map<Key, nat>, stop: bool): StoreDir
  {
    StoreDir(s.abandoned && stop, map p | p in s.records && p in records :: s.records[p], ledgers)
  }

  ghost function CandidateBytes(cs: set<Candidate>): nat
  {
    Sum(map c | c in cs :: c.size)
  }

  lemma CandidateAdded(cs: set<Candidate>, c: Candidate)
    requires c !in cs
    ensures CandidateBytes(cs + {c}) == CandidateBytes(cs) + c.size
  {
    var m: map<Candidate, nat> := map x | x in cs :: x.size;
    assert (map x | x in cs + {c} :: x.size) == m[c := c.size];
    SumAdd(m, c, c.size);
  }

  // The records of a live store, each a candidate for eviction.
  method ListRecords(i: nat, s: StoreDir, r: Report, candidates: seq<Candidate>, world: World)
    returns (r': Report, cs: seq<Candidate>)
    requires forall c :: c in candidates ==> c.store < i
    requires forall a, b :: 0 <= a < b < |candidates| ==> candidates[a] != candidates[b]
    modifies world`clean, world`stuck
    ensures Net(r') - CandidateBytes(Elements(cs)) >= Net(r) - CandidateBytes(Elements(candidates)) && r'.remaining == r.remaining
    ensures r'.reclaimed == r.reclaimed && r'.removedFiles == r.removedFiles
    ensures old(world.stuck) <= world.stuck && forall c :: Listed(i, s, c, {}) ==> c in cs || c.path in world.stuck
    ensures forall a, b :: 0 <= a < b < |cs| ==> cs[a] != cs[b]
    ensures forall c :: c in cs ==> c in candidates || Listed(i, s, c, {})
    ensures forall c :: c in candidates ==> c in cs
    ensures world.clean ==> old(world.clean) && r' == r.(used := r.used + Sum(Sizes(s, {})))
    ensures world.clean ==> forall c :: Listed(i, s, c, {}) ==> c in cs
  {
    r', cs := r, candidates;
    var todo := s.records.Keys;
    assert Sizes(s, todo) == map[];
    while todo != {}
      invariant todo <= s.records.Keys
      invariant Net(r') - CandidateBytes(Elements(cs)) >= Net(r) - CandidateBytes(Elements(candidates)) && r'.remaining == r.remaining
      invariant r'.reclaimed == r.reclaimed && r'.removedFiles == r.removedFiles && old(world.stuck) <= world.stuck
      invariant forall c :: Listed(i, s, c, todo) ==> c in cs || c.path in world.stuck
      invariant forall a, b :: 0 <= a < b < |cs| ==> cs[a] != cs[b]
      invariant forall c :: c in cs ==> c in candidates || Listed(i, s, c, todo)
      invariant forall c :: c in candidates ==> c in cs
      invariant world.clean ==> old(world.clean) && r' == r.(used := r.used + Sum(Sizes(s, todo)))
      invariant world.clean ==> forall c :: Listed(i, s, c, todo) ==> c in cs
      decreases todo
    {
      var p :| p in todo;
      SizesDone(s, todo, p);
      var unreadable := world.FailsAt(p);
      if unreadable {
        r' := r'.(skippedEntries := r'.skippedEntries + 1);
      } else {
        var c := Candidate(i, p, s.records[p].size, s.records[p].mod);
        assert c !in cs;
        ElementsAppend(cs, c);
        CandidateAdded(Elements(cs), c);
        r' := r'.(used := r'.used + c.size);
        cs := cs + [c];
      }
      todo := todo - {p};
    }
  }

  predicate Listed(i: nat, s: StoreDir, c: Candidate, todo: set<Path>)
  {
    c.store == i && c.path in s.records && c.path !in todo
    && c.size == s.records[c.path].size && c.mod == s.records[c.path].mod
  }

  // One live store surveyed: its records listed, its hook built, its unreferenced ledgers gone.
  method SurveyLive(i: nat, s: StoreDir, r: Report, candidates: seq<Candidate>, dry: bool, world: World)
    returns (s': StoreDir, r': Report, hook: Hook, cs: seq<Candidate>, stop: bool)
    requires DistinctKeys(s) && !s.abandoned
    requires forall c :: c in candidates ==> c.store < i
    requires forall a, b :: 0 <= a < b < |candidates| ==> candidates[a] != candidates[b]
    modifies world
    ensures RefsOnce(hook) && r'.remaining == r.remaining
    ensures old(world.unread) <= world.unread && old(world.stuck) <= world.stuck
    ensures !dry ==> Balanced(s, r, s', r')
    ensures Spares(s, s', world.unread) && Fits(hook, s', world.unread) && s'.records == s.records
    ensures forall c :: c in candidates ==> c in cs
    ensures forall c :: Listed(i, s, c, {}) ==> c in cs || c.path in world.stuck
    ensures Net(r') >= Net(r) + CandidateBytes(Elements(cs)) - CandidateBytes(Elements(candidates)) + Sum(hook.live)
    ensures forall a, b :: 0 <= a < b < |cs| ==> cs[a] != cs[b]
    ensures forall c :: c in cs ==> c in candidates || Listed(i, s, c, {})
    ensures dry ==> s' == s
    ensures world.clean ==> old(world.clean) && !stop && Tracks(hook, s, {})
    ensures world.clean ==> r' == Swept(r.(used := r.used + Sum(Sizes(s, {}))), s.ledgers, NamedLedgers(s, {}), {})
    ensures world.clean ==> forall c :: c in candidates || Listed(i, s, c, {}) ==> c in cs
    ensures world.clean && !dry ==> s' == PrunedStore(s, {})
  {
    hide Spares, Fits, StoreBytes, FileCount, CandidateBytes, Sum, Tracks, Swept, Net, RefsOnce;
    r', cs := ListRecords(i, s, r, candidates, world);
    s', r', hook := Substore(s, r', dry, world);
    stop := world.Cancelled();
    assert PrunedStore(s, {}).records == s.records;
    if world.clean {
      LiveIsNamed(hook, s);
    }
  }

  lemma LiveIsNamed(hook: Hook, s: StoreDir)
    requires Tracks(hook, s, {})
    ensures hook.live == NamedLedgers(s, {})
  {
  }

  ghost function HookBytes(hooks: seq<Hook>): nat
  {
    if hooks == [] then 0 else HookBytes(hooks[..|hooks| - 1]) + Sum(hooks[|hooks| - 1].live)
  }

  lemma {:induction false} HookReplaced(hooks: seq<Hook>, i: nat, h: Hook)
    requires i < |hooks|
    ensures HookBytes(hooks[i := h]) + Sum(hooks[i].live) == HookBytes(hooks) + Sum(h.live)
  {
    var n := |hooks| - 1;
    if i == n {
      assert hooks[i := h][..n] == hooks[..n];
    } else {
      HookReplaced(hooks[..n], i, h);
      assert hooks[i := h][..n] == hooks[..n][i := h];
    }
  }

  // Every live store's hook counts the survivors that name each ledger.
  ghost predicate AllTrack(stores0: seq<StoreDir>, hooks: seq<Hook>, gone: set<Path>)
    requires |hooks| <= |stores0|
  {
    forall j :: 0 <= j < |hooks| && !stores0[j].abandoned ==> Tracks(hooks[j], stores0[j], gone)
  }

  // The disk once the first i stores are pruned: in a dry run as it was.
  ghost predicate DiskAt(stores0: seq<StoreDir>, i: nat, gone: set<Path>, dry: bool, stores: seq<StoreDir>)
  {
    && |stores| == |stores0|
    && forall j :: 0 <= j < |stores0| ==> stores[j] == if j < i && !dry then PrunedStore(stores0[j], gone) else stores0[j]
  }

  lemma Snoc(stores0: seq<StoreDir>, i: nat, gone: set<Path>)
    requires i < |stores0|
    ensures UsedBytes(stores0[..i + 1]) == UsedBytes(stores0[..i]) + StoreBytes(stores0[i])
    ensures Retained(stores0[..i + 1], gone) == Retained(stores0[..i], gone) + KeptBytes(stores0[i], gone)
    ensures Files(stores0[..i + 1]) == Files(stores0[..i]) + |stores0[i].records| + |stores0[i].ledgers|
    ensures RetainedFiles(stores0[..i + 1], gone) == RetainedFiles(stores0[..i], gone) + KeptFiles(stores0[i], gone)
    ensures AbandonedCount(stores0[..i + 1]) == AbandonedCount(stores0[..i]) + if stores0[i].abandoned then 1 else 0
  {
    assert stores0[..i + 1][..i] == stores0[..i];
  }

  lemma AbandonedReport(stores0: seq<StoreDir>, i: nat, r: Report)
    requires i < |stores0| && stores0[i].abandoned
    requires r == Expected(stores0[..i], {}).(remaining := 0)
    ensures Gone(r, StoreBytes(stores0[i]), |stores0[i].records| + |stores0[i].ledgers|).(abandonedStores := r.abandonedStores + 1)
         == Expected(stores0[..i + 1], {}).(remaining := 0)
  {
    Snoc(stores0, i, {});
  }

  lemma NothingLeft(s: StoreDir)
    ensures LedgersBut(s.ledgers, {}) == s.ledgers && |Sizes(s, {})| == |s.records|
  {
    assert Sizes(s, {}).Keys == s.records.Keys;
  }

  lemma LiveReport(stores0: seq<StoreDir>, i: nat, r: Report)
    requires i < |stores0| && !stores0[i].abandoned
    requires r == Expected(stores0[..i], {}).(remaining := 0)
    ensures var s := stores0[i];
      Swept(r.(used := r.used + Sum(Sizes(s, {}))), s.ledgers, NamedLedgers(s, {}), {})
      == Expected(stores0[..i + 1], {}).(remaining := 0)
  {
    hide Sum, Sizes, NamedLedgers, LedgersBut, UsedBytes, Retained, Files, RetainedFiles, AbandonedCount;
    NothingLeft(stores0[i]);
    Snoc(stores0, i, {});
  }

  // ----- the second pass -----

  lemma {:induction false} RetainedEvicts(stores: seq<StoreDir>, gone: set<Path>, i: nat, p: Path)
    requires Distinct(stores) && i < |stores| && p in stores[i].records
    ensures Retained(stores, gone + {p}) + KeptBytes(stores[i], gone) == Retained(stores, gone) + KeptBytes(stores[i], gone + {p})
    ensures RetainedFiles(stores, gone + {p}) + KeptFiles(stores[i], gone) == RetainedFiles(stores, gone) + KeptFiles(stores[i], gone + {p})
  {
    var n := |stores| - 1;
    if i == n {
      Elsewhere(stores[..n], gone, p);
    } else {
      RetainedEvicts(stores[..n], gone, i, p);
      assert p !in stores[n].records;
      SameKept(stores[n], gone, p);
    }
  }

  lemma SameKept(s: StoreDir, gone: set<Path>, p: Path)
    requires p !in s.records
    ensures Sizes(s, gone + {p}) == Sizes(s, gone) && NamedLedgers(s, gone + {p}) == NamedLedgers(s, gone)
  {
  }

  lemma {:induction false} Elsewhere(stores: seq<StoreDir>, gone: set<Path>, p: Path)
    requires forall s :: s in stores ==> p !in s.records
    ensures Retained(stores, gone + {p}) == Retained(stores, gone)
    ensures RetainedFiles(stores, gone + {p}) == RetainedFiles(stores, gone)
  {
    if stores != [] {
      var n := |stores| - 1;
      Elsewhere(stores[..n], gone, p);
      SameKept(stores[n], gone, p);
    }
  }

  lemma SizesEvicts(s: StoreDir, gone: set<Path>, p: Path)
    requires p in s.records && p !in gone
    ensures Sum(Sizes(s, gone)) == Sum(Sizes(s, gone + {p})) + s.records[p].size
    ensures |Sizes(s, gone)| == |Sizes(s, gone + {p})| + 1
  {
    var m := Sizes(s, gone);
    SumRemove(m, p);
    assert m - {p} == Sizes(s, gone + {p});
    assert (m - {p}).Keys == m.Keys - {p};
  }

  // With every live record gone nothing is retained.
  lemma {:induction false} AllGone(stores: seq<StoreDir>, gone: set<Path>)
    requires forall s, p :: s in stores && !s.abandoned && p in s.records ==> p in gone
    ensures Retained(stores, gone) == 0
  {
    if stores != [] {
      var n := |stores| - 1;
      AllGone(stores[..n], gone);
      if !stores[n].abandoned {
        assert Sizes(stores[n], gone) == map[];
        assert forall k :: Namers(stores[n], gone, k) == {};
        assert NamedLedgers(stores[n], gone) == map[];
      }
    }
  }

  // One candidate evicted under its store's lock, the ledgers it orphans with it.
  method EvictOne(c: Candidate, s: StoreDir, hook: Hook, r: Report, dry: bool, world: World)
    returns (s': StoreDir, hook': Hook, r': Report, stop: bool, ghost bytes: nat, ghost files: nat)
    requires RefsOnce(hook)
    modifies world`clean, world`cancelled, world`stuck
    ensures RefsOnce(hook') && r'.remaining - r.remaining == Net(r') - Net(r)
    ensures old(world.stuck) <= world.stuck
    ensures !dry && Evictable(c, s, hook, world.unread) ==> EvictsSafely(c, s, hook, r, world.unread, world.stuck, s', hook', r')
    ensures r'.remaining + c.size + Sum(hook.live) >= r.remaining + Sum(hook'.live)
    ensures dry ==> s' == s
    ensures world.clean ==> old(world.clean) && !stop && r' == Evicted(r, bytes, files)
    ensures world.clean ==> bytes + Sum(hook'.live) == c.size + Sum(hook.live) && files + |hook'.live| == 1 + |hook.live|
    ensures world.clean ==> hook'.refs == hook.refs - {c.path} && Released(hook, KeysAt(hook, c.path), hook')
    ensures world.clean && !dry && s.ledgers == hook.live ==> s' == s.(records := s.records - {c.path}, ledgers := hook'.live)
    ensures stop ==> world.cancelled
  {
    hide Sum, Released, KeysAt, RefsOnce, Evictable, EvictsSafely;
    var failed := false;
    if !dry {
      failed := world.FailsAt(c.path);
    }
    if failed {
      s', hook', stop, bytes, files := s, hook, false, 0, 0;
      r' := r.(skippedEntries := r.skippedEntries + 1);
      if Evictable(c, s, hook, world.unread) {
        EvictRefused(c, s, hook, r, world.unread, world.stuck, r');
      }
    } else {
      s', hook', r', stop, bytes, files := EvictRemoved(c, s, hook, r, dry, world);
    }
  }

  // Its file removed, the ledgers that go with it.
  method EvictRemoved(c: Candidate, s: StoreDir, hook: Hook, r: Report, dry: bool, world: World)
    returns (s': StoreDir, hook': Hook, r': Report, stop: bool, ghost bytes: nat, ghost files: nat)
    requires RefsOnce(hook)
    modifies world`clean, world`cancelled
    ensures RefsOnce(hook') && r'.remaining - r.remaining == Net(r') - Net(r)
    ensures !dry && Evictable(c, s, hook, world.unread) ==> EvictsSafely(c, s, hook, r, world.unread, world.stuck, s', hook', r')
    ensures r'.remaining + c.size + Sum(hook.live) >= r.remaining + Sum(hook'.live)
    ensures dry ==> s' == s
    ensures world.clean ==> old(world.clean) && !stop && r' == Evicted(r, bytes, files)
    ensures world.clean ==> bytes + Sum(hook'.live) == c.size + Sum(hook.live) && files + |hook'.live| == 1 + |hook.live|
    ensures world.clean ==> hook'.refs == hook.refs - {c.path} && Released(hook, KeysAt(hook, c.path), hook')
    ensures world.clean && !dry && s.ledgers == hook.live ==> s' == s.(records := s.records - {c.path}, ledgers := hook'.live)
    ensures stop ==> world.cancelled
  {
    hide Sum, Released, KeysAt, NoRepeats, RefsOnce, Evictable, EvictsSafely, Holding, Releasing, ReleasedAll;
    RefsAt(hook, c.path);
    if Evictable(c, s, hook, world.unread) {
      EvictableHolds(c, s, hook, world.unread);
    }
    var ledgers, reclaimed, removed, skipped;
    hook', ledgers, reclaimed, removed, skipped, stop := OnEvict(hook, s.ledgers, c.path, dry, world);
    if world.clean {
      ReleasedFacts(dry, hook, s.ledgers, KeysAt(hook, c.path), hook', ledgers, reclaimed, removed);
    }
    bytes, files := c.size + reclaimed, 1 + removed;
    r' := Evicted(r, c.size + reclaimed, 1 + removed).(skippedEntries := r.skippedEntries + skipped);
    s' := if dry then s else s.(records := s.records - {c.path}, ledgers := ledgers);
    if !dry && Evictable(c, s, hook, world.unread) {
      EvictDone(c, s, hook, r, world.unread, world.stuck, hook', ledgers, reclaimed, removed, r');
    }
  }

  // A candidate still there, under a hook that fits its store.
  ghost predicate Evictable(c: Candidate, s: StoreDir, hook: Hook, unread: set<Path>)
  {
    Fits(hook, s, unread) && c.path in s.records && s.records[c.path].size == c.size
  }

  // Whatever fails: the record goes or is stuck, no other does, and no ledger that one left names.
  ghost predicate EvictsSafely(c: Candidate, s: StoreDir, hook: Hook, r: Report, unread: set<Path>, stuck: set<Path>, s': StoreDir, hook': Hook, r': Report)
  {
    && Balanced(s, r, s', r') && Spares(s, s', unread) && Fits(hook', s', unread) && s'.abandoned == s.abandoned
    && (s'.records == s.records - {c.path} || (s'.records == s.records && c.path in stuck))
  }

  lemma EvictRefused(c: Candidate, s: StoreDir, hook: Hook, r: Report, unread: set<Path>, stuck: set<Path>, r': Report)
    requires Evictable(c, s, hook, unread) && c.path in stuck && r' == r.(skippedEntries := r'.skippedEntries)
    ensures EvictsSafely(c, s, hook, r, unread, stuck, s, hook, r')
  {
    hide Fits;
    Untouched(s, r, unread);
  }

  lemma EvictableHolds(c: Candidate, s: StoreDir, hook: Hook, unread: set<Path>)
    requires Evictable(c, s, hook, unread)
    ensures Holding(hook, s.ledgers)
  {
  }

  lemma ReleasedFacts(dry: bool, hook: Hook, ledgers: map<Key, nat>, keys: seq<Key>, hook': Hook, ledgers': map<Key, nat>, reclaimed: int, removed: int)
    requires ReleasedAll(dry, hook, ledgers, keys, hook', ledgers', reclaimed, removed)
    ensures reclaimed + Sum(hook'.live) == Sum(hook.live) && removed + |hook'.live| == |hook.live|
    ensures Released(hook, keys, hook') && (!dry && ledgers == hook.live ==> ledgers' == hook'.live)
  {
    hide Sum, Released;
  }

  lemma EvictDone(c: Candidate, s: StoreDir, hook: Hook, r: Report, unread: set<Path>, stuck: set<Path>, hook': Hook, ledgers: map<Key, nat>,
                  reclaimed: int, removed: int, r': Report)
    requires Evictable(c, s, hook, unread) && hook'.refs == hook.refs - {c.path} && hook'.live.Keys <= hook.live.Keys
    requires s.ledgers.Keys - ledgers.Keys <= hook.live.Keys
    requires Releasing(hook'.refs, s.ledgers, hook', ledgers, [], reclaimed, removed)
    requires r'.reclaimed == r.reclaimed + c.size + reclaimed && r'.removedFiles == r.removedFiles + 1 + removed
    ensures EvictsSafely(c, s, hook, r, unread, stuck, s.(records := s.records - {c.path}, ledgers := ledgers), hook', r')
  {
    hide Sum, StoreBytes, Covers, Within, Knows, Spares;
    RecordGone(s, c.path, ledgers);
    EvictKnows(s, hook, c.path, unread, hook');
    forall k | k in s.ledgers && k !in ledgers ensures k in hook.live {
      assert k in s.ledgers.Keys - ledgers.Keys;
    }
    EvictSpares(s, hook, c.path, unread, hook', ledgers);
  }

  lemma EvictKnows(s: StoreDir, hook: Hook, p: Path, unread: set<Path>, hook': Hook)
    requires Fits(hook, s, unread) && hook'.refs == hook.refs - {p} && hook'.live.Keys <= hook.live.Keys
    ensures hook'.live != map[] ==> forall ledgers :: Knows(hook'.refs, s.(records := s.records - {p}, ledgers := ledgers), unread)
  {
    hide Holding;
    if hook'.live != map[] {
      var k :| k in hook'.live;
      assert k in hook.live;
    }
  }

  lemma EvictSpares(s: StoreDir, hook: Hook, p: Path, unread: set<Path>, hook': Hook, ledgers: map<Key, nat>)
    requires Fits(hook, s, unread) && hook'.refs == hook.refs - {p}
    requires Within(ledgers, s.ledgers) && Unheld(hook'.refs, s.ledgers, ledgers)
    requires forall k :: k in s.ledgers && k !in ledgers ==> k in hook.live
    ensures Spares(s, s.(records := s.records - {p}, ledgers := ledgers), unread)
  {
    hide Holding;
    var s' := s.(records := s.records - {p}, ledgers := ledgers);
    if hook.live != map[] {
      forall q, k | q in s'.records && q !in unread && k in s'.records[q].keys ensures q in Holders(hook'.refs, k) {
      }
    }
  }

  lemma RefsAt(hook: Hook, p: Path)
    requires RefsOnce(hook)
    ensures NoRepeats(KeysAt(hook, p))
    ensures forall after: Hook :: after.refs == hook.refs - {p} ==> RefsOnce(after)
  {
  }

  function Evicted(r: Report, bytes: int, files: int): Report
  {
    r.(reclaimed := r.reclaimed + bytes, remaining := r.remaining - bytes, removedFiles := r.removedFiles + files)
  }

  lemma EvictReport(stores0: seq<StoreDir>, gone: set<Path>, c: Candidate, bytes: nat, files: nat)
    requires Distinct(stores0) && IsCandidate(stores0, c) && c.path !in gone
    requires bytes + Sum(NamedLedgers(stores0[c.store], gone + {c.path})) == c.size + Sum(NamedLedgers(stores0[c.store], gone))
    requires files + |NamedLedgers(stores0[c.store], gone + {c.path})| == 1 + |NamedLedgers(stores0[c.store], gone)|
    ensures Evicted(Expected(stores0, gone), bytes, files) == Expected(stores0, gone + {c.path})
  {
    SizesEvicts(stores0[c.store], gone, c.path);
    RetainedEvicts(stores0, gone, c.store, c.path);
  }

  lemma SameTracks(s: StoreDir, gone: set<Path>, hook: Hook, p: Path)
    requires Tracks(hook, s, gone) && p !in s.records
    ensures Tracks(hook, s, gone + {p})
  {
    SameKept(s, gone, p);
    assert forall k :: Namers(s, gone + {p}, k) == Namers(s, gone, k);
  }

  lemma EvictHooks(stores0: seq<StoreDir>, gone: set<Path>, hooks: seq<Hook>, c: Candidate, hook': Hook)
    requires Distinct(stores0) && |hooks| == |stores0| && AllTrack(stores0, hooks, gone)
    requires IsCandidate(stores0, c) && c.path !in gone
    requires Tracks(hook', stores0[c.store], gone + {c.path})
    ensures AllTrack(stores0, hooks[c.store := hook'], gone + {c.path})
  {
    hide Tracks;
    forall j | 0 <= j < |stores0| && j != c.store && !stores0[j].abandoned
      ensures Tracks(hooks[j], stores0[j], gone + {c.path})
    {
      assert c.path !in stores0[j].records;
      SameTracks(stores0[j], gone, hooks[j], c.path);
    }
  }

  lemma EvictDisk(stores0: seq<StoreDir>, gone: set<Path>, dry: bool, stores: seq<StoreDir>, c: Candidate, live: map<Key, nat>)
    requires Distinct(stores0) && DiskAt(stores0, |stores0|, gone, dry, stores)
    requires IsCandidate(stores0, c) && c.path !in gone
    requires live == NamedLedgers(stores0[c.store], gone + {c.path})
    ensures DiskAt(stores0, |stores0|, gone + {c.path}, dry,
              if dry then stores
              else stores[c.store := stores[c.store].(records := stores[c.store].records - {c.path}, ledgers := live)])
  {
  }

  // ----- the pass -----

  // What every exit relies on after i stores: the bytes still counted cover every candidate and
  // live ledger, and the stores to come are as they were.
  ghost predicate Sane(stores0: seq<StoreDir>, i: nat, dry: bool, r: Report, hooks: seq<Hook>, candidates: seq<Candidate>, stores: seq<StoreDir>)
  {
    && i <= |stores0| == |stores| && |hooks| == i && r.remaining == 0
    && (dry ==> stores == stores0) && (forall j :: i <= j < |stores0| ==> stores[j] == stores0[j])
    && (forall h :: h in hooks ==> RefsOnce(h))
    && (forall c :: c in candidates ==> IsCandidate(stores0, c) && c.store < i)
    && (forall a, b :: 0 <= a < b < |candidates| ==> candidates[a] != candidates[b])
    && Net(r) >= CandidateBytes(Elements(candidates)) + HookBytes(hooks)
  }

  // What a clean pass has done after i stores: the report of those stores with nothing evicted,
  // every live record a candidate, every hook counting, the disk pruned.
  ghost predicate Exact(stores0: seq<StoreDir>, i: nat, dry: bool, r: Report, hooks: seq<Hook>, candidates: seq<Candidate>, stores: seq<StoreDir>)
  {
    && i <= |stores0| && |hooks| == i
    && r == Expected(stores0[..i], {}).(remaining := 0)
    && AllTrack(stores0, hooks, {}) && DiskAt(stores0, i, {}, dry, stores)
    && forall c :: IsCandidate(stores0, c) && c.store < i ==> c in candidates
  }

  // Whatever fails in a pass that is not dry: the report has what went, and each store and hook
  // is as the lemmas on one store leave it.
  ghost predicate Steady(stores0: seq<StoreDir>, r: Report, hooks: seq<Hook>, stores: seq<StoreDir>, unread: set<Path>)
  {
    && |hooks| <= |stores0| == |stores|
    && UsedBytes(stores) + r.reclaimed == UsedBytes(stores0) && Files(stores) + r.removedFiles == Files(stores0)
    && (forall j :: 0 <= j < |stores| ==> Spares(stores0[j], stores[j], unread))
    && (forall j :: 0 <= j < |hooks| ==> Fits(hooks[j], stores[j], unread))
  }

  // The survey takes no live record, and misses only stuck ones.
  ghost predicate Whole(stores0: seq<StoreDir>, i: nat, candidates: seq<Candidate>, stores: seq<StoreDir>, stuck: set<Path>)
  {
    && |stores| == |stores0|
    && (forall j :: 0 <= j < |stores0| && !stores0[j].abandoned ==> stores[j].records == stores0[j].records)
    && forall c :: IsCandidate(stores0, c) && c.store < i ==> c in candidates || c.path in stuck
  }

  lemma SteadyBegins(stores0: seq<StoreDir>, unread: set<Path>, stuck: set<Path>)
    ensures Steady(stores0, Report(0, 0, 0, 0, 0, 0, 0), [], stores0, unread) && Whole(stores0, 0, [], stores0, stuck)
  {
  }

  lemma {:induction false} StoreReplaced(stores: seq<StoreDir>, i: nat, s: StoreDir)
    requires i < |stores|
    ensures UsedBytes(stores[i := s]) - UsedBytes(stores) == StoreBytes(s) - StoreBytes(stores[i])
    ensures Files(stores[i := s]) - Files(stores) == FileCount(s) - FileCount(stores[i])
  {
    hide StoreBytes;
    var n := |stores| - 1;
    if i == n {
      assert stores[i := s][..n] == stores[..n];
    } else {
      StoreReplaced(stores[..n], i, s);
      assert stores[i := s][..n] == stores[..n][i := s];
    }
  }

  lemma SparesOnward(s0: StoreDir, s: StoreDir, s': StoreDir, unread: set<Path>, unread': set<Path>)
    requires Spares(s0, s, unread) && unread <= unread'
    ensures Spares(s0, s, unread')
    ensures Spares(s, s', unread') ==> Spares(s0, s', unread')
  {
  }

  lemma FitsOnward(h: Hook, s: StoreDir, unread: set<Path>, unread': set<Path>)
    requires Fits(h, s, unread) && unread <= unread'
    ensures Fits(h, s, unread')
  {
    hide Holding;
  }

  lemma SteadyOnward(stores0: seq<StoreDir>, r: Report, hooks: seq<Hook>, stores: seq<StoreDir>, unread: set<Path>, unread': set<Path>)
    requires Steady(stores0, r, hooks, stores, unread) && unread <= unread'
    ensures Steady(stores0, r, hooks, stores, unread')
  {
    hide Spares, Fits, UsedBytes, Files;
    forall j | 0 <= j < |stores| ensures Spares(stores0[j], stores[j], unread') {
      SparesOnward(stores0[j], stores[j], stores[j], unread, unread');
    }
    forall j | 0 <= j < |hooks| ensures Fits(hooks[j], stores[j], unread') {
      FitsOnward(hooks[j], stores[j], unread, unread');
    }
  }

  // One store further.
  lemma SteadyAt(stores0: seq<StoreDir>, r: Report, hooks: seq<Hook>, stores: seq<StoreDir>, unread: set<Path>, i: nat, s: StoreDir, r': Report, hooks': seq<Hook>)
    requires Steady(stores0, r, hooks, stores, unread) && i < |stores| && |hooks'| <= |stores0|
    requires Balanced(stores[i], r, s, r') && Spares(stores[i], s, unread)
    requires forall j :: 0 <= j < |hooks'| ==> if j == i then Fits(hooks'[j], s, unread) else j < |hooks| && hooks'[j] == hooks[j]
    ensures Steady(stores0, r', hooks', stores[i := s], unread)
  {
    hide Spares, Fits, UsedBytes, Files, StoreBytes, FileCount;
    StoreReplaced(stores, i, s);
    SparesOnward(stores0[i], stores[i], s, unread, unread);
  }

  lemma SteadyNext(stores0: seq<StoreDir>, r: Report, hooks: seq<Hook>, stores: seq<StoreDir>, unread: set<Path>, s: StoreDir, r': Report, hook: Hook, unread': set<Path>)
    requires Steady(stores0, r, hooks, stores, unread) && |hooks| < |stores0| && unread <= unread'
    requires Balanced(stores[|hooks|], r, s, r') && Spares(stores[|hooks|], s, unread') && Fits(hook, s, unread')
    ensures Steady(stores0, r', hooks + [hook], stores[|hooks| := s], unread')
  {
    hide Steady, Balanced, Spares, Fits;
    SteadyOnward(stores0, r, hooks, stores, unread, unread');
    SteadySized(stores0, r, hooks, stores, unread);
    SteadyAt(stores0, r, hooks, stores, unread', |hooks|, s, r', hooks + [hook]);
  }

  lemma SteadySized(stores0: seq<StoreDir>, r: Report, hooks: seq<Hook>, stores: seq<StoreDir>, unread: set<Path>)
    requires Steady(stores0, r, hooks, stores, unread)
    ensures |hooks| <= |stores0| == |stores|
  {
  }

  lemma WholeNext(stores0: seq<StoreDir>, i: nat, candidates: seq<Candidate>, stores: seq<StoreDir>, stuck: set<Path>, s: StoreDir, cs: seq<Candidate>, stuck': set<Path>)
    requires Whole(stores0, i, candidates, stores, stuck) && i < |stores0| && stuck <= stuck'
    requires !stores0[i].abandoned ==> s.records == stores0[i].records && forall c :: Listed(i, stores0[i], c, {}) ==> c in cs || c.path in stuck'
    requires forall c :: c in candidates ==> c in cs
    ensures Whole(stores0, i + 1, cs, stores[i := s], stuck')
  {
  }

  lemma WholeOnward(stores0: seq<StoreDir>, i: nat, candidates: seq<Candidate>, stores: seq<StoreDir>, stuck: set<Path>, stuck': set<Path>)
    requires Whole(stores0, i, candidates, stores, stuck) && stuck <= stuck'
    ensures Whole(stores0, i, candidates, stores, stuck')
  {
  }

  lemma Begin(stores0: seq<StoreDir>, dry: bool)
    ensures Sane(stores0, 0, dry, Report(0, 0, 0, 0, 0, 0, 0), [], [], stores0)
    ensures Exact(stores0, 0, dry, Report(0, 0, 0, 0, 0, 0, 0), [], [], stores0)
  {
    hide Expected, CandidateBytes, HookBytes, Listed, IsCandidate, Tracks, PrunedStore, Net;
    NothingListed();
    assert stores0[..0] == [];
  }

  lemma NothingListed()
    ensures CandidateBytes(Elements([])) == 0 && HookBytes([]) == 0
    ensures Expected([], {}).(remaining := 0) == Report(0, 0, 0, 0, 0, 0, 0) && Net(Report(0, 0, 0, 0, 0, 0, 0)) == 0
  {
  }

  lemma SaneNext(stores0: seq<StoreDir>, i: nat, dry: bool, r: Report, hooks: seq<Hook>, candidates: seq<Candidate>, stores: seq<StoreDir>,
                 s: StoreDir, r': Report, hook: Hook, cs: seq<Candidate>)
    requires Sane(stores0, i, dry, r, hooks, candidates, stores) && i < |stores0|
    requires (dry ==> s == stores0[i]) && RefsOnce(hook) && r'.remaining == r.remaining
    requires Net(r') >= Net(r) + CandidateBytes(Elements(cs)) - CandidateBytes(Elements(candidates)) + Sum(hook.live)
    requires forall c :: c in cs ==> c in candidates || (!stores0[i].abandoned && Listed(i, stores0[i], c, {}))
    requires forall a, b :: 0 <= a < b < |cs| ==> cs[a] != cs[b]
    ensures Sane(stores0, i + 1, dry, r', hooks + [hook], cs, stores[i := s])
  {
  }

  lemma TrackNext(stores0: seq<StoreDir>, hooks: seq<Hook>, hook: Hook)
    requires |hooks| < |stores0| && AllTrack(stores0, hooks, {})
    requires !stores0[|hooks|].abandoned ==> Tracks(hook, stores0[|hooks|], {})
    ensures AllTrack(stores0, hooks + [hook], {})
  {
  }

  lemma DiskNext(stores0: seq<StoreDir>, i: nat, dry: bool, stores: seq<StoreDir>)
    requires i < |stores0| && DiskAt(stores0, i, {}, dry, stores)
    ensures DiskAt(stores0, i + 1, {}, dry, stores[i := if dry then stores0[i] else PrunedStore(stores0[i], {})])
  {
  }

  lemma ListNext(stores0: seq<StoreDir>, i: nat, candidates: seq<Candidate>, cs: seq<Candidate>)
    requires i < |stores0|
    requires forall c :: IsCandidate(stores0, c) && c.store < i ==> c in candidates
    requires forall c :: c in candidates || (!stores0[i].abandoned && Listed(i, stores0[i], c, {})) ==> c in cs
    ensures forall c :: IsCandidate(stores0, c) && c.store < i + 1 ==> c in cs
  {
  }

  lemma ExactAbandoned(stores0: seq<StoreDir>, i: nat, dry: bool, r: Report, hooks: seq<Hook>, candidates: seq<Candidate>, stores: seq<StoreDir>)
    requires Exact(stores0, i, dry, r, hooks, candidates, stores) && i < |stores0| && stores0[i].abandoned
    ensures Exact(stores0, i + 1, dry,
              Gone(r, StoreBytes(stores0[i]), |stores0[i].records| + |stores0[i].ledgers|).(abandonedStores := r.abandonedStores + 1),
              hooks + [NO_HOOK], candidates,
              stores[i := if dry then stores0[i] else StoreDir(false, map[], map[])])
  {
    hide Expected, Gone, StoreBytes, AllTrack, DiskAt, IsCandidate;
    AbandonedReport(stores0, i, r);
    TrackNext(stores0, hooks, NO_HOOK);
    DiskNext(stores0, i, dry, stores);
    ListNext(stores0, i, candidates, candidates);
  }

  lemma ExactLive(stores0: seq<StoreDir>, i: nat, dry: bool, r: Report, hooks: seq<Hook>, candidates: seq<Candidate>, stores: seq<StoreDir>,
                  hook: Hook, cs: seq<Candidate>)
    requires Exact(stores0, i, dry, r, hooks, candidates, stores) && i < |stores0| && !stores0[i].abandoned
    requires Tracks(hook, stores0[i], {})
    requires forall c :: c in candidates || Listed(i, stores0[i], c, {}) ==> c in cs
    ensures Exact(stores0, i + 1, dry,
              Swept(r.(used := r.used + Sum(Sizes(stores0[i], {}))), stores0[i].ledgers, NamedLedgers(stores0[i], {}), {}),
              hooks + [hook], cs,
              stores[i := if dry then stores0[i] else PrunedStore(stores0[i], {})])
  {
    hide Expected, Swept, AllTrack, DiskAt, IsCandidate, PrunedStore, Tracks, Sum, NamedLedgers, Sizes;
    LiveReport(stores0, i, r);
    TrackNext(stores0, hooks, hook);
    DiskNext(stores0, i, dry, stores);
    ListNext(stores0, i, candidates, cs);
  }

  lemma EmptyHook()
    ensures Sum(NO_HOOK.live) == 0 && RefsOnce(NO_HOOK)
  {
  }

  lemma DistinctStore(stores0: seq<StoreDir>, i: nat)
    requires Distinct(stores0) && i < |stores0|
    ensures DistinctKeys(stores0[i])
  {
  }

  // Surveys every store: a contended one is measured only, an abandoned one emptied, a live one
  // listed.
  method FirstPass(stores0: seq<StoreDir>, dry: bool, world: World)
    returns (stores: seq<StoreDir>, r: Report, hooks: seq<Hook>, candidates: seq<Candidate>, stop: bool)
    requires Distinct(stores0)
    modifies world
    ensures Net(r) >= 0 && (dry ==> stores == stores0)
    ensures |hooks| <= |stores0| && (!stop ==> |hooks| == |stores0|)
    ensures Sane(stores0, |hooks|, dry, r, hooks, candidates, stores)
    ensures !dry ==> Steady(stores0, r, hooks, stores, world.unread) && Whole(stores0, |hooks|, candidates, stores, world.stuck)
    ensures world.clean ==> old(world.clean) && !stop
    ensures world.clean ==> Exact(stores0, |stores0|, dry, r, hooks, candidates, stores)
  {
    hide *;
    stores, r, hooks, candidates, stop := stores0, Report(0, 0, 0, 0, 0, 0, 0), [], [], false;
    Begin(stores0, dry);
    SteadyBegins(stores0, world.unread, world.stuck);
    SaneFacts(stores0, 0, dry, r, hooks, candidates, stores);
    var i := 0;
    while i < |stores0| && !stop
      invariant 0 <= i == |hooks| <= |stores0|
      invariant Net(r) >= 0 && (dry ==> stores == stores0)
      invariant Sane(stores0, i, dry, r, hooks, candidates, stores)
      invariant !dry ==> Steady(stores0, r, hooks, stores, world.unread) && Whole(stores0, i, candidates, stores, world.stuck)
      invariant world.clean ==> old(world.clean) && !stop && Exact(stores0, i, dry, r, hooks, candidates, stores)
      decreases |stores0| - i, !stop
    {
      stop := world.Cancelled();
      if !stop {
        stores, r, hooks, candidates, stop := SurveyStore(i, stores0, stores, r, hooks, candidates, dry, world);
        SaneFacts(stores0, i + 1, dry, r, hooks, candidates, stores);
        i := i + 1;
      }
    }
  }

  method SurveyStore(i: nat, ghost stores0: seq<StoreDir>, before: seq<StoreDir>, r0: Report, hooks0: seq<Hook>, candidates0: seq<Candidate>, dry: bool, world: World)
    returns (stores: seq<StoreDir>, r: Report, hooks: seq<Hook>, candidates: seq<Candidate>, stop: bool)
    requires Distinct(stores0) && i < |stores0|
    requires Sane(stores0, i, dry, r0, hooks0, candidates0, before)
    requires world.clean ==> Exact(stores0, i, dry, r0, hooks0, candidates0, before)
    requires !dry ==> Steady(stores0, r0, hooks0, before, world.unread) && Whole(stores0, i, candidates0, before, world.stuck)
    modifies world
    ensures Sane(stores0, i + 1, dry, r, hooks, candidates, stores)
    ensures world.clean ==> old(world.clean) && !stop
    ensures world.clean ==> Exact(stores0, i + 1, dry, r, hooks, candidates, stores)
    ensures !dry ==> Steady(stores0, r, hooks, stores, world.unread) && Whole(stores0, i + 1, candidates, stores, world.stuck)
  {
    hide *;
    SaneFacts(stores0, i, dry, r0, hooks0, candidates0, before);
    ghost var stuck := world.stuck;
    var lock := world.TryLock(stores0[i].records.Keys);
    if !dry {
      WholeOnward(stores0, i, candidates0, before, stuck, world.stuck);
    }
    if !lock.Held? {
      stores, r, hooks, candidates, stop := SurveyOther(i, stores0, before, r0, hooks0, candidates0, dry, lock, world.unread, world.stuck);
    } else if before[i].abandoned {
      stores, r, hooks, candidates, stop := SurveyAbandoned(i, stores0, before, r0, hooks0, candidates0, dry, world);
    } else {
      stores, r, hooks, candidates, stop := SurveyHeld(i, stores0, before, r0, hooks0, candidates0, dry, world);
    }
  }

  // A store another process holds is measured from outside, one whose lock fails skipped.
  method SurveyOther(i: nat, ghost stores0: seq<StoreDir>, before: seq<StoreDir>, r0: Report, hooks0: seq<Hook>, candidates0: seq<Candidate>, dry: bool, lock: LockOutcome,
                     ghost unread: set<Path>, ghost stuck: set<Path>)
    returns (stores: seq<StoreDir>, r: Report, hooks: seq<Hook>, candidates: seq<Candidate>, stop: bool)
    requires i < |stores0| && Sane(stores0, i, dry, r0, hooks0, candidates0, before)
    requires stores0[i].records.Keys <= stuck
    requires !dry ==> Steady(stores0, r0, hooks0, before, unread) && Whole(stores0, i, candidates0, before, stuck)
    ensures Sane(stores0, i + 1, dry, r, hooks, candidates, stores) && !stop
    ensures !dry ==> Steady(stores0, r, hooks, stores, unread) && Whole(stores0, i + 1, candidates, stores, stuck)
  {
    hide Sane, Sum, CandidateBytes, RefsOnce, Steady, Whole, Balanced, Spares, Fits;
    SaneFacts(stores0, i, dry, r0, hooks0, candidates0, before);
    EmptyHook();
    stores, r, hooks, candidates, stop := before, r0, hooks0 + [NO_HOOK], candidates0, false;
    if lock.Contended? {
      var measured: nat, skipped: nat := *, *;
      r := r.(busyStores := r.busyStores + 1, used := r.used + measured, skippedEntries := r.skippedEntries + skipped);
    } else {
      r := r.(skippedEntries := r.skippedEntries + 1);
    }
    SaneNext(stores0, i, dry, r0, hooks0, candidates0, before, before[i], r, NO_HOOK, candidates0);
    assert before[i := before[i]] == before;
    if !dry {
      OtherSteady(stores0, r0, hooks0, before, unread, r);
      WholeNext(stores0, i, candidates0, before, stuck, before[i], candidates0, stuck);
    }
  }

  lemma OtherSteady(stores0: seq<StoreDir>, r: Report, hooks: seq<Hook>, stores: seq<StoreDir>, unread: set<Path>, r': Report)
    requires Steady(stores0, r, hooks, stores, unread) && |hooks| < |stores0|
    requires r'.reclaimed == r.reclaimed && r'.removedFiles == r.removedFiles
    ensures Steady(stores0, r', hooks + [NO_HOOK], stores, unread)
  {
    hide Spares, UsedBytes, Files;
    Untouched(stores[|hooks|], r, unread);
  }

  method SurveyAbandoned(i: nat, ghost stores0: seq<StoreDir>, before: seq<StoreDir>, r0: Report, hooks0: seq<Hook>, candidates0: seq<Candidate>, dry: bool, world: World)
    returns (stores: seq<StoreDir>, r: Report, hooks: seq<Hook>, candidates: seq<Candidate>, stop: bool)
    requires i < |stores0| && Sane(stores0, i, dry, r0, hooks0, candidates0, before) && stores0[i].abandoned
    requires world.clean ==> Exact(stores0, i, dry, r0, hooks0, candidates0, before)
    requires !dry ==> Steady(stores0, r0, hooks0, before, world.unread) && Whole(stores0, i, candidates0, before, world.stuck)
    modifies world
    ensures Sane(stores0, i + 1, dry, r, hooks, candidates, stores)
    ensures world.clean ==> old(world.clean) && !stop && Exact(stores0, i + 1, dry, r, hooks, candidates, stores)
    ensures !dry ==> Steady(stores0, r, hooks, stores, world.unread) && Whole(stores0, i + 1, candidates, stores, world.stuck)
  {
    hide *;
    SaneFacts(stores0, i, dry, r0, hooks0, candidates0, before);
    EmptyHook();
    var s;
    s, r, stop := PruneAbandoned(before[i], r0, dry, world);
    SaneNext(stores0, i, dry, r0, hooks0, candidates0, before, s, r, NO_HOOK, candidates0);
    if !dry {
      Untouched(s, r, world.unread);
      SteadyNext(stores0, r0, hooks0, before, world.unread, s, r, NO_HOOK, world.unread);
      WholeNext(stores0, i, candidates0, before, world.stuck, s, candidates0, world.stuck);
    }
    if world.clean {
      ExactAbandoned(stores0, i, dry, r0, hooks0, candidates0, before);
    }
    stores, hooks, candidates := before[i := s], hooks0 + [NO_HOOK], candidates0;
  }

  method SurveyHeld(i: nat, ghost stores0: seq<StoreDir>, before: seq<StoreDir>, r0: Report, hooks0: seq<Hook>, candidates0: seq<Candidate>, dry: bool, world: World)
    returns (stores: seq<StoreDir>, r: Report, hooks: seq<Hook>, candidates: seq<Candidate>, stop: bool)
    requires Distinct(stores0) && i < |stores0|
    requires Sane(stores0, i, dry, r0, hooks0, candidates0, before) && !stores0[i].abandoned
    requires world.clean ==> Exact(stores0, i, dry, r0, hooks0, candidates0, before)
    requires !dry ==> Steady(stores0, r0, hooks0, before, world.unread) && Whole(stores0, i, candidates0, before, world.stuck)
    modifies world
    ensures Sane(stores0, i + 1, dry, r, hooks, candidates, stores)
    ensures world.clean ==> old(world.clean) && !stop && Exact(stores0, i + 1, dry, r, hooks, candidates, stores)
    ensures !dry ==> Steady(stores0, r, hooks, stores, world.unread) && Whole(stores0, i + 1, candidates, stores, world.stuck)
  {
    hide *;
    SaneFacts(stores0, i, dry, r0, hooks0, candidates0, before);
    DistinctStore(stores0, i);
    ghost var unread, stuck := world.unread, world.stuck;
    var s, hook;
    s, r, hook, candidates, stop := SurveyLive(i, before[i], r0, candidates0, dry, world);
    SaneNext(stores0, i, dry, r0, hooks0, candidates0, before, s, r, hook, candidates);
    if !dry {
      SteadyNext(stores0, r0, hooks0, before, unread, s, r, hook, world.unread);
      WholeNext(stores0, i, candidates0, before, stuck, s, candidates, world.stuck);
    }
    if world.clean {
      ExactLive(stores0, i, dry, r0, hooks0, candidates0, before, hook, candidates);
    }
    stores, hooks := before[i := s], hooks0 + [hook];
  }

  lemma SaneFacts(stores0: seq<StoreDir>, i: nat, dry: bool, r: Report, hooks: seq<Hook>, candidates: seq<Candidate>, stores: seq<StoreDir>)
    requires Sane(stores0, i, dry, r, hooks, candidates, stores)
    ensures |stores| == |stores0| && |hooks| == i <= |stores0| && Net(r) >= 0 && (dry ==> stores == stores0)
    ensures i < |stores0| ==> stores[i] == stores0[i]
    ensures forall c :: c in candidates ==> c.store < i
    ensures forall a, b :: 0 <= a < b < |candidates| ==> candidates[a] != candidates[b]
  {
  }

  // ----- the second pass, over the candidates oldest first -----

  ghost predicate Funded(stores0: seq<StoreDir>, n: nat, dry: bool, r: Report, hooks: seq<Hook>, order: seq<Candidate>, stores: seq<StoreDir>)
  {
    && |hooks| == |stores0| == |stores| && n <= |order|
    && (dry ==> stores == stores0)
    && (forall h :: h in hooks ==> RefsOnce(h))
    && (forall c :: c in order ==> IsCandidate(stores0, c))
    && r.remaining == Net(r) >= CandidateBytes(Elements(order[n..])) + HookBytes(hooks)
  }

  ghost predicate Evicting(stores0: seq<StoreDir>, max: int, n: nat, dry: bool, r: Report, hooks: seq<Hook>, order: seq<Candidate>, stores: seq<StoreDir>)
  {
    && n <= |order| && |hooks| == |stores0|
    && IsOrder(stores0, order)
    && r == Expected(stores0, Paths(order[..n]))
    && AllTrack(stores0, hooks, Paths(order[..n]))
    && DiskAt(stores0, |stores0|, Paths(order[..n]), dry, stores)
    && forall m: nat :: m < n ==> Retained(stores0, Paths(order[..m])) > max
  }

  lemma SamePath(stores0: seq<StoreDir>, a: Candidate, b: Candidate)
    requires Distinct(stores0) && IsCandidate(stores0, a) && IsCandidate(stores0, b) && a.path == b.path
    ensures a == b
  {
  }

  lemma OrderDistinct(order: seq<Candidate>)
    requires Ascending(Older, order)
    ensures forall a, b :: 0 <= a < b < |order| ==> order[a] != order[b]
  {
  }

  lemma PathNext(stores0: seq<StoreDir>, order: seq<Candidate>, n: nat)
    requires Distinct(stores0) && IsOrder(stores0, order) && n < |order|
    ensures IsCandidate(stores0, order[n]) && order[n].path !in Paths(order[..n])
    ensures Paths(order[..n + 1]) == Paths(order[..n]) + {order[n].path}
  {
    assert order[n] in order;
    OrderDistinct(order);
    forall c | c in order[..n] ensures c.path != order[n].path {
      assert c in order;
      if c.path == order[n].path {
        SamePath(stores0, c, order[n]);
      }
    }
    assert order[..n + 1] == order[..n] + [order[n]];
  }

  lemma FundedNext(stores0: seq<StoreDir>, n: nat, dry: bool, r: Report, hooks: seq<Hook>, order: seq<Candidate>, stores: seq<StoreDir>,
                   s: StoreDir, hook: Hook, r': Report)
    requires Funded(stores0, n, dry, r, hooks, order, stores) && n < |order| && order[n].store < |hooks| == |stores|
    requires forall a, b :: 0 <= a < b < |order| ==> order[a] != order[b]
    requires RefsOnce(hook) && (dry ==> s == stores[order[n].store]) && r'.remaining == Net(r')
    requires r'.remaining + order[n].size + Sum(hooks[order[n].store].live) >= r.remaining + Sum(hook.live)
    ensures Funded(stores0, n + 1, dry, r', hooks[order[n].store := hook], order, stores[order[n].store := s])
  {
    hide Sum, CandidateBytes, HookBytes, RefsOnce;
    var c := order[n];
    HookReplaced(hooks, c.store, hook);
    assert order[n..] == [c] + order[n + 1..];
    assert c !in order[n + 1..];
    assert Elements(order[n..]) == Elements(order[n + 1..]) + {c};
    CandidateAdded(Elements(order[n + 1..]), c);
  }

  lemma FundedSkip(stores0: seq<StoreDir>, n: nat, dry: bool, r: Report, hooks: seq<Hook>, order: seq<Candidate>, stores: seq<StoreDir>, r': Report)
    requires Funded(stores0, n, dry, r, hooks, order, stores) && n < |order|
    requires forall a, b :: 0 <= a < b < |order| ==> order[a] != order[b]
    requires r'.remaining == Net(r') == r.remaining
    ensures Funded(stores0, n + 1, dry, r', hooks, order, stores)
  {
    hide Sum, CandidateBytes, HookBytes, RefsOnce;
    assert order[n] in order;
    FundedNext(stores0, n, dry, r, hooks, order, stores, stores[order[n].store], hooks[order[n].store], r');
    assert hooks[order[n].store := hooks[order[n].store]] == hooks;
    assert stores[order[n].store := stores[order[n].store]] == stores;
  }

  lemma EvictingNext(stores0: seq<StoreDir>, max: int, n: nat, dry: bool, r: Report, hooks: seq<Hook>, order: seq<Candidate>, stores: seq<StoreDir>,
                     hook: Hook, bytes: nat, files: nat)
    requires Distinct(stores0) && n < |order| && Evicting(stores0, max, n, dry, r, hooks, order, stores)
    requires r.remaining > max
    requires order[n].store < |hooks|
    requires var before := hooks[order[n].store];
      && bytes + Sum(hook.live) == order[n].size + Sum(before.live) && files + |hook.live| == 1 + |before.live|
      && hook.refs == before.refs - {order[n].path} && Released(before, KeysAt(before, order[n].path), hook)
    ensures order[n].store < |stores|
    ensures var i := order[n].store;
      Evicting(stores0, max, n + 1, dry, Evicted(r, bytes, files), hooks[i := hook], order,
        if dry then stores else stores[i := stores[i].(records := stores[i].records - {order[n].path}, ledgers := hook.live)])
  {
    hide Sum, Released, Expected, Distinct, IsOrder, Retained;
    var c, gone := order[n], Paths(order[..n]);
    PathNext(stores0, order, n);
    EvictTracks(stores0[c.store], gone, hooks[c.store], c.path, hook);
    RetainedIs(stores0, gone);
    EvictingParts(stores0, dry, gone, hooks, stores, c, hook, bytes, files);
  }

  lemma RetainedIs(stores0: seq<StoreDir>, gone: set<Path>)
    ensures Expected(stores0, gone).remaining == Retained(stores0, gone)
  {
  }

  lemma EvictingParts(stores0: seq<StoreDir>, dry: bool, gone: set<Path>, hooks: seq<Hook>, stores: seq<StoreDir>, c: Candidate, hook: Hook, bytes: nat, files: nat)
    requires Distinct(stores0) && IsCandidate(stores0, c) && c.path !in gone
    requires |hooks| == |stores0| && AllTrack(stores0, hooks, gone) && DiskAt(stores0, |stores0|, gone, dry, stores)
    requires bytes + Sum(hook.live) == c.size + Sum(hooks[c.store].live) && files + |hook.live| == 1 + |hooks[c.store].live|
    requires Tracks(hook, stores0[c.store], gone + {c.path})
    ensures Evicted(Expected(stores0, gone), bytes, files) == Expected(stores0, gone + {c.path})
    ensures AllTrack(stores0, hooks[c.store := hook], gone + {c.path})
    ensures c.store < |stores| && DiskAt(stores0, |stores0|, gone + {c.path}, dry,
              if dry then stores else stores[c.store := stores[c.store].(records := stores[c.store].records - {c.path}, ledgers := hook.live)])
  {
    hide Sum, Expected, Distinct, Evicted;
    EvictHooks(stores0, gone, hooks, c, hook);
    EvictDisk(stores0, gone, dry, stores, c, hook.live);
    EvictReport(stores0, gone, c, bytes, files);
  }

  // Whatever fails: the first n of the order have gone or are stuck, no other live record has
  // gone, and those outside the order are stuck.
  ghost predicate Aged(stores0: seq<StoreDir>, n: nat, order: seq<Candidate>, stores: seq<StoreDir>, stuck: set<Path>)
  {
    && |stores| == |stores0| && n <= |order|
    && (forall c :: IsCandidate(stores0, c) && c.path !in stores[c.store].records ==> c in order[..n])
    && (forall c :: c in order[..n] && IsCandidate(stores0, c) ==> c.path in stuck || c.path !in stores[c.store].records)
    && (forall c :: IsCandidate(stores0, c) ==> c in order || c.path in stuck)
  }

  lemma AgedBegins(stores0: seq<StoreDir>, candidates: seq<Candidate>, order: seq<Candidate>, stores: seq<StoreDir>, stuck: set<Path>)
    requires Whole(stores0, |stores0|, candidates, stores, stuck) && Elements(order) == Elements(candidates)
    ensures Aged(stores0, 0, order, stores, stuck)
  {
    forall c ensures c in order <==> c in candidates {
      assert c in Elements(order) <==> c in Elements(candidates);
    }
  }

  lemma AgedOnward(stores0: seq<StoreDir>, n: nat, order: seq<Candidate>, stores: seq<StoreDir>, stuck: set<Path>, stuck': set<Path>)
    requires Aged(stores0, n, order, stores, stuck) && stuck <= stuck'
    ensures Aged(stores0, n, order, stores, stuck')
  {
  }

  // The next candidate is still there.
  lemma NextIsThere(stores0: seq<StoreDir>, n: nat, order: seq<Candidate>, stores: seq<StoreDir>, stuck: set<Path>)
    requires Aged(stores0, n, order, stores, stuck) && n < |order| && IsCandidate(stores0, order[n])
    requires forall a, b :: 0 <= a < b < |order| ==> order[a] != order[b]
    ensures order[n].path in stores[order[n].store].records
  {
  }

  lemma AgedSkip(stores0: seq<StoreDir>, n: nat, order: seq<Candidate>, stores: seq<StoreDir>, stuck: set<Path>)
    requires Aged(stores0, n, order, stores, stuck) && n < |order| && order[n].path in stuck
    ensures Aged(stores0, n + 1, order, stores, stuck)
  {
    assert order[..n + 1] == order[..n] + [order[n]];
  }

  lemma AgedNext(stores0: seq<StoreDir>, n: nat, order: seq<Candidate>, stores: seq<StoreDir>, stuck: set<Path>, s: StoreDir, stuck': set<Path>)
    requires Aged(stores0, n, order, stores, stuck) && n < |order| && IsCandidate(stores0, order[n]) && stuck <= stuck' && Distinct(stores0)
    requires var before := stores[order[n].store].records;
      s.records == before - {order[n].path} || (s.records == before && order[n].path in stuck')
    ensures Aged(stores0, n + 1, order, stores[order[n].store := s], stuck')
  {
    hide Distinct;
    var c := order[n];
    assert order[..n + 1] == order[..n] + [c];
    forall d | IsCandidate(stores0, d) && d.path == c.path ensures d == c {
      SamePath(stores0, c, d);
    }
  }

  // Every record of a store found busy is stuck.
  ghost predicate BusyStuck(stores0: seq<StoreDir>, busy: set<nat>, stuck: set<Path>)
  {
    forall i, p :: i in busy && i < |stores0| && p in stores0[i].records ==> p in stuck
  }

  lemma BusyMore(stores0: seq<StoreDir>, busy: set<nat>, stuck: set<Path>, i: nat, stuck': set<Path>)
    requires BusyStuck(stores0, busy, stuck) && stuck <= stuck' && i < |stores0|
    ensures BusyStuck(stores0, busy, stuck')
    ensures stores0[i].records.Keys <= stuck' ==> BusyStuck(stores0, busy + {i}, stuck')
  {
  }

  lemma StuckAt(stores0: seq<StoreDir>, busy: set<nat>, stuck: set<Path>, c: Candidate)
    requires IsCandidate(stores0, c) && (stores0[c.store].records.Keys <= stuck || (BusyStuck(stores0, busy, stuck) && c.store in busy))
    ensures c.path in stuck
  {
  }

  lemma EvictableNext(stores0: seq<StoreDir>, r: Report, hooks: seq<Hook>, stores: seq<StoreDir>, unread: set<Path>, c: Candidate)
    requires Steady(stores0, r, hooks, stores, unread) && |hooks| == |stores0|
    requires IsCandidate(stores0, c) && c.path in stores[c.store].records
    ensures Evictable(c, stores[c.store], hooks[c.store], unread)
  {
    hide Fits;
  }

  lemma SteadyEvicts(stores0: seq<StoreDir>, r: Report, hooks: seq<Hook>, stores: seq<StoreDir>, unread: set<Path>, stuck: set<Path>, c: Candidate,
                     s: StoreDir, hook: Hook, r': Report)
    requires Steady(stores0, r, hooks, stores, unread) && |hooks| == |stores0| && c.store < |stores0|
    requires EvictsSafely(c, stores[c.store], hooks[c.store], r, unread, stuck, s, hook, r')
    ensures Steady(stores0, r', hooks[c.store := hook], stores[c.store := s], unread)
    ensures s.records == stores[c.store].records - {c.path} || (s.records == stores[c.store].records && c.path in stuck)
  {
    hide Spares, Fits, UsedBytes, Files, Balanced;
    SteadyAt(stores0, r, hooks, stores, unread, c.store, s, r', hooks[c.store := hook]);
  }

  lemma SteadyRefused(stores0: seq<StoreDir>, r: Report, hooks: seq<Hook>, stores: seq<StoreDir>, unread: set<Path>, r': Report)
    requires Steady(stores0, r, hooks, stores, unread) && r'.reclaimed == r.reclaimed && r'.removedFiles == r.removedFiles
    ensures Steady(stores0, r', hooks, stores, unread)
  {
    hide Spares, Fits, UsedBytes, Files;
  }

  lemma NextCandidate(stores0: seq<StoreDir>, n: nat, dry: bool, r: Report, hooks: seq<Hook>, order: seq<Candidate>, stores: seq<StoreDir>)
    requires Funded(stores0, n, dry, r, hooks, order, stores) && n < |order|
    ensures IsCandidate(stores0, order[n]) && order[n].store < |stores0|
  {
  }

  // The candidate at n: evicted under its store's lock, unless the store proves busy.
  method EvictAt(n: nat, ghost stores0: seq<StoreDir>, ghost max: int, order: seq<Candidate>, before: seq<StoreDir>, r0: Report, hooks0: seq<Hook>, busy0: set<nat>, dry: bool, world: World)
    returns (stores: seq<StoreDir>, r: Report, hooks: seq<Hook>, busy: set<nat>, stop: bool)
    requires Distinct(stores0) && n < |order| && r0.remaining > max && Ascending(Older, order)
    requires Funded(stores0, n, dry, r0, hooks0, order, before)
    requires world.clean ==> Evicting(stores0, max, n, dry, r0, hooks0, order, before) && busy0 == {}
    requires BusyStuck(stores0, busy0, world.stuck)
    requires !dry ==> Steady(stores0, r0, hooks0, before, world.unread) && Aged(stores0, n, order, before, world.stuck)
    modifies world`clean, world`cancelled, world`stuck
    ensures Funded(stores0, n + 1, dry, r, hooks, order, stores)
    ensures world.clean ==> old(world.clean) && !stop && busy == {}
    ensures world.clean ==> Evicting(stores0, max, n + 1, dry, r, hooks, order, stores)
    ensures BusyStuck(stores0, busy, world.stuck)
    ensures !dry ==> Steady(stores0, r, hooks, stores, world.unread) && Aged(stores0, n + 1, order, stores, world.stuck)
    ensures stop ==> world.cancelled
  {
    hide *;
    var c := order[n];
    FundedFacts(stores0, n, dry, r0, hooks0, order, before);
    OrderDistinct(order);
    NextCandidate(stores0, n, dry, r0, hooks0, order, before);
    stores, r, hooks, busy, stop := before, r0, hooks0, busy0, false;
    if c.store in busy {
      FundedSkip(stores0, n, dry, r0, hooks0, order, before, r);
      StuckAt(stores0, busy, world.stuck, c);
      if !dry {
        AgedSkip(stores0, n, order, before, world.stuck);
      }
    } else {
      ghost var stuck := world.stuck;
      var lock := world.TryLock(stores0[c.store].records.Keys);
      BusyMore(stores0, busy, stuck, c.store, world.stuck);
      if !dry {
        AgedOnward(stores0, n, order, before, stuck, world.stuck);
      }
      if !lock.Held? {
        busy := busy + {c.store};
        r := CountRefusal(r, lock);
        FundedSkip(stores0, n, dry, r0, hooks0, order, before, r);
        StuckAt(stores0, {}, world.stuck, c);
        if !dry {
          AgedSkip(stores0, n, order, before, world.stuck);
          SteadyRefused(stores0, r0, hooks0, before, world.unread, r);
        }
      } else {
        stores, r, hooks, stop := EvictHeld(n, stores0, max, order, before, r0, hooks0, dry, world);
        BusyMore(stores0, busy, stuck, c.store, world.stuck);
      }
    }
  }

  method CountRefusal(r: Report, lock: LockOutcome) returns (r': Report)
    ensures r'.remaining == r.remaining && Net(r') == Net(r) && r'.reclaimed == r.reclaimed && r'.removedFiles == r.removedFiles
  {
    r' := if lock.Contended? then r.(busyStores := r.busyStores + 1) else r.(skippedEntries := r.skippedEntries + 1);
  }

  method EvictHeld(n: nat, ghost stores0: seq<StoreDir>, ghost max: int, order: seq<Candidate>, before: seq<StoreDir>, r0: Report, hooks0: seq<Hook>, dry: bool, world: World)
    returns (stores: seq<StoreDir>, r: Report, hooks: seq<Hook>, stop: bool)
    requires Distinct(stores0) && n < |order| && r0.remaining > max && Ascending(Older, order)
    requires Funded(stores0, n, dry, r0, hooks0, order, before)
    requires world.clean ==> Evicting(stores0, max, n, dry, r0, hooks0, order, before)
    requires !dry ==> Steady(stores0, r0, hooks0, before, world.unread) && Aged(stores0, n, order, before, world.stuck)
    modifies world`clean, world`cancelled, world`stuck
    ensures Funded(stores0, n + 1, dry, r, hooks, order, stores)
    ensures world.clean ==> old(world.clean) && !stop
    ensures world.clean ==> Evicting(stores0, max, n + 1, dry, r, hooks, order, stores)
    ensures old(world.stuck) <= world.stuck
    ensures !dry ==> Steady(stores0, r, hooks, stores, world.unread) && Aged(stores0, n + 1, order, stores, world.stuck)
    ensures stop ==> world.cancelled
  {
    hide *;
    var c := order[n];
    FundedFacts(stores0, n, dry, r0, hooks0, order, before);
    OrderDistinct(order);
    NextCandidate(stores0, n, dry, r0, hooks0, order, before);
    ghost var stuck := world.stuck;
    if !dry {
      NextIsThere(stores0, n, order, before, stuck);
      EvictableNext(stores0, r0, hooks0, before, world.unread, c);
    }
    var s, hook;
    ghost var bytes, files;
    s, hook, r, stop, bytes, files := EvictOne(c, before[c.store], hooks0[c.store], r0, dry, world);
    FundedNext(stores0, n, dry, r0, hooks0, order, before, s, hook, r);
    if !dry {
      SteadyEvicts(stores0, r0, hooks0, before, world.unread, world.stuck, c, s, hook, r);
      AgedNext(stores0, n, order, before, stuck, s, world.stuck);
    }
    if world.clean {
      EvictingNext(stores0, max, n, dry, r0, hooks0, order, before, hook, bytes, files);
      EvictingFacts(stores0, max, n, dry, r0, hooks0, order, before);
      assert dry ==> before[c.store := s] == before;
    }
    stores, hooks := before[c.store := s], hooks0[c.store := hook];
  }

  lemma FundedFacts(stores0: seq<StoreDir>, n: nat, dry: bool, r: Report, hooks: seq<Hook>, order: seq<Candidate>, stores: seq<StoreDir>)
    requires Funded(stores0, n, dry, r, hooks, order, stores)
    ensures |hooks| == |stores0| == |stores| && n <= |order| && r.remaining == Net(r) >= 0 && (dry ==> stores == stores0)
    ensures forall c :: c in order ==> c.store < |stores|
    ensures n < |order| ==> order[n].store < |stores| && RefsOnce(hooks[order[n].store])
  {
  }

  // On a pruned disk a store holds exactly the ledgers its hook calls live.
  lemma EvictingFacts(stores0: seq<StoreDir>, max: int, n: nat, dry: bool, r: Report, hooks: seq<Hook>, order: seq<Candidate>, stores: seq<StoreDir>)
    requires Evicting(stores0, max, n, dry, r, hooks, order, stores) && n < |order|
    ensures order[n].store < |hooks| == |stores| && (!dry ==> stores[order[n].store].ledgers == hooks[order[n].store].live)
  {
    hide Sum, Expected, Retained;
    assert order[n] in order;
  }

  // The eviction loop: until the bytes fit, the candidates end or the context does.
  method SecondPass(max: int, order: seq<Candidate>, stores0: seq<StoreDir>, before: seq<StoreDir>, r0: Report, hooks0: seq<Hook>, dry: bool, world: World)
    returns (stores: seq<StoreDir>, r: Report, ghost n: nat)
    requires Distinct(stores0) && Ascending(Older, order)
    requires Funded(stores0, 0, dry, r0, hooks0, order, before)
    requires world.clean ==> Evicting(stores0, max, 0, dry, r0, hooks0, order, before)
    requires !dry ==> Steady(stores0, r0, hooks0, before, world.unread) && Aged(stores0, 0, order, before, world.stuck)
    modifies world`clean, world`cancelled, world`stuck
    ensures r.remaining == Net(r) >= 0 && (dry ==> stores == stores0) && n <= |order|
    ensures r.remaining <= max || n == |order| || world.cancelled
    ensures world.clean ==> old(world.clean) && (r.remaining <= max || n == |order|)
    ensures world.clean ==> exists hooks :: Evicting(stores0, max, n, dry, r, hooks, order, stores)
    ensures !dry ==> Aged(stores0, n, order, stores, world.stuck) && exists hooks :: Steady(stores0, r, hooks, stores, world.unread)
  {
    hide *;
    stores, r := before, r0;
    var hooks, busy, stop, i := hooks0, {}, false, 0;
    FundedFacts(stores0, i, dry, r, hooks, order, stores);
    NoneBusy(stores0, world.stuck);
    while i < |order| && !stop && r.remaining > max
      invariant 0 <= i <= |order|
      invariant Funded(stores0, i, dry, r, hooks, order, stores)
      invariant BusyStuck(stores0, busy, world.stuck) && (stop ==> world.cancelled)
      invariant !dry ==> Steady(stores0, r, hooks, stores, world.unread) && Aged(stores0, i, order, stores, world.stuck)
      invariant r.remaining == Net(r) >= 0 && (dry ==> stores == stores0)
      invariant world.clean ==> old(world.clean) && !stop && busy == {}
      invariant world.clean ==> Evicting(stores0, max, i, dry, r, hooks, order, stores)
      decreases |order| - i, !stop
    {
      stop := world.Cancelled();
      if !stop {
        stores, r, hooks, busy, stop := EvictAt(i, stores0, max, order, stores, r, hooks, busy, dry, world);
        i := i + 1;
        FundedFacts(stores0, i, dry, r, hooks, order, stores);
      }
    }
    n := i;
  }

  lemma NoneBusy(stores0: seq<StoreDir>, stuck: set<Path>)
    ensures BusyStuck(stores0, {}, stuck)
  {
  }

  lemma EnterSecondPass(stores0: seq<StoreDir>, max: int, dry: bool, r: Report, hooks: seq<Hook>, candidates: seq<Candidate>, order: seq<Candidate>, stores: seq<StoreDir>)
    requires Sane(stores0, |stores0|, dry, r, hooks, candidates, stores)
    requires Ascending(Older, order) && Elements(order) == Elements(candidates)
    ensures Funded(stores0, 0, dry, r.(remaining := Net(r)), hooks, order, stores)
    ensures Exact(stores0, |stores0|, dry, r, hooks, candidates, stores) ==>
      Evicting(stores0, max, 0, dry, r.(remaining := Net(r)), hooks, order, stores)
  {
    hide Sum, HookBytes, CandidateBytes, RefsOnce, Tracks, PrunedStore, UsedBytes, Retained, Files, RetainedFiles, AbandonedCount;
    assert order[0..] == order && order[..0] == [] && stores0[..|stores0|] == stores0;
    assert Paths([]) == {};
    forall c ensures c in order <==> c in candidates {
      assert c in Elements(order) <==> c in Elements(candidates);
    }
  }

  // When the second pass ends, the evicted prefix is the shortest that fits: with every
  // candidate gone nothing is left to exceed the ceiling.
  lemma CutReached(stores0: seq<StoreDir>, max: int, n: nat, dry: bool, r: Report, hooks: seq<Hook>, order: seq<Candidate>, stores: seq<StoreDir>)
    requires Evicting(stores0, max, n, dry, r, hooks, order, stores) && max >= 0 && Retained(stores0, {}) > max
    requires r.remaining <= max || n == |order|
    ensures Outcome(stores0, max, dry, r, stores) && r.remaining <= max
  {
    hide Sum, Tracks, PrunedStore, UsedBytes, Retained, Files, RetainedFiles, AbandonedCount, AllTrack;
    if n == |order| {
      assert order[..n] == order;
      forall s, p | s in stores0 && !s.abandoned && p in s.records ensures p in Paths(order[..n]) {
        var i :| 0 <= i < |stores0| && stores0[i] == s;
        assert IsCandidate(stores0, Candidate(i, p, s.records[p].size, s.records[p].mod));
      }
      AllGone(stores0, Paths(order[..n]));
    }
    assert IsPrune(stores0, max, Paths(order[..n]));
  }

  lemma NothingCut(stores0: seq<StoreDir>, dry: bool, r: Report, hooks: seq<Hook>, candidates: seq<Candidate>, stores: seq<StoreDir>)
    requires Exact(stores0, |stores0|, dry, r, hooks, candidates, stores)
    ensures r.(remaining := Net(r)) == Expected(stores0, {})
    ensures stores == if dry then stores0 else Pruned(stores0, {})
  {
    hide Sum, Tracks, PrunedStore, UsedBytes, Retained, Files, RetainedFiles, AbandonedCount, AllTrack;
    assert stores0[..|stores0|] == stores0;
  }

  lemma SaneIsSafe(stores0: seq<StoreDir>, dry: bool, r: Report, hooks: seq<Hook>, candidates: seq<Candidate>, stores: seq<StoreDir>)
    requires Sane(stores0, |stores0|, dry, r, hooks, candidates, stores) && Distinct(stores0)
    ensures StrictOrder(Older) && TotalOn(Older, Elements(candidates))
    ensures forall a, b :: 0 <= a < b < |candidates| ==> candidates[a] != candidates[b]
  {
  }

  // A live record that a pass took, or left.
  ghost predicate Went(stores0: seq<StoreDir>, stores: seq<StoreDir>, i: nat, p: Path, mod: int)
    requires |stores| == |stores0|
  {
    Live(stores0, i, p, mod) && p !in stores[i].records
  }

  ghost predicate Stayed(stores0: seq<StoreDir>, stores: seq<StoreDir>, i: nat, p: Path, mod: int)
    requires |stores| == |stores0|
  {
    Live(stores0, i, p, mod) && p in stores[i].records
  }

  // A pass that is not dry, whatever fails in it and wherever it ends: the report has the bytes
  // and files that went; files only go, and no ledger that a live record left names, unless its
  // references could not be read; with no ceiling no live record goes, under one a record that
  // went is older than any left but the stuck, and what exceeds it at the end is stuck.
  ghost predicate Careful(stores0: seq<StoreDir>, max: int, r: Report, cancelled: bool, stores: seq<StoreDir>, unread: set<Path>, stuck: set<Path>)
  {
    && |stores| == |stores0|
    && r.reclaimed == UsedBytes(stores0) - UsedBytes(stores) && r.removedFiles == Files(stores0) - Files(stores)
    && (forall i :: 0 <= i < |stores| ==> Spares(stores0[i], stores[i], unread))
    && (forall i: nat, p, m :: Went(stores0, stores, i, p, m) ==> max >= 0)
    && (forall i: nat, p, m, j: nat, q, n :: Went(stores0, stores, i, p, m) && Stayed(stores0, stores, j, q, n) && q !in stuck ==>
          m < n || (m == n && p < q))
    && (max >= 0 && r.remaining > max && !cancelled ==> forall j: nat, q, n :: Stayed(stores0, stores, j, q, n) ==> q in stuck)
  }

  lemma CarefulSurvey(stores0: seq<StoreDir>, max: int, r: Report, cancelled: bool, hooks: seq<Hook>, candidates: seq<Candidate>, stores: seq<StoreDir>,
                      unread: set<Path>, stuck: set<Path>)
    requires Steady(stores0, r, hooks, stores, unread) && Whole(stores0, |hooks|, candidates, stores, stuck)
    requires max < 0 || r.remaining <= max || cancelled
    ensures Careful(stores0, max, r, cancelled, stores, unread, stuck)
  {
    hide Spares, Fits, UsedBytes, Files, IsCandidate;
    forall i: nat, p, m | Live(stores0, i, p, m) ensures !Went(stores0, stores, i, p, m) {
      assert stores[i].records == stores0[i].records;
    }
  }

  lemma CarefulEvictions(stores0: seq<StoreDir>, max: int, r: Report, cancelled: bool, n: nat, order: seq<Candidate>, hooks: seq<Hook>, stores: seq<StoreDir>,
                         unread: set<Path>, stuck: set<Path>)
    requires Steady(stores0, r, hooks, stores, unread) && Aged(stores0, n, order, stores, stuck)
    requires Ascending(Older, order) && max >= 0 && (r.remaining <= max || n == |order| || cancelled)
    ensures Careful(stores0, max, r, cancelled, stores, unread, stuck)
  {
    hide Spares, Fits, UsedBytes, Files, Ascending;
    forall i: nat, p, m, j: nat, q, k | Went(stores0, stores, i, p, m) && Stayed(stores0, stores, j, q, k) && q !in stuck
      ensures m < k || (m == k && p < q)
    {
      var a, b := Candidate(i, p, stores0[i].records[p].size, m), Candidate(j, q, stores0[j].records[q].size, k);
      assert IsCandidate(stores0, a) && IsCandidate(stores0, b);
      OrderedAcross(order, n, a, b);
    }
    if n == |order| {
      assert order[..n] == order;
      forall j: nat, q, k | Stayed(stores0, stores, j, q, k) ensures q in stuck {
        assert IsCandidate(stores0, Candidate(j, q, stores0[j].records[q].size, k));
      }
    }
  }

  lemma OrderedAcross(order: seq<Candidate>, n: nat, a: Candidate, b: Candidate)
    requires Ascending(Older, order) && n <= |order| && a in order[..n] && b in order && b !in order[..n]
    ensures a.mod < b.mod || (a.mod == b.mod && a.path < b.path)
  {
    assert order == order[..n] + order[n..];
    var i :| 0 <= i < n && order[..n][i] == a;
    var j :| 0 <= j < |order| - n && order[n..][j] == b;
    assert Older(order[i], order[n + j]);
  }

  class Cache {
    var stores: seq<StoreDir>

    constructor (stores: seq<StoreDir>)
      ensures this.stores == stores
    {
      this.stores := stores;
    }

    // One usage, preview or reclamation pass. On every exit its books balance and, unless it is
    // dry, it has been careful; undisturbed, its report and the disk it leaves are those of the
    // one prefix the ceiling asks for, and a dry run differs only in leaving the disk alone.
    method PruneKind(max: int, dry: bool, world: World) returns (r: Report, cancelled: bool)
      requires Distinct(stores)
      modifies this, world
      ensures r.remaining == r.used - r.reclaimed && r.remaining >= 0
      ensures dry ==> stores == old(stores)
      ensures !dry ==> Careful(old(stores), max, r, cancelled, stores, world.unread, world.stuck)
      ensures world.clean ==> old(world.clean) && !cancelled
      ensures world.clean ==> Outcome(old(stores), max, dry, r, stores)
      ensures world.clean && max >= 0 ==> r.remaining <= max
    {
      hide *;
      r := Report(0, 0, 0, 0, 0, 0, 0);
      var stores0 := stores;
      cancelled := world.Cancelled();
      if cancelled {
        NetIs(r);
        SteadyBegins(stores0, world.unread, world.stuck);
        CarefulSurvey(stores0, max, r, cancelled, [], [], stores, world.unread, world.stuck);
        return;
      }
      var hooks, candidates;
      stores, r, hooks, candidates, cancelled := FirstPass(stores0, dry, world);
      var surveyed := r;
      r := r.(remaining := r.used - r.reclaimed);
      NetIs(surveyed);
      SaneFacts(stores0, |hooks|, dry, surveyed, hooks, candidates, stores);
      if !dry {
        SteadyRefused(stores0, surveyed, hooks, stores, world.unread, r);
      }
      if cancelled {
        if !dry {
          CarefulSurvey(stores0, max, r, cancelled, hooks, candidates, stores, world.unread, world.stuck);
        }
        return;
      }
      if world.clean {
        NothingCut(stores0, dry, surveyed, hooks, candidates, stores);
      }
      if max < 0 || r.remaining <= max {
        if world.clean {
          Unevicted(stores0, max, dry, r, stores);
        }
        cancelled := world.Cancelled();
        if !dry {
          CarefulSurvey(stores0, max, r, cancelled, hooks, candidates, stores, world.unread, world.stuck);
        }
        return;
      }
      SaneIsSafe(stores0, dry, surveyed, hooks, candidates, stores);
      var order := Sort(Older, candidates);
      RemainingIs(stores0, r);
      EnterSecondPass(stores0, max, dry, surveyed, hooks, candidates, order, stores);
      if !dry {
        AgedBegins(stores0, candidates, order, stores, world.stuck);
      }
      r, cancelled := EvictDown(max, order, stores0, r, hooks, dry, world);
    }

    method EvictDown(max: int, order: seq<Candidate>, stores0: seq<StoreDir>, r0: Report, hooks: seq<Hook>, dry: bool, world: World)
      returns (r: Report, cancelled: bool)
      requires Distinct(stores0) && Ascending(Older, order) && max >= 0
      requires !dry ==> Steady(stores0, r0, hooks, stores, world.unread) && Aged(stores0, 0, order, stores, world.stuck)
      requires Funded(stores0, 0, dry, r0, hooks, order, stores)
      requires world.clean ==> Evicting(stores0, max, 0, dry, r0, hooks, order, stores) && Retained(stores0, {}) > max
      modifies this, world
      ensures r.remaining == r.used - r.reclaimed && r.remaining >= 0
      ensures dry ==> stores == stores0
      ensures !dry ==> Careful(stores0, max, r, cancelled, stores, world.unread, world.stuck)
      ensures world.clean ==> old(world.clean) && !cancelled && r.remaining <= max
      ensures world.clean ==> Outcome(stores0, max, dry, r, stores)
    {
      hide *;
      ghost var n;
      stores, r, n := SecondPass(max, order, stores0, stores, r0, hooks, dry, world);
      NetIs(r);
      if world.clean {
        ghost var h :| Evicting(stores0, max, n, dry, r, h, order, stores);
        CutReached(stores0, max, n, dry, r, h, order, stores);
      }
      cancelled := world.Cancelled();
      if !dry {
        ghost var h :| Steady(stores0, r, h, stores, world.unread);
        CarefulEvictions(stores0, max, r, cancelled, n, order, h, stores, world.unread, world.stuck);
      }
    }
  }

  lemma NetIs(r: Report)
    ensures Net(r) == r.used - r.reclaimed
  {
  }

  lemma Unevicted(stores0: seq<StoreDir>, max: int, dry: bool, r: Report, stores: seq<StoreDir>)
    requires r == Expected(stores0, {}) && (max < 0 || r.remaining <= max)
    requires stores == if dry then stores0 else Pruned(stores0, {})
    ensures Outcome(stores0, max, dry, r, stores)
  {
  }

  lemma RemainingIs(stores0: seq<StoreDir>, r: Report)
    ensures r == Expected(stores0, {}) ==> r.remaining == Retained(stores0, {})
  {
  }

  // ----- what follows for every pass -----

  // A preview and the pass it previews report the same.
  lemma PreviewIsPass(stores: seq<StoreDir>, max: int, preview: Report, after: seq<StoreDir>, pass: Report, after': seq<StoreDir>)
    requires Outcome(stores, max, true, preview, after) && Outcome(stores, max, false, pass, after')
    ensures preview == pass && after == stores
  {
    hide Expected, IsPrune;
    var a :| IsPrune(stores, max, a) && preview == Expected(stores, a);
    var b :| IsPrune(stores, max, b) && pass == Expected(stores, b);
    PruneUnique(stores, max, a, b);
  }

  // After a pass every ledger left is named by a record left, and no record left lost a ledger.
  lemma LedgersLeftAreNamed(s: StoreDir, gone: set<Path>, k: Key)
    requires !s.abandoned
    ensures var s' := PrunedStore(s, gone);
      k in s'.ledgers <==> k in s.ledgers && exists p :: p in s'.records && k in s'.records[p].keys
  {
    if k in s.ledgers && Namers(s, gone, k) != {} {
      var p :| p in Namers(s, gone, k);
      assert p in PrunedStore(s, gone).records;
    }
    forall p | p in PrunedStore(s, gone).records && k in PrunedStore(s, gone).records[p].keys ensures p in Namers(s, gone, k) {
    }
  }

  lemma PrunedKeeps(s: StoreDir, gone: set<Path>)
    ensures var s' := PrunedStore(s, gone);
      && KeptBytes(s', {}) == KeptBytes(s, gone) == StoreBytes(s')
      && KeptFiles(s', {}) == KeptFiles(s, gone) == |s'.records| + |s'.ledgers|
      && PrunedStore(s', {}) == s'
  {
    var s' := PrunedStore(s, gone);
    if !s.abandoned {
      assert Sizes(s', {}) == Sizes(s, gone);
      assert forall k :: Namers(s', {}, k) == Namers(s, gone, k);
      assert NamedLedgers(s', {}) == s'.ledgers;
    } else {
      assert Sizes(s', {}) == map[] && NamedLedgers(s', {}) == map[];
    }
    assert Sizes(s', {}).Keys == s'.records.Keys;
    assert PrunedStore(s', {}).records == s'.records;
  }

  lemma {:induction false} PrunedTotals(stores: seq<StoreDir>, gone: set<Path>)
    ensures var after := Pruned(stores, gone);
      && Retained(after, {}) == Retained(stores, gone) == UsedBytes(after)
      && RetainedFiles(after, {}) == RetainedFiles(stores, gone) == Files(after)
      && AbandonedCount(after) == 0 && Pruned(after, {}) == after
  {
    if stores != [] {
      hide KeptBytes, KeptFiles, StoreBytes, Sum;
      var n := |stores| - 1;
      PrunedTotals(stores[..n], gone);
      PrunedKeeps(stores[n], gone);
      assert Pruned(stores, gone)[..n] == Pruned(stores[..n], gone);
    }
  }

  // A second pass under the same ceiling uses what the first left and reclaims nothing.
  lemma SecondRunIsIdle(stores: seq<StoreDir>, max: int, dry: bool, first: Report, after: seq<StoreDir>, second: Report, after': seq<StoreDir>)
    requires Outcome(stores, max, false, first, after) && Outcome(after, max, dry, second, after')
    ensures second == Report(first.remaining, 0, first.remaining, 0, 0, 0, 0) && after' == after
  {
    var gone :| IsPrune(stores, max, gone) && first == Expected(stores, gone) && after == Pruned(stores, gone);
    PrunedTotals(stores, gone);
    assert IsPrune(after, max, {});
    var again :| IsPrune(after, max, again) && second == Expected(after, again)
      && after' == if dry then after else Pruned(after, again);
    PruneUnique(after, max, {}, again);
  }

  // What a pass leaves on every exit, store by store and record by record.
  lemma CarefulMeans(stores0: seq<StoreDir>, max: int, r: Report, cancelled: bool, stores: seq<StoreDir>, unread: set<Path>, stuck: set<Path>)
    requires Careful(stores0, max, r, cancelled, stores, unread, stuck)
    ensures |stores| == |stores0|
    ensures forall i, p :: 0 <= i < |stores| && p in stores[i].records ==> p in stores0[i].records && stores[i].records[p] == stores0[i].records[p]
    ensures forall i, k :: 0 <= i < |stores| && k in stores[i].ledgers ==> k in stores0[i].ledgers && stores[i].ledgers[k] == stores0[i].ledgers[k]
    ensures forall i, p, k | 0 <= i < |stores| && !stores0[i].abandoned && p in stores[i].records && p !in unread ::
      k in stores[i].records[p].keys && k in stores0[i].ledgers ==> k in stores[i].ledgers
    ensures max < 0 ==> forall i :: 0 <= i < |stores| && !stores0[i].abandoned ==> stores[i].records.Keys == stores0[i].records.Keys
    ensures forall i, p, j, q | 0 <= i < |stores| && !stores0[i].abandoned && p in stores0[i].records && p !in stores[i].records
      && 0 <= j < |stores| && !stores0[j].abandoned && q in stores[j].records && q !in stuck ::
        stores0[i].records[p].mod < stores[j].records[q].mod || (stores0[i].records[p].mod == stores[j].records[q].mod && p < q)
    ensures 0 <= max < r.remaining && !cancelled ==>
      forall j :: 0 <= j < |stores| && !stores0[j].abandoned ==> stores[j].records.Keys <= stuck
  {
    hide UsedBytes, Files;
    forall i, p | 0 <= i < |stores| && !stores0[i].abandoned && p in stores0[i].records
      ensures if p in stores[i].records then Stayed(stores0, stores, i, p, stores0[i].records[p].mod)
              else Went(stores0, stores, i, p, stores0[i].records[p].mod)
    {
    }
  }

  // ----- what a pass evicts, in the records' own terms -----

  // A record of a store that is not abandoned, with its age.
  ghost predicate Live(stores: seq<StoreDir>, i: nat, p: Path, mod: int)
  {
    i < |stores| && !stores[i].abandoned && p in stores[i].records && stores[i].records[p].mod == mod
  }

  // Only live records go, and with one every live record older than it, paths breaking ties.
  ghost predicate OldestFirst(stores: seq<StoreDir>, gone: set<Path>)
  {
    && (forall p :: p in gone ==> exists i: nat, mod :: Live(stores, i, p, mod))
    && forall i: nat, p, m, j: nat, q, n :: Live(stores, i, p, m) && Live(stores, j, q, n) && p in gone ==>
         q in gone || m < n || (m == n && p <= q)
  }

  // The least such set whose eviction meets the ceiling.
  ghost predicate LeastEviction(stores: seq<StoreDir>, max: int, gone: set<Path>)
  {
    && OldestFirst(stores, gone) && Retained(stores, gone) <= max
    && forall less: set<Path> :: less < gone && OldestFirst(stores, less) ==> Retained(stores, less) > max
  }

  function Candidates(stores: seq<StoreDir>): set<Candidate>
  {
    set i, p | 0 <= i < |stores| && p in stores[i].records && !stores[i].abandoned
      :: Candidate(i, p, stores[i].records[p].size, stores[i].records[p].mod)
  }

  lemma OlderIsOrder(cs: set<Candidate>)
    requires forall a, b :: a in cs && b in cs && a != b ==> a.path != b.path
    ensures StrictOrder(Older) && TotalOn(Older, cs)
  {
  }

  lemma OrderExists(stores: seq<StoreDir>) returns (order: seq<Candidate>)
    requires Distinct(stores)
    ensures IsOrder(stores, order)
  {
    var cs := Candidates(stores);
    forall c ensures c in cs <==> IsCandidate(stores, c) {
      if IsCandidate(stores, c) {
        assert c == Candidate(c.store, c.path, stores[c.store].records[c.path].size, stores[c.store].records[c.path].mod);
      }
    }
    OlderIsOrder(cs);
    order := Arrange(Older, cs);
    forall c ensures c in order <==> IsCandidate(stores, c) {
      assert c in Elements(order) <==> c in order;
    }
  }

  // In an order of the live records, a prefix takes with a record every older one.
  lemma PrefixIsOldestFirst(stores: seq<StoreDir>, order: seq<Candidate>, n: nat)
    requires Distinct(stores) && IsOrder(stores, order) && n <= |order|
    ensures OldestFirst(stores, Paths(order[..n]))
  {
    var gone := Paths(order[..n]);
    forall p | p in gone ensures exists i: nat, mod :: Live(stores, i, p, mod) {
      var c :| c in order[..n] && c.path == p;
      assert c in order && Live(stores, c.store, p, c.mod);
    }
    forall i: nat, p, m, j: nat, q, k | Live(stores, i, p, m) && Live(stores, j, q, k) && p in gone && q !in gone
      ensures m < k || (m == k && p <= q)
    {
      var a :| a in order[..n] && a.path == p;
      var b := Candidate(j, q, stores[j].records[q].size, k);
      assert a in order && IsCandidate(stores, a);
      SameStore(stores, a, i, p);
      assert IsCandidate(stores, b) && b in order;
      OrderedAcross(order, n, a, b);
    }
  }

  lemma SameStore(stores: seq<StoreDir>, c: Candidate, i: nat, p: Path)
    requires Distinct(stores) && IsCandidate(stores, c) && c.path == p && i < |stores| && p in stores[i].records
    ensures c.store == i && c.mod == stores[i].records[p].mod
  {
  }

  // And every such set is a prefix.
  lemma OldestFirstIsPrefix(stores: seq<StoreDir>, order: seq<Candidate>, gone: set<Path>) returns (n: nat)
    requires Distinct(stores) && IsOrder(stores, order) && OldestFirst(stores, gone)
    ensures n <= |order| && gone == Paths(order[..n])
  {
    n := 0;
    while n < |order| && order[n].path in gone
      invariant n <= |order| && forall k :: 0 <= k < n ==> order[k].path in gone
    {
      n := n + 1;
    }
    forall p | p in gone ensures p in Paths(order[..n]) {
      var i: nat, mod :| Live(stores, i, p, mod);
      var c := Candidate(i, p, stores[i].records[p].size, mod);
      assert IsCandidate(stores, c) && c in order;
      var k :| 0 <= k < |order| && order[k] == c;
      if k >= n {
        NotPast(stores, order, gone, n, k);
      }
      assert order[..n][k] == c;
    }
    forall p | p in Paths(order[..n]) ensures p in gone {
      var c :| c in order[..n] && c.path == p;
    }
  }

  lemma NotPast(stores: seq<StoreDir>, order: seq<Candidate>, gone: set<Path>, n: nat, k: nat)
    requires Distinct(stores) && IsOrder(stores, order) && OldestFirst(stores, gone)
    requires n <= k < |order| && order[n].path !in gone
    ensures order[k].path !in gone
  {
    var a, b := order[n], order[k];
    assert a in order && b in order;
    assert Live(stores, a.store, a.path, a.mod) && Live(stores, b.store, b.path, b.mod);
    assert n < k ==> Older(a, b);
  }

  // What a pass under a ceiling that its bytes exceed evicts: the least oldest-first set of live
  // records that meets it, and nothing else.
  lemma PruneIsLeastEviction(stores: seq<StoreDir>, max: int, gone: set<Path>)
    requires Distinct(stores) && 0 <= max < Retained(stores, {})
    ensures IsPrune(stores, max, gone) <==> LeastEviction(stores, max, gone)
  {
    hide Retained, OldestFirst;
    if IsPrune(stores, max, gone) {
      var order, n: nat :| IsOrder(stores, order) && IsCut(stores, max, order, n) && gone == Paths(order[..n]);
      PrefixIsOldestFirst(stores, order, n);
      forall less: set<Path> | less < gone && OldestFirst(stores, less) ensures Retained(stores, less) > max {
        var m := OldestFirstIsPrefix(stores, order, less);
        ShorterPrefix(order, m, n);
      }
    }
    if LeastEviction(stores, max, gone) {
      var order := OrderExists(stores);
      var n := OldestFirstIsPrefix(stores, order, gone);
      OrderPaths(stores, order);
      forall m: nat | m < n ensures Retained(stores, Paths(order[..m])) > max {
        PrefixIsOldestFirst(stores, order, m);
        PrefixSmaller(order, m, n);
      }
      assert IsCut(stores, max, order, n);
    }
  }

  lemma ShorterPrefix(order: seq<Candidate>, m: nat, n: nat)
    requires m <= |order| && n <= |order| && Paths(order[..m]) < Paths(order[..n])
    ensures m < n
  {
  }

  lemma OrderPaths(stores: seq<StoreDir>, order: seq<Candidate>)
    requires Distinct(stores) && IsOrder(stores, order)
    ensures forall i, j :: 0 <= i < j < |order| ==> order[i].path != order[j].path
  {
    forall i, j | 0 <= i < j < |order| ensures order[i].path != order[j].path {
      var a, b := order[i], order[j];
      assert a in order && b in order && Older(a, b);
      if a.path == b.path {
        SameStore(stores, a, b.store, b.path);
      }
    }
  }

  lemma PrefixSmaller(order: seq<Candidate>, m: nat, n: nat)
    requires m < n <= |order| && forall i, j :: 0 <= i < j < |order| ==> order[i].path != order[j].path
    ensures Paths(order[..m]) < Paths(order[..n])
  {
    forall p | p in Paths(order[..m]) ensures p in Paths(order[..n]) {
      var c :| c in order[..m] && c.path == p;
      var k :| 0 <= k < m && order[..m][k] == c;
      assert order[..n][k] == c;
    }
    assert order[m] in order[..n] by { assert order[..n][m] == order[m]; }
    forall c | c in order[..m] ensures c.path != order[m].path {
      var k :| 0 <= k < m && order[..m][k] == c;
    }
    assert order[m].path in Paths(order[..n]) && order[m].path !in Paths(order[..m]);
  }

  // On the disk an undisturbed pass leaves: a record that went from a live store is older than
  // every record left in one, and of equal age only when its path comes first.
  lemma EvictedAreOlder(stores: seq<StoreDir>, max: int, r: Report, after: seq<StoreDir>, i: nat, p: Path, j: nat, q: Path)
    requires Distinct(stores) && Outcome(stores, max, false, r, after)
    requires i < |stores| && !stores[i].abandoned && p in stores[i].records && p !in after[i].records
    requires j < |stores| && q in after[j].records
    ensures !stores[j].abandoned && q in stores[j].records && after[j].records[q] == stores[j].records[q]
    ensures stores[i].records[p].mod < stores[j].records[q].mod || (stores[i].records[p].mod == stores[j].records[q].mod && p < q)
  {
    hide Retained, Expected, OldestFirst, IsPrune, Distinct, Pruned;
    var gone :| IsPrune(stores, max, gone) && after == Pruned(stores, gone);
    RecordsLeft(stores, gone, i, p);
    RecordsLeft(stores, gone, j, q);
    PruneOldestFirst(stores, max, gone);
    AgeOf(stores, gone, i, p, j, q);
  }

  lemma RecordsLeft(stores: seq<StoreDir>, gone: set<Path>, i: nat, p: Path)
    requires i < |stores|
    ensures var s, after := stores[i], Pruned(stores, gone)[i].records;
      && (p in after <==> !s.abandoned && p in s.records && p !in gone)
      && (p in after ==> after[p] == s.records[p])
  {
  }

  lemma PruneOldestFirst(stores: seq<StoreDir>, max: int, gone: set<Path>)
    requires Distinct(stores) && IsPrune(stores, max, gone)
    ensures OldestFirst(stores, gone)
  {
    hide Retained, Distinct;
    if gone != {} {
      PruneIsLeastEviction(stores, max, gone);
    }
  }

  lemma AgeOf(stores: seq<StoreDir>, gone: set<Path>, i: nat, p: Path, j: nat, q: Path)
    requires OldestFirst(stores, gone) && p in gone && q !in gone
    requires i < |stores| && !stores[i].abandoned && p in stores[i].records
    requires j < |stores| && !stores[j].abandoned && q in stores[j].records
    ensures stores[i].records[p].mod < stores[j].records[q].mod || (stores[i].records[p].mod == stores[j].records[q].mod && p < q)
  {
    assert Live(stores, i, p, stores[i].records[p].mod) && Live(stores, j, q, stores[j].records[q].mod);
  }
}
