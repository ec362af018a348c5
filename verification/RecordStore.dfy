/** One record kind's directory for one corpus (internal/recordstore/recordstore.go): the
    recency-ordered scan, the install bounded per identity, and the collection walks.

    A directory is the map of its record files; install temporaries, dot-files and
    sub-directories are no record files and are not in it. The store reads two things of a
    file name, its byte order and its identity segment, so it is written for any name type
    with those two; STRING_NAMES is the one the repository uses. The contents of a file are a
    number: a walk hands them to its caller and reads nothing of them. */
module RecordStore {
  import opened Basics
  import opened Ordering

  datatype Naming<!N, !I> = Naming(less: (N, N) -> bool, identity: N -> I)

  type Data = nat

  datatype File = File(mod: int, data: Data)
  datatype Entry<N> = Entry(name: N, data: Data)
  type Dir<!N> = map<N, File>

  ghost predicate Ordered<N(!new), I>(naming: Naming<N, I>)
  {
    StrictOrder(naming.less) && forall a, b :: a != b ==> naming.less(a, b) || naming.less(b, a)
  }

  // The identity segment a file name carries: the part before the first dash, "" without one.
  function IdentityOf(name: string): string
  {
    var d := FirstDash(name);
    if d == |name| then "" else name[..d]
  }

  function FirstDash(s: string): (d: nat)
    ensures d <= |s| && '-' !in s[..d] && (d < |s| ==> s[d] == '-')
  {
    if |s| == 0 || s[0] == '-' then 0
    else
      var d := FirstDash(s[1..]);
      assert s[..d + 1] == [s[0]] + s[1..][..d];
      d + 1
  }

  const STRING_NAMES := Naming(Less, IdentityOf)

  // A name built as an identity digest, a dash and a fingerprint digest gives its identity back.
  lemma StringNamesOrdered(identity: string, rest: string)
    ensures Ordered(STRING_NAMES)
    ensures '-' !in identity ==> STRING_NAMES.identity(identity + "-" + rest) == identity
  {
    LessIsStrictOrder();
    forall a: string, b: string | a != b ensures Less(a, b) || Less(b, a) { LessTotal(a, b); }
    var name := identity + "-" + rest;
    assert name[|identity|] == '-' && name[..|identity|] == identity;
  }

  function Mod<N(==, !new)>(files: Dir<N>, name: N): int
  {
    if name in files then files[name].mod else 0
  }

  // The scan's order: newest first, names breaking ties.
  predicate Newer<N(==, !new), I>(naming: Naming<N, I>, files: Dir<N>, a: N, b: N)
  {
    Mod(files, a) > Mod(files, b) || (Mod(files, a) == Mod(files, b) && naming.less(a, b))
  }

  // The file is there, and so is the other, later modified or as late and first by name.
  ghost predicate YoungerFile<N(!new), I>(naming: Naming<N, I>, files: Dir<N>, a: N, b: N)
  {
    a in files && b in files && (files[a].mod > files[b].mod || (files[a].mod == files[b].mod && naming.less(a, b)))
  }

  lemma Younger<N(!new), I>(naming: Naming<N, I>, files: Dir<N>, names: seq<N>)
    requires Ascending(ByRecency(naming, files), names) && Elements(names) == files.Keys
    ensures forall i, j :: 0 <= i < j < |names| ==> YoungerFile(naming, files, names[i], names[j])
  {
    forall i, j | 0 <= i < j < |names| ensures YoungerFile(naming, files, names[i], names[j]) {
      assert names[i] in Elements(names) && names[j] in Elements(names);
      assert ByRecency(naming, files)(names[i], names[j]);
    }
  }

  // The last position of the batch that writes name, -1 when none does.
  function LastIndex<N(==, !new)>(entries: seq<Entry<N>>, name: N): (i: int)
    ensures -1 <= i < |entries|
    ensures i >= 0 ==> entries[i].name == name
    ensures forall j :: i < j < |entries| ==> entries[j].name != name
  {
    if entries == [] then -1
    else if entries[|entries| - 1].name == name then |entries| - 1
    else LastIndex(entries[..|entries| - 1], name)
  }

  // Recency over an install: the batch latest first, then the prior files newest first.
  predicate Outranks<N(==, !new), I>(naming: Naming<N, I>, entries: seq<Entry<N>>, prior: Dir<N>, a: N, b: N)
  {
    var la, lb := LastIndex(entries, a), LastIndex(entries, b);
    la > lb || (la == -1 && lb == -1 && Newer(naming, prior, a, b))
  }

  function Names<N(==, !new)>(entries: seq<Entry<N>>): (r: set<N>)
    ensures forall n :: n in r <==> LastIndex(entries, n) >= 0
  {
    if entries == [] then {}
    else Names(entries[..|entries| - 1]) + {entries[|entries| - 1].name}
  }

  function Touched<N(==, !new), I>(naming: Naming<N, I>, entries: seq<Entry<N>>): set<I>
  {
    set n | n in Names(entries) :: naming.identity(n)
  }

  // The files of name's identity that rank above it once the batch is written.
  function Rivals<N(==, !new), I(==)>(naming: Naming<N, I>, entries: seq<Entry<N>>, prior: Dir<N>, name: N): set<N>
  {
    set m | m in prior.Keys + Names(entries)
            && naming.identity(m) == naming.identity(name) && Outranks(naming, entries, prior, m, name)
  }

  // What a completed install leaves: every file of an untouched identity, and of a touched
  // one the files that fewer than bound rivals outrank.
  predicate Survives<N(==, !new), I(==)>(naming: Naming<N, I>, bound: int, entries: seq<Entry<N>>, prior: Dir<N>, name: N)
  {
    && name in prior.Keys + Names(entries)
    && (naming.identity(name) in Touched(naming, entries) ==> |Rivals(naming, entries, prior, name)| < bound)
  }

  function ByRecency<N(==, !new), I>(naming: Naming<N, I>, files: Dir<N>): (N, N) -> bool
  {
    (a, b) => Newer(naming, files, a, b)
  }

  function ByRank<N(==, !new), I>(naming: Naming<N, I>, entries: seq<Entry<N>>, prior: Dir<N>): (N, N) -> bool
  {
    (a, b) => Outranks(naming, entries, prior, a, b)
  }

  lemma RecencyIsOrder<N(!new), I>(naming: Naming<N, I>, files: Dir<N>, s: set<N>)
    requires Ordered(naming)
    ensures StrictOrder(ByRecency(naming, files)) && TotalOn(ByRecency(naming, files), s)
  {
  }

  lemma RankIsOrder<N(!new), I>(naming: Naming<N, I>, entries: seq<Entry<N>>, prior: Dir<N>)
    requires Ordered(naming)
    ensures StrictOrder(ByRank(naming, entries, prior))
  {
    forall a, b, c | Outranks(naming, entries, prior, a, b) && Outranks(naming, entries, prior, b, c)
      ensures Outranks(naming, entries, prior, a, c)
    {
    }
    forall a ensures !Outranks(naming, entries, prior, a, a) {
      assert !naming.less(a, a);
    }
  }

  lemma RankDistinct<N(!new), I>(naming: Naming<N, I>, entries: seq<Entry<N>>, prior: Dir<N>, rank: seq<N>)
    requires Ordered(naming) && Ascending(ByRank(naming, entries, prior), rank)
    ensures forall i, j :: 0 <= i < j < |rank| ==> rank[i] != rank[j]
  {
    RankIsOrder(naming, entries, prior);
    AscendingDistinct(ByRank(naming, entries, prior), rank);
  }

  lemma OutranksAsymmetric<N(!new), I>(naming: Naming<N, I>, entries: seq<Entry<N>>, prior: Dir<N>, a: N, b: N)
    requires Ordered(naming)
    ensures !(Outranks(naming, entries, prior, a, b) && Outranks(naming, entries, prior, b, a))
  {
    RankIsOrder(naming, entries, prior);
    var less := ByRank(naming, entries, prior);
    assert !less(a, a) && (less(a, b) && less(b, a) ==> less(a, a));
  }

  lemma ScanDistinct<N(!new), I>(naming: Naming<N, I>, files: Dir<N>, names: seq<N>)
    requires Ordered(naming) && Ascending(ByRecency(naming, files), names)
    ensures forall i, j :: 0 <= i < j < |names| ==> names[i] != names[j]
    ensures |Elements(names)| == |names|
  {
    RecencyIsOrder(naming, files, {});
    AscendingDistinct(ByRecency(naming, files), names);
  }

  lemma Append<N(!new)>(done: seq<Entry<N>>, e: Entry<N>)
    ensures Names(done + [e]) == Names(done) + {e.name}
    ensures LastIndex(done + [e], e.name) == |done|
    ensures forall n :: n != e.name ==> LastIndex(done + [e], n) == LastIndex(done, n)
  {
    assert (done + [e])[..|done|] == done;
  }

  class Store<N(==, !new), I(==, !new)> {
    const naming: Naming<N, I>
    var files: Dir<N>
    var now: int

    constructor (naming: Naming<N, I>, files: Dir<N>, now: int)
      ensures this.naming == naming && this.files == files && this.now == now
    {
      this.naming, this.files, this.now := naming, files, now;
    }

    // The record files, newest first with names breaking ties.
    method Scan() returns (names: seq<N>)
      requires Ordered(naming)
      ensures Ascending(ByRecency(naming, files), names)
      ensures Elements(names) == files.Keys
      ensures forall i, j :: 0 <= i < j < |names| ==> YoungerFile(naming, files, names[i], names[j])
    {
      var listing: seq<N> := [];
      var left := files.Keys;
      while left != {}
        invariant left <= files.Keys && Elements(listing) == files.Keys - left
        invariant forall i, j :: 0 <= i < j < |listing| ==> listing[i] != listing[j]
        decreases left
      {
        var n :| n in left;
        ElementsAppend(listing, n);
        assert n !in Elements(listing);
        listing, left := listing + [n], left - {n};
      }
      RecencyIsOrder(naming, files, files.Keys);
      names := Sort(ByRecency(naming, files), listing);
      Younger(naming, files, names);
    }

    // Lands one file under its name: the clock never goes back.
    method Write(name: N, data: Data)
      modifies this
      ensures now >= old(now) && files == old(files)[name := File(now, data)]
    {
      var tick :| tick >= now;
      now := tick;
      files := files[name := File(now, data)];
    }

    // Install lands every entry, then bounds each touched identity's variants; the write at
    // index fault fails, when there is one, and what landed before it stays.
    method Install(bound: int, entries: seq<Entry<N>>, fault: nat) returns (ok: bool)
      requires Ordered(naming)
      modifies this
      ensures ok == (fault >= |entries|)
      ensures ok && entries == [] ==> files == old(files)
      ensures ok && entries != [] ==> forall n :: n in files <==> Survives(naming, bound, entries, old(files), n)
      ensures !ok ==> files.Keys == old(files).Keys + Names(entries[..fault])
      ensures CarriedKept(old(files), if ok then entries else entries[..fault], files, old(now), now)
    {
      hide *;
      NothingCarried(files, now);
      if entries == [] {
        return true;
      }
      ghost var prior := files;
      var written := WriteAll(entries, fault);
      WrittenCarried(prior, entries[..written], files, old(now), now);
      if written < |entries| {
        return false;
      }
      assert entries[..written] == entries;
      var rank := Rank(entries, prior);
      RankDistinct(naming, entries, prior, rank);
      var evicted := Excess(bound, entries, rank);
      Installed(naming, bound, entries, prior, rank, files, evicted);
      FewerCarried(prior, entries, files, evicted, old(now), now);
      files := files - evicted;
      return true;
    }

    method WriteAll(entries: seq<Entry<N>>, fault: nat) returns (written: nat)
      modifies this
      ensures written == if fault < |entries| then fault else |entries|
      ensures Carried(old(files), entries[..written], files, old(now), now)
    {
      hide *;
      written := 0;
      CarryStart(files, entries, now);
      while written < |entries| && written != fault
        invariant 0 <= written <= |entries| && written <= fault && now >= old(now)
        invariant Carried(old(files), entries[..written], files, old(now), now)
      {
        assert entries[..written + 1] == entries[..written] + [entries[written]];
        ghost var before, earlier := files, now;
        Write(entries[written].name, entries[written].data);
        CarryOne(old(files), entries[..written], entries[written], before, old(now), earlier, now);
        written := written + 1;
      }
    }

    // The recency ranking: the batch backwards without repeats, then the scan without the batch.
    method Rank(entries: seq<Entry<N>>, ghost prior: Dir<N>) returns (rank: seq<N>)
      requires Ordered(naming)
      requires files.Keys == prior.Keys + Names(entries)
      requires forall n :: n in files && LastIndex(entries, n) < 0 ==> n in prior && files[n] == prior[n]
      ensures Ascending(ByRank(naming, entries, prior), rank)
      ensures Elements(rank) == files.Keys
    {
      var batch := BatchBackwards(entries, prior);
      var scanned := Scan();
      var rest := Unwritten(entries, scanned);
      rank := batch + rest;
      forall j, k | 0 <= j < k < |rank|
        ensures Outranks(naming, entries, prior, rank[j], rank[k])
      {
        assert j < |batch| ==> rank[j] in batch;
        assert k >= |batch| ==> rank[k] in rest && rank[k] in Elements(scanned);
        if j >= |batch| {
          assert ByRecency(naming, files)(rest[j - |batch|], rest[k - |batch|]);
          assert rank[j] in rest && rank[j] in Elements(scanned);
        } else if k < |batch| {
          assert ByRank(naming, entries, prior)(batch[j], batch[k]);
        }
      }
      forall n ensures n in Elements(rank) <==> n in files.Keys {
        assert n in Elements(scanned) <==> n in scanned;
        assert n in rank <==> n in batch || n in rest;
      }
    }

    method BatchBackwards(entries: seq<Entry<N>>, ghost prior: Dir<N>) returns (batch: seq<N>)
      ensures forall n :: n in batch <==> LastIndex(entries, n) >= 0
      ensures Ascending(ByRank(naming, entries, prior), batch)
    {
      batch := [];
      var i := |entries|;
      while i > 0
        invariant 0 <= i <= |entries|
        invariant forall n :: n in batch <==> LastIndex(entries, n) >= i
        invariant Ascending(ByRank(naming, entries, prior), batch)
      {
        i := i - 1;
        if entries[i].name !in batch {
          assert forall j :: 0 <= j < |batch| ==> batch[j] in batch;
          batch := batch + [entries[i].name];
        }
      }
    }

    // The scan's names the batch does not write, in its order.
    method Unwritten(entries: seq<Entry<N>>, scanned: seq<N>) returns (rest: seq<N>)
      requires Ascending(ByRecency(naming, files), scanned)
      ensures forall n :: n in rest <==> n in scanned && LastIndex(entries, n) < 0
      ensures Ascending(ByRecency(naming, files), rest)
    {
      rest := [];
      for k := 0 to |scanned|
        invariant forall n :: n in rest <==> n in scanned[..k] && LastIndex(entries, n) < 0
        invariant Ascending(ByRecency(naming, files), rest)
      {
        assert scanned[..k + 1] == scanned[..k] + [scanned[k]];
        if LastIndex(entries, scanned[k]) < 0 {
          forall j | 0 <= j < |rest| ensures ByRecency(naming, files)(rest[j], scanned[k]) {
            assert rest[j] in rest;
            var l :| 0 <= l < k && scanned[l] == rest[j];
          }
          rest := rest + [scanned[k]];
        }
      }
      assert scanned[..|scanned|] == scanned;
    }

    // The walk over the ranking: an identity's first bound names stay, the rest are evicted.
    method Excess(bound: int, entries: seq<Entry<N>>, rank: seq<N>) returns (evicted: set<N>)
      requires forall i, j :: 0 <= i < j < |rank| ==> rank[i] != rank[j]
      ensures evicted == Overflow(naming, bound, entries, rank)
    {
      hide *;
      evicted := {};
      var kept: map<I, nat> := map[];
      assert Walked(naming, bound, entries, rank[..0], kept, evicted) by { WalkStart(naming, bound, entries, rank); }
      for i := 0 to |rank|
        invariant Walked(naming, bound, entries, rank[..i], kept, evicted)
      {
        var n := rank[i];
        var identity := naming.identity(n);
        assert rank[..i + 1] == rank[..i] + [n];
        assert n !in rank[..i];
        WalkStep(naming, bound, entries, rank[..i], n, kept, evicted);
        if identity in Touched(naming, entries) {
          var k := if identity in kept then kept[identity] else 0;
          if k < bound {
            kept := kept[identity := k + 1];
          } else {
            evicted := evicted + {n};
          }
        }
      }
      assert rank[..|rank|] == rank;
      WalkEnd(naming, bound, entries, rank, kept, evicted);
    }

    // One file kept, removed, or found not to go; a context that has ended stops before either.
    method SweepOne(w: Walk<N>, ghost before: Dir<N>, ghost walked: seq<N>, n: N, looks: nat) returns (step: Step)
      requires n in before && n !in walked && files == before - Gone(w, before, walked)
      modifies this`files
      ensures step.Stop? <==> w.patience <= looks || (Refuses(w, before, n) && w.patience == looks + 1)
      ensures step.Stop? ==> files == old(files)
      ensures !step.Stop? ==> files == before - Gone(w, before, walked + [n])
      ensures !step.Stop? ==> step == if !Refuses(w, before, n) then Keep else if n in w.stuck then Stick else Remove
    {
      GoneNext(w, before, walked, n);
      if looks >= w.patience {
        return Stop;
      }
      var data := if n in w.unreadable then None else Some(files[n].data);
      if w.keep(n, data) {
        return Keep;
      }
      if looks + 1 >= w.patience {
        return Stop;
      }
      if n in w.stuck {
        return Stick;
      }
      files := files - {n};
      return Remove;
    }

    // The walk over the names scanned.
    method SweepNames(w: Walk<N>, names: seq<N>) returns (removed: nat, kept: nat, ending: Ending, ghost done: nat)
      requires Elements(names) == files.Keys && w.patience >= 2
      requires forall i, j :: 0 <= i < j < |names| ==> names[i] != names[j]
      modifies this`files
      ensures done <= |names| && Swept(w, old(files), names[..done], files, removed, kept)
      ensures ending.Canceled? <==> w.patience <= Looks(w, old(files), names)
      ensures ending.Canceled? ==> w.patience - 1 <= Looks(w, old(files), names[..done]) <= w.patience
      ensures !ending.Canceled? ==> done == |names| && (ending.Failed? <==> Refusals(w, old(files), names) * w.stuck != {})
    {
      hide *;
      ghost var before := files;
      removed, kept, ending, done := 0, 0, Done, 0;
      var i, looks, stopped := 0, 2, false;
      SweptStart(w, files, names);
      while i < |names| && !stopped
        invariant i <= |names| && looks <= w.patience && !ending.Canceled?
        invariant Swept(w, before, names[..i], files, removed, kept) && looks == Looks(w, before, names[..i])
        invariant ending.Failed? <==> Refusals(w, before, names[..i]) * w.stuck != {}
        invariant stopped ==> w.patience - 1 <= looks && w.patience <= Looks(w, before, names)
        decreases |names| - i, !stopped
      {
        var n := names[i];
        NextName(before, names, i);
        SweptFiles(w, before, names[..i], files, removed, kept);
        var step := SweepOne(w, before, names[..i], n, looks);
        LooksGrow(w, before, names, i);
        if step.Stop? {
          stopped := true;
        } else {
          SweptNext(w, before, names[..i], n, files, removed, kept);
          removed := removed + if step.Remove? then 1 else 0;
          kept := kept + if step.Keep? then 1 else 0;
          looks := looks + if step.Keep? then 1 else 2;
          ending := if step.Stick? then Failed else ending;
          i := i + 1;
        }
      }
      done := i;
      if stopped {
        ending := Canceled;
      } else {
        assert names[..i] == names;
        ending := if looks >= w.patience then Canceled else ending;
      }
    }

    // Sweep removes every file keep refuses, reading it as nothing when it cannot be read. A
    // removal that fails is the error and the walk goes on; the context is looked at twice before
    // the walk, before each file, before each removal and at the end.
    method Sweep(w: Walk<N>) returns (removed: nat, kept: nat, ending: Ending, ghost walked: seq<N>)
      requires Ordered(naming)
      modifies this`files
      ensures Newest(naming, old(files), walked)
      ensures Swept(w, old(files), walked, files, removed, kept)
      ensures ending.Canceled? <==> w.patience < Needed(w, old(files))
      ensures ending.Canceled? && w.patience >= 2 ==> w.patience - 1 <= Looks(w, old(files), walked) <= w.patience
      ensures !w.listing.Listed? ==> walked == []
      ensures !w.listing.Listed? && !ending.Canceled? ==> (ending.Failed? <==> w.listing.Unlistable?)
      ensures w.listing.Listed? && !ending.Canceled? ==> Elements(walked) == old(files).Keys
      ensures w.listing.Listed? && !ending.Canceled? ==>
        (ending.Failed? <==> exists n :: n in old(files) && Refuses(w, old(files), n) && n in w.stuck)
    {
      removed, kept, ending, walked := 0, 0, Done, [];
      SweptStart(w, files, []);
      if w.patience < 2 {
        return 0, 0, Canceled, [];
      }
      if w.listing.Missing? {
        return;
      }
      if w.listing.Unlistable? {
        return 0, 0, Failed, [];
      }
      var names := Scan();
      ScanDistinct(naming, files, names);
      ghost var before, done := files, 0;
      removed, kept, ending, done := SweepNames(w, names);
      walked := names[..done];
      PrefixIsNewest(naming, before, names, done);
      LooksAll(w, before, names);
      assert done == |names| ==> walked == names;
    }
  }

  // ----- the collection walk -----

  datatype Listing = Listed | Missing | Unlistable

  datatype Ending = Done | Canceled | Failed

  datatype Step = Keep | Remove | Stick | Stop

  // A walk and what it meets: what it keeps of a name and its contents, how its listing goes,
  // the files it cannot read, those it cannot remove, and how many looks at its context find it
  // still running.
  datatype Walk<!N> = Walk(
    keep: (N, Option<Data>) -> bool,
    listing: Listing,
    unreadable: set<N>,
    stuck: set<N>,
    patience: nat)

  predicate Refuses<N(==, !new)>(w: Walk<N>, before: Dir<N>, n: N)
    requires n in before
  {
    !w.keep(n, if n in w.unreadable then None else Some(before[n].data))
  }

  function Refusals<N(==, !new)>(w: Walk<N>, before: Dir<N>, walked: seq<N>): set<N>
  {
    set n | n in walked && n in before && Refuses(w, before, n)
  }

  function Gone<N(==, !new)>(w: Walk<N>, before: Dir<N>, walked: seq<N>): set<N>
  {
    Refusals(w, before, walked) - w.stuck
  }

  // What a walk over these files has done and counted.
  ghost predicate Swept<N(!new)>(w: Walk<N>, before: Dir<N>, walked: seq<N>, files: Dir<N>, removed: nat, kept: nat)
  {
    && files == before - Gone(w, before, walked)
    && removed == |Gone(w, before, walked)| && kept == |walked| - |Refusals(w, before, walked)|
  }

  // The looks at the context up to the end of a walk over these files.
  ghost function Looks<N(!new)>(w: Walk<N>, before: Dir<N>, walked: seq<N>): nat
  {
    2 + |walked| + |Refusals(w, before, walked)|
  }

  // The looks a whole walk takes.
  ghost function Needed<N(!new)>(w: Walk<N>, before: Dir<N>): nat
  {
    if w.listing.Listed? then 3 + |before| + |set n | n in before && Refuses(w, before, n)| else 2
  }

  // The newest files, newest first.
  ghost predicate Newest<N(!new), I(!new)>(naming: Naming<N, I>, files: Dir<N>, walked: seq<N>)
  {
    && Ascending(ByRecency(naming, files), walked) && (forall n :: n in walked ==> n in files)
    && forall a, b {:trigger Newer(naming, files, a, b)} :: a in files && b in walked && Newer(naming, files, a, b) ==> a in walked
  }

  lemma SweptStart<N(!new)>(w: Walk<N>, files: Dir<N>, names: seq<N>)
    ensures Swept(w, files, names[..0], files, 0, 0) && Swept(w, files, [], files, 0, 0)
    ensures Looks(w, files, names[..0]) == 2 && Refusals(w, files, names[..0]) == {}
  {
    assert names[..0] == [];
    assert Refusals(w, files, []) == {} && Gone(w, files, []) == {};
  }

  lemma SweptFiles<N(!new)>(w: Walk<N>, before: Dir<N>, walked: seq<N>, files: Dir<N>, removed: nat, kept: nat)
    requires Swept(w, before, walked, files, removed, kept)
    ensures files == before - Gone(w, before, walked)
  {
  }

  lemma NextName<N(!new)>(before: Dir<N>, names: seq<N>, i: nat)
    requires i < |names| && Elements(names) == before.Keys
    requires forall i, j :: 0 <= i < j < |names| ==> names[i] != names[j]
    ensures names[i] in before && names[i] !in names[..i] && names[..i + 1] == names[..i] + [names[i]]
  {
    assert names[i] in Elements(names);
  }

  lemma RefusalsNext<N(!new)>(w: Walk<N>, before: Dir<N>, walked: seq<N>, n: N)
    requires n in before && n !in walked
    ensures n !in Refusals(w, before, walked)
    ensures Refusals(w, before, walked + [n])
         == Refusals(w, before, walked) + if Refuses(w, before, n) then {n} else {}
  {
    assert forall x :: x in walked + [n] <==> x in walked || x == n;
  }

  lemma GoneNext<N(!new)>(w: Walk<N>, before: Dir<N>, walked: seq<N>, n: N)
    requires n in before && n !in walked
    ensures n in before - Gone(w, before, walked) && (before - Gone(w, before, walked))[n] == before[n]
    ensures before - Gone(w, before, walked + [n])
         == if Refuses(w, before, n) && n !in w.stuck then before - Gone(w, before, walked) - {n} else before - Gone(w, before, walked)
  {
    hide Refuses, Refusals;
    RefusalsNext(w, before, walked, n);
  }

  lemma SweptNext<N(!new)>(w: Walk<N>, before: Dir<N>, walked: seq<N>, n: N, files: Dir<N>, removed: nat, kept: nat)
    requires n in before && n !in walked && Swept(w, before, walked, before - Gone(w, before, walked), removed, kept)
    requires files == before - Gone(w, before, walked + [n])
    ensures Swept(w, before, walked + [n], files,
                  removed + if Refuses(w, before, n) && n !in w.stuck then 1 else 0,
                  kept + if Refuses(w, before, n) then 0 else 1)
    ensures Looks(w, before, walked + [n]) == Looks(w, before, walked) + if Refuses(w, before, n) then 2 else 1
    ensures Refusals(w, before, walked + [n]) * w.stuck != {}
      <==> Refusals(w, before, walked) * w.stuck != {} || (Refuses(w, before, n) && n in w.stuck)
  {
    hide Refuses, Refusals, Gone;
    RefusalsNext(w, before, walked, n);
    if Refuses(w, before, n) {
      SplitNext(Refusals(w, before, walked), n, w.stuck);
    }
    GoneSplit(w, before, walked);
    GoneSplit(w, before, walked + [n]);
  }

  lemma GoneSplit<N(!new)>(w: Walk<N>, before: Dir<N>, walked: seq<N>)
    ensures Gone(w, before, walked) == Refusals(w, before, walked) - w.stuck
  {
  }

  // One element more, on one side of a set or the other.
  lemma SplitNext<T>(s: set<T>, n: T, side: set<T>)
    requires n !in s
    ensures |s + {n}| == |s| + 1
    ensures n in side ==> s + {n} - side == s - side && (s + {n}) * side != {}
    ensures n !in side ==> |s + {n} - side| == |s - side| + 1 && (s + {n}) * side == s * side
  {
    if n in side {
      assert n in (s + {n}) * side;
      assert s + {n} - side == s - side;
    } else {
      assert s + {n} - side == s - side + {n};
      assert (s + {n}) * side == s * side;
    }
  }

  // The walk to come costs a look at the next file at least, and one more when it is refused.
  lemma LooksGrow<N(!new)>(w: Walk<N>, before: Dir<N>, names: seq<N>, i: nat)
    requires i < |names| && names[i] in before && names[i] !in names[..i]
    ensures Looks(w, before, names) >= Looks(w, before, names[..i]) + if Refuses(w, before, names[i]) then 2 else 1
  {
    var upto := names[..i] + [names[i]];
    RefusalsNext(w, before, names[..i], names[i]);
    assert forall n :: n in upto ==> n in names;
    SubsetSize(Refusals(w, before, upto), Refusals(w, before, names));
  }

  lemma LooksAll<N(!new)>(w: Walk<N>, before: Dir<N>, names: seq<N>)
    requires Elements(names) == before.Keys && |names| == |before|
    ensures w.listing.Listed? ==> Needed(w, before) == Looks(w, before, names) + 1
    ensures Refusals(w, before, names) * w.stuck != {} <==> exists n :: n in before && Refuses(w, before, n) && n in w.stuck
  {
    forall n ensures n in names <==> n in before { assert n in Elements(names) <==> n in before.Keys; }
    assert Refusals(w, before, names) == set n | n in before && Refuses(w, before, n);
    if n :| n in before && Refuses(w, before, n) && n in w.stuck {
      assert n in Refusals(w, before, names) * w.stuck;
    }
  }

  lemma Earlier<T(!new)>(less: (T, T) -> bool, s: seq<T>, i: nat, j: nat)
    requires StrictOrder(less) && Ascending(less, s) && i < |s| && j < |s| && less(s[i], s[j])
    ensures i < j
  {
  }

  lemma PrefixIsNewest<N(!new), I(!new)>(naming: Naming<N, I>, files: Dir<N>, names: seq<N>, k: nat)
    requires Ordered(naming) && Ascending(ByRecency(naming, files), names) && Elements(names) == files.Keys && k <= |names|
    ensures Newest(naming, files, names[..k])
  {
    RecencyIsOrder(naming, files, {});
    forall n | n in names[..k] ensures n in files { assert n in Elements(names); }
    forall a, b | a in files && b in names[..k] && Newer(naming, files, a, b) ensures a in names[..k] {
      assert a in Elements(names);
      var i :| 0 <= i < |names| && names[i] == a;
      var j :| 0 <= j < k && names[..k][j] == b;
      Earlier(ByRecency(naming, files), names, i, j);
      assert names[..k][i] == a;
    }
  }

  // After a walk that went through without an error stands exactly what it keeps.
  lemma SweptClean<N(!new)>(w: Walk<N>, before: Dir<N>, walked: seq<N>, files: Dir<N>, removed: nat, kept: nat)
    requires Swept(w, before, walked, files, removed, kept) && Elements(walked) == before.Keys && |walked| == |before|
    requires forall n :: n in before && Refuses(w, before, n) ==> n !in w.stuck
    ensures forall n :: n in files <==> n in before && !Refuses(w, before, n)
    ensures kept == |files| && removed + kept == |before|
  {
    assert forall n :: n in before ==> n in Elements(walked);
    assert Gone(w, before, walked) == Refusals(w, before, walked);
    assert before.Keys == files.Keys + Gone(w, before, walked);
  }

  // Every file is the one the batch last wrote under its name, stamped meanwhile, or the prior one.
  ghost predicate Carried<N(!new)>(prior: Dir<N>, done: seq<Entry<N>>, files: Dir<N>, start: int, now: int)
  {
    files.Keys == prior.Keys + Names(done) && CarriedKept(prior, done, files, start, now)
  }

  ghost predicate CarriedKept<N(!new)>(prior: Dir<N>, done: seq<Entry<N>>, files: Dir<N>, start: int, now: int)
  {
    forall n :: n in files ==> CarriedAt(prior, done, files, start, now, n)
  }

  predicate CarriedAt<N(==, !new)>(prior: Dir<N>, done: seq<Entry<N>>, files: Dir<N>, start: int, now: int, n: N)
    requires n in files
  {
    var i := LastIndex(done, n);
    if i < 0 then n in prior && files[n] == prior[n]
    else files[n].data == done[i].data && start <= files[n].mod <= now
  }

  lemma CarryStart<N(!new)>(files: Dir<N>, entries: seq<Entry<N>>, now: int)
    ensures Carried(files, entries[..0], files, now, now)
  {
    assert entries[..0] == [];
  }

  lemma NothingCarried<N(!new)>(files: Dir<N>, now: int)
    ensures CarriedKept(files, [], files, now, now)
  {
  }

  // What is known of the tree once the batch is written.
  lemma WrittenCarried<N(!new)>(prior: Dir<N>, done: seq<Entry<N>>, files: Dir<N>, start: int, now: int)
    requires Carried(prior, done, files, start, now)
    ensures files.Keys == prior.Keys + Names(done) && CarriedKept(prior, done, files, start, now)
    ensures forall n :: n in files && LastIndex(done, n) < 0 ==> n in prior && files[n] == prior[n]
  {
  }

  lemma FewerCarried<N(!new)>(prior: Dir<N>, done: seq<Entry<N>>, files: Dir<N>, evicted: set<N>, start: int, now: int)
    requires CarriedKept(prior, done, files, start, now)
    ensures CarriedKept(prior, done, files - evicted, start, now)
  {
  }

  lemma CarryOne<N(!new)>(prior: Dir<N>, done: seq<Entry<N>>, e: Entry<N>, files: Dir<N>, start: int, earlier: int, now: int)
    requires Carried(prior, done, files, start, earlier) && start <= earlier <= now
    ensures Carried(prior, done + [e], files[e.name := File(now, e.data)], start, now)
  {
    hide LastIndex, Names, CarriedAt;
    Append(done, e);
    var after := files[e.name := File(now, e.data)];
    forall n | n in after ensures CarriedAt(prior, done + [e], after, start, now, n) {
      CarriedOn(prior, done, e, files, start, earlier, now, n);
    }
  }

  lemma CarriedOn<N(!new)>(prior: Dir<N>, done: seq<Entry<N>>, e: Entry<N>, files: Dir<N>, start: int, earlier: int, now: int, n: N)
    requires start <= earlier <= now && n in files[e.name := File(now, e.data)]
    requires n != e.name ==> CarriedAt(prior, done, files, start, earlier, n)
    ensures CarriedAt(prior, done + [e], files[e.name := File(now, e.data)], start, now, n)
  {
    hide LastIndex;
    Append(done, e);
  }

  // The names of one identity.
  function Of<N(==, !new), I(==)>(naming: Naming<N, I>, names: seq<N>, identity: I): set<N>
  {
    set n | n in names && naming.identity(n) == identity
  }

  lemma OfAppend<N(!new), I>(naming: Naming<N, I>, names: seq<N>, n: N, identity: I)
    requires n !in names
    ensures |Of(naming, names + [n], identity)|
         == |Of(naming, names, identity)| + if naming.identity(n) == identity then 1 else 0
  {
    assert Of(naming, names + [n], identity)
        == Of(naming, names, identity) + if naming.identity(n) == identity then {n} else {};
  }

  // min(bound, count), floored at zero: the kept counter's value after count files.
  function Kept(bound: int, count: nat): nat
  {
    if bound <= 0 then 0 else if count < bound then count else bound
  }

  // The walk so far: how many of each touched identity stay, and which names go.
  ghost predicate Walked<N(!new), I(!new)>(naming: Naming<N, I>, bound: int, entries: seq<Entry<N>>, walked: seq<N>, kept: map<I, nat>, evicted: set<N>)
  {
    && (forall d :: d in Touched(naming, entries) ==>
          (if d in kept then kept[d] else 0) == Kept(bound, |Of(naming, walked, d)|))
    && evicted == Overflow(naming, bound, entries, walked)
  }

  lemma WalkStart<N(!new), I(!new)>(naming: Naming<N, I>, bound: int, entries: seq<Entry<N>>, rank: seq<N>)
    ensures Walked(naming, bound, entries, rank[..0], map[], {})
  {
  }

  lemma WalkEnd<N(!new), I(!new)>(naming: Naming<N, I>, bound: int, entries: seq<Entry<N>>, rank: seq<N>, kept: map<I, nat>, evicted: set<N>)
    requires Walked(naming, bound, entries, rank, kept, evicted)
    ensures evicted == Overflow(naming, bound, entries, rank)
  {
  }

  lemma WalkStep<N(!new), I(!new)>(naming: Naming<N, I>, bound: int, entries: seq<Entry<N>>, walked: seq<N>, n: N, kept: map<I, nat>, evicted: set<N>)
    requires n !in walked && Walked(naming, bound, entries, walked, kept, evicted)
    ensures var identity := naming.identity(n);
      var k := if identity in kept then kept[identity] else 0;
      if identity !in Touched(naming, entries) then Walked(naming, bound, entries, walked + [n], kept, evicted)
      else if k < bound then Walked(naming, bound, entries, walked + [n], kept[identity := k + 1], evicted)
      else Walked(naming, bound, entries, walked + [n], kept, evicted + {n})
  {
    hide Of, Touched, Overflow;
    OverflowNext(naming, bound, entries, walked, n);
    forall d ensures |Of(naming, walked + [n], d)| == |Of(naming, walked, d)| + if naming.identity(n) == d then 1 else 0 {
      OfAppend(naming, walked, n, d);
    }
  }

  lemma OverflowNext<N(!new), I(!new)>(naming: Naming<N, I>, bound: int, entries: seq<Entry<N>>, walked: seq<N>, n: N)
    ensures Overflow(naming, bound, entries, walked + [n]) == Overflow(naming, bound, entries, walked)
      + if naming.identity(n) in Touched(naming, entries) && |Of(naming, walked, naming.identity(n))| >= bound then {n} else {}
  {
    hide Of, Touched;
    assert (walked + [n])[..|walked|] == walked;
  }

  // The touched names with at least bound names of their identity before them.
  function Overflow<N(==, !new), I(==)>(naming: Naming<N, I>, bound: int, entries: seq<Entry<N>>, rank: seq<N>): set<N>
  {
    if rank == [] then {}
    else
      var k := |rank| - 1;
      var identity := naming.identity(rank[k]);
      Overflow(naming, bound, entries, rank[..k])
      + if identity in Touched(naming, entries) && |Of(naming, rank[..k], identity)| >= bound then {rank[k]} else {}
  }

  lemma {:induction false} OverflowInside<N(!new), I>(naming: Naming<N, I>, bound: int, entries: seq<Entry<N>>, rank: seq<N>, n: N)
    requires n in Overflow(naming, bound, entries, rank)
    ensures n in rank
  {
    if n != rank[|rank| - 1] {
      OverflowInside(naming, bound, entries, rank[..|rank| - 1], n);
    }
  }

  predicate Overflows<N(==, !new), I(==)>(naming: Naming<N, I>, bound: int, entries: seq<Entry<N>>, rank: seq<N>, i: nat)
    requires i < |rank|
  {
    var identity := naming.identity(rank[i]);
    identity in Touched(naming, entries) && |Of(naming, rank[..i], identity)| >= bound
  }

  lemma {:induction false} OverflowAt<N(!new), I>(naming: Naming<N, I>, bound: int, entries: seq<Entry<N>>, rank: seq<N>, i: nat)
    requires forall i, j :: 0 <= i < j < |rank| ==> rank[i] != rank[j]
    requires i < |rank|
    ensures rank[i] in Overflow(naming, bound, entries, rank) <==> Overflows(naming, bound, entries, rank, i)
  {
    hide Of, Touched;
    var k := |rank| - 1;
    if i < k {
      OverflowAt(naming, bound, entries, rank[..k], i);
      assert rank[..k][..i] == rank[..i] && rank[..k][i] == rank[i];
    } else if rank[k] in Overflow(naming, bound, entries, rank[..k]) {
      OverflowInside(naming, bound, entries, rank[..k], rank[k]);
    }
  }

  // In an ascending ranking of the files, the overflow is what the outranking rivals decide.
  lemma OverflowIsOutranked<N(!new), I>(naming: Naming<N, I>, bound: int, entries: seq<Entry<N>>, prior: Dir<N>, rank: seq<N>, n: N)
    requires Ordered(naming) && Ascending(ByRank(naming, entries, prior), rank)
    requires Elements(rank) == prior.Keys + Names(entries)
    ensures Survives(naming, bound, entries, prior, n)
      <==> n in Elements(rank) && n !in Overflow(naming, bound, entries, rank)
  {
    if n in Elements(rank) {
      RankDistinct(naming, entries, prior, rank);
      var i :| 0 <= i < |rank| && rank[i] == n;
      OverflowAt(naming, bound, entries, rank, i);
      RivalsAreEarlier(naming, entries, prior, rank, i);
    }
  }

  lemma Installed<N(!new), I>(naming: Naming<N, I>, bound: int, entries: seq<Entry<N>>, prior: Dir<N>, rank: seq<N>, files: Dir<N>, evicted: set<N>)
    requires Ordered(naming) && Ascending(ByRank(naming, entries, prior), rank)
    requires Elements(rank) == files.Keys == prior.Keys + Names(entries)
    requires evicted == Overflow(naming, bound, entries, rank)
    ensures forall n :: n in files - evicted <==> Survives(naming, bound, entries, prior, n)
  {
    hide *;
    forall n ensures n in files - evicted <==> Survives(naming, bound, entries, prior, n) {
      OverflowIsOutranked(naming, bound, entries, prior, rank, n);
    }
  }

  lemma RivalsAreEarlier<N(!new), I>(naming: Naming<N, I>, entries: seq<Entry<N>>, prior: Dir<N>, rank: seq<N>, i: nat)
    requires Ordered(naming) && Ascending(ByRank(naming, entries, prior), rank)
    requires Elements(rank) == prior.Keys + Names(entries)
    requires i < |rank|
    ensures Rivals(naming, entries, prior, rank[i]) == Of(naming, rank[..i], naming.identity(rank[i]))
  {
    hide Outranks;
    forall m | m in Rivals(naming, entries, prior, rank[i]) ensures m in rank[..i] {
      RivalIsEarlier(naming, entries, prior, rank, i, m);
    }
    forall m | m in Of(naming, rank[..i], naming.identity(rank[i]))
      ensures m in Rivals(naming, entries, prior, rank[i])
    {
      var j :| 0 <= j < i && rank[j] == m;
      assert rank[j] in Elements(rank);
      assert ByRank(naming, entries, prior)(rank[j], rank[i]);
    }
  }

  lemma RivalIsEarlier<N(!new), I>(naming: Naming<N, I>, entries: seq<Entry<N>>, prior: Dir<N>, rank: seq<N>, i: nat, m: N)
    requires Ordered(naming) && Ascending(ByRank(naming, entries, prior), rank)
    requires Elements(rank) == prior.Keys + Names(entries)
    requires i < |rank| && m in Rivals(naming, entries, prior, rank[i])
    ensures m in rank[..i]
  {
    assert m in Elements(rank);
    var j :| 0 <= j < |rank| && rank[j] == m;
    assert i < j ==> ByRank(naming, entries, prior)(rank[i], m);
    OutranksAsymmetric(naming, entries, prior, rank[i], m);
    assert rank[..i][j] == m;
  }

  // Of a touched identity a completed install keeps min(bound, its files), and keeps them
  // from the top: whatever outranks a survivor survives.
  lemma TopRankedSurvive<N(!new), I>(naming: Naming<N, I>, bound: int, entries: seq<Entry<N>>, prior: Dir<N>, identity: I)
    requires Ordered(naming) && identity in Touched(naming, entries)
    ensures var all := set n | n in prior.Keys + Names(entries) && naming.identity(n) == identity;
      |set n | n in all && Survives(naming, bound, entries, prior, n)| == Kept(bound, |all|)
    ensures forall m, n {:trigger Survives(naming, bound, entries, prior, m), Survives(naming, bound, entries, prior, n)} ::
      (Survives(naming, bound, entries, prior, n) && naming.identity(n) == identity && m in Rivals(naming, entries, prior, n))
      ==> Survives(naming, bound, entries, prior, m)
  {
    var less := ByRank(naming, entries, prior);
    var all := set n | n in prior.Keys + Names(entries) && naming.identity(n) == identity;
    RankIsOrder(naming, entries, prior);
    forall n | n in all ensures Rivals(naming, entries, prior, n) == Above(less, all, n) {
    }
    assert (set n | n in all && Survives(naming, bound, entries, prior, n)) == Top(less, all, bound);
    RankTotal(naming, entries, prior, all);
    TopSize(less, all, bound);
    forall m, n | Survives(naming, bound, entries, prior, n) && naming.identity(n) == identity
                  && m in Rivals(naming, entries, prior, n)
      ensures Survives(naming, bound, entries, prior, m)
    {
      assert Above(less, all, m) <= Above(less, all, n);
      SubsetSize(Above(less, all, m), Above(less, all, n));
    }
  }

  lemma RankTotal<N(!new), I>(naming: Naming<N, I>, entries: seq<Entry<N>>, prior: Dir<N>, s: set<N>)
    requires Ordered(naming)
    ensures TotalOn(ByRank(naming, entries, prior), s)
  {
  }

  // What an install evicts of an identity is older than what it keeps: written before a kept name of
  // the batch, and if neither is of the batch, modified before or as late and later by name; and no
  // name of the batch goes while a prior one stays.
  lemma EvictedAreOldest<N(!new), I>(naming: Naming<N, I>, bound: int, entries: seq<Entry<N>>, prior: Dir<N>, kept: N, gone: N)
    requires Ordered(naming) && naming.identity(kept) == naming.identity(gone)
    requires Survives(naming, bound, entries, prior, kept)
    requires gone in prior.Keys + Names(entries) && !Survives(naming, bound, entries, prior, gone)
    ensures LastIndex(entries, gone) >= 0 ==> LastIndex(entries, kept) > LastIndex(entries, gone)
    ensures LastIndex(entries, kept) < 0 && LastIndex(entries, gone) < 0 ==> YoungerFile(naming, prior, kept, gone)
  {
    hide Names;
    TopRankedSurvive(naming, bound, entries, prior, naming.identity(gone));
    assert gone !in Rivals(naming, entries, prior, kept);
    assert !Outranks(naming, entries, prior, gone, kept);
  }

  // And it is of an identity the batch installs.
  lemma EvictedIsTouched<N(!new), I>(naming: Naming<N, I>, bound: int, entries: seq<Entry<N>>, prior: Dir<N>, gone: N)
    requires gone in prior.Keys + Names(entries) && !Survives(naming, bound, entries, prior, gone)
    ensures exists e :: e in entries && naming.identity(e.name) == naming.identity(gone)
  {
    hide Names, Rivals;
    var n :| n in Names(entries) && naming.identity(n) == naming.identity(gone);
    assert entries[LastIndex(entries, n)] in entries;
  }

  // One record installed with a positive bound: only its identity's other files are evicted.
  lemma EvictedAreSiblings<N(!new), I>(naming: Naming<N, I>, bound: int, e: Entry<N>, prior: Dir<N>, n: N)
    requires Ordered(naming) && bound >= 1
    requires n in prior.Keys + {e.name} && !Survives(naming, bound, [e], prior, n)
    ensures n in prior && n != e.name && naming.identity(n) == naming.identity(e.name)
  {
    Append([], e);
    assert [] + [e] == [e];
    assert Rivals(naming, [e], prior, e.name) == {};
  }
}
