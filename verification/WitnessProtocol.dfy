/** The witness store shared by processes (internal/witnesscache/witnesscache.go): installs write
    a ledger and then the record naming it, loads and collections reclaim the ledgers no record
    names, and any of them may stop between any two steps.

    Names, ledger keys and witness identities are compared for equality alone, so numbers stand
    for them; NO_KEY is the empty key a record has whose coordinate does not parse. */
module WitnessProtocol {
  import opened Basics

  type Pid = nat
  type Name = nat
  type Key = nat
  type Identity = nat

  const NO_KEY: Key := 0

  // A record file: the ledger key its coordinate spells, whether its installer supplied a
  // ledger, and whether the envelope admission the collector shares accepts it.
  datatype Record = Record(key: Key, ledgered: bool, admitted: bool, identity: Identity)

  // A ledger file: whether it reads back whole under its coordinate, and its modification time.
  datatype Ledger = Ledger(readable: bool, mod: int)

  // Where a process stands; the phases under the store's lock are those Holds names.
  datatype Phase =
    | Idle
    | InstallWaiting(name: Name, rec: Record)
    | InstallLocked(name: Name, rec: Record)
    | LedgerReady(name: Name, rec: Record)
    | Published(name: Name, rec: Record)
    | Evicting(name: Name, rec: Record, victims: set<Name>)
    | Listing(since: int)
    | Reading(since: int, todo: set<Name>, referenced: set<Key>)
    | Trying(since: int, referenced: set<Key>)
    | Relisting(since: int, referenced: set<Key>)
    | Rereading(since: int, todo: set<Name>, referenced: set<Key>)
    | CollectWaiting(since: int, live: set<Identity>)
    | CollectListing(since: int, live: set<Identity>)
    | Judging(since: int, live: set<Identity>, todo: set<Name>, referenced: set<Key>)
    | SweepListing(since: int, referenced: set<Key>)
    | Sweeping(since: int, referenced: set<Key>, left: map<Key, int>)
    | Returned
    | Stopped

  datatype State = State(
    records: map<Name, Record>,
    ledgers: map<Key, Ledger>,
    holder: Option<Pid>,
    procs: map<Pid, Phase>,
    now: int)

  datatype Step =
    | Tick(elapsed: nat)
    | StartInstall(p: Pid, name: Name, rec: Record)
    | StartLoad(p: Pid)
    | StartCollect(p: Pid, live: set<Identity>)
    | Stop(p: Pid)
    | Lock(p: Pid)
    | EnsureLedger(p: Pid)
    | Publish(p: Pid)
    | ChooseVictims(p: Pid, victims: set<Name>)
    | Evict(p: Pid, n: Name)
    | List(p: Pid)
    | Read(p: Pid, n: Name)
    | ReadDone(p: Pid)
    | TryLock(p: Pid)
    | Judge(p: Pid, n: Name)
    | SweepList(p: Pid)
    | SweepOne(p: Pid, k: Key)
    | Finish(p: Pid)
    // The two faults: a record the load cannot read, and a refused record the collector cannot
    // remove.
    | MissRead(p: Pid, n: Name)
    | FailRemove(p: Pid, n: Name)

  predicate FaultFree(step: Step)
  {
    !step.MissRead? && !step.FailRemove?
  }

  // A fault that costs no ledger: a miss in the unlocked reading always, since the scan is repeated
  // under the lock; under the lock, one whose key no record owing a ledger spells, or whose ledger
  // another reference, its age, or a record still to come keeps.
  ghost predicate Harmless(s: State, step: Step)
    requires Enabled(s, step)
  {
    match step
    case MissRead(p, n) =>
      At(s, p).Rereading? && n in s.records && Needed(s, s.records[n].key) ==>
        Safe(s, At(s, p).since, At(s, p).referenced, n) || StillRead(s, At(s, p).todo - {n}, n)
    case FailRemove(p, n) =>
      Owed(s, n) ==>
        Safe(s, At(s, p).since, At(s, p).referenced, n) || StillKept(s, At(s, p).live, At(s, p).todo - {n}, n)
    case _ => true
  }

  // Some record that owes a ledger spells the key.
  ghost predicate Needed(s: State, k: Key)
  {
    exists n :: Owed(s, n) && s.records[n].key == k
  }

  function At(s: State, p: Pid): Phase
  {
    if p in s.procs then s.procs[p] else Idle
  }

  predicate Holds(phase: Phase)
  {
    phase.InstallLocked? || phase.LedgerReady? || phase.Published? || phase.Evicting?
    || phase.Relisting? || phase.Rereading? || phase.CollectListing? || phase.Judging?
    || phase.SweepListing? || phase.Sweeping?
  }

  function Go(s: State, p: Pid, phase: Phase): State
  {
    s.(procs := s.procs[p := phase])
  }

  // Ends p's operation: whoever held the lock releases it, a process exit included.
  function Leave(s: State, p: Pid, phase: Phase): State
  {
    s.(procs := s.procs[p := phase], holder := if s.holder == Some(p) then None else s.holder)
  }

  function Reference(s: State, n: Name): set<Key>
  {
    if n in s.records && s.records[n].key != NO_KEY then {s.records[n].key} else {}
  }

  function Mods(ledgers: map<Key, Ledger>): map<Key, int>
  {
    map k | k in ledgers :: ledgers[k].mod
  }

  // SweepBefore spares a file its caller keeps, and one no younger than since; a modification
  // time the scan could not read, zero, spares nothing.
  predicate Spared(since: int, referenced: set<Key>, k: Key, mod: int)
  {
    k in referenced || (mod != 0 && mod >= since)
  }

  predicate Enabled(s: State, step: Step)
  {
    match step
    case Tick(_) => true
    case StartInstall(p, _, _) => At(s, p).Idle?
    case StartLoad(p) => At(s, p).Idle?
    case StartCollect(p, _) => At(s, p).Idle?
    case Stop(p) => !At(s, p).Idle? && !At(s, p).Returned?
    case Lock(p) => s.holder.None? && (At(s, p).InstallWaiting? || At(s, p).CollectWaiting?)
    case EnsureLedger(p) => At(s, p).InstallLocked?
    case Publish(p) => At(s, p).LedgerReady?
    case ChooseVictims(p, victims) =>
      At(s, p).Published? && forall n :: n in victims ==>
        n in s.records && n != At(s, p).name && s.records[n].identity == At(s, p).rec.identity
    case Evict(p, n) => At(s, p).Evicting? && n in At(s, p).victims
    case List(p) => At(s, p).Listing? || At(s, p).Relisting? || At(s, p).CollectListing?
    case Read(p, n) => (At(s, p).Reading? || At(s, p).Rereading?) && n in At(s, p).todo
    case ReadDone(p) =>
      (At(s, p).Reading? || At(s, p).Rereading? || At(s, p).Judging?) && At(s, p).todo == {}
    case TryLock(p) => At(s, p).Trying?
    case Judge(p, n) => At(s, p).Judging? && n in At(s, p).todo
    case SweepList(p) => At(s, p).SweepListing?
    case SweepOne(p, k) => At(s, p).Sweeping? && k in At(s, p).left
    case Finish(p) =>
      (At(s, p).Evicting? && At(s, p).victims == {}) || (At(s, p).Sweeping? && At(s, p).left == map[])
    case MissRead(p, n) => (At(s, p).Reading? || At(s, p).Rereading?) && n in At(s, p).todo
    case FailRemove(p, n) =>
      At(s, p).Judging? && n in At(s, p).todo && n in s.records && !Kept(At(s, p).live, s.records[n])
  }

  // installLedger: nothing to write without a supplied ledger, an error without a complete
  // coordinate, a readable file stays, anything else is replaced.
  function AfterLedger(s: State, p: Pid, name: Name, rec: Record): State
  {
    if !rec.ledgered then Go(s, p, LedgerReady(name, rec))
    else if rec.key == NO_KEY then Leave(s, p, Stopped)
    else if rec.key in s.ledgers && s.ledgers[rec.key].readable then Go(s, p, LedgerReady(name, rec))
    else Go(s, p, LedgerReady(name, rec)).(ledgers := s.ledgers[rec.key := Ledger(true, s.now)])
  }

  function AfterJudge(s: State, p: Pid, n: Name): State
    requires At(s, p).Judging? && n in At(s, p).todo
  {
    var ph := At(s, p);
    if n in s.records && s.records[n].admitted && s.records[n].identity in ph.live then
      Go(s, p, ph.(todo := ph.todo - {n}, referenced := ph.referenced + {s.records[n].key}))
    else
      Go(s, p, ph.(todo := ph.todo - {n})).(records := s.records - {n})
  }

  function AfterSweepOne(s: State, p: Pid, k: Key): State
    requires At(s, p).Sweeping? && k in At(s, p).left
  {
    var ph := At(s, p);
    var s' := Go(s, p, ph.(left := ph.left - {k}));
    if Spared(ph.since, ph.referenced, k, ph.left[k]) then s' else s'.(ledgers := s.ledgers - {k})
  }

  function Apply(s: State, step: Step): State
    requires Enabled(s, step)
  {
    match step
    case Tick(elapsed) => s.(now := s.now + elapsed)
    case StartInstall(p, name, rec) => Go(s, p, InstallWaiting(name, rec))
    case StartLoad(p) => Go(s, p, Listing(s.now))
    case StartCollect(p, live) => Go(s, p, CollectWaiting(s.now, live))
    case Stop(p) => Leave(s, p, Stopped)
    case Lock(p) =>
      (match At(s, p)
       case InstallWaiting(name, rec) => Go(s, p, InstallLocked(name, rec)).(holder := Some(p))
       case CollectWaiting(since, live) => Go(s, p, CollectListing(since, live)).(holder := Some(p)))
    case EnsureLedger(p) => AfterLedger(s, p, At(s, p).name, At(s, p).rec)
    case Publish(p) =>
      var ph := At(s, p);
      Go(s, p, Published(ph.name, ph.rec)).(records := s.records[ph.name := ph.rec])
    case ChooseVictims(p, victims) => Go(s, p, Evicting(At(s, p).name, At(s, p).rec, victims))
    case Evict(p, n) =>
      var ph := At(s, p);
      Go(s, p, ph.(victims := ph.victims - {n})).(records := s.records - {n})
    case List(p) =>
      (match At(s, p)
       case Listing(since) => Go(s, p, Reading(since, s.records.Keys, {}))
       case Relisting(since, referenced) => Go(s, p, Rereading(since, s.records.Keys, referenced))
       case CollectListing(since, live) => Go(s, p, Judging(since, live, s.records.Keys, {})))
    case Read(p, n) =>
      (match At(s, p)
       case Reading(since, todo, referenced) =>
         Go(s, p, Reading(since, todo - {n}, referenced + Reference(s, n)))
       case Rereading(since, todo, referenced) =>
         Go(s, p, Rereading(since, todo - {n}, referenced + Reference(s, n))))
    case ReadDone(p) =>
      (match At(s, p)
       case Reading(since, _, referenced) => Go(s, p, Trying(since, referenced))
       case Rereading(since, _, referenced) => Go(s, p, SweepListing(since, referenced))
       case Judging(since, _, _, referenced) => Go(s, p, SweepListing(since, referenced)))
    case TryLock(p) =>
      if s.holder.None? then Go(s, p, Relisting(At(s, p).since, At(s, p).referenced)).(holder := Some(p))
      else Go(s, p, Returned)
    case Judge(p, n) => AfterJudge(s, p, n)
    case SweepList(p) => Go(s, p, Sweeping(At(s, p).since, At(s, p).referenced, Mods(s.ledgers)))
    case SweepOne(p, k) => AfterSweepOne(s, p, k)
    case Finish(p) => Leave(s, p, Returned)
    case MissRead(p, n) =>
      (match At(s, p)
       case Reading(since, todo, referenced) => Go(s, p, Reading(since, todo - {n}, referenced))
       case Rereading(since, todo, referenced) => Go(s, p, Rereading(since, todo - {n}, referenced)))
    case FailRemove(p, n) => Go(s, p, At(s, p).(todo := At(s, p).todo - {n}))
  }

  // ----- safety over every run -----

  // Each record on disk whose installer supplied a ledger has a readable one at its key.
  predicate Backed(s: State)
  {
    forall n :: n in s.records && s.records[n].ledgered ==> HasLedger(s, s.records[n])
  }

  predicate HasLedger(s: State, rec: Record)
  {
    rec.key != NO_KEY && rec.key in s.ledgers && s.ledgers[rec.key].readable
  }

  // What a process knows while it holds the lock.
  ghost predicate Knows(s: State, phase: Phase)
  {
    match phase
    case LedgerReady(name, rec) => rec.ledgered ==> HasLedger(s, rec)
    case Published(name, rec) => name in s.records && s.records[name] == rec
    case Evicting(name, rec, victims) => name in s.records && s.records[name] == rec && name !in victims
    case Rereading(since, todo, referenced) => LoadCovers(s, since, todo, referenced)
    case Judging(since, live, todo, referenced) => CollectCovers(s, since, live, todo, referenced)
    case SweepListing(since, referenced) => forall n :: Owed(s, n) ==> Safe(s, since, referenced, n)
    case Sweeping(since, referenced, left) => SweepCovers(s, since, referenced, left)
    case _ => true
  }

  // The record's installer supplied a ledger.
  predicate Owed(s: State, n: Name)
  {
    n in s.records && s.records[n].ledgered
  }

  // A sweep with these references spares the record's ledger.
  predicate Safe(s: State, since: int, referenced: set<Key>, n: Name)
    requires n in s.records
  {
    var k := s.records[n].key;
    k in referenced || (k in s.ledgers && Spared(since, {}, k, s.ledgers[k].mod))
  }

  // Some record still to read spells the same key.
  ghost predicate StillRead(s: State, todo: set<Name>, n: Name)
    requires n in s.records
  {
    exists m :: m in todo && m in s.records && s.records[m].key == s.records[n].key
  }

  // Some record still to judge will be kept and spells the same key.
  ghost predicate StillKept(s: State, live: set<Identity>, todo: set<Name>, n: Name)
    requires n in s.records
  {
    exists m :: m in todo && m in s.records && Kept(live, s.records[m]) && s.records[m].key == s.records[n].key
  }

  ghost predicate LoadCovers(s: State, since: int, todo: set<Name>, referenced: set<Key>)
  {
    forall n :: Owed(s, n) ==> Safe(s, since, referenced, n) || StillRead(s, todo, n)
  }

  ghost predicate CollectCovers(s: State, since: int, live: set<Identity>, todo: set<Name>, referenced: set<Key>)
  {
    forall n :: Owed(s, n) ==> n in todo || Safe(s, since, referenced, n) || StillKept(s, live, todo, n)
  }

  // What the sweep has passed it left standing; what it has not, it will spare.
  ghost predicate SweepCovers(s: State, since: int, referenced: set<Key>, left: map<Key, int>)
  {
    && (forall k :: k in left && k in s.ledgers ==> left[k] == s.ledgers[k].mod)
    && forall n :: Owed(s, n) ==> s.records[n].key !in left || Safe(s, since, referenced, n)
  }

  ghost predicate Good(s: State)
  {
    && Backed(s)
    && Locked(s)
    && (forall p :: p in s.procs && Holds(s.procs[p]) ==> Knows(s, s.procs[p]))
  }

  ghost predicate Locked(s: State)
  {
    && (forall p :: p in s.procs ==> (Holds(s.procs[p]) <==> s.holder == Some(p)))
    && (s.holder.Some? ==> s.holder.value in s.procs)
  }

  lemma StepKeepsLocked(s: State, step: Step)
    requires Locked(s) && Enabled(s, step)
    ensures Locked(Apply(s, step))
  {
    hide Locked, Apply, Enabled;
    if step.Lock? || step.TryLock? {
      TakesLock(s, step);
    } else if step.Stop? || step.Finish? || step.EnsureLedger? {
      LeavesLock(s, step);
    } else {
      StaysLocked(s, step);
    }
  }

  lemma TakesLock(s: State, step: Step)
    requires Locked(s) && Enabled(s, step) && (step.Lock? || step.TryLock?)
    ensures Locked(Apply(s, step))
  {
  }

  lemma LeavesLock(s: State, step: Step)
    requires Locked(s) && Enabled(s, step) && (step.Stop? || step.Finish? || step.EnsureLedger?)
    ensures Locked(Apply(s, step))
  {
  }

  lemma StaysLocked(s: State, step: Step)
    requires Locked(s) && Enabled(s, step)
    requires !step.Lock? && !step.TryLock? && !step.Stop? && !step.Finish? && !step.EnsureLedger?
    ensures Locked(Apply(s, step))
  {
    assert Apply(s, step).holder == s.holder;
  }

  // The disk moves only under the lock.
  lemma OnlyTheHolderWrites(s: State, step: Step)
    requires Locked(s) && Enabled(s, step)
    ensures var s' := Apply(s, step);
      (s'.records == s.records && s'.ledgers == s.ledgers) || (!step.Tick? && s.holder == Some(step.p))
  {
  }

  // Only a sweep takes a ledger, and only one it has no reference to and that is older than its
  // operation, or of an age it could not read.
  lemma SweptIsOld(s: State, step: Step, k: Key)
    requires Good(s) && Enabled(s, step) && k in s.ledgers && k !in Apply(s, step).ledgers
    ensures step.SweepOne? && step.k == k && At(s, step.p).Sweeping?
    ensures var ph := At(s, step.p); k !in ph.referenced && (s.ledgers[k].mod == 0 || s.ledgers[k].mod < ph.since)
  {
    hide Backed, Locked;
    if step.SweepOne? {
      assert Knows(s, s.procs[step.p]);
    }
  }

  lemma StepKeepsBacked(s: State, step: Step)
    requires Good(s) && Enabled(s, step)
    ensures Backed(Apply(s, step))
  {
    hide Apply, Enabled, Knows, Locked, Backed;
    if step.SweepOne? || step.Publish? {
      KnownBacked(s, step);
    } else {
      OtherBacked(s, step);
    }
  }

  lemma KnownBacked(s: State, step: Step)
    requires Good(s) && Enabled(s, step) && (step.SweepOne? || step.Publish?)
    ensures Backed(Apply(s, step))
  {
    hide LoadCovers, CollectCovers, Locked;
    assert Knows(s, s.procs[step.p]);
  }

  lemma OtherBacked(s: State, step: Step)
    requires Backed(s) && Enabled(s, step) && !step.SweepOne? && !step.Publish?
    ensures Backed(Apply(s, step))
  {
    var s' := Apply(s, step);
    forall n | n in s'.records ensures n in s.records && s'.records[n] == s.records[n] {
    }
  }

  // What the acting process knows afterwards, its faults harmless.
  lemma ActorKnows(s: State, step: Step)
    requires Good(s) && Enabled(s, step) && Harmless(s, step) && !step.Tick?
    requires Holds(At(Apply(s, step), step.p))
    ensures Knows(Apply(s, step), At(Apply(s, step), step.p))
  {
    hide LoadCovers, CollectCovers, SweepCovers, Harmless, Locked;
    var ph := At(s, step.p);
    assert Holds(ph) ==> Knows(s, ph);
    match ph {
      case Rereading(_, _, _) => RereadKnows(s, step);
      case Judging(_, _, _, _) => JudgeKnows(s, step);
      case Relisting(since, referenced) => ListKnows(s, since, {}, referenced, Apply(s, step));
      case CollectListing(since, live) => ListKnows(s, since, live, {}, Apply(s, step));
      case SweepListing(_, _) => SweepKnows(s, step);
      case Sweeping(_, _, _) => SweepKnows(s, step);
      case _ =>
    }
  }

  lemma ListKnows(s: State, since: int, live: set<Identity>, referenced: set<Key>, s': State)
    requires s'.records == s.records && s'.ledgers == s.ledgers
    ensures LoadCovers(s', since, s.records.Keys, referenced) && CollectCovers(s', since, live, s.records.Keys, referenced)
  {
    forall n | Owed(s', n) ensures StillRead(s', s.records.Keys, n) {
      assert n in s.records.Keys;
    }
  }

  lemma RereadKnows(s: State, step: Step)
    requires Backed(s) && Enabled(s, step) && Harmless(s, step) && !step.Tick?
    requires At(s, step.p).Rereading? && Knows(s, At(s, step.p)) && Holds(At(Apply(s, step), step.p))
    ensures Knows(Apply(s, step), At(Apply(s, step), step.p))
  {
    hide CollectCovers, SweepCovers;
    var s', ph := Apply(s, step), At(s, step.p);
    forall n | Owed(s, n) && !Safe(s, ph.since, ph.referenced, n)
      ensures !step.ReadDone? && (s.records[n].key in At(s', step.p).referenced || StillRead(s', ph.todo - {step.n}, n))
    {
      var m :| m in ph.todo && m in s.records && s.records[m].key == s.records[n].key;
      if m == step.n {
        assert Needed(s, s.records[m].key);
      } else {
        assert m in ph.todo - {step.n};
      }
    }
  }

  lemma JudgeKnows(s: State, step: Step)
    requires Backed(s) && Enabled(s, step) && Harmless(s, step) && !step.Tick?
    requires At(s, step.p).Judging? && Knows(s, At(s, step.p)) && Holds(At(Apply(s, step), step.p))
    ensures Knows(Apply(s, step), At(Apply(s, step), step.p))
  {
    hide LoadCovers, SweepCovers;
    var s', ph := Apply(s, step), At(s, step.p);
    if step.ReadDone? {
      forall n | Owed(s', n) ensures Safe(s', ph.since, ph.referenced, n) {
        assert n in ph.todo || Safe(s, ph.since, ph.referenced, n) || StillKept(s, ph.live, ph.todo, n);
      }
    } else {
      forall n | Owed(s', n)
        ensures n in ph.todo - {step.n} || Safe(s', ph.since, At(s', step.p).referenced, n) || StillKept(s', ph.live, ph.todo - {step.n}, n)
      {
        if n !in ph.todo && !Safe(s, ph.since, ph.referenced, n) {
          var m :| m in ph.todo && m in s.records && Kept(ph.live, s.records[m]) && s.records[m].key == s.records[n].key;
          assert m != step.n ==> m in ph.todo - {step.n};
        }
      }
    }
  }

  lemma SweepKnows(s: State, step: Step)
    requires Backed(s) && Enabled(s, step) && !step.Tick?
    requires (At(s, step.p).SweepListing? || At(s, step.p).Sweeping?) && Knows(s, At(s, step.p)) && Holds(At(Apply(s, step), step.p))
    ensures Knows(Apply(s, step), At(Apply(s, step), step.p))
  {
    hide LoadCovers, CollectCovers;
    var s', ph := Apply(s, step), At(s, step.p);
    forall n | Owed(s', n) && At(s', step.p).Sweeping?
      ensures s'.records[n].key !in At(s', step.p).left || Safe(s', ph.since, ph.referenced, n)
    {
      assert Owed(s, n) && s'.records[n] == s.records[n];
      assert ph.SweepListing? ==> Safe(s, ph.since, ph.referenced, n);
      assert ph.Sweeping? ==> s.records[n].key !in ph.left || Safe(s, ph.since, ph.referenced, n);
    }
  }

  // Whatever step is taken, the invariant stands after it exactly when the step is no harmful fault.
  lemma StepKeepsGood(s: State, step: Step)
    requires Good(s) && Enabled(s, step)
    ensures Good(Apply(s, step)) <==> Harmless(s, step)
  {
    hide Knows, Harmless, Backed, Apply, Enabled;
    var s' := Apply(s, step);
    StepKeepsLocked(s, step);
    StepKeepsBacked(s, step);
    if Harmless(s, step) {
      forall q | q in s'.procs && Holds(s'.procs[q]) ensures Knows(s', s'.procs[q]) {
        if !step.Tick? && q == step.p {
          ActorKnows(s, step);
        } else {
          OthersStand(s, step, q);
          BystanderKnows(s, step, q);
        }
      }
    } else {
      HarmIsKnown(s, step);
    }
  }

  lemma OthersStand(s: State, step: Step, q: Pid)
    requires Enabled(s, step) && q in Apply(s, step).procs && (step.Tick? || q != step.p)
    ensures q in s.procs && s.procs[q] == Apply(s, step).procs[q]
  {
  }

  // After a harmful fault the process relies on what no longer holds.
  lemma HarmIsKnown(s: State, step: Step)
    requires Good(s) && Enabled(s, step) && !Harmless(s, step)
    ensures var s' := Apply(s, step); step.p in s'.procs && Holds(s'.procs[step.p]) && !Knows(s', s'.procs[step.p])
  {
    hide Locked, Backed;
    var s' := Apply(s, step);
    var ph' := At(s', step.p);
    if step.MissRead? {
      var r :| Owed(s, r) && s.records[r].key == s.records[step.n].key;
      assert !Safe(s', ph'.since, ph'.referenced, r) && !StillRead(s', ph'.todo, r);
    }
  }

  lemma BystanderKnows(s: State, step: Step, q: Pid)
    requires Good(s) && Enabled(s, step) && (step.Tick? || q != step.p)
    requires q in s.procs && Holds(s.procs[q])
    ensures q in Apply(s, step).procs && Knows(Apply(s, step), Apply(s, step).procs[q])
  {
    hide Knows;
    OnlyTheHolderWrites(s, step);
    KnowsTheDisk(s, Apply(s, step), s.procs[q]);
  }

  // What a process knows is about the disk alone.
  lemma KnowsTheDisk(s: State, s': State, phase: Phase)
    requires s'.records == s.records && s'.ledgers == s.ledgers
    ensures Knows(s, phase) <==> Knows(s', phase)
  {
    forall n ensures (Owed(s, n) <==> Owed(s', n)) {
    }
    forall n, todo | n in s.records ensures StillRead(s, todo, n) <==> StillRead(s', todo, n) {
    }
    forall n, live, todo | n in s.records ensures StillKept(s, live, todo, n) <==> StillKept(s', live, todo, n) {
    }
  }

  ghost predicate IsRun(run: seq<State>, steps: seq<Step>)
  {
    && |run| == |steps| + 1
    && forall i :: 0 <= i < |steps| ==> Enabled(run[i], steps[i]) && run[i + 1] == Apply(run[i], steps[i])
  }

  // No process at work, the lock free, and whatever the disk holds backed.
  ghost predicate Initial(s: State)
  {
    s.procs == map[] && s.holder == None && Backed(s)
  }

  // Every interleaving keeps every ledger, crashes and harmless faults included.
  lemma RunKeepsLedgers(run: seq<State>, steps: seq<Step>, i: nat)
    requires IsRun(run, steps) && Initial(run[0]) && i < |run|
    requires forall j :: 0 <= j < |steps| ==> Harmless(run[j], steps[j])
    ensures Good(run[i])
  {
    GoodRun(run, steps, i);
  }

  function After(s: State, steps: seq<Step>): Option<State>
    decreases |steps|
  {
    if steps == [] then Some(s)
    else if Enabled(s, steps[0]) then After(Apply(s, steps[0]), steps[1..])
    else None
  }

  // The steps run from s without a fault, and leave a record without its ledger.
  ghost predicate Loses(s: State, steps: seq<Step>)
  {
    && (forall t :: t in steps ==> FaultFree(t))
    && After(s, steps).Some? && !Backed(After(s, steps).value)
  }

  lemma First(s: State, step: Step, rest: seq<Step>)
    requires Enabled(s, step) && FaultFree(step) && Loses(Apply(s, step), rest)
    ensures Loses(s, [step] + rest)
  {
    assert ([step] + rest)[1..] == rest;
  }

  // Nothing in p's way to the sweep keeps the ledger of n.
  ghost predicate Doomed(s: State, p: Pid, n: Name)
  {
    Owed(s, n) && HasLedger(s, s.records[n]) &&
    match At(s, p)
    case Rereading(since, todo, referenced) => !Safe(s, since, referenced, n) && !StillRead(s, todo, n)
    case Judging(since, live, todo, referenced) => n !in todo && !Safe(s, since, referenced, n) && !StillKept(s, live, todo, n)
    case SweepListing(since, referenced) => !Safe(s, since, referenced, n)
    case _ => false
  }

  lemma ReadOut(s: State, p: Pid, n: Name) returns (steps: seq<Step>)
    requires Doomed(s, p, n) && At(s, p).Rereading?
    ensures Loses(s, steps)
    decreases At(s, p).todo
  {
    if At(s, p).todo == {} {
      steps := SweepOut(Apply(s, ReadDone(p)), p, n);
      First(s, ReadDone(p), steps);
      steps := [ReadDone(p)] + steps;
    } else {
      var m :| m in At(s, p).todo;
      steps := ReadOut(Apply(s, Read(p, m)), p, n);
      First(s, Read(p, m), steps);
      steps := [Read(p, m)] + steps;
    }
  }

  lemma JudgeOut(s: State, p: Pid, n: Name) returns (steps: seq<Step>)
    requires Doomed(s, p, n) && At(s, p).Judging?
    ensures Loses(s, steps)
    decreases At(s, p).todo
  {
    if At(s, p).todo == {} {
      steps := SweepOut(Apply(s, ReadDone(p)), p, n);
      First(s, ReadDone(p), steps);
      steps := [ReadDone(p)] + steps;
    } else {
      var m :| m in At(s, p).todo;
      steps := JudgeOut(Apply(s, Judge(p, m)), p, n);
      First(s, Judge(p, m), steps);
      steps := [Judge(p, m)] + steps;
    }
  }

  lemma SweepOut(s: State, p: Pid, n: Name) returns (steps: seq<Step>)
    requires Doomed(s, p, n) && At(s, p).SweepListing?
    ensures Loses(s, steps)
  {
    var k := s.records[n].key;
    var s1 := Apply(s, SweepList(p));
    var end := Apply(s1, SweepOne(p, k));
    assert !HasLedger(end, end.records[n]);
    assert Loses(end, []);
    First(s1, SweepOne(p, k), []);
    steps := [SweepOne(p, k)] + [];
    First(s, SweepList(p), steps);
    steps := [SweepList(p)] + steps;
  }

  // The condition is exact: after a harmful fault the process itself, going on without another, takes
  // a ledger from a record on disk; after a harmless one no run of harmless steps does.
  lemma HarmfulFaultIsFatal(s: State, step: Step)
    requires Good(s) && Enabled(s, step) && !Harmless(s, step)
    ensures exists rest :: Loses(Apply(s, step), rest)
  {
    hide Loses, Locked, Knows;
    var s', p := Apply(s, step), step.p;
    if step.MissRead? {
      var r :| Owed(s, r) && s.records[r].key == s.records[step.n].key;
      assert Doomed(s', p, r);
      var rest := ReadOut(s', p, r);
    } else {
      assert Doomed(s', p, step.n);
      var rest := JudgeOut(s', p, step.n);
    }
  }

  lemma HarmlessFaultIsSurvived(s: State, step: Step, run: seq<State>, steps: seq<Step>, i: nat)
    requires Good(s) && Enabled(s, step) && Harmless(s, step)
    requires IsRun(run, steps) && run[0] == Apply(s, step) && i < |run|
    requires forall j :: 0 <= j < |steps| ==> Harmless(run[j], steps[j])
    ensures Backed(run[i])
  {
    hide Harmless, Locked, Knows;
    StepKeepsGood(s, step);
    GoodRun(run, steps, i);
  }

  lemma {:induction false} GoodRun(run: seq<State>, steps: seq<Step>, i: nat)
    requires IsRun(run, steps) && Good(run[0]) && i < |run|
    requires forall j :: 0 <= j < |steps| ==> Harmless(run[j], steps[j])
    ensures Good(run[i])
  {
    hide Good, Harmless;
    if i > 0 {
      GoodRun(run, steps, i - 1);
      StepKeepsGood(run[i - 1], steps[i - 1]);
    }
  }

  // The steps run from s, none faulty but by the one fault, and leave a record without its ledger.
  predicate Orphans(s: State, fault: Step, steps: seq<Step>)
  {
    && (forall t :: t in steps ==> FaultFree(t) || t == fault)
    && After(s, steps).Some? && !Backed(After(s, steps).value)
  }

  lemma Prepend(s: State, fault: Step, step: Step, rest: seq<Step>)
    requires Enabled(s, step) && (FaultFree(step) || step == fault)
    requires Orphans(Apply(s, step), fault, rest)
    ensures Orphans(s, fault, [step] + rest)
  {
  }

  // The disk of the fault traces: one record and the old ledger it names.
  predicate OneRecord(s: State)
  {
    && s.records == map[1 := Record(5, true, true, 7)]
    && s.ledgers == map[5 := Ledger(true, 3)]
  }

  // Neither fault can be allowed: a load that cannot read a record sweeps the ledger it names,
  // and so does a collection that refuses a record and cannot remove it.
  lemma FaultsOrphanARecord(fault: Step)
    requires fault == MissRead(0, 1) || fault == FailRemove(0, 1)
    ensures exists s: State, steps: seq<Step> :: Initial(s) && Orphans(s, fault, steps)
  {
    var s := State(map[1 := Record(5, true, true, 7)], map[5 := Ledger(true, 3)], None, map[], 10);
    assert Initial(s);
    if fault.MissRead? {
      var steps := LoadTrace(s);
    } else {
      var steps := CollectTrace(s);
    }
  }

  lemma CollectTrace(s: State) returns (steps: seq<Step>)
    requires OneRecord(s) && s.procs == map[] && s.holder == None && s.now == 10
    ensures Orphans(s, FailRemove(0, 1), steps)
  {
    hide Orphans;
    var fault := FailRemove(0, 1);
    var s1 := Apply(s, StartCollect(0, {}));
    steps := LockedTrace(Apply(s1, Lock(0)));
    Prepend(s1, fault, Lock(0), steps);
    steps := [Lock(0)] + steps;
    Prepend(s, fault, StartCollect(0, {}), steps);
    steps := [StartCollect(0, {})] + steps;
  }

  lemma LockedTrace(s: State) returns (steps: seq<Step>)
    requires OneRecord(s) && At(s, 0) == CollectListing(10, {}) && s.holder == Some(0)
    ensures Orphans(s, FailRemove(0, 1), steps)
  {
    hide Orphans;
    var fault := FailRemove(0, 1);
    var listed := Apply(s, List(0));
    assert At(listed, 0) == Judging(10, {}, {1}, {});
    steps := FaultTrace(listed, fault);
    Prepend(s, fault, List(0), steps);
    steps := [List(0)] + steps;
  }

  lemma LoadTrace(s: State) returns (steps: seq<Step>)
    requires OneRecord(s) && s.procs == map[] && s.holder == None && s.now == 10
    ensures Orphans(s, MissRead(0, 1), steps)
  {
    hide Orphans;
    var fault := MissRead(0, 1);
    var s1 := Apply(s, StartLoad(0));
    var s2 := Apply(s1, List(0));
    steps := MissedTrace(s2);
    Prepend(s1, fault, List(0), steps);
    steps := [List(0)] + steps;
    Prepend(s, fault, StartLoad(0), steps);
    steps := [StartLoad(0)] + steps;
  }

  lemma MissedTrace(s: State) returns (steps: seq<Step>)
    requires OneRecord(s) && s.holder == None && At(s, 0) == Reading(10, {1}, {})
    ensures Orphans(s, MissRead(0, 1), steps)
  {
    hide Orphans;
    var fault := MissRead(0, 1);
    var s1 := Apply(s, fault);
    assert At(s1, 0) == Reading(10, {}, {});
    steps := LateTrace(Apply(s1, ReadDone(0)));
    Prepend(s1, fault, ReadDone(0), steps);
    steps := [ReadDone(0)] + steps;
    Prepend(s, fault, fault, steps);
    steps := [fault] + steps;
  }

  lemma LateTrace(s: State) returns (steps: seq<Step>)
    requires OneRecord(s) && s.holder == None && At(s, 0) == Trying(10, {})
    ensures Orphans(s, MissRead(0, 1), steps)
  {
    hide Orphans;
    var fault := MissRead(0, 1);
    var s1 := Apply(s, TryLock(0));
    var s2 := Apply(s1, List(0));
    assert At(s2, 0) == Rereading(10, {1}, {});
    steps := FaultTrace(s2, fault);
    Prepend(s1, fault, List(0), steps);
    steps := [List(0)] + steps;
    Prepend(s, fault, TryLock(0), steps);
    steps := [TryLock(0)] + steps;
  }

  // From the listing under the lock to the sweep of the ledger the fault left unreferenced.
  lemma FaultTrace(s: State, fault: Step) returns (steps: seq<Step>)
    requires OneRecord(s)
    requires (fault == MissRead(0, 1) && At(s, 0) == Rereading(10, {1}, {}))
          || (fault == FailRemove(0, 1) && At(s, 0) == Judging(10, {}, {1}, {}))
    ensures Orphans(s, fault, steps)
  {
    hide Loses;
    var s1 := Apply(s, fault);
    assert Doomed(s1, 0, 1);
    if fault.MissRead? {
      steps := ReadOut(s1, 0, 1);
    } else {
      steps := JudgeOut(s1, 0, 1);
    }
    LosesOrphans(s1, fault, steps);
    Prepend(s, fault, fault, steps);
    steps := [fault] + steps;
  }

  lemma LosesOrphans(s: State, fault: Step, steps: seq<Step>)
    requires Loses(s, steps)
    ensures Orphans(s, fault, steps)
  {
  }

  // What an install evicts are other records of its own identity.
  ghost predicate EvictsSiblings(s: State)
  {
    forall p, n :: p in s.procs && s.procs[p].Evicting? && n in s.procs[p].victims && n in s.records ==>
      n != s.procs[p].name && s.records[n].identity == s.procs[p].rec.identity
  }

  lemma StepEvictsSiblings(s: State, step: Step)
    requires Locked(s) && EvictsSiblings(s) && Enabled(s, step)
    ensures EvictsSiblings(Apply(s, step))
  {
    hide Enabled, Apply;
    var s' := Apply(s, step);
    forall p, n | p in s'.procs && s'.procs[p].Evicting? && n in s'.procs[p].victims && n in s'.records
      ensures n != s'.procs[p].name && s'.records[n].identity == s'.procs[p].rec.identity
    {
      SiblingAt(s, step, p, n);
    }
  }

  lemma SiblingAt(s: State, step: Step, p: Pid, n: Name)
    requires Locked(s) && EvictsSiblings(s) && Enabled(s, step)
    requires var s' := Apply(s, step); p in s'.procs && s'.procs[p].Evicting? && n in s'.procs[p].victims && n in s'.records
    ensures var s' := Apply(s, step); n != s'.procs[p].name && s'.records[n].identity == s'.procs[p].rec.identity
  {
  }

  // In every run, crashes and faults of any kind included, a record an install takes is another of
  // its own identity, and one that finished has taken all it chose.
  lemma {:induction false} RunEvictsSiblings(run: seq<State>, steps: seq<Step>, i: nat)
    requires IsRun(run, steps) && Initial(run[0]) && i < |run|
    ensures Locked(run[i]) && EvictsSiblings(run[i])
    ensures i < |steps| && steps[i].Evict? && steps[i].n in run[i].records ==>
      var ph := At(run[i], steps[i].p);
      ph.Evicting? && steps[i].n != ph.name && run[i].records[steps[i].n].identity == ph.rec.identity
    ensures i < |steps| && steps[i].Finish? && At(run[i], steps[i].p).Evicting? ==> At(run[i], steps[i].p).victims == {}
  {
    if i > 0 {
      RunEvictsSiblings(run, steps, i - 1);
      StepKeepsLocked(run[i - 1], steps[i - 1]);
      StepEvictsSiblings(run[i - 1], steps[i - 1]);
    }
  }

  // A completed install has its record on disk, and its ledger when it supplied one.
  lemma CompletedInstallIsServable(run: seq<State>, steps: seq<Step>, i: nat)
    requires IsRun(run, steps) && Initial(run[0]) && i < |steps|
    requires forall j :: 0 <= j < |steps| ==> Harmless(run[j], steps[j])
    requires steps[i].Finish? && At(run[i], steps[i].p).Evicting?
    ensures var ph := At(run[i], steps[i].p);
      && ph.name in run[i + 1].records && run[i + 1].records[ph.name] == ph.rec
      && (ph.rec.ledgered ==> HasLedger(run[i + 1], ph.rec))
  {
    RunKeepsLedgers(run, steps, i);
    RunKeepsLedgers(run, steps, i + 1);
    assert Knows(run[i], run[i].procs[steps[i].p]);
  }

  // ----- what an uncontended load or collection leaves -----

  // p alone acts, uninterrupted and without faults.
  ghost predicate IsSoloRun(run: seq<State>, steps: seq<Step>, p: Pid)
  {
    && IsRun(run, steps)
    && forall i :: 0 <= i < |steps| ==>
         FaultFree(steps[i]) && !steps[i].Stop? && (steps[i].Tick? || steps[i].p == p)
  }

  // The ledger keys the records spell.
  function Named(records: map<Name, Record>): set<Key>
  {
    set n | n in records && records[n].key != NO_KEY :: records[n].key
  }

  function Retained(ledgers: map<Key, Ledger>, since: int, referenced: set<Key>): map<Key, Ledger>
  {
    map k | k in ledgers && Spared(since, referenced, k, ledgers[k].mod) :: ledgers[k]
  }

  // A sweep under way: the ledgers still listed, and of the others the spared ones.
  ghost predicate Swept(before: map<Key, Ledger>, now: map<Key, Ledger>, since: int, referenced: set<Key>, left: map<Key, int>)
  {
    && (forall k :: k in left ==> k in before && left[k] == before[k].mod)
    && (forall k :: k in now <==> k in before && (k in left || Spared(since, referenced, k, before[k].mod)))
    && (forall k :: k in now ==> now[k] == before[k])
  }

  // A ledger on disk whose age can be read and is not before now.
  predicate YoungIn(s: State, k: Key)
  {
    k in s.ledgers && s.ledgers[k].mod != 0 && s.ledgers[k].mod >= s.now
  }

  ghost predicate NamedIn(records: map<Name, Record>, k: Key)
  {
    exists n :: n in records && records[n].key == k
  }

  // Every ledger key a record spells is referenced already or read from a record still to do.
  predicate Covers(s: State, todo: set<Name>, referenced: set<Key>)
  {
    forall n :: n in s.records && s.records[n].key != NO_KEY ==> n in todo || s.records[n].key in referenced
  }

  ghost predicate LoadStands(s0: State, since: int, s: State, p: Pid)
  {
    && s.records == s0.records
    && (s.holder == if Holds(At(s, p)) then Some(p) else None)
    && match At(s, p)
       case Listing(t) => t == since && s.ledgers == s0.ledgers
       case Reading(t, _, referenced) => t == since && s.ledgers == s0.ledgers && referenced <= Named(s0.records)
       case Trying(t, referenced) => t == since && s.ledgers == s0.ledgers && referenced <= Named(s0.records)
       case Relisting(t, referenced) => t == since && s.ledgers == s0.ledgers && referenced <= Named(s0.records)
       case Rereading(t, todo, referenced) =>
         t == since && s.ledgers == s0.ledgers && referenced <= Named(s0.records) && Covers(s, todo, referenced)
       case SweepListing(t, referenced) => t == since && s.ledgers == s0.ledgers && referenced == Named(s0.records)
       case Sweeping(t, referenced, left) =>
         t == since && referenced == Named(s0.records) && Swept(s0.ledgers, s.ledgers, since, referenced, left)
       case Returned => s.ledgers == Retained(s0.ledgers, since, Named(s0.records))
       case _ => false
  }

  lemma LoadStep(s0: State, since: int, s: State, p: Pid, step: Step)
    requires LoadStands(s0, since, s, p)
    requires Enabled(s, step) && FaultFree(step) && !step.Stop? && (step.Tick? || step.p == p)
    ensures LoadStands(s0, since, Apply(s, step), p)
  {
  }

  lemma {:induction false} LoadRun(run: seq<State>, steps: seq<Step>, p: Pid, i: nat)
    requires IsSoloRun(run, steps, p) && 1 <= i < |run|
    requires run[0].holder == None && At(run[0], p).Idle? && steps[0] == StartLoad(p)
    ensures LoadStands(run[0], run[0].now, run[i], p)
  {
    if i > 1 {
      LoadRun(run, steps, p, i - 1);
      LoadStep(run[0], run[0].now, run[i - 1], p, steps[i - 1]);
    }
  }

  // An uncontended load keeps every record and leaves of the ledgers exactly those a record
  // names and those no older than the load; begun after every ledger was written, exactly
  // those a record names.
  lemma UncontendedLoad(run: seq<State>, steps: seq<Step>, p: Pid)
    requires IsSoloRun(run, steps, p) && steps != []
    requires run[0].holder == None && At(run[0], p).Idle? && steps[0] == StartLoad(p)
    requires At(run[|steps|], p).Returned?
    ensures run[|steps|].records == run[0].records
    ensures run[|steps|].ledgers == Retained(run[0].ledgers, run[0].now, Named(run[0].records))
    ensures forall k :: k in run[|steps|].ledgers <==> YoungIn(run[0], k) || (k in run[0].ledgers && k != NO_KEY && NamedIn(run[0].records, k))
    ensures forall k :: k in run[|steps|].ledgers ==> run[|steps|].ledgers[k] == run[0].ledgers[k]
    ensures (forall k :: k in run[0].ledgers ==> run[0].ledgers[k].mod < run[0].now) ==>
      run[|steps|].ledgers.Keys == run[0].ledgers.Keys * Named(run[0].records)
  {
    LoadRun(run, steps, p, |steps|);
  }

  // p alone acts, uninterrupted; records may fail to read.
  ghost predicate IsMissingRun(run: seq<State>, steps: seq<Step>, p: Pid)
  {
    && IsRun(run, steps)
    && forall i :: 0 <= i < |steps| ==>
         !steps[i].FailRemove? && !steps[i].Stop? && (steps[i].Tick? || steps[i].p == p)
  }

  // The records a run of steps has read, in either scan.
  function ReadIn(steps: seq<Step>): set<Name>
  {
    if steps == [] then {}
    else
      var last := steps[|steps| - 1];
      ReadIn(steps[..|steps| - 1]) + if last.Read? then {last.n} else {}
  }

  function NamedBy(records: map<Name, Record>, names: set<Name>): set<Key>
  {
    set n | n in names && n in records && records[n].key != NO_KEY :: records[n].key
  }

  // A load under way with the given records read.
  ghost predicate MissingStands(s0: State, since: int, s: State, p: Pid, names: set<Name>)
  {
    var keys := NamedBy(s0.records, names);
    && s.records == s0.records
    && (s.holder == if Holds(At(s, p)) then Some(p) else None)
    && match At(s, p)
       case Listing(t) => t == since && s.ledgers == s0.ledgers && names == {}
       case Reading(t, _, referenced) => t == since && s.ledgers == s0.ledgers && referenced == keys
       case Trying(t, referenced) => t == since && s.ledgers == s0.ledgers && referenced == keys
       case Relisting(t, referenced) => t == since && s.ledgers == s0.ledgers && referenced == keys
       case Rereading(t, _, referenced) => t == since && s.ledgers == s0.ledgers && referenced == keys
       case SweepListing(t, referenced) => t == since && s.ledgers == s0.ledgers && referenced == keys
       case Sweeping(t, referenced, left) =>
         t == since && referenced == keys && Swept(s0.ledgers, s.ledgers, since, referenced, left)
       case Returned => s.ledgers == Retained(s0.ledgers, since, keys)
       case _ => false
  }

  lemma MissingStep(s0: State, since: int, s: State, p: Pid, names: set<Name>, step: Step)
    requires MissingStands(s0, since, s, p, names)
    requires Enabled(s, step) && !step.FailRemove? && !step.Stop? && (step.Tick? || step.p == p)
    ensures MissingStands(s0, since, Apply(s, step), p, names + if step.Read? then {step.n} else {})
  {
    hide MissingStands, Apply, Enabled;
    assert names + {} == names;
    if step.Read? {
      MissingRead(s0, since, s, p, names, step);
    } else if step.SweepList? || step.SweepOne? {
      MissingSweep(s0, since, s, p, names, step);
    } else {
      MissingOther(s0, since, s, p, names, step);
    }
  }

  lemma MissingRead(s0: State, since: int, s: State, p: Pid, names: set<Name>, step: Step)
    requires MissingStands(s0, since, s, p, names) && Enabled(s, step) && step.Read? && step.p == p
    ensures MissingStands(s0, since, Apply(s, step), p, names + {step.n})
  {
    hide NamedBy, Swept, Retained;
    NamedMore(s0.records, names, step.n);
  }

  lemma MissingSweep(s0: State, since: int, s: State, p: Pid, names: set<Name>, step: Step)
    requires MissingStands(s0, since, s, p, names) && Enabled(s, step) && (step.SweepList? || step.SweepOne?) && step.p == p
    ensures MissingStands(s0, since, Apply(s, step), p, names)
  {
    hide NamedBy;
  }

  lemma MissingOther(s0: State, since: int, s: State, p: Pid, names: set<Name>, step: Step)
    requires MissingStands(s0, since, s, p, names) && Enabled(s, step)
    requires !step.FailRemove? && !step.Stop? && (step.Tick? || step.p == p)
    requires !step.Read? && !step.SweepList? && !step.SweepOne?
    ensures MissingStands(s0, since, Apply(s, step), p, names)
  {
    assert NamedBy(s0.records, {}) == {};
  }

  lemma NamedMore(records: map<Name, Record>, names: set<Name>, n: Name)
    ensures NamedBy(records, names + {n}) ==
      NamedBy(records, names) + if n in records && records[n].key != NO_KEY then {records[n].key} else {}
  {
  }

  lemma {:induction false} MissingRun(run: seq<State>, steps: seq<Step>, p: Pid, i: nat)
    requires IsMissingRun(run, steps, p) && 1 <= i < |run|
    requires run[0].holder == None && At(run[0], p).Idle? && steps[0] == StartLoad(p)
    ensures MissingStands(run[0], run[0].now, run[i], p, ReadIn(steps[..i]))
  {
    hide MissingStands;
    if i == 1 {
      assert steps[..1][..0] == [];
      assert ReadIn(steps[..1]) == ReadIn([]) + {} == {};
      MissingStart(run[0], p);
    } else {
      MissingRun(run, steps, p, i - 1);
      assert steps[..i][..i - 1] == steps[..i - 1] && steps[..i][i - 1] == steps[i - 1];
      MissingStep(run[0], run[0].now, run[i - 1], p, ReadIn(steps[..i - 1]), steps[i - 1]);
    }
  }

  lemma MissingStart(s: State, p: Pid)
    requires s.holder == None && At(s, p).Idle?
    ensures MissingStands(s, s.now, Apply(s, StartLoad(p)), p, {})
  {
  }

  // An uncontended load some of whose reads fail keeps every record, and of the ledgers exactly those
  // a record read in either scan names and those no older than the load.
  lemma UncontendedLoadWithMisses(run: seq<State>, steps: seq<Step>, p: Pid)
    requires IsMissingRun(run, steps, p) && steps != []
    requires run[0].holder == None && At(run[0], p).Idle? && steps[0] == StartLoad(p)
    requires At(run[|steps|], p).Returned?
    ensures run[|steps|].records == run[0].records
    ensures run[|steps|].ledgers == Retained(run[0].ledgers, run[0].now, NamedBy(run[0].records, ReadIn(steps)))
    ensures forall k :: k in run[|steps|].ledgers <==> YoungIn(run[0], k) || (k in run[0].ledgers && NamedInRead(run[0].records, steps, k))
  {
    hide NamedBy;
    MissingRun(run, steps, p, |steps|);
    assert steps[..|steps|] == steps;
    forall k ensures k in NamedBy(run[0].records, ReadIn(steps)) <==> NamedInRead(run[0].records, steps, k) {
      ReadNames(run[0].records, steps, k);
    }
  }

  // A record some step reads names the ledger.
  ghost predicate NamedInRead(records: map<Name, Record>, steps: seq<Step>, k: Key)
  {
    exists s :: s in steps && s.Read? && s.n in records && records[s.n].key == k != NO_KEY
  }

  lemma ReadNames(records: map<Name, Record>, steps: seq<Step>, k: Key)
    ensures k in NamedBy(records, ReadIn(steps)) <==> NamedInRead(records, steps, k)
  {
    hide ReadIn;
    forall n ensures n in ReadIn(steps) <==> exists s :: s in steps && s.Read? && s.n == n {
      ReadsIn(steps, n);
    }
    if n :| n in ReadIn(steps) && n in records && records[n].key != NO_KEY && records[n].key == k {
      var s :| s in steps && s.Read? && s.n == n;
    }
  }

  lemma {:induction false} ReadsIn(steps: seq<Step>, n: Name)
    ensures n in ReadIn(steps) <==> exists s :: s in steps && s.Read? && s.n == n
  {
    if steps != [] {
      var last := steps[|steps| - 1];
      ReadsIn(steps[..|steps| - 1], n);
      assert steps == steps[..|steps| - 1] + [last];
    }
  }

  // What a collection keeps of the records: the admitted ones of a live identity.
  predicate Kept(live: set<Identity>, rec: Record)
  {
    rec.admitted && rec.identity in live
  }

  function KeptRecords(records: map<Name, Record>, live: set<Identity>): map<Name, Record>
  {
    map n | n in records && Kept(live, records[n]) :: records[n]
  }

  function KeysOf(records: map<Name, Record>): set<Key>
  {
    set n | n in records :: records[n].key
  }

  // A judgment under way: what is still to judge, and of the rest the kept, their keys referenced.
  ghost predicate Judged(before: map<Name, Record>, now: map<Name, Record>, live: set<Identity>, todo: set<Name>, referenced: set<Key>)
  {
    && todo <= before.Keys
    && (forall n :: n in now <==> n in before && (n in todo || Kept(live, before[n])))
    && (forall n :: n in now ==> now[n] == before[n])
    && (forall n :: n in before && n !in todo && Kept(live, before[n]) ==> before[n].key in referenced)
    && referenced <= KeysOf(KeptRecords(before, live))
  }

  ghost predicate CollectStands(s0: State, since: int, live: set<Identity>, s: State, p: Pid)
  {
    var kept := KeptRecords(s0.records, live);
    && (s.holder == if Holds(At(s, p)) then Some(p) else None)
    && match At(s, p)
       case CollectWaiting(t, l) => t == since && l == live && s.records == s0.records && s.ledgers == s0.ledgers
       case CollectListing(t, l) => t == since && l == live && s.records == s0.records && s.ledgers == s0.ledgers
       case Judging(t, l, todo, referenced) =>
         t == since && l == live && s.ledgers == s0.ledgers && Judged(s0.records, s.records, live, todo, referenced)
       case SweepListing(t, referenced) =>
         t == since && s.records == kept && s.ledgers == s0.ledgers && referenced == KeysOf(kept)
       case Sweeping(t, referenced, left) =>
         t == since && s.records == kept && referenced == KeysOf(kept) && Swept(s0.ledgers, s.ledgers, since, referenced, left)
       case Returned => s.records == kept && s.ledgers == Retained(s0.ledgers, since, KeysOf(kept))
       case _ => false
  }

  lemma CollectStep(s0: State, since: int, live: set<Identity>, s: State, p: Pid, step: Step)
    requires CollectStands(s0, since, live, s, p)
    requires Enabled(s, step) && FaultFree(step) && !step.Stop? && (step.Tick? || step.p == p)
    ensures CollectStands(s0, since, live, Apply(s, step), p)
  {
    hide CollectStands, Apply, Enabled;
    if step.Judge? {
      CollectJudge(s0, since, live, s, p, step);
    } else if step.SweepOne? || step.SweepList? {
      CollectSweep(s0, since, live, s, p, step);
    } else {
      CollectOther(s0, since, live, s, p, step);
    }
  }

  lemma CollectJudge(s0: State, since: int, live: set<Identity>, s: State, p: Pid, step: Step)
    requires CollectStands(s0, since, live, s, p) && Enabled(s, step) && step.Judge? && step.p == p
    ensures CollectStands(s0, since, live, Apply(s, step), p)
  {
    hide Swept, Retained;
    var kept := KeptRecords(s0.records, live);
    if step.n in kept {
      assert kept[step.n].key in KeysOf(kept);
    }
  }

  lemma CollectSweep(s0: State, since: int, live: set<Identity>, s: State, p: Pid, step: Step)
    requires CollectStands(s0, since, live, s, p) && Enabled(s, step) && (step.SweepOne? || step.SweepList?) && step.p == p
    ensures CollectStands(s0, since, live, Apply(s, step), p)
  {
    hide Judged, KeptRecords, KeysOf;
  }

  lemma CollectOther(s0: State, since: int, live: set<Identity>, s: State, p: Pid, step: Step)
    requires CollectStands(s0, since, live, s, p) && Enabled(s, step)
    requires FaultFree(step) && !step.Stop? && (step.Tick? || step.p == p)
    requires !step.Judge? && !step.SweepOne? && !step.SweepList?
    ensures CollectStands(s0, since, live, Apply(s, step), p)
  {
  }

  lemma {:induction false} CollectRun(run: seq<State>, steps: seq<Step>, p: Pid, live: set<Identity>, i: nat)
    requires IsSoloRun(run, steps, p) && 1 <= i < |run|
    requires run[0].holder == None && At(run[0], p).Idle? && steps[0] == StartCollect(p, live)
    ensures CollectStands(run[0], run[0].now, live, run[i], p)
  {
    if i > 1 {
      CollectRun(run, steps, p, live, i - 1);
      CollectStep(run[0], run[0].now, live, run[i - 1], p, steps[i - 1]);
    }
  }

  // An uncontended collection keeps exactly the admitted records of live identities, and of the
  // ledgers exactly those a kept record names and those no older than the collection.
  lemma UncontendedCollect(run: seq<State>, steps: seq<Step>, p: Pid, live: set<Identity>)
    requires IsSoloRun(run, steps, p) && steps != []
    requires run[0].holder == None && At(run[0], p).Idle? && steps[0] == StartCollect(p, live)
    requires At(run[|steps|], p).Returned?
    ensures run[|steps|].records == KeptRecords(run[0].records, live)
    ensures run[|steps|].ledgers
         == Retained(run[0].ledgers, run[0].now, KeysOf(KeptRecords(run[0].records, live)))
    ensures forall n :: n in run[|steps|].records <==> n in run[0].records && run[0].records[n].admitted && run[0].records[n].identity in live
    ensures forall n :: n in run[|steps|].records ==> run[|steps|].records[n] == run[0].records[n]
    ensures forall k :: k in run[|steps|].ledgers <==> YoungIn(run[0], k) || (k in run[0].ledgers && NamedIn(run[|steps|].records, k))
  {
    CollectRun(run, steps, p, live, |steps|);
  }
}
