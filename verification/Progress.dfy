/** The progress reporter (internal/progress/progress.go): milestones always emit, everything else at
    most once an interval, nothing after the seal; and the decorated sink that never blocks the
    operation and never loses its ending.

    Phases, invocations and units are compared for equality alone, so numbers stand for them; zero
    is the unspecified phase, cause or text. Time is a non-decreasing number the callers hand in. */
module Progress {
  import opened Basics

  // A unit whose records persisted, and how many.
  datatype Kept = Kept(unit: nat, records: int)

  datatype Note = NoNote | Text(text: nat) | Persisted(entry: Kept)

  datatype Event = Event(phase: nat, invocation: nat, completed: int, total: int, cause: nat, note: Note, kept: seq<Kept>)

  // What a caller asks of the reporter.
  datatype Call =
    | Phase(phase: nat)
    | Step(invocation: nat, completed: int, total: int)
    | Note(text: nat)
    | Persist(entry: Kept)
    | Keepalive
    | Terminal(cause: nat)

  // An emission: the event, the call that made it, and the phase entry it belongs to.
  datatype Emission = Emission(event: Event, by_: Call, epoch: nat)

  datatype State = State(
    phase: nat, epoch: nat, invocation: nat, completed: int, total: int, maxDone: map<nat, int>,
    last: Option<int>, kept: seq<Kept>, done: bool, cause: nat, log: seq<Emission>)

  // ----- what a call does -----

  // The final unit of an invocation.
  predicate Completes(c: Call)
  {
    c.Step? && c.total > 0 && c.completed >= c.total
  }

  // The reporter takes the call up: not after the seal, not a phase re-entered, not a stale count,
  // not an empty note.
  predicate Accepts(s: State, c: Call)
  {
    !s.done &&
    match c
    case Phase(p) => p != 0 && p != s.phase
    case Step(i, n, _) => i in s.maxDone ==> n > s.maxDone[i]
    case Note(t) => t != 0
    case _ => true
  }

  // Phases, completed invocations, notes, persisted units and the seal.
  predicate Milestone(s: State, c: Call)
  {
    Accepts(s, c) && !c.Keepalive? && (c.Step? ==> Completes(c))
  }

  // The interval has passed since the last emission, if there was one.
  predicate Rested(s: State, interval: int, now: int)
  {
    s.last.Some? ==> now - s.last.value >= interval
  }

  predicate Emits(s: State, interval: int, c: Call, now: int)
  {
    Accepts(s, c) && (Milestone(s, c) || Rested(s, interval, now))
  }

  // The state the call's own record leaves, before anything is emitted.
  function Recorded(s: State, c: Call): State
  {
    match c
    case Phase(p) => s.(phase := p, epoch := s.epoch + 1, invocation := 0, completed := 0, total := 0, maxDone := map[])
    case Step(i, n, t) => s.(invocation := i, completed := n, total := t, maxDone := s.maxDone[i := n])
    case Persist(k) => s.(kept := s.kept + [k])
    case Terminal(cause) => s.(done := true, cause := cause)
    case _ => s
  }

  function NoteOf(c: Call): Note
  {
    match c
    case Note(t) => Text(t)
    case Persist(k) => Persisted(k)
    case _ => NoNote
  }

  function EventOf(s: State, c: Call): Event
  {
    var cause := if c.Terminal? then c.cause else 0;
    Event(s.phase, s.invocation, s.completed, s.total, cause, NoteOf(c), if cause != 0 then s.kept else [])
  }

  // The event a call emits, on the state it has recorded.
  function Announced(r: State, sink: bool, c: Call, now: int): State
  {
    r.(last := Some(now), log := if sink then r.log + [Emission(EventOf(r, c), c, r.epoch)] else r.log)
  }

  function Apply(s: State, sink: bool, interval: int, c: Call, now: int): State
  {
    if !Accepts(s, c) then s
    else
      var r := Recorded(s, c);
      if Emits(s, interval, c, now) then Announced(r, sink, c, now) else r
  }

  // ----- the reporter -----

  class Reporter {
    const sink: bool
    const interval: int
    var phase: nat
    ghost var epoch: nat
    var invocation: nat
    var completed: int
    var total: int
    var maxDone: map<nat, int>
    var last: Option<int>
    var kept: seq<Kept>
    var pending: Note
    var done: bool
    var cause: nat
    ghost var log: seq<Emission>

    ghost function Seen(): State
      reads this
    {
      State(phase, epoch, invocation, completed, total, maxDone, last, kept, done, cause, log)
    }

    // No note waits for an event.
    ghost predicate Valid()
      reads this
    {
      pending.NoNote?
    }

    constructor (sink: bool, interval: int)
      ensures Valid() && Seen() == Start() && this.sink == sink && this.interval == interval
    {
      this.sink, this.interval := sink, interval;
      phase, epoch, invocation, completed, total, maxDone := 0, 0, 0, 0, 0, map[];
      last, kept, pending, done, cause, log := None, [], NoNote, false, 0, [];
    }

    // emitLocked: the event carries the pending note, and what persisted when it has a cause.
    method Emit(cause_: nat, now: int, ghost by_: Call)
      requires pending == NoteOf(by_) && cause_ == if by_.Terminal? then by_.cause else 0
      modifies `last, `pending, `log
      ensures Valid() && Seen() == Announced(old(Seen()), sink, by_, now)
    {
      last := Some(now);
      if sink {
        log := log + [Emission(Event(phase, invocation, completed, total, cause_, pending, if cause_ != 0 then kept else []), by_, epoch)];
      }
      pending := NoNote;
    }

    method EnterPhase(p: nat, now: int)
      requires Valid()
      modifies this
      ensures Valid() && Seen() == Apply(old(Seen()), sink, interval, Phase(p), now)
    {
      hide Announced;
      if p == 0 || done || phase == p {
        return;
      }
      phase, epoch := p, epoch + 1;
      invocation, completed, total := 0, 0, 0;
      maxDone := map[];
      Emit(0, now, Phase(p));
    }

    method TakeStep(i: nat, n: int, t: int, now: int)
      requires Valid()
      modifies this
      ensures Valid() && Seen() == Apply(old(Seen()), sink, interval, Step(i, n, t), now)
    {
      hide Announced;
      if done || (i in maxDone && n <= maxDone[i]) {
        return;
      }
      maxDone := maxDone[i := n];
      invocation, completed, total := i, n, t;
      var milestone := t > 0 && n >= t;
      if !milestone && last.Some? && now - last.value < interval {
        return;
      }
      Emit(0, now, Step(i, n, t));
    }

    method TakeNote(t: nat, now: int)
      requires Valid()
      modifies this
      ensures Valid() && Seen() == Apply(old(Seen()), sink, interval, Call.Note(t), now)
    {
      hide Announced;
      if done || t == 0 {
        return;
      }
      pending := Text(t);
      Emit(0, now, Call.Note(t));
    }

    method RecordPersisted(unit: nat, records: int, now: int)
      requires Valid()
      modifies this
      ensures Valid() && Seen() == Apply(old(Seen()), sink, interval, Persist(Kept(unit, records)), now)
    {
      hide Announced;
      if done {
        return;
      }
      kept := kept + [Kept(unit, records)];
      pending := Persisted(Kept(unit, records));
      Emit(0, now, Persist(Kept(unit, records)));
    }

    method KeepAlive(now: int)
      requires Valid()
      modifies this
      ensures Valid() && Seen() == Apply(old(Seen()), sink, interval, Keepalive, now)
    {
      hide Announced;
      if done || (last.Some? && now - last.value < interval) {
        return;
      }
      Emit(0, now, Keepalive);
    }

    // Terminal and SealBy: the ending, once; a sealed reporter answers its own ending again.
    method Seal(c: nat, now: int) returns (ending: (nat, nat, seq<Kept>))
      requires Valid()
      modifies this
      ensures Valid() && Seen() == Apply(old(Seen()), sink, interval, Terminal(c), now)
      ensures ending == (cause, phase, kept)
    {
      hide Announced;
      if !done {
        done, cause := true, c;
        Emit(c, now, Terminal(c));
      }
      ending := (cause, phase, kept);
    }
  }

  function Start(): State
  {
    State(0, 0, 0, 0, 0, map[], None, [], false, 0, [])
  }

  // ----- any run of calls -----

  datatype Timed = Timed(call: Call, now: int)

  function Run(sink: bool, interval: int, calls: seq<Timed>): State
  {
    if calls == [] then Start()
    else Apply(Run(sink, interval, calls[..|calls| - 1]), sink, interval, calls[|calls| - 1].call, calls[|calls| - 1].now)
  }

  // The calls of a run the reporter took as milestones.
  function Milestones(sink: bool, interval: int, calls: seq<Timed>): nat
  {
    if calls == [] then 0
    else
      Milestones(sink, interval, calls[..|calls| - 1])
      + if Milestone(Run(sink, interval, calls[..|calls| - 1]), calls[|calls| - 1].call) then 1 else 0
  }

  // Time does not run backwards, and the run began at `start`.
  ghost predicate Clocked(start: int, calls: seq<Timed>)
  {
    && (forall i :: 0 <= i < |calls| ==> start <= calls[i].now)
    && (forall i, j :: 0 <= i < j < |calls| ==> calls[i].now <= calls[j].now)
  }

  // How many emissions were paced, against the last of them.
  ghost predicate PacedUpto(s: State, interval: int, start: int, now: int, paced: int)
  {
    && (s.last.None? ==> paced <= 0)
    && (s.last.Some? ==> start <= s.last.value <= now && (paced - 1) * interval <= s.last.value - start)
  }

  lemma PacedStep(s: State, sink: bool, interval: int, start: int, c: Call, before: int, now: int, paced: int)
    requires interval > 0 && start <= now && (s.last.Some? ==> before <= now) && PacedUpto(s, interval, start, before, paced)
    ensures var s' := Apply(s, sink, interval, c, now);
      PacedUpto(s', interval, start, now, paced + |s'.log| - |s.log| - if Milestone(s, c) then 1 else 0)
  {
    var s' := Apply(s, sink, interval, c, now);
    var more := |s'.log| - |s.log| - if Milestone(s, c) then 1 else 0;
    assert paced * interval == (paced - 1) * interval + interval;
    assert (paced - 2) * interval == (paced - 1) * interval - interval;
    assert s.last.None? ==> (paced - 1) * interval <= 0;
    assert -1 <= more <= 1;
  }

  // Paced emissions are at least an interval apart.
  lemma {:induction false} Paced(sink: bool, interval: int, start: int, calls: seq<Timed>)
    requires interval > 0 && Clocked(start, calls)
    ensures var s := Run(sink, interval, calls);
      && PacedUpto(s, interval, start, if calls == [] then start else calls[|calls| - 1].now, |s.log| - Milestones(sink, interval, calls))
      && (calls == [] ==> s.last.None?)
  {
    hide Apply, Milestone, PacedUpto;
    if calls == [] {
      assert PacedUpto(Start(), interval, start, start, 0) by { NothingPaced(interval, start); }
    } else {
      var before, t := calls[..|calls| - 1], calls[|calls| - 1];
      Paced(sink, interval, start, before);
      var s := Run(sink, interval, before);
      PacedStep(s, sink, interval, start, t.call, if before == [] then start else before[|before| - 1].now, t.now,
                |s.log| - Milestones(sink, interval, before));
    }
  }

  lemma NothingPaced(interval: int, start: int)
    ensures PacedUpto(Start(), interval, start, start, 0)
  {
  }

  // The stream is bounded: the milestones, and one event per elapsed interval and one more.
  lemma EventsAreBounded(sink: bool, interval: int, start: int, calls: seq<Timed>)
    requires interval > 0 && calls != [] && Clocked(start, calls)
    ensures |Run(sink, interval, calls).log| <= Milestones(sink, interval, calls) + (calls[|calls| - 1].now - start) / interval + 1
  {
    hide Run, Milestones;
    Paced(sink, interval, start, calls);
    var s := Run(sink, interval, calls);
    var paced := |s.log| - Milestones(sink, interval, calls);
    Quotient(if s.last.Some? then paced - 1 else 0, interval, calls[|calls| - 1].now - start);
  }

  lemma Quotient(n: int, d: int, m: int)
    requires d > 0 && n * d <= m
    ensures n <= m / d
  {
    var q := m / d;
    assert (q + 1 - n) * d == q * d + d - n * d;
    PositiveFactor(q + 1 - n, d);
  }

  // Two counts Step emitted for one invocation within one phase entry.
  predicate SameCount(a: Emission, b: Emission)
  {
    a.by_.Step? && b.by_.Step? && a.epoch == b.epoch && a.event.invocation == b.event.invocation
  }

  ghost predicate Rising(log: seq<Emission>)
  {
    forall i, j :: 0 <= i < j < |log| && SameCount(log[i], log[j]) ==> log[i].event.completed < log[j].event.completed
  }

  // A count emitted in the current phase is at most the invocation's recorded one.
  predicate Within(s: State, e: Emission)
  {
    e.epoch <= s.epoch &&
    (e.by_.Step? && e.epoch == s.epoch ==>
      e.event.invocation in s.maxDone && e.event.completed <= s.maxDone[e.event.invocation])
  }

  ghost predicate AllWithin(s: State)
  {
    forall k :: 0 <= k < |s.log| ==> Within(s, s.log[k])
  }

  // Emitted counts rise strictly, per invocation, within a phase.
  lemma {:induction false} CountsRise(sink: bool, interval: int, calls: seq<Timed>)
    ensures Rising(Run(sink, interval, calls).log) && AllWithin(Run(sink, interval, calls))
  {
    hide Apply, Rising, AllWithin;
    if calls == [] {
      assert Rising([]) && AllWithin(Start()) by { NothingEmitted(); }
    } else {
      var before, t := calls[..|calls| - 1], calls[|calls| - 1];
      CountsRise(sink, interval, before);
      RisingStep(Run(sink, interval, before), sink, interval, t.call, t.now);
    }
  }

  lemma NothingEmitted()
    ensures Rising([]) && AllWithin(Start())
  {
  }

  lemma RisingStep(s: State, sink: bool, interval: int, c: Call, now: int)
    requires Rising(s.log) && AllWithin(s)
    ensures Rising(Apply(s, sink, interval, c, now).log) && AllWithin(Apply(s, sink, interval, c, now))
  {
    hide Rested, Milestone;
    var s' := Apply(s, sink, interval, c, now);
    forall k | 0 <= k < |s.log| ensures s'.log[k] == s.log[k] && Within(s', s.log[k]) {
      assert Within(s, s.log[k]);
    }
  }

  // The terminal events of a log: none but a sealed log's last, which carries the sealing cause and
  // everything that persisted.
  ghost predicate SealedOnce(s: State, sink: bool)
  {
    && (!s.done ==> s.cause == 0) && (!sink ==> s.log == [])
    && (forall k :: 0 <= k < |s.log| - 1 ==> s.log[k].event.cause == 0)
    && (s.log != [] ==> s.log[|s.log| - 1].event.cause == s.cause)
    && (s.done && sink ==> s.log != [])
    && (s.done && sink && s.cause != 0 ==> s.log[|s.log| - 1].event.kept == s.kept)
  }

  // Exactly one terminal event, and it is the last: a run sealed with a concrete cause ends its log
  // with it.
  lemma {:induction false} TerminalIsLast(sink: bool, interval: int, calls: seq<Timed>)
    ensures SealedOnce(Run(sink, interval, calls), sink)
  {
    hide SealedOnce, Apply;
    if calls == [] {
      assert SealedOnce(Start(), sink) by { StartOpen(sink); }
    } else {
      var before, t := calls[..|calls| - 1], calls[|calls| - 1];
      TerminalIsLast(sink, interval, before);
      SealStep(Run(sink, interval, before), sink, interval, t.call, t.now);
    }
  }

  lemma StartOpen(sink: bool)
    ensures SealedOnce(Start(), sink)
  {
  }

  lemma SealStep(s: State, sink: bool, interval: int, c: Call, now: int)
    requires SealedOnce(s, sink)
    ensures SealedOnce(Apply(s, sink, interval, c, now), sink)
  {
  }

  // And a sealed reporter changes no more.
  lemma {:induction false} SealedIsSilent(sink: bool, interval: int, calls: seq<Timed>, more: seq<Timed>)
    requires Run(sink, interval, calls).done
    ensures Run(sink, interval, calls + more) == Run(sink, interval, calls)
  {
    if more == [] {
      assert calls + more == calls;
    } else {
      var before := more[..|more| - 1];
      SealedIsSilent(sink, interval, calls, before);
      assert (calls + more)[..|calls + more| - 1] == calls + before;
    }
  }

  // What persisted before the seal is what the terminal event names.
  lemma {:induction false} KeptIsPersisted(sink: bool, interval: int, calls: seq<Timed>)
    ensures sink ==> Run(sink, interval, calls).kept == Persists(Run(sink, interval, calls).log)
  {
    hide Apply, Persists;
    if calls == [] {
      assert Persists([]) == [] by { NonePersisted(); }
    } else {
      var before, t := calls[..|calls| - 1], calls[|calls| - 1];
      KeptIsPersisted(sink, interval, before);
      if sink {
        PersistsStep(Run(sink, interval, before), sink, interval, t.call, t.now);
      }
    }
  }

  lemma NonePersisted()
    ensures Persists([]) == []
  {
  }

  lemma PersistsStep(s: State, sink: bool, interval: int, c: Call, now: int)
    requires sink && s.kept == Persists(s.log)
    ensures var s' := Apply(s, sink, interval, c, now); s'.kept == Persists(s'.log)
  {
    hide Persists;
    var r := Recorded(s, c);
    if Emits(s, interval, c, now) {
      PersistsNext(s.log, Emission(EventOf(r, c), c, r.epoch));
    }
  }

  lemma PersistsNext(log: seq<Emission>, e: Emission)
    ensures Persists(log + [e]) == Persists(log) + if e.event.note.Persisted? then [e.event.note.entry] else []
  {
    assert (log + [e])[..|log|] == log;
  }

  // The units the persisted notes of a log name, in order.
  function Persists(log: seq<Emission>): seq<Kept>
  {
    if log == [] then []
    else
      var e := log[|log| - 1].event;
      Persists(log[..|log| - 1]) + if e.note.Persisted? then [e.note.entry] else []
  }

  // ----- what is emitted, call by call -----

  // The phase the calls have entered last.
  function LastPhase(calls: seq<Timed>): nat
  {
    if calls == [] then 0
    else
      var c := calls[|calls| - 1].call;
      if c.Phase? && c.phase != 0 then c.phase else LastPhase(calls[..|calls| - 1])
  }

  // The last call enters another phase.
  predicate Enters(calls: seq<Timed>)
    requires calls != []
  {
    var c := calls[|calls| - 1].call;
    c.Phase? && c.phase != 0 && c.phase != LastPhase(calls[..|calls| - 1])
  }

  // Since the last phase was entered some step of the invocation has counted as far.
  predicate Overtaken(calls: seq<Timed>, i: nat, n: int)
  {
    calls != [] && !Enters(calls) &&
    (var c := calls[|calls| - 1].call;
     (c.Step? && c.invocation == i && c.completed >= n) || Overtaken(calls[..|calls| - 1], i, n))
  }

  // The time of the last call that emitted.
  function LastEmission(interval: int, calls: seq<Timed>): Option<int>
  {
    if calls == [] then None
    else if |Run(true, interval, calls).log| > |Run(true, interval, calls[..|calls| - 1]).log| then Some(calls[|calls| - 1].now)
    else LastEmission(interval, calls[..|calls| - 1])
  }

  ghost predicate Unsealed(calls: seq<Timed>)
  {
    forall c :: c in calls ==> !c.call.Terminal?
  }

  lemma {:induction false} RunMeans(interval: int, calls: seq<Timed>)
    requires Unsealed(calls)
    ensures var s := Run(true, interval, calls); !s.done && s.phase == LastPhase(calls) && s.last == LastEmission(interval, calls)
  {
    if calls != [] {
      assert calls[|calls| - 1] in calls;
      RunMeans(interval, calls[..|calls| - 1]);
    }
  }

  lemma {:induction false} OvertakenMeans(interval: int, calls: seq<Timed>, i: nat, n: int)
    requires Unsealed(calls)
    ensures var max := Run(true, interval, calls).maxDone; Overtaken(calls, i, n) <==> i in max && n <= max[i]
  {
    if calls != [] {
      var before, c := calls[..|calls| - 1], calls[|calls| - 1].call;
      assert calls[|calls| - 1] in calls;
      RunMeans(interval, before);
      OvertakenMeans(interval, before, i, n);
    }
  }

  // The call added one event to the log, and this is what it says.
  ghost predicate Added(before: seq<Emission>, after: seq<Emission>, phase: nat, invocation: nat, completed: int, total: int, cause: nat, note: Note)
  {
    && |after| == |before| + 1 && after[..|before|] == before
    && var e := after[|before|].event;
       e.phase == phase && e.invocation == invocation && e.completed == completed && e.total == total && e.cause == cause && e.note == note
  }

  // Over any calls before the seal: entering a phase, completing an invocation, a note, a persisted
  // unit and the ending always emit, and say so; a step short of its total and a keepalive emit
  // exactly when nothing has been emitted for the interval; and a phase re-entered, a step overtaken
  // and an empty note never do.
  lemma EmittedExactly(interval: int, calls: seq<Timed>, c: Timed)
    requires Unsealed(calls)
    ensures var s, s' := Run(true, interval, calls), Run(true, interval, calls + [c]);
      var rested := LastEmission(interval, calls).Some? ==> c.now - LastEmission(interval, calls).value >= interval;
      var phase := LastPhase(calls);
      match c.call
      case Phase(p) => if p == 0 || p == phase then s'.log == s.log else Added(s.log, s'.log, p, 0, 0, 0, 0, NoNote)
      case Step(i, n, t) =>
        if Overtaken(calls, i, n) || !((t > 0 && n >= t) || rested) then s'.log == s.log
        else Added(s.log, s'.log, phase, i, n, t, 0, NoNote)
      case Note(text) =>
        if text == 0 then s'.log == s.log else Added(s.log, s'.log, phase, s.invocation, s.completed, s.total, 0, Text(text))
      case Persist(k) => Added(s.log, s'.log, phase, s.invocation, s.completed, s.total, 0, Persisted(k))
      case Keepalive =>
        if !rested then s'.log == s.log else Added(s.log, s'.log, phase, s.invocation, s.completed, s.total, 0, NoNote)
      case Terminal(cause) => Added(s.log, s'.log, phase, s.invocation, s.completed, s.total, cause, NoNote)
  {
    hide LastEmission, LastPhase, Overtaken, Run;
    RunMeans(interval, calls);
    RunOn(interval, calls, c);
    if c.call.Step? {
      OvertakenMeans(interval, calls, c.call.invocation, c.call.completed);
    }
    AppliedExactly(Run(true, interval, calls), interval, c);
  }

  lemma RunOn(interval: int, calls: seq<Timed>, c: Timed)
    ensures Run(true, interval, calls + [c]) == Apply(Run(true, interval, calls), true, interval, c.call, c.now)
  {
    assert (calls + [c])[..|calls|] == calls;
  }

  // One call on a state not sealed.
  lemma AppliedExactly(s: State, interval: int, c: Timed)
    requires !s.done
    ensures var s' := Apply(s, true, interval, c.call, c.now);
      var rested := s.last.Some? ==> c.now - s.last.value >= interval;
      match c.call
      case Phase(p) => if p == 0 || p == s.phase then s'.log == s.log else Added(s.log, s'.log, p, 0, 0, 0, 0, NoNote)
      case Step(i, n, t) =>
        if (i in s.maxDone && n <= s.maxDone[i]) || !((t > 0 && n >= t) || rested) then s'.log == s.log
        else Added(s.log, s'.log, s.phase, i, n, t, 0, NoNote)
      case Note(text) =>
        if text == 0 then s'.log == s.log else Added(s.log, s'.log, s.phase, s.invocation, s.completed, s.total, 0, Text(text))
      case Persist(k) => Added(s.log, s'.log, s.phase, s.invocation, s.completed, s.total, 0, Persisted(k))
      case Keepalive =>
        if !rested then s'.log == s.log else Added(s.log, s'.log, s.phase, s.invocation, s.completed, s.total, 0, NoNote)
      case Terminal(cause) => Added(s.log, s'.log, s.phase, s.invocation, s.completed, s.total, cause, NoNote)
  {
  }
}
