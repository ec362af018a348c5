/** The decorated progress sink (internal/progress/progress.go, NonBlocking): the reporter hands
    events to a bounded buffer and the terminal event to a slot of its own; one sender drains both
    toward a consumer that may stall for ever. Producer and sender interleave in any order, first
    with any producer that seals its events, then with the reporter itself.

    An event is its place among those emitted and whether it is terminal. */
module ProgressSink {
  import opened Basics
  import Progress

  // Events the buffer holds.
  const BUFFER: nat := 16

  datatype Event = Event(id: nat, terminal: bool)

  // The sender waits on both channels, or drains the backlog before the terminal event it took.
  datatype Sender = Waiting | Draining(terminal: Event) | Ended

  datatype Sink = Sink(emitted: seq<Event>, events: seq<Event>, slot: Option<Event>, sender: Sender, delivered: seq<Event>)

  const START := Sink([], [], None, Waiting, [])

  // The sink the reporter calls: one step, whatever the sender does.
  function Emit(s: Sink, e: Event): Sink
  {
    var s' := s.(emitted := s.emitted + [e]);
    if e.terminal then (if s.slot.None? then s'.(slot := Some(e)) else s')
    else if |s.events| < BUFFER then s'.(events := s.events + [e])
    else s'
  }

  datatype Action = Emits(e: Event) | TakesEvent | TakesTerminal | Drains | Delivers

  // What can happen next. With both channels ready the sender takes either.
  predicate Enabled(s: Sink, a: Action)
  {
    match a
    case Emits(_) => true
    case TakesEvent => s.sender.Waiting? && s.events != []
    case TakesTerminal => s.sender.Waiting? && s.slot.Some?
    case Drains => s.sender.Draining? && s.events != []
    case Delivers => s.sender.Draining? && s.events == []
  }

  // One action, if it is enabled.
  function Step(s: Sink, a: Action): Sink
  {
    if !Enabled(s, a) then s
    else
      match a
      case Emits(e) => Emit(s, e)
      case TakesEvent => s.(events := s.events[1..], delivered := s.delivered + [s.events[0]])
      case TakesTerminal => s.(slot := None, sender := Draining(s.slot.value))
      case Drains => s.(events := s.events[1..], delivered := s.delivered + [s.events[0]])
      case Delivers => s.(sender := Ended, delivered := s.delivered + [s.sender.terminal])
  }

  // A run: any interleaving of actions.
  function After(actions: seq<Action>): Sink
  {
    if actions == [] then START else Step(After(actions[..|actions| - 1]), actions[|actions| - 1])
  }

  // The reporter's seal: nothing is emitted after a terminal event.
  ghost predicate SealedLast(emitted: seq<Event>)
  {
    forall i :: 0 <= i < |emitted| - 1 ==> !emitted[i].terminal
  }

  // One list reads out of another by leaving elements out.
  predicate Subsequence(a: seq<Event>, b: seq<Event>)
  {
    if a == [] then true
    else if b == [] then false
    else
      || (a[|a| - 1] == b[|b| - 1] && Subsequence(a[..|a| - 1], b[..|b| - 1]))
      || Subsequence(a, b[..|b| - 1])
  }

  lemma SubsequenceSkip(a: seq<Event>, b: seq<Event>, x: Event)
    requires Subsequence(a, b)
    ensures Subsequence(a, b + [x])
  {
  }

  lemma SubsequenceBoth(a: seq<Event>, b: seq<Event>, x: Event)
    requires Subsequence(a, b)
    ensures Subsequence(a + [x], b + [x])
  {
  }

  // What the consumer has seen and what is still to come, in the order it will be.
  function InFlight(s: Sink): seq<Event>
  {
    s.delivered + s.events + if s.slot.Some? then [s.slot.value] else if s.sender.Draining? then [s.sender.terminal] else []
  }

  predicate Closed(emitted: seq<Event>)
  {
    emitted != [] && emitted[|emitted| - 1].terminal
  }

  // Emitted events reach the consumer in order or are dropped; a terminal event is never dropped,
  // is last of all, and ends the sender.
  ghost predicate Good(s: Sink)
  {
    && Subsequence(InFlight(s), s.emitted) && |s.events| <= BUFFER
    && (forall i :: 0 <= i < |s.events| ==> !s.events[i].terminal)
    && (Closed(s.emitted) <==> s.slot.Some? || !s.sender.Waiting?)
    && (s.slot.Some? ==> s.sender.Waiting?)
    && (Closed(s.emitted) ==> InFlight(s) != [] && InFlight(s)[|InFlight(s)| - 1] == s.emitted[|s.emitted| - 1])
    && (s.sender.Ended? ==> s.events == [])
  }

  lemma EmitKeepsGood(s: Sink, e: Event)
    requires Good(s) && SealedLast(s.emitted + [e])
    ensures Good(Emit(s, e))
  {
    hide Subsequence;
    var s' := Emit(s, e);
    assert !Closed(s.emitted) by {
      assert s.emitted != [] ==> s'.emitted[|s.emitted| - 1] == s.emitted[|s.emitted| - 1];
    }
    if |s.events| == BUFFER && !e.terminal {
      SubsequenceSkip(InFlight(s), s.emitted, e);
    } else {
      assert InFlight(s') == InFlight(s) + [e];
      SubsequenceBoth(InFlight(s), s.emitted, e);
    }
  }

  lemma SendKeepsGood(s: Sink, a: Action)
    requires Good(s) && Enabled(s, a) && !a.Emits?
    ensures Good(Step(s, a))
  {
    hide Subsequence;
    var s' := Step(s, a);
    assert s.events != [] ==> [s.events[0]] + s.events[1..] == s.events;
    assert InFlight(s') == InFlight(s);
  }

  lemma StepKeepsGood(s: Sink, a: Action)
    requires Good(s) && SealedLast(Step(s, a).emitted)
    ensures Good(Step(s, a))
  {
    hide Good, SealedLast, Emit;
    if a.Emits? {
      EmittedNext(s, a.e);
      EmitKeepsGood(s, a.e);
    } else if Enabled(s, a) {
      SendKeepsGood(s, a);
    }
  }

  lemma EmittedNext(s: Sink, e: Event)
    ensures Emit(s, e).emitted == s.emitted + [e]
  {
  }

  lemma {:induction false} RunKeepsGood(actions: seq<Action>)
    requires SealedLast(After(actions).emitted)
    ensures Good(After(actions))
  {
    hide Good, Step, SealedLast;
    if actions == [] {
      assert Good(START) by { StartGood(); }
    } else {
      var before := actions[..|actions| - 1];
      SealedBefore(After(before), actions[|actions| - 1]);
      RunKeepsGood(before);
      StepKeepsGood(After(before), actions[|actions| - 1]);
    }
  }

  lemma StartGood()
    ensures Good(START)
  {
  }

  lemma SealedBefore(s: Sink, a: Action)
    requires SealedLast(Step(s, a).emitted)
    ensures SealedLast(s.emitted)
  {
    var after := Step(s, a).emitted;
    forall i | 0 <= i < |s.emitted| - 1 ensures !s.emitted[i].terminal {
      assert after[i] == s.emitted[i];
    }
  }

  lemma {:induction false} SubsequenceTake(a: seq<Event>, b: seq<Event>, n: nat)
    requires n <= |a| && Subsequence(a, b)
    ensures Subsequence(a[..n], b)
    decreases |b|
  {
    if n > 0 && b != [] {
      var b' := b[..|b| - 1];
      if Subsequence(a, b') {
        SubsequenceTake(a, b', n);
      } else {
        var a' := a[..|a| - 1];
        if n == |a| {
          assert a[..n] == a;
        } else {
          SubsequenceTake(a', b', n);
          assert a'[..n] == a[..n];
        }
      }
    }
  }

  // At every moment the consumer has seen a subsequence of what was emitted.
  lemma ConsumerSeesSubsequence(actions: seq<Action>)
    requires SealedLast(After(actions).emitted)
    ensures Subsequence(After(actions).delivered, After(actions).emitted)
  {
    hide After, Subsequence;
    RunKeepsGood(actions);
    var s := After(actions);
    SubsequenceTake(InFlight(s), s.emitted, |s.delivered|);
    assert InFlight(s)[..|s.delivered|] == s.delivered;
  }

  // The terminal event is the last the consumer saw, or is still to come and kept.
  predicate Ending(s: Sink, terminal: Event)
  {
    if s.sender.Ended? then s.delivered != [] && s.delivered[|s.delivered| - 1] == terminal
    else s.slot == Some(terminal) || s.sender == Draining(terminal)
  }

  // Once a terminal event is emitted it is on its way, nothing can be lost of it, and when the
  // sender has ended it is the last the consumer saw.
  lemma TerminalIsDelivered(actions: seq<Action>)
    requires SealedLast(After(actions).emitted) && Closed(After(actions).emitted)
    ensures var s := After(actions); Ending(s, s.emitted[|s.emitted| - 1])
  {
    hide After, Subsequence;
    RunKeepsGood(actions);
  }

  // How many sender steps are left once the terminal event is emitted.
  function Left(s: Sink): nat
  {
    if s.sender.Ended? then 0 else |s.events| + if s.sender.Draining? then 1 else 2
  }

  // The sender is never stuck before the end, and every step it takes is one fewer: a consumer that
  // does not stall sees the ending after at most the buffer and two.
  lemma SenderFinishes(s: Sink, a: Action)
    requires Good(s) && Closed(s.emitted)
    ensures Left(s) <= BUFFER + 2
    ensures !s.sender.Ended? ==> Enabled(s, TakesEvent) || Enabled(s, TakesTerminal) || Enabled(s, Drains) || Enabled(s, Delivers)
    ensures Enabled(s, a) && !a.Emits? ==> Left(Step(s, a)) == Left(s) - 1
  {
  }

  // ----- the reporter and its sink together -----

  function EventAt(log: seq<Progress.Emission>, i: nat): Event
    requires i < |log|
  {
    Event(i, log[i].event.cause != 0)
  }

  function Events(log: seq<Progress.Emission>): (es: seq<Event>)
    ensures |es| == |log| && forall i :: 0 <= i < |log| ==> es[i] == EventAt(log, i)
  {
    seq(|log|, i requires 0 <= i < |log| => EventAt(log, i))
  }

  // The reporter's log is sealed as the sink needs it.
  lemma ReporterSeals(interval: int, calls: seq<Progress.Timed>)
    ensures SealedLast(Events(Progress.Run(true, interval, calls).log))
  {
    hide Progress.Run;
    Progress.TerminalIsLast(true, interval, calls);
  }

  datatype System = System(reporter: Progress.State, sink: Sink)

  // A call to the reporter, which hands the sink the event it emits, or a step of the sender.
  datatype Move = Reports(c: Progress.Timed) | Sends(a: Action)

  function Moved(s: System, interval: int, m: Move): System
  {
    match m
    case Reports(c) =>
      var r := Progress.Apply(s.reporter, true, interval, c.call, c.now);
      System(r, if |r.log| > |s.reporter.log| then Emit(s.sink, EventAt(r.log, |s.reporter.log|)) else s.sink)
    case Sends(a) => if a.Emits? then s else s.(sink := Step(s.sink, a))
  }

  function Together(interval: int, moves: seq<Move>): System
  {
    if moves == [] then System(Progress.Start(), START)
    else Moved(Together(interval, moves[..|moves| - 1]), interval, moves[|moves| - 1])
  }

  // The calls among the moves.
  function Calls(moves: seq<Move>): seq<Progress.Timed>
  {
    if moves == [] then []
    else
      var m := moves[|moves| - 1];
      Calls(moves[..|moves| - 1]) + if m.Reports? then [m.c] else []
  }

  // In every interleaving the reporter is where its own calls take it, whatever the sender and the
  // consumer behind it do, and the sink has been handed exactly the reporter's log and stays good.
  lemma {:induction false} ReporterIsNeverHeld(interval: int, moves: seq<Move>)
    ensures var s := Together(interval, moves);
      && s.reporter == Progress.Run(true, interval, Calls(moves))
      && s.sink.emitted == Events(s.reporter.log) && Good(s.sink)
  {
    hide Good, Step, Emit, Progress.Apply;
    ReporterSeals(interval, Calls(moves));
    if moves == [] {
      StartGood();
    } else {
      var before, m := moves[..|moves| - 1], moves[|moves| - 1];
      ReporterIsNeverHeld(interval, before);
      var s := Together(interval, before);
      if m.Reports? {
        CallMoves(s, interval, m.c);
        RunNext(interval, Calls(before), m.c);
      } else {
        assert Calls(moves) == Calls(before);
        if !m.a.Emits? {
          SendMoves(s.sink, m.a);
        }
      }
    }
  }

  lemma RunNext(interval: int, calls: seq<Progress.Timed>, c: Progress.Timed)
    ensures Progress.Run(true, interval, calls + [c])
         == Progress.Apply(Progress.Run(true, interval, calls), true, interval, c.call, c.now)
  {
    assert (calls + [c])[..|calls|] == calls;
  }

  lemma CallMoves(s: System, interval: int, c: Progress.Timed)
    requires s.sink.emitted == Events(s.reporter.log) && Good(s.sink)
    requires SealedLast(Events(Progress.Apply(s.reporter, true, interval, c.call, c.now).log))
    ensures var s' := Moved(s, interval, Reports(c)); s'.sink.emitted == Events(s'.reporter.log) && Good(s'.sink)
  {
    hide Good, Emit, SealedLast;
    var r := Progress.Apply(s.reporter, true, interval, c.call, c.now);
    LogGrows(s.reporter, interval, c);
    if |r.log| > |s.reporter.log| {
      var e := EventAt(r.log, |s.reporter.log|);
      assert Events(r.log) == Events(s.reporter.log) + [e];
      EmittedNext(s.sink, e);
      EmitKeepsGood(s.sink, e);
    }
  }

  lemma LogGrows(r: Progress.State, interval: int, c: Progress.Timed)
    ensures var log := Progress.Apply(r, true, interval, c.call, c.now).log;
      log == r.log || (|log| == |r.log| + 1 && log[..|r.log|] == r.log)
  {
  }

  lemma SendMoves(s: Sink, a: Action)
    requires Good(s) && !a.Emits?
    ensures Good(Step(s, a)) && Step(s, a).emitted == s.emitted
  {
    hide Good;
    if Enabled(s, a) {
      SendKeepsGood(s, a);
    }
  }

  // The consumer sees the reporter's events in order, some perhaps missing; and once the reporter is
  // sealed with a concrete cause its terminal event, the last of its log, is on its way and the last
  // the consumer sees.
  lemma EndingIsSeen(interval: int, moves: seq<Move>)
    ensures var s := Together(interval, moves);
      var events := Events(s.reporter.log);
      && Subsequence(s.sink.delivered, events)
      && (s.sink.sender.Ended? ==> s.reporter.done && s.reporter.cause != 0)
      && (s.reporter.done && s.reporter.cause != 0 ==>
            events != [] && events[|events| - 1].terminal && Ending(s.sink, events[|events| - 1]))
  {
    hide Together, Calls, Subsequence, Progress.Run, SealedLast;
    ReporterIsNeverHeld(interval, moves);
    Progress.TerminalIsLast(true, interval, Calls(moves));
    var s := Together(interval, moves).sink;
    SubsequenceTake(InFlight(s), s.emitted, |s.delivered|);
    assert InFlight(s)[..|s.delivered|] == s.delivered;
  }

  // Without the seal the slot could be taken already: a second terminal event is dropped, and the
  // one delivered is not the last emitted.
  lemma SealIsNeeded(a: Event, b: Event)
    requires a.terminal && b.terminal && a != b
    ensures var actions := [Emits(a), Emits(b), TakesTerminal, Delivers];
      After(actions).delivered == [a] && After(actions).emitted == [a, b]
  {
    var actions := [Emits(a), Emits(b), TakesTerminal, Delivers];
    assert actions[..3] == [Emits(a), Emits(b), TakesTerminal];
    assert actions[..3][..2] == [Emits(a), Emits(b)];
    assert actions[..3][..2][..1] == [Emits(a)];
    assert After([Emits(a)]) == Emit(START, a);
    assert After([Emits(a), Emits(b)]).slot == Some(a);
  }
}
