/** Consent pins (internal/records/consent.go, internal/records/pin.go, internal/author/dispose.go):
    a record consents to a text through a content pin and a source pin; the blanket pin follows a
    text whose canonical form or bytes did not move, and only the named re-consent follows one
    whose both did.

    Digests are injective: equal digests are equal texts. Zero is the unset digest. */
module Consent {
  import Clauses

  type Digest = nat

  const UNSET: Digest := 0

  // A requirement's text as compiled: its canonical form and its bytes.
  datatype Surface = Surface(content: Digest, source: Digest)

  type Hashes = map<nat, Surface>

  datatype Pins = Pins(content: Digest, source: Digest)

  datatype Judgment = Stale | Current | Rehash

  function JudgeConsent(p: Pins, h: Surface): Judgment
  {
    if p.content == UNSET then Stale
    else if p.content == h.content then Current
    else if p.source != UNSET && p.source == h.source then Rehash
    else Stale
  }

  // A requirement outside the corpus has unset hashes.
  function Judge(hashes: Hashes, id: nat, p: Pins): Judgment
  {
    JudgeConsent(p, if id in hashes then hashes[id] else Surface(UNSET, UNSET))
  }

  predicate Holds(j: Judgment)
  {
    !j.Stale?
  }

  // ----- one record's pins -----

  // What the blanket pin makes of a record's pins.
  function Stamp(h: Surface, p: Pins): Pins
  {
    if Holds(JudgeConsent(p, h)) || p.content == UNSET then Pins(h.content, h.source) else p
  }

  // What the named re-consent makes of them.
  function Rename(h: Surface, p: Pins): Pins
  {
    if p.content == h.content then p else Pins(h.content, h.source)
  }

  // ----- a record's life -----

  // The text moves, by an edit or by a change of the canonical form (nothing: the requirement leaves
  // the corpus); the blanket pin runs; the author re-consents by name.
  datatype Event = Move(to: Surface) | Vanish | BlanketPin | Name

  // The texts the requirement has had since its author last named one, that one first and the
  // present one last; and the record's pins, as they are and as the naming left them.
  datatype Life = Life(present: bool, texts: seq<Surface>, pins: Pins, origin: Pins)

  function Text(l: Life): Surface
    requires l.texts != []
  {
    l.texts[|l.texts| - 1]
  }

  // Just named: no text but the named one, the pins as the naming left them, consenting by content.
  predicate Named(l: Life)
  {
    && l.present && |l.texts| == 1 && l.texts[0].content != UNSET
    && l.pins == l.origin && l.origin.content == l.texts[0].content
  }

  // The naming left the bytes pinned those of the named text, or none.
  predicate Anchored(l: Life)
    requires l.texts != []
  {
    l.origin.source in {UNSET, l.texts[0].source}
  }

  // Born pinned: its author consented to the text, the bytes pinned or not yet.
  predicate Born(l: Life)
  {
    Named(l) && Anchored(l)
  }

  predicate Possible(e: Event)
  {
    e.Move? ==> e.to.content != UNSET
  }

  function Step(l: Life, e: Event): (l': Life)
    requires l.texts != []
    ensures l'.texts != []
  {
    match e
    case Move(to) => l.(texts := l.texts + [to], present := true)
    case Vanish => l.(present := false)
    case BlanketPin => if l.present then l.(pins := Stamp(Text(l), l.pins)) else l
    case Name =>
      if l.present then
        var pins := Rename(Text(l), l.pins);
        Life(true, [Text(l)], pins, pins)
      else l
  }

  function Run(l: Life, events: seq<Event>): (l': Life)
    requires l.texts != []
    ensures l'.texts != []
  {
    if events == [] then l else Step(Run(l, events[..|events| - 1]), events[|events| - 1])
  }

  predicate Consents(l: Life)
    requires l.texts != []
  {
    l.present && Holds(JudgeConsent(l.pins, Text(l)))
  }

  // One step of a chain: equal canonical form, or equal bytes.
  predicate Link(a: Surface, b: Surface)
  {
    a.content == b.content || (a.source == b.source && a.source != UNSET)
  }

  // A chain from `from` through some of the texts, in their order, that ends at the last.
  ghost predicate Follows(from: Surface, texts: seq<Surface>)
    decreases |texts|, 1
  {
    texts != [] &&
    (Link(from, texts[|texts| - 1]) || exists i: nat :: i < |texts| - 1 && Through(from, texts, i))
  }

  // The chain's last step but one is the text i.
  ghost predicate Through(from: Surface, texts: seq<Surface>, i: nat)
    requires i < |texts| - 1
    decreases |texts|, 0
  {
    Follows(from, texts[..i + 1]) && Link(texts[i], texts[|texts| - 1])
  }

  function Held(p: Pins): Surface
  {
    Surface(p.content, p.source)
  }

  // The pins are the naming's, or those of a later text a chain from the naming's leads to.
  ghost predicate PinnedAt(l: Life, i: nat)
  {
    i < |l.texts| && Held(l.pins) == l.texts[i] && Follows(Held(l.origin), l.texts[..i + 1])
  }

  ghost predicate Kept(l: Life)
  {
    && l.texts != [] && (forall x :: x in l.texts ==> x.content != UNSET)
    && l.pins.content != UNSET && l.origin.content == l.texts[0].content
    && (l.pins == l.origin || exists i :: PinnedAt(l, i))
  }

  // Consent is one link from the pins.
  lemma ConsentIsLink(l: Life)
    requires l.texts != [] && l.pins.content != UNSET
    ensures Consents(l) <==> l.present && Link(Held(l.pins), Text(l))
  {
  }

  // A text one link from the pins is a chain's end.
  lemma LinkFollows(l: Life)
    requires Kept(l) && Link(Held(l.pins), Text(l))
    ensures Follows(Held(l.origin), l.texts)
  {
    if l.pins != l.origin {
      var i :| PinnedAt(l, i);
      if i == |l.texts| - 1 {
        assert l.texts[..i + 1] == l.texts;
      } else {
        assert Through(Held(l.origin), l.texts, i);
      }
    }
  }

  lemma StepKeeps(l: Life, e: Event)
    requires Kept(l) && Possible(e)
    ensures Kept(Step(l, e))
  {
    hide Follows;
    var l' := Step(l, e);
    match e
    case Move(to) =>
      if l.pins != l.origin {
        var i :| PinnedAt(l, i);
        assert l'.texts[..i + 1] == l.texts[..i + 1];
        assert PinnedAt(l', i);
      }
    case Vanish =>
      if l.pins != l.origin {
        var i :| PinnedAt(l, i);
        assert PinnedAt(l', i);
      }
    case BlanketPin =>
      if l'.pins != l.pins {
        ConsentIsLink(l);
        LinkFollows(l);
        assert l.texts[..|l.texts| - 1 + 1] == l.texts;
        assert PinnedAt(l', |l.texts| - 1);
      } else if l.pins != l.origin {
        var i :| PinnedAt(l, i);
        assert PinnedAt(l', i);
      }
    case Name =>
      if l.present {
        assert Text(l) in l.texts;
      }
  }

  lemma {:induction false} RunKeeps(l: Life, events: seq<Event>)
    requires l.texts != [] && Kept(l) && forall e :: e in events ==> Possible(e)
    ensures Kept(Run(l, events))
  {
    hide Kept, Step;
    if events != [] {
      RunKeeps(l, events[..|events| - 1]);
      StepKeeps(Run(l, events[..|events| - 1]), events[|events| - 1]);
    }
  }

  // Over any sequence of edits, canonical-form changes, blanket pins and named re-consents, a record
  // born pinned reads as consented only at the end of a chain from the pins of its last naming
  // through the texts had since, in their order; and when that naming left no other bytes pinned,
  // of a chain from the text its author named.
  lemma ConsentIsLinked(l: Life, events: seq<Event>)
    requires Born(l) && forall e :: e in events ==> Possible(e)
    requires Consents(Run(l, events))
    ensures var end := Run(l, events);
      Follows(Held(end.origin), end.texts) && (Anchored(end) ==> Follows(end.texts[0], end.texts))
  {
    hide Follows, Run, Consents;
    RunKeeps(l, events);
    var end := Run(l, events);
    ConsentIsLink(end);
    LinkFollows(end);
    if Anchored(end) {
      FollowsNamed(Held(end.origin), end.texts[0], end.texts);
    }
  }

  // A chain from pins that hold nothing but a text's own digests is a chain from the text.
  lemma {:induction false} FollowsNamed(from: Surface, named: Surface, texts: seq<Surface>)
    requires Follows(from, texts) && from.content == named.content && from.source in {UNSET, named.source}
    ensures Follows(named, texts)
    decreases |texts|
  {
    if !Link(from, texts[|texts| - 1]) {
      var i: nat :| i < |texts| - 1 && Through(from, texts, i);
      FollowsNamed(from, named, texts[..i + 1]);
      assert Through(named, texts, i);
    }
  }

  // That condition is the exact one: a naming over a record current by content leaves its pins
  // alone, and if the bytes pinned are an older text's, a text with those bytes and a canonical
  // form of its own reads as consented though nothing links it to the named text.
  lemma AnchoredIffLinked(l: Life)
    requires Named(l)
    ensures Anchored(l) <==>
      forall x: Surface :: x.content != UNSET && Consents(Step(l, Move(x))) ==> Link(l.texts[0], x)
  {
    if !Anchored(l) {
      var x := Surface(l.texts[0].content + 1, l.origin.source);
      assert Consents(Step(l, Move(x))) && !Link(l.texts[0], x);
    }
  }

  // Such a naming exists: the bytes move under one canonical form, and the author names the text.
  lemma NamingCanKeepOldBytes(l: Life, bytes: Digest)
    requires Born(l) && l.origin.source != UNSET && bytes != l.origin.source
    ensures var end := Run(l, [Move(Surface(l.texts[0].content, bytes)), Name]);
      Named(end) && !Anchored(end) && end.origin == l.origin
  {
    var events := [Move(Surface(l.texts[0].content, bytes)), Name];
    assert events[..1] == [events[0]];
    assert Run(l, [events[0]]) == Step(l, events[0]) by { assert [events[0]][..0] == []; }
  }

  // ----- any history of texts -----

  function Edits(texts: seq<Surface>): (events: seq<Event>)
    ensures |events| == |texts| && forall i :: 0 <= i < |texts| ==> events[i] == Move(texts[i])
  {
    seq(|texts|, i requires 0 <= i < |texts| => Move(texts[i]))
  }

  // No naming and no absence: the text moves and the blanket pin runs.
  predicate Untouched(events: seq<Event>)
  {
    forall e :: e in events ==> e.Move? || e.BlanketPin?
  }

  lemma {:induction false} RunAppend(l: Life, a: seq<Event>, b: seq<Event>)
    requires l.texts != []
    ensures Run(l, a + b) == Run(Run(l, a), b)
  {
    hide Step;
    if b == [] {
      assert a + b == a;
    } else {
      assert (a + b)[..|a + b| - 1] == a + b[..|b| - 1];
      RunAppend(l, a, b[..|b| - 1]);
    }
  }

  lemma {:induction false} MovesRun(l: Life, texts: seq<Surface>)
    requires l.texts != [] && l.present
    ensures Run(l, Edits(texts)) == l.(texts := l.texts + texts)
  {
    if texts == [] {
      assert l.texts + texts == l.texts;
    } else {
      var k := |texts| - 1;
      MovesRun(l, texts[..k]);
      assert Edits(texts)[..k] == Edits(texts[..k]);
      assert l.texts + texts == l.texts + texts[..k] + [texts[k]];
    }
  }

  // The events take the record through the texts to consent, its pins at the last.
  ghost predicate Walks(l: Life, texts: seq<Surface>, events: seq<Event>)
    requires l.texts != []
  {
    var end := Run(l, events);
    Untouched(events) && end.present && end.texts == texts && Held(end.pins) == Text(end) && Consents(end)
  }

  // The moves through more texts and a blanket pin at the end, which takes when the last text is one
  // link from the pins.
  lemma WalkOn(l: Life, more: seq<Surface>)
    requires l.texts != [] && l.present && l.pins.content != UNSET
    requires var last := (l.texts + more)[|l.texts + more| - 1]; last.content != UNSET && Link(Held(l.pins), last)
    ensures Walks(l, l.texts + more, Edits(more) + [BlanketPin])
  {
    RunAppend(l, Edits(more), [BlanketPin]);
    MovesRun(l, more);
    var end := Run(l, Edits(more));
    assert [BlanketPin][..0] == [];
    assert Run(end, [BlanketPin]) == Step(end, BlanketPin);
  }

  lemma WalkFurther(l: Life, texts: seq<Surface>, i: nat, before: seq<Event>) returns (events: seq<Event>)
    requires l.texts != [] && i < |texts| - 1 && Walks(l, texts[..i + 1], before)
    requires texts[i].content != UNSET && texts[|texts| - 1].content != UNSET && Link(texts[i], texts[|texts| - 1])
    ensures Walks(l, texts, events)
  {
    hide Run, Consents, Untouched, Link;
    var mid, more := Run(l, before), texts[i + 1..];
    assert mid.texts + more == texts;
    assert Text(mid) == texts[i];
    WalkOn(mid, more);
    RunAppend(l, before, Edits(more) + [BlanketPin]);
    UntouchedBoth(before, Edits(more) + [BlanketPin]);
    events := before + (Edits(more) + [BlanketPin]);
  }

  // A chain is walked by pinning at its texts and nowhere else.
  lemma {:induction false} ChainIsWalked(l: Life, texts: seq<Surface>) returns (events: seq<Event>)
    requires Named(l) && Follows(Held(l.origin), texts) && texts[0] == l.texts[0]
    requires forall x :: x in texts ==> x.content != UNSET
    ensures Walks(l, texts, events)
    decreases |texts|
  {
    hide Walks, Link;
    assert texts[|texts| - 1] in texts;
    if Link(Held(l.origin), texts[|texts| - 1]) {
      assert l.texts + texts[1..] == texts;
      WalkOn(l, texts[1..]);
      events := Edits(texts[1..]) + [BlanketPin];
    } else {
      var i: nat :| i < |texts| - 1 && Through(Held(l.origin), texts, i);
      assert texts[i] in texts;
      var before := ChainIsWalked(l, texts[..i + 1]);
      events := WalkFurther(l, texts, i, before);
    }
  }

  lemma UntouchedBoth(a: seq<Event>, b: seq<Event>)
    requires Untouched(a) && Untouched(b)
    ensures Untouched(a + b)
  {
  }

  // So for every history of texts after a naming the bound is exact: some placing of the blanket
  // pins among the moves leaves the record consented at the history's end, if and only if a chain
  // from the naming's pins runs through the history in its order to its last text.
  lemma HistoryDecides(l: Life, texts: seq<Surface>)
    requires Named(l) && texts != [] && texts[0] == l.texts[0] && forall x :: x in texts ==> x.content != UNSET
    ensures Follows(Held(l.origin), texts) <==>
      exists events :: Untouched(events) && Run(l, events).texts == texts && Consents(Run(l, events))
  {
    hide Follows, Run, Consents, Untouched;
    if Follows(Held(l.origin), texts) {
      var events := ChainIsWalked(l, texts);
    }
    if events :| Untouched(events) && Run(l, events).texts == texts && Consents(Run(l, events)) {
      OriginStays(l, events);
      MovedTexts(l, events);
      RunKeeps(l, events);
      ConsentIsLink(Run(l, events));
      LinkFollows(Run(l, events));
    }
  }

  lemma {:induction false} OriginStays(l: Life, events: seq<Event>)
    requires l.texts != [] && Untouched(events)
    ensures Run(l, events).origin == l.origin
  {
    if events != [] {
      assert events[|events| - 1] in events;
      OriginStays(l, events[..|events| - 1]);
    }
  }

  // A text moved to stays in the history.
  lemma {:induction false} MovedTexts(l: Life, events: seq<Event>)
    requires Untouched(events) && l.texts != [] && forall x :: x in Run(l, events).texts ==> x.content != UNSET
    ensures forall e :: e in events ==> Possible(e)
  {
    if events != [] {
      var k := |events| - 1;
      assert events == events[..k] + [events[k]] && events[k] in events;
      assert forall x :: x in Run(l, events[..k]).texts ==> x in Run(l, events).texts;
      MovedTexts(l, events[..k]);
      if events[k].Move? {
        assert events[k].to == Run(l, events).texts[|Run(l, events).texts| - 1];
      }
    }
  }

  // A blanket pin never answers a consent question: differing content, no matching bytes.
  lemma BlanketNeverLaunders(h: Surface, p: Pins)
    ensures Stamp(h, p) == p || p.content in {UNSET, h.content} || (p.source == h.source && p.source != UNSET)
    ensures p.content != UNSET && !Holds(JudgeConsent(p, h)) ==> !Holds(JudgeConsent(Stamp(h, p), h))
  {
  }

  // ----- the stores -----

  // A record as its file holds it. Only bindings have a symbol, a scope and a shape pin.
  datatype Value = Value(id: nat, key: nat, symbol: nat, role: Clauses.Role, scope: Clauses.Scope, pins: Pins, shape: Digest)

  class Record {
    const id: nat
    const key: nat     // backend and symbol: what a shape is resolved by
    const symbol: nat
    const role: Clauses.Role
    const scope: Clauses.Scope
    var content: Digest
    var source: Digest
    var shape: Digest

    constructor (v: Value)
      ensures Seen() == v
    {
      id, key, symbol, role, scope := v.id, v.key, v.symbol, v.role, v.scope;
      content, source, shape := v.pins.content, v.pins.source, v.shape;
    }

    function Seen(): Value
      reads this
    {
      Value(id, key, symbol, role, scope, Pins(content, source), shape)
    }
  }

  // A record file; commentary outside its header refuses any rewrite.
  datatype File = File(path: nat, records: seq<Record>, commented: bool)

  function Values(rs: seq<Record>): (vs: seq<Value>)
    reads rs
    ensures |vs| == |rs| && forall i :: 0 <= i < |rs| ==> vs[i] == rs[i].Seen()
  {
    seq(|rs|, i requires 0 <= i < |rs| reads rs => rs[i].Seen())
  }

  // Each record is parsed once.
  ghost predicate Separate(rs: seq<Record>)
  {
    forall i, j :: 0 <= i < j < |rs| ==> rs[i] != rs[j]
  }

  // ----- the blanket pin -----

  // What the blanket pin makes of one record: its pins against the corpus, and a binding's shape
  // against what resolution found.
  function Pinned(hashes: Hashes, shapes: map<nat, Digest>, v: Value): Value
  {
    v.(
      pins := if v.id in hashes then Stamp(hashes[v.id], v.pins) else v.pins,
      shape := if v.key in shapes then shapes[v.key] else v.shape)
  }

  function AllPinned(hashes: Hashes, shapes: map<nat, Digest>, vs: seq<Value>): (r: seq<Value>)
    ensures |r| == |vs| && forall i :: 0 <= i < |vs| ==> r[i] == Pinned(hashes, shapes, vs[i])
  {
    seq(|vs|, i requires 0 <= i < |vs| => Pinned(hashes, shapes, vs[i]))
  }

  // A consent question the blanket pin leaves to its author.
  predicate Asks(hashes: Hashes, v: Value)
  {
    v.id in hashes && v.pins.content != UNSET && !Holds(JudgeConsent(v.pins, hashes[v.id]))
  }

  predicate Rehashes(hashes: Hashes, v: Value)
  {
    v.id in hashes && JudgeConsent(v.pins, hashes[v.id]).Rehash?
  }

  // A differing shape pin is rewritten: the one trace that the bound symbol moved is cleared.
  predicate Reshapes(shapes: map<nat, Digest>, v: Value)
  {
    v.key in shapes && v.shape != UNSET && v.shape != shapes[v.key]
  }

  // What the pass reports.
  datatype Names = Names(preserved: set<nat>, reshaped: set<nat>, rehashed: set<nat>)

  function NamesOf(hashes: Hashes, shapes: map<nat, Digest>, vs: seq<Value>): Names
  {
    Names(
      set v | v in vs && Asks(hashes, v) :: v.id,
      set v | v in vs && Reshapes(shapes, v) :: v.symbol,
      set v | v in vs && Rehashes(hashes, v) :: v.id)
  }

  function Both(a: Names, b: Names): Names
  {
    Names(a.preserved + b.preserved, a.reshaped + b.reshaped, a.rehashed + b.rehashed)
  }

  // The pass rewrites the record.
  predicate Moves(hashes: Hashes, shapes: map<nat, Digest>, v: Value)
  {
    Pinned(hashes, shapes, v) != v
  }

  predicate AnyMoves(hashes: Hashes, shapes: map<nat, Digest>, vs: seq<Value>)
  {
    exists v :: v in vs && Moves(hashes, shapes, v)
  }

  // The compiler gives every requirement a content hash.
  ghost predicate Compiled(hashes: Hashes)
  {
    forall id :: id in hashes ==> hashes[id].content != UNSET
  }

  // One record's pins under the blanket discipline.
  method ConsentPass(r: Record, hashes: Hashes) returns (changed: bool, names: Names)
    requires Compiled(hashes)
    modifies r`content, r`source
    ensures r.Seen() == Pinned(hashes, map[], old(r.Seen()))
    ensures changed <==> Moves(hashes, map[], old(r.Seen()))
    ensures names == NamesOf(hashes, map[], [old(r.Seen())])
  {
    changed, names := false, Names({}, {}, {});
    ghost var v := r.Seen();
    assert v in [v];
    if r.id in hashes {
      var h := hashes[r.id];
      match Judge(hashes, r.id, Pins(r.content, r.source))
      case Current =>
        if r.source != h.source {
          r.content, r.source := h.content, h.source;
          changed := true;
        }
      case Rehash =>
        names := names.(rehashed := {r.id});
        r.content, r.source := h.content, h.source;
        changed := true;
      case Stale =>
        if r.content == UNSET {
          r.content, r.source := h.content, h.source;
          changed := true;
        } else {
          names := names.(preserved := {r.id});
        }
    }
  }

  method PinRecord(r: Record, hashes: Hashes, shapes: map<nat, Digest>) returns (changed: bool, names: Names)
    requires Compiled(hashes)
    modifies r
    ensures r.Seen() == Pinned(hashes, shapes, old(r.Seen()))
    ensures changed <==> Moves(hashes, shapes, old(r.Seen()))
    ensures names == NamesOf(hashes, shapes, [old(r.Seen())])
  {
    ghost var v := r.Seen();
    assert v in [v];
    changed, names := ConsentPass(r, hashes);
    if r.key in shapes && r.shape != shapes[r.key] {
      if r.shape != UNSET {
        names := names.(reshaped := {r.symbol});
      }
      r.shape := shapes[r.key];
      changed := true;
    }
  }

  // The records of one file, of which the first i have been pinned.
  ghost predicate Partway(hashes: Hashes, shapes: map<nat, Digest>, was: seq<Value>, now: seq<Value>, i: nat)
  {
    && |now| == |was|
    && (forall k :: 0 <= k < |was| ==> now[k] == if k < i then Pinned(hashes, shapes, was[k]) else was[k])
  }

  method PinFile(f: File, hashes: Hashes, shapes: map<nat, Digest>) returns (changed: bool, names: Names)
    requires Compiled(hashes) && Separate(f.records)
    modifies f.records
    ensures Values(f.records) == AllPinned(hashes, shapes, old(Values(f.records)))
    ensures changed <==> AnyMoves(hashes, shapes, old(Values(f.records)))
    ensures names == NamesOf(hashes, shapes, old(Values(f.records)))
  {
    hide Pinned, NamesOf, AnyMoves, Moves, Both, Compiled;
    ghost var vs := Values(f.records);
    changed, names := false, Names({}, {}, {});
    NothingPinned(hashes, shapes, vs);
    for i := 0 to |f.records|
      invariant Partway(hashes, shapes, vs, Values(f.records), i)
      invariant changed <==> AnyMoves(hashes, shapes, vs[..i])
      invariant names == NamesOf(hashes, shapes, vs[..i])
    {
      var one, more := PinRecord(f.records[i], hashes, shapes);
      PinnedNext(hashes, shapes, vs, i);
      changed := changed || one;
      names := Both(names, more);
    }
    assert vs[..|vs|] == vs;
  }

  lemma NothingPinned(hashes: Hashes, shapes: map<nat, Digest>, vs: seq<Value>)
    ensures Partway(hashes, shapes, vs, vs, 0)
    ensures !AnyMoves(hashes, shapes, vs[..0]) && NamesOf(hashes, shapes, vs[..0]) == Names({}, {}, {})
  {
  }

  lemma PinnedNext(hashes: Hashes, shapes: map<nat, Digest>, vs: seq<Value>, i: nat)
    requires i < |vs|
    ensures AnyMoves(hashes, shapes, vs[..i + 1]) <==> AnyMoves(hashes, shapes, vs[..i]) || Moves(hashes, shapes, vs[i])
    ensures NamesOf(hashes, shapes, vs[..i + 1]) == Both(NamesOf(hashes, shapes, vs[..i]), NamesOf(hashes, shapes, [vs[i]]))
  {
  }

  lemma NamesAppend(hashes: Hashes, shapes: map<nat, Digest>, vs: seq<Value>, ws: seq<Value>)
    ensures NamesOf(hashes, shapes, vs + ws) == Both(NamesOf(hashes, shapes, vs), NamesOf(hashes, shapes, ws))
  {
  }

  // ----- every file -----

  ghost function AllRecords(files: seq<File>): set<Record>
  {
    set i, r | 0 <= i < |files| && r in files[i].records :: r
  }

  lemma RecordsIn(files: seq<File>)
    ensures forall i, r :: 0 <= i < |files| && r in files[i].records ==> r in AllRecords(files)
  {
  }

  // No two files share a record, and no file lists one twice.
  ghost predicate Apart(files: seq<File>)
  {
    && (forall i :: 0 <= i < |files| ==> Separate(files[i].records))
    && (forall i, j, r :: 0 <= i < j < |files| && r in files[i].records ==> r !in files[j].records)
  }

  ghost function Contents(files: seq<File>): (vss: seq<seq<Value>>)
    reads AllRecords(files)
    ensures |vss| == |files| && forall i :: 0 <= i < |files| ==> vss[i] == Values(files[i].records)
  {
    RecordsIn(files);
    seq(|files|, i requires 0 <= i < |files| reads AllRecords(files) => Values(files[i].records))
  }

  // What the blanket pin makes of every file.
  function FilesPinned(hashes: Hashes, shapes: map<nat, Digest>, vss: seq<seq<Value>>): (r: seq<seq<Value>>)
    ensures |r| == |vss| && forall i :: 0 <= i < |vss| ==> r[i] == AllPinned(hashes, shapes, vss[i])
  {
    seq(|vss|, i requires 0 <= i < |vss| => AllPinned(hashes, shapes, vss[i]))
  }

  function Flat(vss: seq<seq<Value>>): seq<Value>
  {
    if vss == [] then [] else Flat(vss[..|vss| - 1]) + vss[|vss| - 1]
  }

  // The paths of the files the pass rewrites.
  function Updates(hashes: Hashes, shapes: map<nat, Digest>, files: seq<File>, vss: seq<seq<Value>>): set<nat>
    requires |vss| == |files|
  {
    set i | 0 <= i < |files| && AnyMoves(hashes, shapes, vss[i]) :: files[i].path
  }

  // A file the pass would rewrite holds commentary outside its header.
  predicate Blocked(hashes: Hashes, shapes: map<nat, Digest>, files: seq<File>, vss: seq<seq<Value>>)
    requires |vss| == |files|
  {
    exists i :: 0 <= i < |files| && files[i].commented && AnyMoves(hashes, shapes, vss[i])
  }

  // The first i files are pinned, the others as they were.
  ghost predicate FilesPartway(hashes: Hashes, shapes: map<nat, Digest>, was: seq<seq<Value>>, now: seq<seq<Value>>, i: nat)
  {
    && |now| == |was|
    && (forall k :: 0 <= k < |was| ==> now[k] == if k < i then AllPinned(hashes, shapes, was[k]) else was[k])
  }

  // The next file of a list under way.
  method PinNext(files: seq<File>, hashes: Hashes, shapes: map<nat, Digest>, ghost was: seq<seq<Value>>, i: nat)
    returns (changed: bool, names: Names)
    requires Compiled(hashes) && Apart(files) && i < |files| == |was|
    requires FilesPartway(hashes, shapes, was, Contents(files), i)
    modifies AllRecords(files)
    ensures FilesPartway(hashes, shapes, was, Contents(files), i + 1)
    ensures changed <==> AnyMoves(hashes, shapes, was[i])
    ensures names == NamesOf(hashes, shapes, was[i])
  {
    hide AnyMoves, NamesOf, Compiled, AllPinned, Apart;
    RecordsIn(files);
    ApartAt(files, i);
    changed, names := PinFile(files[i], hashes, shapes);
    forall k | 0 <= k < |files| && k != i ensures Values(files[k].records) == old(Values(files[k].records)) {
      forall m | 0 <= m < |files[k].records| ensures files[k].records[m].Seen() == old(files[k].records[m].Seen()) {
        var r := files[k].records[m];
        assert r in files[k].records && r !in files[i].records;
        assert unchanged(r);
      }
    }
  }

  lemma ApartAt(files: seq<File>, i: nat)
    requires Apart(files) && i < |files|
    ensures Separate(files[i].records)
    ensures forall k, r :: 0 <= k < |files| && k != i && r in files[k].records ==> r !in files[i].records
  {
  }

  // One kind's files: those the pass rewrites, or the refusal of the first it may not.
  method PinFiles(files: seq<File>, hashes: Hashes, shapes: map<nat, Digest>)
    returns (refused: bool, updates: set<nat>, names: Names)
    requires Compiled(hashes) && Apart(files)
    modifies AllRecords(files)
    ensures refused <==> Blocked(hashes, shapes, files, old(Contents(files)))
    ensures !refused ==> Contents(files) == FilesPinned(hashes, shapes, old(Contents(files)))
    ensures !refused ==> names == NamesOf(hashes, shapes, Flat(old(Contents(files))))
    ensures !refused ==> updates == Updates(hashes, shapes, files, old(Contents(files)))
  {
    hide *;
    ghost var vss := Contents(files);
    refused, updates, names := false, {}, Names({}, {}, {});
    NoneDone(hashes, shapes, files, vss);
    var i := 0;
    while i < |files| && !refused
      invariant i <= |files|
      invariant FilesPartway(hashes, shapes, vss, Contents(files), i)
      invariant refused <==> Blocked(hashes, shapes, files[..i], vss[..i])
      invariant updates == Updates(hashes, shapes, files[..i], vss[..i])
      invariant names == NamesOf(hashes, shapes, Flat(vss[..i]))
    {
      var changed, more := PinNext(files, hashes, shapes, vss, i);
      OneMore(hashes, shapes, files, vss, i);
      if changed {
        refused := files[i].commented;
        updates := updates + {files[i].path};
      }
      names := Both(names, more);
      i := i + 1;
    }
    AllDone(hashes, shapes, files, vss, Contents(files), i);
  }

  lemma NoneDone(hashes: Hashes, shapes: map<nat, Digest>, files: seq<File>, vss: seq<seq<Value>>)
    requires |vss| == |files|
    ensures FilesPartway(hashes, shapes, vss, vss, 0)
    ensures !Blocked(hashes, shapes, files[..0], vss[..0]) && Updates(hashes, shapes, files[..0], vss[..0]) == {}
    ensures NamesOf(hashes, shapes, Flat(vss[..0])) == Names({}, {}, {})
  {
  }

  lemma OneMore(hashes: Hashes, shapes: map<nat, Digest>, files: seq<File>, vss: seq<seq<Value>>, i: nat)
    requires i < |files| == |vss|
    ensures Blocked(hashes, shapes, files[..i + 1], vss[..i + 1]) <==>
      Blocked(hashes, shapes, files[..i], vss[..i]) || (files[i].commented && AnyMoves(hashes, shapes, vss[i]))
    ensures Updates(hashes, shapes, files[..i + 1], vss[..i + 1]) ==
      Updates(hashes, shapes, files[..i], vss[..i]) + if AnyMoves(hashes, shapes, vss[i]) then {files[i].path} else {}
    ensures NamesOf(hashes, shapes, Flat(vss[..i + 1])) == Both(NamesOf(hashes, shapes, Flat(vss[..i])), NamesOf(hashes, shapes, vss[i]))
  {
    hide AnyMoves, NamesOf, Both;
    assert vss[..i + 1][..i] == vss[..i];
    assert files[..i + 1][i] == files[i] && vss[..i + 1][i] == vss[i];
    assert forall k :: 0 <= k < i ==> files[..i + 1][k] == files[..i][k] && vss[..i + 1][k] == vss[..i][k];
    NamesAppend(hashes, shapes, Flat(vss[..i]), vss[i]);
  }

  lemma AllDone(hashes: Hashes, shapes: map<nat, Digest>, files: seq<File>, was: seq<seq<Value>>, now: seq<seq<Value>>, i: nat)
    requires i <= |files| == |was| && FilesPartway(hashes, shapes, was, now, i)
    ensures i == |files| ==> files[..i] == files && was[..i] == was && now == FilesPinned(hashes, shapes, was)
    ensures Blocked(hashes, shapes, files[..i], was[..i]) ==> Blocked(hashes, shapes, files, was)
  {
  }

  // ----- the whole store -----

  datatype Store = Store(bindings: seq<File>, gaps: seq<File>, attestations: seq<File>)

  ghost predicate Sound(store: Store)
  {
    && Apart(store.bindings) && Apart(store.gaps) && Apart(store.attestations)
    && AllRecords(store.bindings) !! AllRecords(store.gaps) !! AllRecords(store.attestations)
  }

  // The store's bindings, gaps and attestations.
  ghost function Kinds(store: Store): (seq<seq<Value>>, seq<seq<Value>>, seq<seq<Value>>)
    reads AllRecords(store.bindings), AllRecords(store.gaps), AllRecords(store.attestations)
  {
    (Contents(store.bindings), Contents(store.gaps), Contents(store.attestations))
  }

  predicate StoreBlocked(hashes: Hashes, shapes: map<nat, Digest>, store: Store, k: (seq<seq<Value>>, seq<seq<Value>>, seq<seq<Value>>))
    requires |k.0| == |store.bindings| && |k.1| == |store.gaps| && |k.2| == |store.attestations|
  {
    || Blocked(hashes, shapes, store.bindings, k.0)
    || Blocked(hashes, map[], store.gaps, k.1)
    || Blocked(hashes, map[], store.attestations, k.2)
  }

  function StorePinned(hashes: Hashes, shapes: map<nat, Digest>, k: (seq<seq<Value>>, seq<seq<Value>>, seq<seq<Value>>))
    : (seq<seq<Value>>, seq<seq<Value>>, seq<seq<Value>>)
  {
    (FilesPinned(hashes, shapes, k.0), FilesPinned(hashes, map[], k.1), FilesPinned(hashes, map[], k.2))
  }

  function StoreUpdates(hashes: Hashes, shapes: map<nat, Digest>, store: Store, k: (seq<seq<Value>>, seq<seq<Value>>, seq<seq<Value>>)): set<nat>
    requires |k.0| == |store.bindings| && |k.1| == |store.gaps| && |k.2| == |store.attestations|
  {
    Updates(hashes, shapes, store.bindings, k.0) + Updates(hashes, map[], store.gaps, k.1)
    + Updates(hashes, map[], store.attestations, k.2)
  }

  function StoreNames(hashes: Hashes, shapes: map<nat, Digest>, k: (seq<seq<Value>>, seq<seq<Value>>, seq<seq<Value>>)): Names
  {
    Both(Both(NamesOf(hashes, shapes, Flat(k.0)), NamesOf(hashes, map[], Flat(k.1))), NamesOf(hashes, map[], Flat(k.2)))
  }

  // ----- a pin, digest by digest -----

  type Kinded = (seq<seq<Value>>, seq<seq<Value>>, seq<seq<Value>>)

  // What a pin leaves of a record: both pins the text's where the content pin was unset or the text's
  // or the source pin was the text's, else both as they were; the shape the one resolution found.
  ghost predicate PinsTo(hashes: Hashes, shapes: map<nat, Digest>, v: Value, w: Value)
  {
    && w == v.(pins := w.pins, shape := w.shape)
    && w.shape == (if v.key in shapes then shapes[v.key] else v.shape)
    && w.pins == if v.id in hashes && (v.pins.content == UNSET || Agrees(hashes[v.id], v.pins))
                 then Pins(hashes[v.id].content, hashes[v.id].source) else v.pins
  }

  // The content pin is the text's, or a source pin is set and is the text's.
  predicate Agrees(h: Surface, p: Pins)
  {
    p.content == h.content || (p.source != UNSET && p.source == h.source)
  }

  lemma PinnedMeans(hashes: Hashes, shapes: map<nat, Digest>, v: Value)
    requires Compiled(hashes)
    ensures forall w :: PinsTo(hashes, shapes, v, w) <==> w == Pinned(hashes, shapes, v)
  {
  }

  // The same record before and after.
  ghost predicate Pair(was: seq<seq<Value>>, now: seq<seq<Value>>, v: Value, w: Value)
  {
    exists i, j :: 0 <= i < |was| && i < |now| && 0 <= j < |was[i]| && j < |now[i]| && was[i][j] == v && now[i][j] == w
  }

  // As the pass leaves it, a record of the requirement still does not agree with its text.
  ghost predicate StillAsks(hashes: Hashes, was: seq<seq<Value>>, now: seq<seq<Value>>, id: nat)
  {
    id in hashes && exists v, w :: Pair(was, now, v, w) && w.id == id && !Agrees(hashes[id], w.pins)
  }

  // A record of the requirement had a content pin and has another.
  ghost predicate Repinned(was: seq<seq<Value>>, now: seq<seq<Value>>, id: nat)
  {
    exists v, w :: Pair(was, now, v, w) && v.id == id && v.pins.content != UNSET && w.pins.content != v.pins.content
  }

  // A binding of the symbol had a shape and has another.
  ghost predicate ShapeMoved(was: seq<seq<Value>>, now: seq<seq<Value>>, symbol: nat)
  {
    exists v, w :: Pair(was, now, v, w) && v.symbol == symbol && v.shape != UNSET && w.shape != v.shape
  }

  // Every record of one kind pinned in its place.
  ghost predicate KindPinned(hashes: Hashes, shapes: map<nat, Digest>, was: seq<seq<Value>>, now: seq<seq<Value>>)
  {
    |now| == |was| && forall i :: 0 <= i < |was| ==> ListPinned(hashes, shapes, was[i], now[i])
  }

  ghost predicate ListPinned(hashes: Hashes, shapes: map<nat, Digest>, was: seq<Value>, now: seq<Value>)
  {
    |now| == |was| && forall j :: 0 <= j < |was| ==> PinsTo(hashes, shapes, was[j], now[j])
  }

  // A file of the kind whose records changed.
  ghost predicate Rewritten(files: seq<File>, was: seq<seq<Value>>, now: seq<seq<Value>>, path: nat)
  {
    exists i :: 0 <= i < |files| && i < |was| && i < |now| && files[i].path == path && now[i] != was[i]
  }

  // A file with commentary holds a record that a pin would not leave as it is.
  ghost predicate Barred(hashes: Hashes, shapes: map<nat, Digest>, files: seq<File>, was: seq<seq<Value>>)
  {
    exists i, v :: 0 <= i < |files| && i < |was| && files[i].commented && v in was[i] && !PinsTo(hashes, shapes, v, v)
  }

  // What a pin that goes through does, and what it reports: the consent questions it leaves, the
  // content pins it moved, the shapes it moved.
  ghost predicate PinOutcome(hashes: Hashes, shapes: map<nat, Digest>, store: Store, was: Kinded, now: Kinded, updates: set<nat>, names: Names)
  {
    && KindPinned(hashes, shapes, was.0, now.0) && KindPinned(hashes, map[], was.1, now.1) && KindPinned(hashes, map[], was.2, now.2)
    && (forall path :: path in updates <==>
          Rewritten(store.bindings, was.0, now.0, path) || Rewritten(store.gaps, was.1, now.1, path) || Rewritten(store.attestations, was.2, now.2, path))
    && (forall id :: id in names.preserved <==>
          StillAsks(hashes, was.0, now.0, id) || StillAsks(hashes, was.1, now.1, id) || StillAsks(hashes, was.2, now.2, id))
    && (forall id :: id in names.rehashed <==> Repinned(was.0, now.0, id) || Repinned(was.1, now.1, id) || Repinned(was.2, now.2, id))
    && (forall s :: s in names.reshaped <==> ShapeMoved(was.0, now.0, s) || ShapeMoved(was.1, now.1, s) || ShapeMoved(was.2, now.2, s))
  }

  // A record and what the pin makes of it stand at one place.
  lemma PairMeans(hashes: Hashes, shapes: map<nat, Digest>, vss: seq<seq<Value>>, v: Value, w: Value)
    ensures Pair(vss, FilesPinned(hashes, shapes, vss), v, w) <==> v in Flat(vss) && w == Pinned(hashes, shapes, v)
  {
    hide Pinned;
    FlatHas(vss, v);
    if v in Flat(vss) && w == Pinned(hashes, shapes, v) {
      var i :| 0 <= i < |vss| && v in vss[i];
      var j :| 0 <= j < |vss[i]| && vss[i][j] == v;
      assert FilesPinned(hashes, shapes, vss)[i][j] == w;
    }
  }

  lemma {:induction false} FlatHas(vss: seq<seq<Value>>, v: Value)
    ensures v in Flat(vss) <==> exists i :: 0 <= i < |vss| && v in vss[i]
  {
    if vss != [] {
      var n := |vss| - 1;
      FlatHas(vss[..n], v);
      if i :| 0 <= i < |vss| && v in vss[i] {
        assert i < n ==> vss[..n][i] == vss[i];
      }
    }
  }

  lemma KindPins(hashes: Hashes, shapes: map<nat, Digest>, vss: seq<seq<Value>>)
    requires Compiled(hashes)
    ensures KindPinned(hashes, shapes, vss, FilesPinned(hashes, shapes, vss))
  {
    hide Pinned, PinsTo;
    var after := FilesPinned(hashes, shapes, vss);
    forall i | 0 <= i < |vss| ensures ListPinned(hashes, shapes, vss[i], after[i]) {
      forall j | 0 <= j < |vss[i]| ensures PinsTo(hashes, shapes, vss[i][j], after[i][j]) {
        PinnedMeans(hashes, shapes, vss[i][j]);
      }
    }
  }

  lemma ChangedMeans(hashes: Hashes, shapes: map<nat, Digest>, vs: seq<Value>)
    ensures AnyMoves(hashes, shapes, vs) <==> AllPinned(hashes, shapes, vs) != vs
  {
    hide Pinned;
    if v :| v in vs && Moves(hashes, shapes, v) {
      var j :| 0 <= j < |vs| && vs[j] == v;
      assert AllPinned(hashes, shapes, vs)[j] != vs[j];
    } else {
      forall j | 0 <= j < |vs| ensures AllPinned(hashes, shapes, vs)[j] == vs[j] {
        assert vs[j] in vs;
      }
    }
  }

  lemma UpdatesMean(hashes: Hashes, shapes: map<nat, Digest>, files: seq<File>, vss: seq<seq<Value>>)
    requires |vss| == |files|
    ensures forall path :: path in Updates(hashes, shapes, files, vss) <==> Rewritten(files, vss, FilesPinned(hashes, shapes, vss), path)
  {
    hide AnyMoves, AllPinned;
    forall i | 0 <= i < |vss| ensures AnyMoves(hashes, shapes, vss[i]) <==> FilesPinned(hashes, shapes, vss)[i] != vss[i] {
      ChangedMeans(hashes, shapes, vss[i]);
    }
  }

  lemma BlockedMeans(hashes: Hashes, shapes: map<nat, Digest>, files: seq<File>, vss: seq<seq<Value>>)
    requires Compiled(hashes) && |vss| == |files|
    ensures Blocked(hashes, shapes, files, vss) <==> Barred(hashes, shapes, files, vss)
  {
    hide Pinned, PinsTo;
    forall v ensures Moves(hashes, shapes, v) <==> !PinsTo(hashes, shapes, v, v) {
      PinnedMeans(hashes, shapes, v);
    }
  }

  // One record's part in the report.
  lemma NamesMean(hashes: Hashes, shapes: map<nat, Digest>, v: Value)
    requires Compiled(hashes)
    ensures var w := Pinned(hashes, shapes, v);
      && w.id == v.id && w.symbol == v.symbol
      && (Asks(hashes, v) <==> w.id in hashes && !Agrees(hashes[w.id], w.pins))
      && (Rehashes(hashes, v) <==> v.pins.content != UNSET && w.pins.content != v.pins.content)
      && (Reshapes(shapes, v) <==> v.shape != UNSET && w.shape != v.shape)
  {
  }

  // What the report of one kind says of its records.
  ghost predicate KindReport(hashes: Hashes, was: seq<seq<Value>>, now: seq<seq<Value>>, names: Names)
  {
    && (forall id :: id in names.preserved <==> StillAsks(hashes, was, now, id))
    && (forall id :: id in names.rehashed <==> Repinned(was, now, id))
    && (forall s :: s in names.reshaped <==> ShapeMoved(was, now, s))
  }

  lemma KindNames(hashes: Hashes, shapes: map<nat, Digest>, vss: seq<seq<Value>>)
    requires Compiled(hashes)
    ensures KindReport(hashes, vss, FilesPinned(hashes, shapes, vss), NamesOf(hashes, shapes, Flat(vss)))
  {
    hide Pinned, Asks, Rehashes, Reshapes, Pair, Flat, Agrees;
    var now, names := FilesPinned(hashes, shapes, vss), NamesOf(hashes, shapes, Flat(vss));
    forall v, w ensures Pair(vss, now, v, w) <==> v in Flat(vss) && w == Pinned(hashes, shapes, v) {
      PairMeans(hashes, shapes, vss, v, w);
    }
    forall id ensures id in names.preserved <==> StillAsks(hashes, vss, now, id) {
      if v :| v in Flat(vss) && Asks(hashes, v) && v.id == id {
        NamesMean(hashes, shapes, v);
        assert Pair(vss, now, v, Pinned(hashes, shapes, v));
      }
      if StillAsks(hashes, vss, now, id) {
        var v, w :| Pair(vss, now, v, w) && w.id == id && id in hashes && !Agrees(hashes[id], w.pins);
        NamesMean(hashes, shapes, v);
      }
    }
    forall id ensures id in names.rehashed <==> Repinned(vss, now, id) {
      if v :| v in Flat(vss) && Rehashes(hashes, v) && v.id == id {
        NamesMean(hashes, shapes, v);
        assert Pair(vss, now, v, Pinned(hashes, shapes, v));
      }
      if Repinned(vss, now, id) {
        var v, w :| Pair(vss, now, v, w) && v.id == id && v.pins.content != UNSET && w.pins.content != v.pins.content;
        NamesMean(hashes, shapes, v);
      }
    }
    forall s ensures s in names.reshaped <==> ShapeMoved(vss, now, s) {
      if v :| v in Flat(vss) && Reshapes(shapes, v) && v.symbol == s {
        NamesMean(hashes, shapes, v);
        assert Pair(vss, now, v, Pinned(hashes, shapes, v));
      }
      if ShapeMoved(vss, now, s) {
        var v, w :| Pair(vss, now, v, w) && v.symbol == s && v.shape != UNSET && w.shape != v.shape;
        NamesMean(hashes, shapes, v);
      }
    }
  }

  lemma PinMeans(hashes: Hashes, shapes: map<nat, Digest>, store: Store, was: Kinded)
    requires Compiled(hashes)
    requires |was.0| == |store.bindings| && |was.1| == |store.gaps| && |was.2| == |store.attestations|
    ensures PinOutcome(hashes, shapes, store, was, StorePinned(hashes, shapes, was), StoreUpdates(hashes, shapes, store, was), StoreNames(hashes, shapes, was))
    ensures StoreBlocked(hashes, shapes, store, was) <==>
      Barred(hashes, shapes, store.bindings, was.0) || Barred(hashes, map[], store.gaps, was.1) || Barred(hashes, map[], store.attestations, was.2)
  {
    hide KindPinned, Rewritten, StillAsks, Repinned, ShapeMoved, Barred, NamesOf, Updates, Blocked, FilesPinned, Flat, Compiled;
    KindPins(hashes, shapes, was.0);
    KindPins(hashes, map[], was.1);
    KindPins(hashes, map[], was.2);
    UpdatesMean(hashes, shapes, store.bindings, was.0);
    UpdatesMean(hashes, map[], store.gaps, was.1);
    UpdatesMean(hashes, map[], store.attestations, was.2);
    BlockedMeans(hashes, shapes, store.bindings, was.0);
    BlockedMeans(hashes, map[], store.gaps, was.1);
    BlockedMeans(hashes, map[], store.attestations, was.2);
    KindNames(hashes, shapes, was.0);
    KindNames(hashes, map[], was.1);
    KindNames(hashes, map[], was.2);
  }

  // Pin: the blanket form over every kind of record. Shapes are a binding's alone.
  method Pin(store: Store, hashes: Hashes, shapes: map<nat, Digest>) returns (refused: bool, updates: set<nat>, names: Names)
    requires Compiled(hashes) && Sound(store)
    modifies AllRecords(store.bindings), AllRecords(store.gaps), AllRecords(store.attestations)
    ensures refused <==>
      || Barred(hashes, shapes, store.bindings, old(Kinds(store)).0)
      || Barred(hashes, map[], store.gaps, old(Kinds(store)).1)
      || Barred(hashes, map[], store.attestations, old(Kinds(store)).2)
    ensures !refused ==> PinOutcome(hashes, shapes, store, old(Kinds(store)), Kinds(store), updates, names)
    ensures !refused ==> Kinds(store) == StorePinned(hashes, shapes, old(Kinds(store)))
    ensures !refused ==> updates == StoreUpdates(hashes, shapes, store, old(Kinds(store)))
    ensures !refused ==> names == StoreNames(hashes, shapes, old(Kinds(store)))
  {
    hide Blocked, Updates, NamesOf, Flat, Both, Compiled, Apart, FilesPinned, PinOutcome, Barred;
    ghost var was := Kinds(store);
    PinMeans(hashes, shapes, store, was);
    SoundKinds(store);
    refused, updates, names := PinFiles(store.bindings, hashes, shapes);
    assert Contents(store.gaps) == was.1 && Contents(store.attestations) == was.2;
    if !refused {
      var paths, more;
      refused, paths, more := PinFiles(store.gaps, hashes, map[]);
      assert Contents(store.attestations) == was.2;
      updates, names := updates + paths, Both(names, more);
      if !refused {
        refused, paths, more := PinFiles(store.attestations, hashes, map[]);
        updates, names := updates + paths, Both(names, more);
      }
    }
  }

  lemma SoundKinds(store: Store)
    requires Sound(store)
    ensures Apart(store.bindings) && Apart(store.gaps) && Apart(store.attestations)
    ensures AllRecords(store.bindings) !! AllRecords(store.gaps) !! AllRecords(store.attestations)
  {
  }

  // Pinning twice is pinning once: the second pass rewrites no file and names no rehash and no
  // reshape, and the consent questions it names are the first pass's.
  lemma PinIdempotent(hashes: Hashes, shapes: map<nat, Digest>, files: seq<File>, vss: seq<seq<Value>>)
    requires Compiled(hashes) && |vss| == |files|
    ensures var after := FilesPinned(hashes, shapes, vss);
      && FilesPinned(hashes, shapes, after) == after
      && Updates(hashes, shapes, files, after) == {} && !Blocked(hashes, shapes, files, after)
      && NamesOf(hashes, shapes, Flat(after)) == Names(NamesOf(hashes, shapes, Flat(vss)).preserved, {}, {})
  {
    hide Pinned, Asks, Reshapes, Rehashes;
    var after := FilesPinned(hashes, shapes, vss);
    forall v ensures Settled(hashes, shapes, v) {
      PinnedSettles(hashes, shapes, v);
    }
    forall i | 0 <= i < |vss| ensures AllPinned(hashes, shapes, after[i]) == after[i] && !AnyMoves(hashes, shapes, after[i]) {
      forall k | 0 <= k < |vss[i]| ensures Pinned(hashes, shapes, after[i][k]) == after[i][k] {
        assert Settled(hashes, shapes, vss[i][k]);
      }
    }
    FlatPinned(hashes, shapes, vss);
    NamesSettled(hashes, shapes, Flat(vss));
  }

  // Once pinned, a record moves no more, and asks what it asked.
  ghost predicate Settled(hashes: Hashes, shapes: map<nat, Digest>, v: Value)
  {
    var after := Pinned(hashes, shapes, v);
    && Pinned(hashes, shapes, after) == after && after.id == v.id
    && !Rehashes(hashes, after) && !Reshapes(shapes, after) && (Asks(hashes, after) <==> Asks(hashes, v))
  }

  lemma PinnedSettles(hashes: Hashes, shapes: map<nat, Digest>, v: Value)
    requires Compiled(hashes)
    ensures Settled(hashes, shapes, v)
  {
  }

  lemma {:induction false} FlatPinned(hashes: Hashes, shapes: map<nat, Digest>, vss: seq<seq<Value>>)
    ensures Flat(FilesPinned(hashes, shapes, vss)) == AllPinned(hashes, shapes, Flat(vss))
  {
    hide Pinned;
    if vss != [] {
      FlatPinned(hashes, shapes, vss[..|vss| - 1]);
      assert FilesPinned(hashes, shapes, vss)[..|vss| - 1] == FilesPinned(hashes, shapes, vss[..|vss| - 1]);
    }
  }

  lemma NamesSettled(hashes: Hashes, shapes: map<nat, Digest>, vs: seq<Value>)
    requires forall v :: Settled(hashes, shapes, v)
    ensures NamesOf(hashes, shapes, AllPinned(hashes, shapes, vs)) == Names(NamesOf(hashes, shapes, vs).preserved, {}, {})
  {
  }

  // ----- the named re-consent -----

  datatype Verdict = Consented(updates: set<nat>) | Unknown | DanglingClaim(symbol: nat) | UnscopedClaim(symbol: nat)
    | Commentary(path: nat) | NothingStale

  // The re-consent reaches the record.
  predicate Reaches(id: nat, h: Surface, v: Value)
  {
    v.id == id && v.pins.content != h.content
  }

  function Renamed(id: nat, h: Surface, v: Value): Value
  {
    if v.id == id then v.(pins := Rename(h, v.pins)) else v
  }

  // A claim the edited text no longer resolves, or that must name a clause and does not.
  function ClaimFault(clauses: seq<Clauses.Clause>, allowWhole: bool, v: Value): Verdict
  {
    match Clauses.Resolve(clauses, v.scope)
    case Dangling => DanglingClaim(v.symbol)
    case Unscoped => if Clauses.RequiresScope(clauses, v.role, allowWhole) then UnscopedClaim(v.symbol) else NothingStale
    case Found(_) => NothingStale
  }

  predicate Faulty(id: nat, h: Surface, clauses: seq<Clauses.Clause>, allowWhole: bool, v: Value)
  {
    Reaches(id, h, v) && !ClaimFault(clauses, allowWhole, v).NothingStale?
  }

  function AllRenamed(id: nat, h: Surface, vs: seq<Value>): (r: seq<Value>)
    ensures |r| == |vs| && forall i :: 0 <= i < |vs| ==> r[i] == Renamed(id, h, vs[i])
  {
    seq(|vs|, i requires 0 <= i < |vs| => Renamed(id, h, vs[i]))
  }

  function FilesRenamed(id: nat, h: Surface, vss: seq<seq<Value>>): (r: seq<seq<Value>>)
    ensures |r| == |vss| && forall i :: 0 <= i < |vss| ==> r[i] == AllRenamed(id, h, vss[i])
  {
    seq(|vss|, i requires 0 <= i < |vss| => AllRenamed(id, h, vss[i]))
  }

  predicate AnyReached(id: nat, h: Surface, vs: seq<Value>)
  {
    exists v :: v in vs && Reaches(id, h, v)
  }

  function Reached(id: nat, h: Surface, files: seq<File>, vss: seq<seq<Value>>): set<nat>
    requires |vss| == |files|
  {
    set i | 0 <= i < |files| && AnyReached(id, h, vss[i]) :: files[i].path
  }

  // What the re-consent is judged against: the requirement's identity, text and clauses, and
  // whether the corpus admits whole claims on clause-structured requirements.
  datatype Target = Target(id: nat, text: Surface, clauses: seq<Clauses.Clause>, allowWhole: bool)

  predicate Fault(t: Target, v: Value)
  {
    Faulty(t.id, t.text, t.clauses, t.allowWhole, v)
  }

  // One record under the named re-consent; only a binding's claim is judged.
  method RenameRecord(r: Record, t: Target, binding: bool) returns (fault: Verdict, changed: bool)
    modifies r
    ensures fault == if binding && Reaches(t.id, t.text, old(r.Seen())) then ClaimFault(t.clauses, t.allowWhole, old(r.Seen())) else NothingStale
    ensures fault.NothingStale? ==> r.Seen() == Renamed(t.id, t.text, old(r.Seen())) && (changed <==> Reaches(t.id, t.text, old(r.Seen())))
  {
    fault, changed := NothingStale, false;
    if r.id == t.id && r.content != t.text.content {
      if binding {
        fault := ClaimFault(t.clauses, t.allowWhole, r.Seen());
      }
      if fault.NothingStale? {
        r.content, r.source := t.text.content, t.text.source;
        changed := true;
      }
    }
  }

  ghost predicate RenamedPartway(t: Target, was: seq<Value>, now: seq<Value>, i: nat)
  {
    && |now| == |was|
    && (forall k :: 0 <= k < |was| ==> now[k] == if k < i then Renamed(t.id, t.text, was[k]) else was[k])
  }

  method RenameFile(f: File, t: Target, binding: bool) returns (fault: Verdict, changed: bool)
    requires Separate(f.records)
    modifies f.records
    ensures fault.NothingStale? ==> Values(f.records) == AllRenamed(t.id, t.text, old(Values(f.records)))
    ensures fault.NothingStale? ==> (changed <==> AnyReached(t.id, t.text, old(Values(f.records))))
    ensures fault.NothingStale? && binding ==> forall v :: v in old(Values(f.records)) ==> !Fault(t, v)
    ensures !fault.NothingStale? ==>
      binding && exists v :: v in old(Values(f.records)) && Fault(t, v) && fault == ClaimFault(t.clauses, t.allowWhole, v)
  {
    hide *;
    ghost var vs := Values(f.records);
    fault, changed := NothingStale, false;
    NothingRenamed(t, binding, vs);
    var i := 0;
    while i < |f.records| && fault.NothingStale?
      invariant i <= |f.records|
      invariant fault.NothingStale? ==> RenamedSoFar(t, binding, vs, Values(f.records), i, changed)
      invariant !fault.NothingStale? ==> RenameFails(t, binding, vs, fault)
    {
      ghost var before := Values(f.records);
      if fault.NothingStale? {
        RecordAt(t, binding, vs, before, i, changed);
      }
      var one;
      SeparateAt(f.records, i);
      fault, one := RenameRecord(f.records[i], t, binding);
      assert Values(f.records) == before[i := f.records[i].Seen()];
      RenameStep(t, binding, vs, before, Values(f.records), i, changed, one, fault);
      changed := changed || one;
      i := i + 1;
    }
    if fault.NothingStale? {
      RenameEnds(t, binding, vs, Values(f.records), changed);
    } else {
      RenameFailed(t, binding, vs, fault);
    }
  }

  ghost predicate RenamedSoFar(t: Target, binding: bool, was: seq<Value>, now: seq<Value>, i: nat, changed: bool)
  {
    && i <= |was| && RenamedPartway(t, was, now, i)
    && (changed <==> exists k :: 0 <= k < i && Reaches(t.id, t.text, was[k]))
    && (binding ==> forall k :: 0 <= k < i ==> !Fault(t, was[k]))
  }

  ghost predicate RenameFails(t: Target, binding: bool, was: seq<Value>, fault: Verdict)
  {
    binding && exists v :: v in was && Fault(t, v) && fault == ClaimFault(t.clauses, t.allowWhole, v)
  }

  lemma SeparateAt(rs: seq<Record>, i: nat)
    requires Separate(rs) && i < |rs|
    ensures forall k :: 0 <= k < |rs| && k != i ==> rs[k] != rs[i]
  {
  }

  lemma NothingRenamed(t: Target, binding: bool, vs: seq<Value>)
    ensures RenamedSoFar(t, binding, vs, vs, 0, false)
  {
  }

  lemma RecordAt(t: Target, binding: bool, was: seq<Value>, now: seq<Value>, i: nat, changed: bool)
    requires RenamedSoFar(t, binding, was, now, i, changed) && i < |was|
    ensures |now| == |was| && now[i] == was[i]
  {
  }

  lemma RenameStep(t: Target, binding: bool, was: seq<Value>, before: seq<Value>, after: seq<Value>, i: nat, changed: bool, one: bool, fault: Verdict)
    requires RenamedSoFar(t, binding, was, before, i, changed) && i < |was| == |before| && before[i] == was[i]
    requires fault == if binding && Reaches(t.id, t.text, was[i]) then ClaimFault(t.clauses, t.allowWhole, was[i]) else NothingStale
    requires fault.NothingStale? ==>
      after == before[i := Renamed(t.id, t.text, was[i])] && (one <==> Reaches(t.id, t.text, was[i]))
    ensures fault.NothingStale? ==> RenamedSoFar(t, binding, was, after, i + 1, changed || one)
    ensures !fault.NothingStale? ==> RenameFails(t, binding, was, fault)
  {
    hide Reaches, Renamed, ClaimFault;
    assert was[i] in was;
  }

  lemma RenameEnds(t: Target, binding: bool, was: seq<Value>, now: seq<Value>, changed: bool)
    requires RenamedSoFar(t, binding, was, now, |was|, changed)
    ensures now == AllRenamed(t.id, t.text, was) && (changed <==> AnyReached(t.id, t.text, was))
    ensures binding ==> forall v :: v in was ==> !Fault(t, v)
  {
    hide Reaches, Renamed, Fault;
    forall k | 0 <= k < |was| ensures was[k] in was {}
  }

  lemma RenameFailed(t: Target, binding: bool, was: seq<Value>, fault: Verdict)
    requires RenameFails(t, binding, was, fault)
    ensures binding && exists v :: v in was && Fault(t, v) && fault == ClaimFault(t.clauses, t.allowWhole, v)
  {
  }

  // The next file of a list under way.
  method RenameNext(files: seq<File>, t: Target, binding: bool, ghost was: seq<seq<Value>>, i: nat)
    returns (fault: Verdict, changed: bool)
    requires Apart(files) && i < |files| == |was| && RenamedTo(t, was, Contents(files), i)
    modifies AllRecords(files)
    ensures fault.NothingStale? ==> RenamedTo(t, was, Contents(files), i + 1)
    ensures fault.NothingStale? ==> (changed <==> AnyReached(t.id, t.text, was[i]))
    ensures fault.NothingStale? && binding ==> forall v :: v in was[i] ==> !Fault(t, v)
    ensures !fault.NothingStale? ==> binding && exists v :: v in was[i] && Fault(t, v) && fault == ClaimFault(t.clauses, t.allowWhole, v)
  {
    hide AnyReached, Fault, AllRenamed, ClaimFault, Apart;
    RecordsIn(files);
    ApartAt(files, i);
    fault, changed := RenameFile(files[i], t, binding);
    forall k | 0 <= k < |files| && k != i ensures Values(files[k].records) == old(Values(files[k].records)) {
      forall m | 0 <= m < |files[k].records| ensures files[k].records[m].Seen() == old(files[k].records[m].Seen()) {
        var r := files[k].records[m];
        assert r in files[k].records && r !in files[i].records;
        assert unchanged(r);
      }
    }
  }

  ghost predicate RenamedTo(t: Target, was: seq<seq<Value>>, now: seq<seq<Value>>, i: nat)
  {
    && |now| == |was|
    && (forall k :: 0 <= k < |was| ==> now[k] == if k < i then AllRenamed(t.id, t.text, was[k]) else was[k])
  }

  // One kind's files under the named re-consent.
  ghost predicate KindRenamed(t: Target, binding: bool, files: seq<File>, was: seq<seq<Value>>, now: seq<seq<Value>>, updates: set<nat>)
    requires |was| == |files|
  {
    && now == FilesRenamed(t.id, t.text, was)
    && updates == Reached(t.id, t.text, files, was)
    && (forall i :: 0 <= i < |files| && files[i].commented ==> !AnyReached(t.id, t.text, was[i]))
    && (binding ==> forall i, v :: 0 <= i < |was| && v in was[i] ==> !Fault(t, v))
  }

  // Why the re-consent of one kind is refused.
  ghost predicate Refused(t: Target, binding: bool, files: seq<File>, was: seq<seq<Value>>, why: Verdict)
    requires |was| == |files|
  {
    || (binding && exists i, v :: 0 <= i < |was| && v in was[i] && Fault(t, v) && why == ClaimFault(t.clauses, t.allowWhole, v))
    || exists i :: 0 <= i < |files| && files[i].commented && AnyReached(t.id, t.text, was[i]) && why == Commentary(files[i].path)
  }

  // The first i files of one kind are done, none of them a refusal.
  ghost predicate KindSoFar(t: Target, binding: bool, files: seq<File>, was: seq<seq<Value>>, now: seq<seq<Value>>, i: nat, updates: set<nat>)
    requires |was| == |files|
  {
    && i <= |files| && RenamedTo(t, was, now, i)
    && (forall p :: p in updates <==> exists k :: 0 <= k < i && files[k].path == p && AnyReached(t.id, t.text, was[k]))
    && (forall k :: 0 <= k < i && files[k].commented ==> !AnyReached(t.id, t.text, was[k]))
    && (binding ==> forall k, v :: 0 <= k < i && v in was[k] ==> !Fault(t, v))
  }

  lemma KindStarts(t: Target, binding: bool, files: seq<File>, was: seq<seq<Value>>)
    requires |was| == |files|
    ensures KindSoFar(t, binding, files, was, was, 0, {})
  {
  }

  lemma KindOnward(t: Target, binding: bool, files: seq<File>, was: seq<seq<Value>>, now: seq<seq<Value>>, i: nat, updates: set<nat>)
    requires |was| == |files| && KindSoFar(t, binding, files, was, now, i, updates)
    ensures RenamedTo(t, was, now, i)
  {
  }

  lemma KindNext(t: Target, binding: bool, files: seq<File>, was: seq<seq<Value>>, before: seq<seq<Value>>, after: seq<seq<Value>>, i: nat,
                 updates: set<nat>, changed: bool)
    requires |was| == |files| && i < |files| && KindSoFar(t, binding, files, was, before, i, updates)
    requires RenamedTo(t, was, after, i + 1) && (changed <==> AnyReached(t.id, t.text, was[i])) && !(changed && files[i].commented)
    requires binding ==> forall v :: v in was[i] ==> !Fault(t, v)
    ensures KindSoFar(t, binding, files, was, after, i + 1, if changed then updates + {files[i].path} else updates)
  {
    hide AnyReached, Fault, RenamedTo;
  }

  lemma KindEnds(t: Target, binding: bool, files: seq<File>, was: seq<seq<Value>>, now: seq<seq<Value>>, updates: set<nat>)
    requires |was| == |files| && KindSoFar(t, binding, files, was, now, |files|, updates)
    ensures KindRenamed(t, binding, files, was, now, updates)
  {
    hide AnyReached, Fault, AllRenamed;
  }

  lemma FileRefuses(t: Target, binding: bool, files: seq<File>, was: seq<seq<Value>>, i: nat, why: Verdict)
    requires |was| == |files| && i < |files|
    requires
      || (binding && exists v :: v in was[i] && Fault(t, v) && why == ClaimFault(t.clauses, t.allowWhole, v))
      || (files[i].commented && AnyReached(t.id, t.text, was[i]) && why == Commentary(files[i].path))
    ensures Refused(t, binding, files, was, why)
  {
    hide AnyReached, Fault, ClaimFault;
  }

  method RenameFiles(files: seq<File>, t: Target, binding: bool) returns (fault: Verdict, updates: set<nat>)
    requires Apart(files)
    modifies AllRecords(files)
    ensures fault.NothingStale? ==> KindRenamed(t, binding, files, old(Contents(files)), Contents(files), updates)
    ensures !fault.NothingStale? ==> Refused(t, binding, files, old(Contents(files)), fault)
  {
    hide AnyReached, Fault, ClaimFault, Apart, KindRenamed, Refused, KindSoFar, RenamedTo;
    ghost var vss := Contents(files);
    fault, updates := NothingStale, {};
    var i := 0;
    KindStarts(t, binding, files, vss);
    while i < |files| && fault.NothingStale?
      invariant i <= |files|
      invariant fault.NothingStale? ==> KindSoFar(t, binding, files, vss, Contents(files), i, updates)
      invariant !fault.NothingStale? ==> Refused(t, binding, files, vss, fault)
    {
      ghost var before, had := Contents(files), updates;
      KindOnward(t, binding, files, vss, before, i, updates);
      var changed;
      fault, changed := RenameNext(files, t, binding, vss, i);
      if fault.NothingStale? && changed {
        updates := updates + {files[i].path};
        if files[i].commented {
          fault := Commentary(files[i].path);
        }
      }
      if fault.NothingStale? {
        KindNext(t, binding, files, vss, before, Contents(files), i, had, changed);
      } else {
        FileRefuses(t, binding, files, vss, i, fault);
      }
      i := i + 1;
    }
    if fault.NothingStale? {
      KindEnds(t, binding, files, vss, Contents(files), updates);
    }
  }

  // EditorialOver: the named re-consent to one requirement's current text. Bindings and gaps move
  // together or the whole is refused; attestations are a human's to renew and are not reached.
  method EditorialOver(store: Store, id: nat, hashes: Hashes, clauses: seq<Clauses.Clause>, allowWhole: bool) returns (v: Verdict)
    requires Sound(store)
    modifies AllRecords(store.bindings), AllRecords(store.gaps)
    ensures v.Unknown? <==> id !in hashes
    ensures v.Unknown? ==> Kinds(store) == old(Kinds(store))
    ensures id in hashes ==> Outcome(Target(id, hashes[id], clauses, allowWhole), store, old(Kinds(store)), Kinds(store), v)
    ensures id in hashes ==> Editorial(Target(id, hashes[id], clauses, allowWhole), store, old(Kinds(store)), Kinds(store), v)
  {
    hide KindRenamed, Refused, Apart, Editorial;
    v := Unknown;
    if id in hashes {
      var t := Target(id, hashes[id], clauses, allowWhole);
      ghost var was := Kinds(store);
      SoundKinds(store);
      var updates, more;
      v, updates := RenameFiles(store.bindings, t, true);
      assert Contents(store.gaps) == was.1;
      RefusalKind(t, true, store.bindings, was.0, v);
      if v.NothingStale? {
        v, more := RenameFiles(store.gaps, t, false);
        RefusalKind(t, false, store.gaps, was.1, v);
        if v.NothingStale? && updates + more != {} {
          v := Consented(updates + more);
        }
      }
      EditorialMeans(t, store, was, Kinds(store), v);
    }
  }

  lemma RefusalKind(t: Target, binding: bool, files: seq<File>, was: seq<seq<Value>>, why: Verdict)
    requires |was| == |files| && (why.NothingStale? || Refused(t, binding, files, was, why))
    ensures why.NothingStale? || why.DanglingClaim? || why.UnscopedClaim? || why.Commentary?
  {
  }

  // Consented: both kinds moved, something did, and no claim was at fault. Nothing stale: no record
  // was reached. Otherwise: the claim or the file that refuses the whole.
  ghost predicate Outcome(t: Target, store: Store, was: (seq<seq<Value>>, seq<seq<Value>>, seq<seq<Value>>),
                          now: (seq<seq<Value>>, seq<seq<Value>>, seq<seq<Value>>), v: Verdict)
    requires |was.0| == |store.bindings| && |was.1| == |store.gaps|
  {
    && now.2 == was.2
    && (v.Consented? || v.NothingStale? ==>
          exists b, g :: KindRenamed(t, true, store.bindings, was.0, now.0, b) && KindRenamed(t, false, store.gaps, was.1, now.1, g)
            && (if v.Consented? then v.updates == b + g != {} else b + g == {}))
    && (!v.Consented? && !v.NothingStale? ==> Refused(t, true, store.bindings, was.0, v) || Refused(t, false, store.gaps, was.1, v))
  }

  // ----- a named re-consent, digest by digest -----

  // A record of the requirement whose content pin is not its text's.
  ghost predicate Differs(t: Target, v: Value)
  {
    v.id == t.id && v.pins.content != t.text.content
  }

  // What the re-consent leaves of a record: the text's pins where it differed.
  ghost predicate RenamesTo(t: Target, v: Value, w: Value)
  {
    w == v.(pins := if Differs(t, v) then Pins(t.text.content, t.text.source) else v.pins)
  }

  ghost predicate KindMoved(t: Target, was: seq<seq<Value>>, now: seq<seq<Value>>)
  {
    |now| == |was| && forall i :: 0 <= i < |was| ==> ListMoved(t, was[i], now[i])
  }

  ghost predicate ListMoved(t: Target, was: seq<Value>, now: seq<Value>)
  {
    |now| == |was| && forall j :: 0 <= j < |was| ==> RenamesTo(t, was[j], now[j])
  }

  // The claim's clause is still one of the requirement's.
  ghost predicate StillNames(t: Target, s: Clauses.Scope)
  {
    exists c :: c in t.clauses && ((s.Ordinal? && c.ordinal == s.ordinal) || (s.Labelled? && s.tag.Named? && c.tag == s.tag))
  }

  // The claim names no clause where the requirement has some and the corpus wants them named.
  ghost predicate Unscoped(t: Target, v: Value)
  {
    v.scope.Whole? && t.clauses != [] && !t.allowWhole && (v.role.Tests? || v.role.Proves?)
  }

  lemma FaultMeans(t: Target, v: Value)
    ensures var f := ClaimFault(t.clauses, t.allowWhole, v);
      && (f == DanglingClaim(v.symbol) <==> !v.scope.Whole? && !StillNames(t, v.scope))
      && (f == UnscopedClaim(v.symbol) <==> Unscoped(t, v))
      && (f.DanglingClaim? || f.UnscopedClaim? || f.NothingStale?)
      && (f.DanglingClaim? ==> f.symbol == v.symbol) && (f.UnscopedClaim? ==> f.symbol == v.symbol)
  {
  }

  ghost predicate StaleIn(t: Target, was: seq<seq<Value>>, i: nat, v: Value)
  {
    i < |was| && v in was[i] && Differs(t, v)
  }

  // A named re-consent in the records' own terms. It goes through when no differing binding's claim
  // has lost its clause or needs one, and no file it rewrites holds commentary: then every differing
  // binding and gap of the requirement has the text's pins and nothing else has changed. Otherwise
  // some such claim or file is named; or nothing differed.
  ghost predicate Editorial(t: Target, store: Store, was: Kinded, now: Kinded, v: Verdict)
  {
    && now.2 == was.2
    && (v.Consented? || v.NothingStale? ==>
          && KindMoved(t, was.0, now.0) && KindMoved(t, was.1, now.1)
          && (forall i: nat, x :: StaleIn(t, was.0, i, x) ==> !Unscoped(t, x) && (x.scope.Whole? || StillNames(t, x.scope)))
          && (forall path :: !Speaks(t, store.bindings, was.0, path) && !Speaks(t, store.gaps, was.1, path))
          && (v.Consented? <==> exists i: nat, x :: StaleIn(t, was.0, i, x) || StaleIn(t, was.1, i, x)))
    && (v.Consented? ==> forall path :: path in v.updates <==> Rewritten(store.bindings, was.0, now.0, path) || Rewritten(store.gaps, was.1, now.1, path))
    && (v.DanglingClaim? ==> exists i: nat, x :: StaleIn(t, was.0, i, x) && x.symbol == v.symbol && !x.scope.Whole? && !StillNames(t, x.scope))
    && (v.UnscopedClaim? ==> exists i: nat, x :: StaleIn(t, was.0, i, x) && x.symbol == v.symbol && Unscoped(t, x))
    && (v.Commentary? ==> Speaks(t, store.bindings, was.0, v.path) || Speaks(t, store.gaps, was.1, v.path))
  }

  // The file at the path holds commentary and a differing record.
  ghost predicate Speaks(t: Target, files: seq<File>, was: seq<seq<Value>>, path: nat)
  {
    exists i: nat, x :: i < |files| && files[i].commented && files[i].path == path && StaleIn(t, was, i, x)
  }

  lemma RenamedMeans(t: Target, v: Value)
    ensures RenamesTo(t, v, Renamed(t.id, t.text, v)) && (Reaches(t.id, t.text, v) <==> Differs(t, v))
    ensures Renamed(t.id, t.text, v) != v <==> Differs(t, v)
  {
  }

  lemma KindMoves(t: Target, files: seq<File>, was: seq<seq<Value>>)
    requires |was| == |files|
    ensures var now := FilesRenamed(t.id, t.text, was);
      && KindMoved(t, was, now)
      && (forall path :: path in Reached(t.id, t.text, files, was) <==> Rewritten(files, was, now, path))
      && (Reached(t.id, t.text, files, was) != {} <==> exists i: nat, x :: StaleIn(t, was, i, x))
  {
    hide Renamed, Reaches, RenamesTo, Differs;
    var now := FilesRenamed(t.id, t.text, was);
    forall i | 0 <= i < |was| ensures ListMoved(t, was[i], now[i]) && (AnyReached(t.id, t.text, was[i]) <==> now[i] != was[i])
      && (AnyReached(t.id, t.text, was[i]) <==> exists x :: StaleIn(t, was, i, x))
    {
      ListMoves(t, was[i]);
      ReachedMeans(t, was, i);
    }
    if i: nat, x :| StaleIn(t, was, i, x) {
      assert files[i].path in Reached(t.id, t.text, files, was);
    }
    if path :| path in Reached(t.id, t.text, files, was) {
      var i :| 0 <= i < |files| && AnyReached(t.id, t.text, was[i]) && files[i].path == path;
      ReachedMeans(t, was, i);
    }
  }

  lemma ListMoves(t: Target, vs: seq<Value>)
    ensures ListMoved(t, vs, AllRenamed(t.id, t.text, vs))
    ensures AnyReached(t.id, t.text, vs) <==> AllRenamed(t.id, t.text, vs) != vs
  {
    hide Renamed, Reaches, RenamesTo, Differs;
    forall j | 0 <= j < |vs| ensures RenamesTo(t, vs[j], Renamed(t.id, t.text, vs[j])) && (Renamed(t.id, t.text, vs[j]) != vs[j] <==> Reaches(t.id, t.text, vs[j])) && vs[j] in vs {
      RenamedMeans(t, vs[j]);
    }
    if v :| v in vs && Reaches(t.id, t.text, v) {
      var j :| 0 <= j < |vs| && vs[j] == v;
      assert AllRenamed(t.id, t.text, vs)[j] != vs[j];
    }
  }

  lemma ReachedMeans(t: Target, was: seq<seq<Value>>, i: nat)
    requires i < |was|
    ensures AnyReached(t.id, t.text, was[i]) <==> exists x :: StaleIn(t, was, i, x)
  {
    if v :| v in was[i] && Reaches(t.id, t.text, v) {
      assert StaleIn(t, was, i, v);
    }
  }

  lemma EditorialMeans(t: Target, store: Store, was: Kinded, now: Kinded, v: Verdict)
    requires |was.0| == |store.bindings| && |was.1| == |store.gaps| && !v.Unknown? && Outcome(t, store, was, now, v)
    ensures Editorial(t, store, was, now, v)
  {
    hide KindMoved, Rewritten, StaleIn, FilesRenamed, Reached, Refused, StillNames, Unscoped, Fault;
    if v.Consented? || v.NothingStale? {
      KindMoves(t, store.bindings, was.0);
      KindMoves(t, store.gaps, was.1);
      ClaimsStand(t, was.0);
      NoneSpeaks(t, store.bindings, was.0);
      NoneSpeaks(t, store.gaps, was.1);
    } else if Refused(t, true, store.bindings, was.0, v) {
      RefusedMeans(t, true, store.bindings, was.0, v);
    } else {
      RefusedMeans(t, false, store.gaps, was.1, v);
    }
  }

  lemma NoneSpeaks(t: Target, files: seq<File>, was: seq<seq<Value>>)
    requires |was| == |files| && forall i :: 0 <= i < |files| && files[i].commented ==> !AnyReached(t.id, t.text, was[i])
    ensures forall path :: !Speaks(t, files, was, path)
  {
    hide AnyReached, StaleIn;
    forall i | 0 <= i < |files| ensures AnyReached(t.id, t.text, was[i]) <==> exists x :: StaleIn(t, was, i, x) {
      ReachedMeans(t, was, i);
    }
  }

  lemma ClaimsStand(t: Target, was: seq<seq<Value>>)
    requires forall i, v :: 0 <= i < |was| && v in was[i] ==> !Fault(t, v)
    ensures forall i: nat, x :: StaleIn(t, was, i, x) ==> !Unscoped(t, x) && (x.scope.Whole? || StillNames(t, x.scope))
  {
    hide ClaimFault, StillNames, Unscoped;
    forall i: nat, x | StaleIn(t, was, i, x) ensures !Unscoped(t, x) && (x.scope.Whole? || StillNames(t, x.scope)) {
      assert !Fault(t, x);
      FaultMeans(t, x);
    }
  }

  lemma RefusedMeans(t: Target, binding: bool, files: seq<File>, was: seq<seq<Value>>, why: Verdict)
    requires |was| == |files| && Refused(t, binding, files, was, why)
    ensures why.DanglingClaim? || why.UnscopedClaim? || why.Commentary?
    ensures why.DanglingClaim? ==> binding && exists i: nat, x :: StaleIn(t, was, i, x) && x.symbol == why.symbol && !x.scope.Whole? && !StillNames(t, x.scope)
    ensures why.UnscopedClaim? ==> binding && exists i: nat, x :: StaleIn(t, was, i, x) && x.symbol == why.symbol && Unscoped(t, x)
    ensures why.Commentary? ==> Speaks(t, files, was, why.path)
  {
    hide ClaimFault, StillNames, Unscoped;
    if binding && exists i, v :: 0 <= i < |was| && v in was[i] && Fault(t, v) && why == ClaimFault(t.clauses, t.allowWhole, v) {
      var i, v :| 0 <= i < |was| && v in was[i] && Fault(t, v) && why == ClaimFault(t.clauses, t.allowWhole, v);
      FaultMeans(t, v);
      assert StaleIn(t, was, i, v);
    } else {
      var i :| 0 <= i < |files| && files[i].commented && AnyReached(t.id, t.text, was[i]) && why == Commentary(files[i].path);
      ReachedMeans(t, was, i);
    }
  }

  // One record of a store under the named re-consent is one record's life under its Name step, and
  // under the blanket pin under its BlanketPin step.
  lemma StoresFollowLives(hashes: Hashes, shapes: map<nat, Digest>, v: Value, l: Life)
    requires v.pins == l.pins && l.texts != [] && (l.present <==> v.id in hashes) && (l.present ==> hashes[v.id] == Text(l))
    ensures Pinned(hashes, shapes, v).pins == Step(l, BlanketPin).pins
    ensures l.present ==> Renamed(v.id, Text(l), v).pins == Step(l, Name).pins
  {
  }
}
