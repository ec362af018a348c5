/** Coverage evaluation and the gate (internal/coverage/coverage.go): what verification's results,
    attestations and gaps make of every requirement, and which rows fail the gate.

    An evidence record's flags are the set of facts that hold. Reason texts are not modelled; that
    one was given is the fact Noted. */
module Coverage {
  import opened Basics
  import Ordering
  import opened Clauses
  import Consent

  datatype Kind = Behavior | Invariant | Structural | Wire | OtherKind

  datatype Keyword = Must | MustNot | Should | ShouldNot | May | OtherKeyword

  datatype Minimum = NeedsProof | NeedsProperty | NeedsWitness | NeedsProofOrWitness | NeedsStatic | NeedsNothing
    | NeedsAttestation | OtherMinimum

  datatype Policy = Policy(overrides: map<(Kind, Keyword), Minimum>, allowWhole: bool)

  datatype Requirement = Requirement(id: nat, kind: Kind, keyword: Keyword, clauses: seq<Clause>, pointers: seq<nat>, text: Consent.Surface)

  // A stored binding, as the enforcement pointers read it: its symbol's member name.
  datatype Binding = Binding(id: nat, role: Role, member: nat)

  datatype ResolutionState = Unverified | Resolved | NotFound | GeneratedFile

  datatype ShapeState = ShapeUnknown | ShapeUnpinned | ShapeMatch | ShapeMismatch

  datatype TestOutcome = NotRun | Passed | Failed | Skipped

  datatype WitnessClass = AnalyzerProof | PropertyWitness | ExampleWitness

  // The verified state of one binding.
  datatype Result = Result(
    id: nat, role: Role, clause: Option<nat>, pinned: bool, resolution: ResolutionState, shape: ShapeState,
    outcome: TestOutcome, class_: WitnessClass, outside: bool, cause: bool, scopeSkipped: bool)

  datatype Attestation = Attestation(id: nat, pinned: bool)

  datatype Landing = NoLanding | CoveredBy(id: nat) | Exists(id: nat) | Manual(fired: bool)

  datatype Excuse = ExcuseUncovered | ExcuseStale | ExcuseBroken | ExcuseOther

  datatype Gap = Gap(id: nat, pins: Consent.Pins, excuses: seq<Excuse>, lands: Landing)

  // One evaluation's inputs: the corpus, the record stores, the verify run and the policy.
  datatype Run = Run(
    requirements: seq<Requirement>, bindings: seq<seq<Binding>>, results: seq<Result>, attestations: seq<Attestation>,
    gaps: seq<Gap>, witnessed: bool, policy: Policy)

  datatype Bucket = Uncovered | Stale | Broken | Covered | Exempt | Attested | Partial

  datatype GapState = Open | Due | Landed

  datatype Row = Row(id: nat, bucket: Bucket, scopeBlocked: bool, selectionBlocked: bool)

  datatype GapRow = GapRow(id: nat, state: GapState, drifted: bool)

  datatype Report = Report(rows: seq<Row>, gaps: seq<GapRow>, violations: seq<nat>)

  predicate Red(b: Bucket)
  {
    b.Uncovered? || b.Partial? || b.Stale? || b.Broken?
  }

  // ----- facts -----

  datatype Fact =
    | Example | Property | Static | Proof
    | Vouched
    | IsBroken | IsStale | ScopeSkipped | OutsideSelection | OtherRed
    | Noted

  type Facts = set<Fact>

  const GRANTS: Facts := {Example, Property, Static, Proof}
  const REDS: Facts := {IsBroken, IsStale, ScopeSkipped, OutsideSelection, OtherRed, Noted}

  // The run executed the binding's test.
  predicate Executes(witnessed: bool, r: Result)
  {
    witnessed && (r.role.Tests? || r.role.Proves?)
  }

  predicate Moved(r: Result)
  {
    r.resolution.NotFound? || (r.resolution.Resolved? && r.shape.ShapeMismatch?)
  }

  // What a claim's own state shows, executed or not.
  predicate HygieneShows(r: Result, x: Fact)
  {
    match x
    case Static => r.resolution.Resolved? && r.shape.ShapeMatch? && r.pinned
    case IsStale => Unpinned(r)
    case IsBroken => Moved(r)
    case OtherRed => Moved(r)
    case Noted => Unpinned(r) || Moved(r)
    case _ => false
  }

  predicate Unpinned(r: Result)
  {
    !r.pinned || (r.resolution.Resolved? && r.shape.ShapeUnpinned?)
  }

  // What an executed claim's outcome shows: a passing test of a current claim grants its class, but
  // a proves claim grants nothing short of a proof; a missing outcome is broken, and a red of its
  // own unless one of the two boundaries explains it.
  predicate OutcomeShows(r: Result, x: Fact)
  {
    var passed := r.outcome.Passed? && r.pinned && r.resolution.Resolved?;
    var drifted := passed && r.role.Proves? && !r.class_.AnalyzerProof?;
    var missing := r.outcome.NotRun?;
    var byScope := missing && !r.outside && !r.cause && r.scopeSkipped;
    match x
    case Example => passed && !drifted && r.class_.ExampleWitness?
    case Property => passed && !drifted && r.class_.PropertyWitness?
    case Proof => passed && r.class_.AnalyzerProof?
    case IsBroken => r.outcome.Failed? || missing
    case ScopeSkipped => byScope
    case OutsideSelection => missing && r.outside
    case OtherRed => r.outcome.Failed? || drifted || (missing && !r.outside && !byScope)
    case Noted => r.outcome.Failed? || drifted || missing
    case _ => false
  }

  predicate Shows(witnessed: bool, r: Result, x: Fact)
  {
    HygieneShows(r, x) || (Executes(witnessed, r) && OutcomeShows(r, x))
  }

  function Shown(witnessed: bool, r: Result, among: Facts): (s: Facts)
  {
    set x | x in among && Shows(witnessed, r, x)
  }

  function ClausesOf(requirements: seq<Requirement>, id: nat): seq<Clause>
  {
    if requirements == [] then []
    else if requirements[|requirements| - 1].id == id then requirements[|requirements| - 1].clauses
    else ClausesOf(requirements[..|requirements| - 1], id)
  }

  // An unscoped claim grants to the whole requirement, unless the requirement's clauses must be named.
  predicate GrantsWhole(run: Run, r: Result)
  {
    r.clause.None? && !RequiresScope(ClausesOf(run.requirements, r.id), r.role, run.policy.allowWhole)
  }

  // What one result adds to a requirement's evidence.
  function Contribution(run: Run, r: Result, id: nat): Facts
  {
    if r.id != id then {}
    else Shown(run.witnessed, r, REDS) + if GrantsWhole(run, r) then Shown(run.witnessed, r, GRANTS) else {}
  }

  // What one result adds to one clause's.
  function ClauseContribution(run: Run, r: Result, id: nat, ordinal: nat): Facts
  {
    if r.id == id && r.clause == Some(ordinal) then Shown(run.witnessed, r, GRANTS) else {}
  }

  function ResultFacts(run: Run, rs: seq<Result>, id: nat): Facts
  {
    set r, x | r in rs && x in Contribution(run, r, id) :: x
  }

  function ClauseFacts(run: Run, rs: seq<Result>, id: nat, ordinal: nat): Facts
  {
    set r, x | r in rs && x in ClauseContribution(run, r, id, ordinal) :: x
  }

  predicate Resolves(files: seq<seq<Binding>>, id: nat, pointer: nat)
  {
    exists f, b :: f in files && b in f && b.id == id && (b.role.Tests? || b.role.Proves?) && b.member == pointer
  }

  // A pointer of the requirement that names no tests or proves binding of its own.
  predicate Dangles(run: Run, q: Requirement)
  {
    exists p :: p in q.pointers && !Resolves(run.bindings, q.id, p)
  }

  predicate DanglesAt(run: Run, id: nat)
  {
    exists q :: q in run.requirements && q.id == id && Dangles(run, q)
  }

  function PointerFacts(dangles: bool): Facts
  {
    if dangles then {IsBroken, OtherRed, Noted} else {}
  }

  function AttestationFacts(atts: seq<Attestation>, id: nat): Facts
  {
    (if exists a :: a in atts && a.id == id && !a.pinned then {IsStale, Noted} else {})
    + if exists a :: a in atts && a.id == id && a.pinned then {Vouched} else {}
  }

  // The evidence of one requirement.
  function EvidenceOf(run: Run, id: nat): Facts
  {
    PointerFacts(DanglesAt(run, id)) + ResultFacts(run, run.results, id) + AttestationFacts(run.attestations, id)
  }

  // ----- policy -----

  predicate Witness(e: Facts)
  {
    Example in e || Property in e
  }

  predicate AnyGrant(e: Facts)
  {
    Static in e || Witness(e) || Proof in e
  }

  // Whether evidence meets the cell's minimum: a manifest override's, or the default table's.
  predicate Satisfied(policy: Policy, q: Requirement, e: Facts)
  {
    var cell := (q.kind, q.keyword);
    if cell in policy.overrides then
      match policy.overrides[cell]
      case NeedsProof => Proof in e
      case NeedsProperty => Property in e || Proof in e
      case NeedsWitness => Witness(e)
      case NeedsProofOrWitness => Proof in e || Witness(e)
      case NeedsStatic => AnyGrant(e)
      case NeedsNothing => true
      case NeedsAttestation => AnyGrant(e)
      case OtherMinimum => false
    else if q.keyword.Must? || q.keyword.MustNot? then
      match q.kind
      case Behavior => Witness(e)
      case Invariant => Property in e || Proof in e
      case Structural => Proof in e
      case Wire => Proof in e || Witness(e)
      case OtherKind => false
    else !q.keyword.OtherKeyword? && AnyGrant(e)
  }

  predicate Overridden(policy: Policy, q: Requirement)
  {
    (q.kind, q.keyword) in policy.overrides
  }

  predicate ExemptCell(policy: Policy, q: Requirement)
  {
    Overridden(policy, q) && policy.overrides[(q.kind, q.keyword)].NeedsNothing?
  }

  predicate AdmitsAttestation(policy: Policy, q: Requirement)
  {
    if Overridden(policy, q) then policy.overrides[(q.kind, q.keyword)].NeedsAttestation?
    else q.keyword.Should? || q.keyword.ShouldNot?
  }

  // The evidence a clause holds: the whole's and its own grants.
  function Join(e: Facts, c: Facts): Facts
  {
    e + c * GRANTS
  }

  function ClauseEvidence(run: Run, q: Requirement, ordinal: nat): Facts
  {
    Join(EvidenceOf(run, q.id), ClauseFacts(run, run.results, q.id, ordinal))
  }

  predicate MeetsClause(run: Run, q: Requirement, ordinal: nat)
  {
    Satisfied(run.policy, q, ClauseEvidence(run, q, ordinal))
  }

  predicate AllMet(run: Run, q: Requirement)
  {
    if q.clauses == [] then Satisfied(run.policy, q, EvidenceOf(run, q.id))
    else forall c :: c in q.clauses ==> MeetsClause(run, q, c.ordinal)
  }

  predicate AnyMet(run: Run, q: Requirement)
  {
    if q.clauses == [] then Satisfied(run.policy, q, EvidenceOf(run, q.id))
    else exists c :: c in q.clauses && MeetsClause(run, q, c.ordinal)
  }

  // ----- buckets -----

  predicate Bound(run: Run, id: nat)
  {
    (exists r :: r in run.results && r.id == id) || (exists a :: a in run.attestations && a.id == id) || DanglesAt(run, id)
  }

  predicate Unclaimed(run: Run, q: Requirement)
  {
    !Bound(run, q.id) && (ExemptCell(run.policy, q) || (!Overridden(run.policy, q) && q.keyword.May?))
  }

  // Hygiene first, then the policy's verdict.
  function BucketOf(run: Run, q: Requirement): Bucket
  {
    var e := EvidenceOf(run, q.id);
    if Unclaimed(run, q) then Exempt
    else if IsBroken in e then Broken
    else if IsStale in e then Stale
    else if AllMet(run, q) then Covered
    else if Vouched in e && AdmitsAttestation(run.policy, q) then Attested
    else if AnyMet(run, q) then Partial
    else Uncovered
  }

  // ----- gaps -----

  function HashesOf(requirements: seq<Requirement>): Consent.Hashes
  {
    if requirements == [] then map[]
    else HashesOf(requirements[..|requirements| - 1])[requirements[|requirements| - 1].id := requirements[|requirements| - 1].text]
  }

  // The gap was declared against other text; an unset pin excuses as declared.
  predicate Drifted(run: Run, g: Gap)
  {
    g.pins.content != Consent.UNSET && !Consent.Holds(Consent.Judge(HashesOf(run.requirements), g.id, g.pins))
  }

  function ExcuseSet(excuses: seq<Excuse>): set<Bucket>
  {
    if excuses == [] then {Uncovered}
    else
      (if ExcuseUncovered in excuses then {Uncovered} else {})
      + (if ExcuseStale in excuses then {Stale} else {})
      + (if ExcuseBroken in excuses then {Broken} else {})
  }

  predicate Gapped(run: Run, id: nat)
  {
    exists g :: g in run.gaps && g.id == id
  }

  predicate Suspended(run: Run, id: nat)
  {
    exists g :: g in run.gaps && g.id == id && Drifted(run, g)
  }

  function ExcusedBy(run: Run, gaps: seq<Gap>, id: nat): set<Bucket>
  {
    set g, c | g in gaps && g.id == id && !Drifted(run, g) && c in ExcuseSet(g.excuses) :: c
  }

  // The union of the current gaps' excuses; one drifted gap suspends them all.
  function Excused(run: Run, id: nat): set<Bucket>
  {
    if Suspended(run, id) then {} else ExcusedBy(run, run.gaps, id)
  }

  // The classes a gap must declare to excuse the row.
  function RedClasses(b: Bucket, e: Facts): set<Bucket>
  {
    if b.Broken? then (if IsStale in e then {Broken, Stale} else {Broken})
    else if b.Stale? then {Stale}
    else {Uncovered}
  }

  predicate DeclaredStale(run: Run, q: Requirement)
  {
    Stale in RedClasses(BucketOf(run, q), EvidenceOf(run, q.id)) && Stale in Excused(run, q.id)
  }

  predicate BlockedOn(e: Facts, boundary: Fact, other: Fact, declaredStale: bool)
  {
    boundary in e && other !in e && OtherRed !in e && (IsStale !in e || declaredStale)
  }

  function RowOf(run: Run, q: Requirement): Row
  {
    var b, e := BucketOf(run, q), EvidenceOf(run, q.id);
    Row(q.id, b,
        b.Broken? && BlockedOn(e, ScopeSkipped, OutsideSelection, DeclaredStale(run, q)),
        b.Broken? && BlockedOn(e, OutsideSelection, ScopeSkipped, DeclaredStale(run, q)))
  }

  // The gate: a red row with a dangling pointer, with no gap, or with a class no gap excuses.
  predicate Violates(run: Run, q: Requirement)
  {
    Red(BucketOf(run, q)) &&
    (DanglesAt(run, q.id) || !Gapped(run, q.id) || !(RedClasses(BucketOf(run, q), EvidenceOf(run, q.id)) <= Excused(run, q.id)))
  }

  function Buckets(run: Run, requirements: seq<Requirement>): map<nat, Bucket>
  {
    if requirements == [] then map[]
    else
      var q := requirements[|requirements| - 1];
      Buckets(run, requirements[..|requirements| - 1])[q.id := BucketOf(run, q)]
  }

  predicate Lands(buckets: map<nat, Bucket>, hashes: Consent.Hashes, l: Landing)
  {
    match l
    case NoLanding => false
    case CoveredBy(id) => id in buckets && buckets[id].Covered?
    case Exists(id) => id in hashes
    case Manual(fired) => fired
  }

  function StateOf(buckets: map<nat, Bucket>, hashes: Consent.Hashes, g: Gap): GapState
  {
    var lands := Lands(buckets, hashes, g.lands);
    if g.id in buckets && buckets[g.id].Covered? && (g.lands.Manual? ==> lands) then Landed
    else if lands then (if g.id in buckets && buckets[g.id].Exempt? then Landed else Due)
    else Open
  }

  function GapRowOf(run: Run, g: Gap): GapRow
  {
    GapRow(g.id, StateOf(Buckets(run, run.requirements), HashesOf(run.requirements), g), Drifted(run, g))
  }

  // ----- the evaluation -----

  function At<K>(m: map<K, Facts>, k: K): Facts
  {
    if k in m then m[k] else {}
  }

  // One result's red facts and grants.
  method JudgeResult(witnessed: bool, r: Result) returns (red: Facts, granted: Facts)
    ensures red == Shown(witnessed, r, REDS) && granted == Shown(witnessed, r, GRANTS)
  {
    hide HygieneShows, OutcomeShows;
    red, granted := JudgeHygiene(r);
    if (r.role.Tests? || r.role.Proves?) && witnessed {
      var more, grants := JudgeOutcome(r);
      red, granted := red + more, granted + grants;
    }
  }

  method JudgeHygiene(r: Result) returns (red: Facts, granted: Facts)
    ensures forall x :: x in red <==> x in REDS && HygieneShows(r, x)
    ensures forall x :: x in granted <==> x in GRANTS && HygieneShows(r, x)
  {
    red, granted := {}, {};
    if !r.pinned {
      red := red + {IsStale, Noted};
    }
    match r.resolution {
      case NotFound => red := red + {IsBroken, OtherRed, Noted};
      case Resolved =>
        match r.shape {
          case ShapeMismatch => red := red + {OtherRed, IsBroken, Noted};
          case ShapeUnpinned => red := red + {IsStale, Noted};
          case ShapeMatch => if r.pinned { granted := granted + {Static}; }
          case ShapeUnknown =>
        }
      case _ =>
    }
  }

  method JudgeOutcome(r: Result) returns (red: Facts, granted: Facts)
    ensures forall x :: x in red <==> x in REDS && OutcomeShows(r, x)
    ensures forall x :: x in granted <==> x in GRANTS && OutcomeShows(r, x)
  {
    red, granted := {}, {};
    match r.outcome {
      case Passed =>
        if r.pinned && r.resolution.Resolved? {
          if r.class_.AnalyzerProof? {
            granted := {Proof};
          } else if r.role.Proves? {
            red := {OtherRed, Noted};
          } else if r.class_.PropertyWitness? {
            granted := {Property};
          } else {
            granted := {Example};
          }
        }
      case Failed => red := {IsBroken, OtherRed, Noted};
      case NotRun =>
        red := {IsBroken, Noted};
        if r.outside {
          red := red + {OutsideSelection};
        } else if r.cause {
          red := red + {OtherRed};
        } else if r.scopeSkipped {
          red := red + {ScopeSkipped};
        } else {
          red := red + {OtherRed};
        }
      case Skipped =>
    }
  }

  // Every pointer a tests or proves binding answers, by requirement.
  method Members(files: seq<seq<Binding>>) returns (members: set<(nat, nat)>)
    ensures forall id: nat, p: nat :: (id, p) in members <==> Resolves(files, id, p)
  {
    members := {};
    for i := 0 to |files|
      invariant forall id: nat, p: nat :: (id, p) in members <==> Resolves(files[..i], id, p)
    {
      ghost var before := members;
      for j := 0 to |files[i]|
        invariant forall id: nat, p: nat :: (id, p) in members <==> (id, p) in before || Resolves([files[i][..j]], id, p)
      {
        var b := files[i][j];
        ResolvesNext(files[i], j);
        if b.role.Tests? || b.role.Proves? {
          members := members + {(b.id, b.member)};
        }
      }
      ResolvesFile(files, i);
    }
    assert files[..|files|] == files;
  }

  lemma ResolvesNext(file: seq<Binding>, j: nat)
    requires j < |file|
    ensures forall id: nat, p: nat :: Resolves([file[..j + 1]], id, p) <==>
      Resolves([file[..j]], id, p) || (file[j].id == id && file[j].member == p && (file[j].role.Tests? || file[j].role.Proves?))
  {
    assert file[..j + 1] == file[..j] + [file[j]];
    forall id: nat, p: nat ensures Resolves([file[..j + 1]], id, p) <==>
      Resolves([file[..j]], id, p) || (file[j].id == id && file[j].member == p && (file[j].role.Tests? || file[j].role.Proves?))
    {
      assert file[..j + 1] in [file[..j + 1]] && file[..j] in [file[..j]];
      assert file[j] in file[..j + 1];
      assert forall b :: b in file[..j] ==> b in file[..j + 1];
    }
  }

  lemma ResolvesFile(files: seq<seq<Binding>>, i: nat)
    requires i < |files|
    ensures forall id: nat, p: nat :: Resolves(files[..i + 1], id, p) <==> Resolves(files[..i], id, p) || Resolves([files[i][..|files[i]|]], id, p)
  {
    assert files[i][..|files[i]|] == files[i];
    assert files[..i + 1] == files[..i] + [files[i]];
    assert files[i] in [files[i]];
    forall f ensures f in files[..i + 1] <==> f in files[..i] || f == files[i] {
    }
  }

  method Pointers(run: Run) returns (ev: map<nat, Facts>, dangling: set<nat>)
    ensures forall id :: At(ev, id) == PointerFacts(DanglesAt(run, id))
    ensures forall id :: id in dangling <==> DanglesAt(run, id)
  {
    ev, dangling := map[], {};
    var members := Members(run.bindings);
    for i := 0 to |run.requirements|
      invariant forall id :: id in dangling <==> exists k :: 0 <= k < i && run.requirements[k].id == id && Dangles(run, run.requirements[k])
      invariant forall id :: At(ev, id) == PointerFacts(id in dangling)
    {
      var q := run.requirements[i];
      for j := 0 to |q.pointers|
        invariant forall id :: id in dangling <==>
          (exists k :: 0 <= k < i && run.requirements[k].id == id && Dangles(run, run.requirements[k]))
          || (id == q.id && exists k :: 0 <= k < j && !Resolves(run.bindings, q.id, q.pointers[k]))
        invariant forall id :: At(ev, id) == PointerFacts(id in dangling)
      {
        if (q.id, q.pointers[j]) !in members {
          ev := ev[q.id := At(ev, q.id) + {IsBroken, OtherRed, Noted}];
          dangling := dangling + {q.id};
        }
      }
    }
  }

  lemma ResultNext(run: Run, i: nat, id: nat)
    requires i < |run.results|
    ensures ResultFacts(run, run.results[..i + 1], id) == ResultFacts(run, run.results[..i], id) + Contribution(run, run.results[i], id)
  {
    hide Contribution;
  }

  lemma ClauseNext(run: Run, i: nat, id: nat, o: nat)
    requires i < |run.results|
    ensures ClauseFacts(run, run.results[..i + 1], id, o)
         == ClauseFacts(run, run.results[..i], id, o) + ClauseContribution(run, run.results[i], id, o)
  {
    hide ClauseContribution;
  }

  // The evidence after the first i results.
  ghost predicate Upto(run: Run, before: map<nat, Facts>, ev: map<nat, Facts>, clauseEv: map<(nat, nat), Facts>, i: nat)
    requires i <= |run.results|
  {
    && (forall id :: At(ev, id) == At(before, id) + ResultFacts(run, run.results[..i], id))
    && (forall id, o :: At(clauseEv, (id, o)) == ClauseFacts(run, run.results[..i], id, o))
  }

  // One result, granted to the whole requirement, to the clause it names, or to nothing.
  method AddResult(run: Run, ghost before: map<nat, Facts>, i: nat, ev: map<nat, Facts>, clauseEv: map<(nat, nat), Facts>)
    returns (ev': map<nat, Facts>, clauseEv': map<(nat, nat), Facts>)
    requires i < |run.results| && Upto(run, before, ev, clauseEv, i)
    ensures Upto(run, before, ev', clauseEv', i + 1)
  {
    hide *;
    var r := run.results[i];
    var red, granted := JudgeResult(run.witnessed, r);
    AddedUpto(run, before, i, ev, clauseEv);
    ev', clauseEv' := ev[r.id := At(ev, r.id) + red], clauseEv;
    if r.clause.Some? {
      var cell := (r.id, r.clause.value);
      clauseEv' := clauseEv[cell := At(clauseEv, cell) + granted];
    } else if !RequiresScope(ClausesOf(run.requirements, r.id), r.role, run.policy.allowWhole) {
      ev' := ev[r.id := At(ev, r.id) + red + granted];
    }
  }

  lemma AddedUpto(run: Run, before: map<nat, Facts>, i: nat, ev: map<nat, Facts>, clauseEv: map<(nat, nat), Facts>)
    requires i < |run.results| && Upto(run, before, ev, clauseEv, i)
    ensures var r := run.results[i];
      var red, granted := Shown(run.witnessed, r, REDS), Shown(run.witnessed, r, GRANTS);
      && (r.clause.Some? ==>
            Upto(run, before, ev[r.id := At(ev, r.id) + red], clauseEv[(r.id, r.clause.value) := At(clauseEv, (r.id, r.clause.value)) + granted], i + 1))
      && (r.clause.None? ==>
            if RequiresScope(ClausesOf(run.requirements, r.id), r.role, run.policy.allowWhole)
            then Upto(run, before, ev[r.id := At(ev, r.id) + red], clauseEv, i + 1)
            else Upto(run, before, ev[r.id := At(ev, r.id) + red + granted], clauseEv, i + 1))
  {
    hide Upto, Shown, RequiresScope, ClausesOf, ClauseContribution;
    var r := run.results[i];
    var red, granted := Shown(run.witnessed, r, REDS), Shown(run.witnessed, r, GRANTS);
    if r.clause.Some? {
      assert Contribution(run, r, r.id) == red;
    } else if GrantsWhole(run, r) {
      assert At(ev, r.id) + Contribution(run, r, r.id) == At(ev, r.id) + red + granted;
    } else {
      assert Contribution(run, r, r.id) == red;
    }
    EvidenceNext(run, before, i, ev, clauseEv);
  }

  lemma EvidenceNext(run: Run, before: map<nat, Facts>, i: nat, ev: map<nat, Facts>, clauseEv: map<(nat, nat), Facts>)
    requires i < |run.results| && Upto(run, before, ev, clauseEv, i)
    ensures var r := run.results[i];
      var ev' := ev[r.id := At(ev, r.id) + Contribution(run, r, r.id)];
      if r.clause.None? then Upto(run, before, ev', clauseEv, i + 1)
      else
        var cell := (r.id, r.clause.value);
        Upto(run, before, ev', clauseEv[cell := At(clauseEv, cell) + Shown(run.witnessed, r, GRANTS)], i + 1)
  {
    hide ResultFacts, ClauseFacts, Shown, Contribution, ClauseContribution;
    var r := run.results[i];
    ContributesTo(run, r);
    forall id ensures ResultFacts(run, run.results[..i + 1], id) == ResultFacts(run, run.results[..i], id) + Contribution(run, r, id) {
      ResultNext(run, i, id);
    }
    forall id, o ensures ClauseFacts(run, run.results[..i + 1], id, o) == ClauseFacts(run, run.results[..i], id, o) + ClauseContribution(run, r, id, o) {
      ClauseNext(run, i, id, o);
    }
  }

  lemma ContributesTo(run: Run, r: Result)
    ensures forall id :: id != r.id ==> Contribution(run, r, id) == {}
    ensures forall id: nat, o: nat :: r.clause != Some(o) || id != r.id ==> ClauseContribution(run, r, id, o) == {}
    ensures r.clause.Some? ==> ClauseContribution(run, r, r.id, r.clause.value) == Shown(run.witnessed, r, GRANTS)
  {
  }

  method Results(run: Run, before: map<nat, Facts>) returns (ev: map<nat, Facts>, clauseEv: map<(nat, nat), Facts>)
    ensures Upto(run, before, ev, clauseEv, |run.results|)
  {
    hide ResultFacts, ClauseFacts;
    ev, clauseEv := before, map[];
    NoResults(run);
    for i := 0 to |run.results|
      invariant Upto(run, before, ev, clauseEv, i)
    {
      ev, clauseEv := AddResult(run, before, i, ev, clauseEv);
    }
  }

  lemma NoResults(run: Run)
    ensures forall id :: ResultFacts(run, run.results[..0], id) == {}
    ensures forall id, o :: ClauseFacts(run, run.results[..0], id, o) == {}
  {
  }

  method Attestations(run: Run, before: map<nat, Facts>) returns (ev: map<nat, Facts>)
    ensures forall id :: At(ev, id) == At(before, id) + AttestationFacts(run.attestations, id)
  {
    hide AttestationFacts;
    ev := before;
    NoAttestations(run.attestations);
    for i := 0 to |run.attestations|
      invariant forall id :: At(ev, id) == At(before, id) + AttestationFacts(run.attestations[..i], id)
    {
      var a := run.attestations[i];
      AttestationNext(run.attestations, i);
      ev := ev[a.id := At(ev, a.id) + if a.pinned then {Vouched} else {IsStale, Noted}];
    }
    assert run.attestations[..|run.attestations|] == run.attestations;
  }

  lemma NoAttestations(atts: seq<Attestation>)
    ensures forall id :: AttestationFacts(atts[..0], id) == {}
  {
  }

  function Attests(a: Attestation, id: nat): Facts
  {
    if a.id != id then {} else if a.pinned then {Vouched} else {IsStale, Noted}
  }

  lemma AttestationNext(atts: seq<Attestation>, i: nat)
    requires i < |atts|
    ensures forall id :: AttestationFacts(atts[..i + 1], id) == AttestationFacts(atts[..i], id) + Attests(atts[i], id)
  {
  }

  // The evidence maps the loops above leave.
  ghost predicate Gathered(run: Run, ev: map<nat, Facts>, clauseEv: map<(nat, nat), Facts>)
  {
    && (forall id :: At(ev, id) == EvidenceOf(run, id))
    && (forall id, o :: At(clauseEv, (id, o)) == ClauseFacts(run, run.results, id, o))
  }

  // Whether every clause, and whether any, meets the policy: the whole's verdict without clauses.
  method MeetClauses(run: Run, q: Requirement, ev: map<nat, Facts>, clauseEv: map<(nat, nat), Facts>)
    returns (all: bool, any: bool)
    requires Gathered(run, ev, clauseEv)
    ensures all == AllMet(run, q) && any == AnyMet(run, q)
  {
    hide Satisfied, EvidenceOf, ClauseFacts;
    var e := At(ev, q.id);
    all, any := true, false;
    if q.clauses == [] {
      all := Satisfied(run.policy, q, e);
      any := all;
    } else {
      for i := 0 to |q.clauses|
        invariant all <==> forall k :: 0 <= k < i ==> MeetsClause(run, q, q.clauses[k].ordinal)
        invariant any <==> exists k :: 0 <= k < i && MeetsClause(run, q, q.clauses[k].ordinal)
      {
        if Satisfied(run.policy, q, Join(e, At(clauseEv, (q.id, q.clauses[i].ordinal)))) {
          any := true;
        } else {
          all := false;
        }
      }
    }
  }

  // The facts that bind a requirement are all some result's, attestation's or pointer's.
  lemma BoundByFacts(run: Run, id: nat)
    ensures EvidenceOf(run, id) != {} ==> Bound(run, id)
    ensures (exists a :: a in run.attestations && a.id == id) ==> Vouched in EvidenceOf(run, id) || IsStale in EvidenceOf(run, id)
    ensures DanglesAt(run, id) ==> IsBroken in EvidenceOf(run, id)
  {
  }

  method Bucketed(run: Run, q: Requirement, ev: map<nat, Facts>, clauseEv: map<(nat, nat), Facts>, boundIds: set<nat>)
    returns (b: Bucket)
    requires Gathered(run, ev, clauseEv)
    requires forall id :: id in boundIds <==> exists r :: r in run.results && r.id == id
    ensures b == BucketOf(run, q)
  {
    hide Satisfied, EvidenceOf, ClauseFacts, AllMet, AnyMet, DanglesAt;
    var e := At(ev, q.id);
    BoundByFacts(run, q.id);
    var bound := Noted in e || Witness(e) || Static in e || IsStale in e || IsBroken in e || Vouched in e || q.id in boundIds;
    var overridden := Overridden(run.policy, q);
    var all, any := MeetClauses(run, q, ev, clauseEv);
    if ExemptCell(run.policy, q) && !bound {
      b := Exempt;
    } else if !overridden && q.keyword.May? && !bound {
      b := Exempt;
    } else if IsBroken in e {
      b := Broken;
    } else if IsStale in e {
      b := Stale;
    } else if all {
      b := Covered;
    } else if Vouched in e && AdmitsAttestation(run.policy, q) {
      b := Attested;
    } else if any {
      b := Partial;
    } else {
      b := Uncovered;
    }
  }

  method BoundIds(results: seq<Result>) returns (ids: set<nat>)
    ensures forall id :: id in ids <==> exists r :: r in results && r.id == id
  {
    ids := {};
    for i := 0 to |results|
      invariant forall id :: id in ids <==> exists k :: 0 <= k < i && results[k].id == id
    {
      ids := ids + {results[i].id};
    }
  }

  // Every requirement's bucket, in corpus order.
  method BucketAll(run: Run, ev: map<nat, Facts>, clauseEv: map<(nat, nat), Facts>) returns (buckets: seq<Bucket>, byId: map<nat, Bucket>)
    requires Gathered(run, ev, clauseEv)
    ensures |buckets| == |run.requirements| && forall i :: 0 <= i < |buckets| ==> buckets[i] == BucketOf(run, run.requirements[i])
    ensures byId == Buckets(run, run.requirements)
  {
    hide Gathered, BucketOf;
    var boundIds := BoundIds(run.results);
    buckets, byId := [], map[];
    for i := 0 to |run.requirements|
      invariant |buckets| == i && forall k :: 0 <= k < i ==> buckets[k] == BucketOf(run, run.requirements[k])
      invariant byId == Buckets(run, run.requirements[..i])
    {
      var q := run.requirements[i];
      var b := Bucketed(run, q, ev, clauseEv, boundIds);
      assert run.requirements[..i + 1][..i] == run.requirements[..i];
      buckets, byId := buckets + [b], byId[q.id := b];
    }
    assert run.requirements[..|run.requirements|] == run.requirements;
  }

  function Listed(m: map<nat, set<Bucket>>, id: nat): set<Bucket>
  {
    if id in m then m[id] else {}
  }

  // The gaps' rows, and what they excuse.
  method JudgeGaps(run: Run, byId: map<nat, Bucket>) returns (rows: seq<GapRow>, gapped: set<nat>, excused: map<nat, set<Bucket>>)
    requires byId == Buckets(run, run.requirements)
    ensures |rows| == |run.gaps| && forall i :: 0 <= i < |rows| ==> rows[i] == GapRowOf(run, run.gaps[i])
    ensures forall id :: id in gapped <==> Gapped(run, id)
    ensures forall id :: Listed(excused, id) == Excused(run, id)
  {
    hide Drifted, ExcuseSet, ExcusedBy, StateOf, Buckets;
    var hashes := HashesOf(run.requirements);
    rows, gapped := [], {};
    var all: map<nat, set<Bucket>> := map[];
    var drifted: set<nat> := {};
    NoGaps(run);
    for i := 0 to |run.gaps|
      invariant |rows| == i && forall k :: 0 <= k < i ==> rows[k] == GapRowOf(run, run.gaps[k])
      invariant forall id :: id in gapped <==> exists k :: 0 <= k < i && run.gaps[k].id == id
      invariant forall id :: id in drifted <==> exists k :: 0 <= k < i && run.gaps[k].id == id && Drifted(run, run.gaps[k])
      invariant forall id :: Listed(all, id) == ExcusedBy(run, run.gaps[..i], id)
    {
      var g := run.gaps[i];
      gapped := gapped + {g.id};
      GapNext(run, i);
      ghost var before := all;
      if Drifted(run, g) {
        drifted := drifted + {g.id};
      } else {
        all := all[g.id := Listed(all, g.id) + ExcuseSet(g.excuses)];
      }
      forall id ensures Listed(all, id) == Excusing(run, g, id, Listed(before, id)) {
      }
      rows := rows + [GapRow(g.id, StateOf(byId, hashes, g), Drifted(run, g))];
    }
    assert run.gaps[..|run.gaps|] == run.gaps;
    excused := all - drifted;
  }

  lemma NoGaps(run: Run)
    ensures forall id :: ExcusedBy(run, run.gaps[..0], id) == {}
  {
  }

  lemma GapNext(run: Run, i: nat)
    requires i < |run.gaps|
    ensures forall id :: ExcusedBy(run, run.gaps[..i + 1], id) == Excusing(run, run.gaps[i], id, ExcusedBy(run, run.gaps[..i], id))
  {
  }

  function Excusing(run: Run, g: Gap, id: nat, before: set<Bucket>): set<Bucket>
  {
    if g.id != id || Drifted(run, g) then before else before + ExcuseSet(g.excuses)
  }

  // The gate over the rows: the boundary classes of each, and the violations.
  method JudgeRow(run: Run, q: Requirement, b: Bucket, e: Facts, dangles: bool, gapped: bool, excused: set<Bucket>)
    returns (row: Row, violates: bool)
    requires b == BucketOf(run, q) && e == EvidenceOf(run, q.id) && dangles == DanglesAt(run, q.id)
    requires gapped == Gapped(run, q.id) && excused == Excused(run, q.id)
    ensures row == RowOf(run, q) && violates == Violates(run, q)
  {
    hide BucketOf, EvidenceOf, DanglesAt, Gapped, Excused;
    row, violates := Row(q.id, b, false, false), false;
    if Red(b) {
      var classes := RedClasses(b, e);
      var undeclared := classes - excused;
      NoneLeft(classes, excused);
      var declaredStale := Stale in classes && Stale !in undeclared;
      row := row.(
        scopeBlocked := b.Broken? && BlockedOn(e, ScopeSkipped, OutsideSelection, declaredStale),
        selectionBlocked := b.Broken? && BlockedOn(e, OutsideSelection, ScopeSkipped, declaredStale));
      violates := dangles || !gapped || undeclared != {};
    }
  }

  lemma NoneLeft(classes: set<Bucket>, excused: set<Bucket>)
    ensures classes - excused == {} <==> classes <= excused
  {
    if classes - excused == {} {
      forall c | c in classes ensures c in excused {
        assert c !in classes - excused;
      }
    }
  }

  predicate Less(a: nat, b: nat)
  {
    a < b
  }

  // Evaluate: a row for every requirement and every gap, and the violations, sorted.
  method Evaluate(run: Run) returns (rep: Report)
    requires forall i, j :: 0 <= i < j < |run.requirements| ==> run.requirements[i].id != run.requirements[j].id
    ensures |rep.rows| == |run.requirements| && forall i :: 0 <= i < |rep.rows| ==> rep.rows[i] == RowOf(run, run.requirements[i])
    ensures |rep.gaps| == |run.gaps| && forall i :: 0 <= i < |rep.gaps| ==> rep.gaps[i] == GapRowOf(run, run.gaps[i])
    ensures forall i, j :: 0 <= i < j < |rep.violations| ==> rep.violations[i] < rep.violations[j]
    ensures forall id :: id in rep.violations <==> exists q :: q in run.requirements && q.id == id && Violates(run, q)
  {
    hide *;
    var ev, dangling := Pointers(run);
    ghost var pointed := ev;
    var clauseEv;
    ev, clauseEv := Results(run, ev);
    ghost var shown := ev;
    ev := Attestations(run, ev);
    AllGathered(run, pointed, shown, ev, clauseEv);
    var buckets, byId := BucketAll(run, ev, clauseEv);
    var gaps, gapped, excused := JudgeGaps(run, byId);
    var rows: seq<Row> := [];
    var red: seq<nat> := [];
    ghost var from: seq<nat> := [];
    for i := 0 to |run.requirements|
      invariant |rows| == i && forall k :: 0 <= k < i ==> rows[k] == RowOf(run, run.requirements[k])
      invariant |red| == |from|
      invariant forall k :: 0 <= k < |from| ==> from[k] < i && red[k] == run.requirements[from[k]].id && Violates(run, run.requirements[from[k]])
      invariant forall j, k :: 0 <= j < k < |from| ==> from[j] < from[k]
      invariant forall k :: 0 <= k < i && Violates(run, run.requirements[k]) ==> run.requirements[k].id in red
    {
      var q := run.requirements[i];
      var row, violates := JudgeRow(run, q, buckets[i], At(ev, q.id), q.id in dangling, q.id in gapped, Listed(excused, q.id));
      rows := rows + [row];
      if violates {
        red, from := red + [q.id], from + [i];
      }
    }
    LessIsStrictOrder(red);
    var violations := Ordering.Sort(Less, red);
    SameIds(red, violations);
    LessAscends(violations);
    rep := Report(rows, gaps, violations);
  }

  lemma LessAscends(s: seq<nat>)
    requires Ordering.Ascending(Less, s)
    ensures forall i, j :: 0 <= i < j < |s| ==> s[i] < s[j]
  {
  }

  lemma LessIsStrictOrder(s: seq<nat>)
    ensures Ordering.StrictOrder(Less) && Ordering.TotalOn(Less, Ordering.Elements(s))
  {
  }

  lemma SameIds(s: seq<nat>, t: seq<nat>)
    requires Ordering.Elements(s) == Ordering.Elements(t)
    ensures forall x :: x in s <==> x in t
  {
    assert forall x :: x in s <==> x in Ordering.Elements(s);
    assert forall x :: x in t <==> x in Ordering.Elements(t);
  }

  lemma AllGathered(run: Run, pointed: map<nat, Facts>, shown: map<nat, Facts>, ev: map<nat, Facts>, clauseEv: map<(nat, nat), Facts>)
    requires forall id :: At(pointed, id) == PointerFacts(DanglesAt(run, id))
    requires Upto(run, pointed, shown, clauseEv, |run.results|)
    requires forall id :: At(ev, id) == At(shown, id) + AttestationFacts(run.attestations, id)
    ensures Gathered(run, ev, clauseEv)
    ensures forall id :: At(ev, id) == EvidenceOf(run, id)
  {
  }

  // ----- what the ladder and the gate mean -----

  // A bound test of the requirement failed or has no outcome, or a bound symbol is gone or moved.
  ghost predicate SomeBroken(run: Run, id: nat)
  {
    exists r :: r in run.results && r.id == id &&
      (Moved(r) || (Executes(run.witnessed, r) && (r.outcome.Failed? || r.outcome.NotRun?)))
  }

  // A pin of the requirement's claims or attestations is not current, or a shape is not pinned.
  ghost predicate SomeStale(run: Run, id: nat)
  {
    (exists r :: r in run.results && r.id == id && Unpinned(r)) || exists a :: a in run.attestations && a.id == id && !a.pinned
  }

  ghost predicate SomeVouched(run: Run, id: nat)
  {
    exists a :: a in run.attestations && a.id == id && a.pinned
  }

  // Hygiene is reported first and whatever the policy: broken is broken, stale what is stale and
  // not broken; a row without either is green exactly when nothing is owed, every clause is met, or
  // a current attestation is admitted, and partial when some clause is met but not all.
  lemma LadderMeans(run: Run, q: Requirement)
    ensures var b := BucketOf(run, q);
      var hygiene := DanglesAt(run, q.id) || SomeBroken(run, q.id) || SomeStale(run, q.id);
      && (b.Broken? <==> DanglesAt(run, q.id) || SomeBroken(run, q.id))
      && (b.Stale? <==> !b.Broken? && SomeStale(run, q.id))
      && (!Red(b) <==> !hygiene && (Unclaimed(run, q) || AllMet(run, q) || (SomeVouched(run, q.id) && AdmitsAttestation(run.policy, q))))
      && (b.Partial? ==> q.clauses != [] && AnyMet(run, q) && !AllMet(run, q))
  {
    hide AllMet, AnyMet, Unclaimed, DanglesAt, ResultFacts;
    HygieneFacts(run, q.id);
    if Unclaimed(run, q) {
      UnclaimedIsBare(run, q);
    }
    assert q.clauses == [] ==> (AllMet(run, q) <==> AnyMet(run, q)) by { WholeOnce(run, q); }
  }

  lemma HygieneFacts(run: Run, id: nat)
    ensures IsBroken in ResultFacts(run, run.results, id) <==> SomeBroken(run, id)
    ensures IsStale in ResultFacts(run, run.results, id) <==> exists r :: r in run.results && r.id == id && Unpinned(r)
    ensures Vouched !in ResultFacts(run, run.results, id)
  {
    hide ResultFacts;
    RedFact(run, id, IsBroken);
    RedFact(run, id, IsStale);
    NeverVouched(run, id);
    if SomeBroken(run, id) {
      var r :| r in run.results && r.id == id && (Moved(r) || (Executes(run.witnessed, r) && (r.outcome.Failed? || r.outcome.NotRun?)));
      assert Shows(run.witnessed, r, IsBroken);
    }
  }

  lemma NeverVouched(run: Run, id: nat)
    ensures Vouched !in ResultFacts(run, run.results, id)
  {
    hide Shows, RequiresScope, ClausesOf;
  }

  lemma UnclaimedIsBare(run: Run, q: Requirement)
    requires Unclaimed(run, q)
    ensures !DanglesAt(run, q.id) && !SomeBroken(run, q.id) && !SomeStale(run, q.id)
  {
  }

  lemma WholeOnce(run: Run, q: Requirement)
    ensures q.clauses == [] ==> (AllMet(run, q) <==> AnyMet(run, q))
  {
  }

  // The requirement the corpus keeps under an identity.
  function RequirementOf(requirements: seq<Requirement>, id: nat): (q: Option<Requirement>)
    ensures q.Some? ==> q.value.id == id
  {
    if requirements == [] then None
    else
      var last := requirements[|requirements| - 1];
      if last.id == id then Some(last) else RequirementOf(requirements[..|requirements| - 1], id)
  }

  lemma {:induction false} BucketsAt(run: Run, requirements: seq<Requirement>, id: nat)
    ensures var q := RequirementOf(requirements, id);
      && (id in Buckets(run, requirements) <==> q.Some?)
      && (q.Some? ==> Buckets(run, requirements)[id] == BucketOf(run, q.value))
  {
    hide BucketOf;
    if requirements != [] {
      BucketsAt(run, requirements[..|requirements| - 1], id);
    }
  }

  // A gap of the requirement lists the class, or lists nothing where that means it.
  ghost predicate Lists(run: Run, id: nat, x: Excuse)
  {
    exists g :: g in run.gaps && g.id == id && (x in g.excuses || (x.ExcuseUncovered? && g.excuses == []))
  }

  // A gap of the requirement was declared against other text: its content is pinned, and neither that
  // pin nor a source pin is the text's the corpus keeps.
  ghost predicate SomeDrifted(run: Run, id: nat)
  {
    exists g :: g in run.gaps && g.id == id && DriftsFrom(g.pins, RequirementOf(run.requirements, id))
  }

  ghost predicate DriftsFrom(p: Consent.Pins, q: Option<Requirement>)
  {
    && p.content != Consent.UNSET
    && (q.Some? ==> p.content != q.value.text.content && (p.source == Consent.UNSET || p.source != q.value.text.source))
  }

  lemma {:induction false} HashesAt(requirements: seq<Requirement>, id: nat)
    ensures var q := RequirementOf(requirements, id);
      && (id in HashesOf(requirements) <==> q.Some?) && (q.Some? ==> HashesOf(requirements)[id] == q.value.text)
  {
    if requirements != [] {
      HashesAt(requirements[..|requirements| - 1], id);
    }
  }

  lemma DriftMeans(run: Run, id: nat)
    ensures Suspended(run, id) <==> SomeDrifted(run, id)
  {
    hide RequirementOf, HashesOf;
    HashesAt(run.requirements, id);
    forall g | g in run.gaps && g.id == id
      ensures Drifted(run, g) <==> DriftsFrom(g.pins, RequirementOf(run.requirements, id))
    {
    }
  }

  // The gate on the inputs. A red row passes exactly when nothing of it dangles, no gap of it has
  // drifted, and its gaps list what it is: broken if something is broken, stale if a pin is stale,
  // behind a broken row too, and uncovered if neither.
  lemma GateMeans(run: Run, q: Requirement)
    ensures var broken, stale := SomeBroken(run, q.id), SomeStale(run, q.id);
      Red(BucketOf(run, q)) && !Violates(run, q) <==>
        && Red(BucketOf(run, q)) && !DanglesAt(run, q.id) && !SomeDrifted(run, q.id)
        && (broken ==> Lists(run, q.id, ExcuseBroken)) && (stale ==> Lists(run, q.id, ExcuseStale))
        && (!broken && !stale ==> Lists(run, q.id, ExcuseUncovered))
  {
    hide BucketOf, EvidenceOf, DanglesAt, Drifted, ExcuseSet, SomeBroken, SomeStale, SomeDrifted, Lists;
    DriftMeans(run, q.id);
    LadderMeans(run, q);
    ListsMeans(run, q.id);
    StaleMeans(run, q.id);
    if !Suspended(run, q.id) {
      ExcusedMeans(run, q.id);
    }
    ListsGapped(run, q.id);
  }

  lemma StaleMeans(run: Run, id: nat)
    ensures IsStale in EvidenceOf(run, id) <==> SomeStale(run, id)
  {
    hide ResultFacts, DanglesAt;
    HygieneFacts(run, id);
  }

  lemma ListsGapped(run: Run, id: nat)
    ensures forall x :: Lists(run, id, x) ==> Gapped(run, id)
  {
  }

  // The classes some gap of the requirement declares.
  ghost predicate Declared(run: Run, id: nat, c: Bucket)
  {
    exists g :: g in run.gaps && g.id == id && c in ExcuseSet(g.excuses)
  }

  lemma ListsMeans(run: Run, id: nat)
    ensures Declared(run, id, Broken) <==> Lists(run, id, ExcuseBroken)
    ensures Declared(run, id, Stale) <==> Lists(run, id, ExcuseStale)
    ensures Declared(run, id, Uncovered) <==> Lists(run, id, ExcuseUncovered)
  {
  }

  lemma ExcusedMeans(run: Run, id: nat)
    requires !Suspended(run, id)
    ensures forall c :: c in Excused(run, id) <==> Declared(run, id, c)
  {
    hide Drifted, ExcuseSet;
  }

  // ----- what the policy asks -----

  // The evidence for the whole requirement, or for one clause of it.
  function EvidenceFor(run: Run, id: nat, o: Option<nat>): Facts
  {
    if o.None? then EvidenceOf(run, id) else Join(EvidenceOf(run, id), ClauseFacts(run, run.results, id, o.value))
  }

  ghost predicate Clauseless(run: Run, id: nat)
  {
    var q := RequirementOf(run.requirements, id);
    q.None? || q.value.clauses == []
  }

  lemma {:induction false} ClausesAt(requirements: seq<Requirement>, id: nat)
    ensures var q := RequirementOf(requirements, id); ClausesOf(requirements, id) == if q.Some? then q.value.clauses else []
  {
    if requirements != [] {
      ClausesAt(requirements[..|requirements| - 1], id);
    }
  }

  // A result of the requirement that speaks for the clause, or for the whole: scoped to it, or unscoped where the
  // policy, the role or a requirement without clauses lets a claim speak for the whole.
  ghost predicate SpeaksFor(run: Run, r: Result, id: nat, o: Option<nat>)
  {
    && r.id == id
    && ((o.Some? && r.clause == o)
        || (r.clause.None? && (run.policy.allowWhole || Clauseless(run, id) || !(r.role.Tests? || r.role.Proves?))))
  }

  // An executed, passing test of a current claim, of one of the classes; a proves claim is met by a
  // proof alone.
  predicate PassesAs(run: Run, r: Result, classes: set<WitnessClass>)
  {
    && run.witnessed && (r.role.Tests? || (r.role.Proves? && r.class_.AnalyzerProof?))
    && r.outcome.Passed? && r.pinned && r.resolution.Resolved? && r.class_ in classes
  }

  ghost predicate Passes(run: Run, id: nat, o: Option<nat>, classes: set<WitnessClass>)
  {
    exists r :: r in run.results && SpeaksFor(run, r, id, o) && PassesAs(run, r, classes)
  }

  // Any evidence at all: a passing test, or a claim resolved, pinned and of its pinned shape.
  ghost predicate AnyShown(run: Run, id: nat, o: Option<nat>)
  {
    || Passes(run, id, o, {ExampleWitness, PropertyWitness, AnalyzerProof})
    || Current(run, id, o)
  }

  ghost predicate Current(run: Run, id: nat, o: Option<nat>)
  {
    exists r :: r in run.results && SpeaksFor(run, r, id, o) && r.resolution.Resolved? && r.shape.ShapeMatch? && r.pinned
  }

  ghost predicate Granted(run: Run, id: nat, o: Option<nat>, x: Fact)
  {
    exists r :: r in run.results && SpeaksFor(run, r, id, o) && Shows(run.witnessed, r, x)
  }

  lemma SpokenFacts(run: Run, id: nat, o: Option<nat>)
    ensures var e := EvidenceFor(run, id, o);
      && (Example in e <==> Passes(run, id, o, {ExampleWitness}))
      && (Property in e <==> Passes(run, id, o, {PropertyWitness}))
      && (Proof in e <==> Passes(run, id, o, {AnalyzerProof}))
      && (Static in e <==> Current(run, id, o))
  {
    hide EvidenceOf, ClauseFacts, Granted, Passes, Current;
    WholeOrClause(run, id, o, Example);
    WholeOrClause(run, id, o, Property);
    WholeOrClause(run, id, o, Proof);
    WholeOrClause(run, id, o, Static);
    GrantedAs(run, id, o, Example, ExampleWitness);
    GrantedAs(run, id, o, Property, PropertyWitness);
    GrantedAs(run, id, o, Proof, AnalyzerProof);
    GrantedStatic(run, id, o);
  }

  lemma GrantedAs(run: Run, id: nat, o: Option<nat>, x: Fact, c: WitnessClass)
    requires (x, c) in {(Example, ExampleWitness), (Property, PropertyWitness), (Proof, AnalyzerProof)}
    ensures Granted(run, id, o, x) <==> Passes(run, id, o, {c})
  {
    hide SpeaksFor;
    forall r ensures Shows(run.witnessed, r, x) <==> PassesAs(run, r, {c}) {
    }
    if Passes(run, id, o, {c}) {
      var r :| r in run.results && SpeaksFor(run, r, id, o) && PassesAs(run, r, {c});
      assert Shows(run.witnessed, r, x);
    }
  }

  lemma GrantedStatic(run: Run, id: nat, o: Option<nat>)
    ensures Granted(run, id, o, Static) <==> Current(run, id, o)
  {
    hide SpeaksFor;
    if r :| r in run.results && SpeaksFor(run, r, id, o) && Shows(run.witnessed, r, Static) {
      assert r.resolution.Resolved?;
    }
    if Current(run, id, o) {
      var r :| r in run.results && SpeaksFor(run, r, id, o) && r.resolution.Resolved? && r.shape.ShapeMatch? && r.pinned;
      assert Shows(run.witnessed, r, Static);
    }
  }

  lemma WholeOrClause(run: Run, id: nat, o: Option<nat>, x: Fact)
    requires x in GRANTS
    ensures x in EvidenceFor(run, id, o) <==> Granted(run, id, o, x)
  {
    hide EvidenceOf, ClauseFacts, Shows, ClausesOf, RequirementOf;
    ClausesAt(run.requirements, id);
    InWhole(run, id, x);
    if o.Some? {
      InClause(run, id, o.value, x);
    }
    if Granted(run, id, o, x) {
      var r :| r in run.results && SpeaksFor(run, r, id, o) && Shows(run.witnessed, r, x);
      assert r.clause.None? ==> GrantsWhole(run, r);
    }
  }

  lemma InWhole(run: Run, id: nat, x: Fact)
    requires x in GRANTS
    ensures x in EvidenceOf(run, id) <==>
      exists r :: r in run.results && r.id == id && GrantsWhole(run, r) && Shows(run.witnessed, r, x)
  {
    hide Shows, DanglesAt, GrantsWhole;
    if r :| r in run.results && r.id == id && GrantsWhole(run, r) && Shows(run.witnessed, r, x) {
      assert x in Contribution(run, r, id);
    }
  }

  lemma InClause(run: Run, id: nat, ordinal: nat, x: Fact)
    requires x in GRANTS
    ensures x in ClauseFacts(run, run.results, id, ordinal) <==>
      exists r :: r in run.results && r.id == id && r.clause == Some(ordinal) && Shows(run.witnessed, r, x)
  {
    hide Shows;
    if r :| r in run.results && r.id == id && r.clause == Some(ordinal) && Shows(run.witnessed, r, x) {
      assert x in ClauseContribution(run, r, id, ordinal);
    }
  }

  // What the policy asks for the whole or for a clause. Without an override a MUST asks a passing
  // test of its kind: of a behaviour an example or a property, of an invariant a property or a proof,
  // of a structural one a proof, of the wire any; a SHOULD or a MAY asks any evidence. An override
  // asks what it names.
  ghost predicate Asked(run: Run, q: Requirement, o: Option<nat>)
  {
    var p := run.policy;
    var example := Passes(run, q.id, o, {ExampleWitness});
    var property := Passes(run, q.id, o, {PropertyWitness});
    var proof := Passes(run, q.id, o, {AnalyzerProof});
    var any := AnyShown(run, q.id, o);
    if (q.kind, q.keyword) in p.overrides then
      match p.overrides[(q.kind, q.keyword)]
      case NeedsProof => proof
      case NeedsProperty => property || proof
      case NeedsWitness => example || property
      case NeedsProofOrWitness => example || property || proof
      case NeedsStatic | NeedsAttestation => any
      case NeedsNothing => true
      case OtherMinimum => false
    else if q.keyword in {Must, MustNot} then
      match q.kind
      case Behavior => example || property
      case Invariant => property || proof
      case Structural => proof
      case Wire => example || property || proof
      case OtherKind => false
    else q.keyword in {Should, ShouldNot, May} && any
  }

  lemma AskedMeans(run: Run, q: Requirement, o: Option<nat>)
    ensures Satisfied(run.policy, q, EvidenceFor(run, q.id, o)) <==> Asked(run, q, o)
  {
    hide EvidenceFor, Passes, Current;
    SpokenFacts(run, q.id, o);
    AnyPasses(run, q.id, o);
  }

  // The policy on the inputs: met for the whole requirement, or for all of its clauses, or some.
  lemma PolicyMeans(run: Run, q: Requirement)
    ensures AllMet(run, q) <==>
      if q.clauses == [] then Asked(run, q, None) else forall c :: c in q.clauses ==> Asked(run, q, Some(c.ordinal))
    ensures AnyMet(run, q) <==>
      if q.clauses == [] then Asked(run, q, None) else exists c :: c in q.clauses && Asked(run, q, Some(c.ordinal))
  {
    hide Satisfied, Asked, EvidenceOf, ClauseFacts;
    AskedMeans(run, q, None);
    forall o: nat ensures MeetsClause(run, q, o) <==> Asked(run, q, Some(o)) {
      AskedMeans(run, q, Some(o));
    }
  }

  // Nothing names an unclaimed requirement, and an override exempts it, or none stands and it is a MAY.
  ghost predicate Unowed(run: Run, q: Requirement)
  {
    && (forall r :: r in run.results ==> r.id != q.id) && (forall a :: a in run.attestations ==> a.id != q.id)
    && !DanglesAt(run, q.id)
    && (if (q.kind, q.keyword) in run.policy.overrides then run.policy.overrides[(q.kind, q.keyword)].NeedsNothing? else q.keyword.May?)
  }

  // A current attestation stands where an override asks one, or none stands over a SHOULD.
  ghost predicate VouchedFor(run: Run, q: Requirement)
  {
    && SomeVouched(run, q.id)
    && (if (q.kind, q.keyword) in run.policy.overrides then run.policy.overrides[(q.kind, q.keyword)].NeedsAttestation?
        else q.keyword in {Should, ShouldNot})
  }

  // The bucket of every requirement, on the inputs.
  lemma BucketMeans(run: Run, q: Requirement)
    ensures var b := BucketOf(run, q);
      var broken, stale := DanglesAt(run, q.id) || SomeBroken(run, q.id), SomeStale(run, q.id);
      var all := if q.clauses == [] then Asked(run, q, None) else forall c :: c in q.clauses ==> Asked(run, q, Some(c.ordinal));
      var any := if q.clauses == [] then Asked(run, q, None) else exists c :: c in q.clauses && Asked(run, q, Some(c.ordinal));
      b == if Unowed(run, q) then Exempt
           else if broken then Broken
           else if stale then Stale
           else if all then Covered
           else if VouchedFor(run, q) then Attested
           else if any then Partial
           else Uncovered
  {
    hide AllMet, AnyMet, DanglesAt, EvidenceOf, Asked, SomeBroken, SomeStale;
    PolicyMeans(run, q);
    LadderMeans(run, q);
    VouchedMeans(run, q.id);
    StaleMeans(run, q.id);
    BrokenMeans(run, q.id);
  }

  lemma VouchedMeans(run: Run, id: nat)
    ensures Vouched in EvidenceOf(run, id) <==> SomeVouched(run, id)
  {
    hide ResultFacts, DanglesAt;
    NeverVouched(run, id);
  }

  lemma BrokenMeans(run: Run, id: nat)
    ensures IsBroken in EvidenceOf(run, id) <==> DanglesAt(run, id) || SomeBroken(run, id)
  {
    hide ResultFacts, DanglesAt;
    HygieneFacts(run, id);
  }

  lemma AnyPasses(run: Run, id: nat, o: Option<nat>)
    ensures Passes(run, id, o, {ExampleWitness, PropertyWitness, AnalyzerProof}) <==>
      Passes(run, id, o, {ExampleWitness}) || Passes(run, id, o, {PropertyWitness}) || Passes(run, id, o, {AnalyzerProof})
  {
    hide SpeaksFor;
    var all := {ExampleWitness, PropertyWitness, AnalyzerProof};
    forall r ensures PassesAs(run, r, all) <==>
      PassesAs(run, r, {ExampleWitness}) || PassesAs(run, r, {PropertyWitness}) || PassesAs(run, r, {AnalyzerProof})
    {
    }
  }

  // ----- the boundary classes on the inputs -----

  // A test of the requirement that the run did not execute, without a cause of its own.
  predicate LeftOut(run: Run, r: Result, outside: bool)
  {
    && Executes(run.witnessed, r) && r.outcome.NotRun? && r.outside == outside
    && (!outside ==> r.scopeSkipped && !r.cause)
  }

  // A red of a result that neither boundary explains.
  predicate RedAlone(run: Run, r: Result)
  {
    Moved(r) || (Executes(run.witnessed, r) &&
      (r.outcome.Failed?
       || (r.outcome.NotRun? && !LeftOut(run, r, true) && !LeftOut(run, r, false))
       || (r.outcome.Passed? && r.pinned && r.resolution.Resolved? && r.role.Proves? && !r.class_.AnalyzerProof?)))
  }

  // A row is blocked on a boundary exactly when some test of it is left out there, none on the other
  // boundary, nothing else of it is red, and its staleness, if any, a gap lists and no gap drifted.
  lemma BoundariesMean(run: Run, q: Requirement)
    ensures var row := RowOf(run, q);
      var atScope := exists r :: r in run.results && r.id == q.id && LeftOut(run, r, false);
      var atSelection := exists r :: r in run.results && r.id == q.id && LeftOut(run, r, true);
      var otherwise := DanglesAt(run, q.id) || exists r :: r in run.results && r.id == q.id && RedAlone(run, r);
      var declared := SomeStale(run, q.id) ==> Lists(run, q.id, ExcuseStale) && !SomeDrifted(run, q.id);
      && (row.scopeBlocked <==> atScope && !atSelection && !otherwise && declared)
      && (row.selectionBlocked <==> atSelection && !atScope && !otherwise && declared)
  {
    hide SomeBroken, SomeStale, DanglesAt, Lists, SomeDrifted, ResultFacts, BucketOf, Excused, LeftOut, RedAlone;
    LadderMeans(run, q);
    StaleMeans(run, q.id);
    DriftMeans(run, q.id);
    ListsMeans(run, q.id);
    ExcusedWhenNone(run, q.id);
    RedFact(run, q.id, ScopeSkipped);
    RedFact(run, q.id, OutsideSelection);
    RedFact(run, q.id, OtherRed);
    LeftOutBreaks(run, q.id);
    ShownBoundaries(run, q.id, ScopeSkipped);
    ShownBoundaries(run, q.id, OutsideSelection);
    ShownBoundaries(run, q.id, OtherRed);
  }

  lemma ExcusedWhenNone(run: Run, id: nat)
    ensures Stale in Excused(run, id) <==> !Suspended(run, id) && Declared(run, id, Stale)
  {
    hide Drifted, ExcuseSet;
    if !Suspended(run, id) {
      ExcusedMeans(run, id);
    }
  }

  lemma LeftOutBreaks(run: Run, id: nat)
    ensures (exists r, b :: r in run.results && r.id == id && LeftOut(run, r, b)) ==> SomeBroken(run, id)
  {
  }

  // What each of the three red facts is on a result.
  predicate Reads(run: Run, r: Result, x: Fact)
  {
    match x
    case ScopeSkipped => LeftOut(run, r, false)
    case OutsideSelection => LeftOut(run, r, true)
    case _ => RedAlone(run, r)
  }

  lemma ShownBoundaries(run: Run, id: nat, x: Fact)
    requires x in {ScopeSkipped, OutsideSelection, OtherRed}
    ensures SomeShows(run, id, x) <==> exists r :: r in run.results && r.id == id && Reads(run, r, x)
  {
    hide Shows, Reads;
    forall r ensures Shows(run.witnessed, r, x) <==> Reads(run, r, x) {
      BoundaryKinds(run, r, x);
    }
    if r :| r in run.results && r.id == id && Reads(run, r, x) {
      var i :| 0 <= i < |run.results| && run.results[i] == r;
      assert Shows(run.witnessed, run.results[i], x);
    }
  }

  lemma BoundaryKinds(run: Run, r: Result, x: Fact)
    requires x in {ScopeSkipped, OutsideSelection, OtherRed}
    ensures Shows(run.witnessed, r, x) <==> Reads(run, r, x)
  {
  }

  // ----- when a gap ends -----

  // A gap's condition on the corpus and its rows.
  ghost predicate ConditionMet(run: Run, l: Landing)
  {
    match l
    case NoLanding => false
    case CoveredBy(id) =>
      var q := RequirementOf(run.requirements, id); q.Some? && BucketOf(run, q.value).Covered?
    case Exists(id) => RequirementOf(run.requirements, id).Some?
    case Manual(fired) => fired
  }

  // A gap is resolved once its requirement is covered, a manual one once it has fired too, and on an
  // exempt requirement once its condition is met; it is due when its condition is met and it is not
  // resolved.
  lemma GapLifecycle(run: Run, g: Gap)
    ensures var q, met := RequirementOf(run.requirements, g.id), ConditionMet(run, g.lands);
      var resolved := q.Some? &&
        ((BucketOf(run, q.value).Covered? && (g.lands.Manual? ==> met)) || (BucketOf(run, q.value).Exempt? && met));
      && (GapRowOf(run, g).state.Landed? <==> resolved)
      && (GapRowOf(run, g).state.Due? <==> met && !resolved)
      && (GapRowOf(run, g).drifted <==> DriftsFrom(g.pins, q))
  {
    hide BucketOf, RequirementOf, HashesOf, Buckets;
    BucketsAt(run, run.requirements, g.id);
    HashesAt(run.requirements, g.id);
    if g.lands.CoveredBy? {
      BucketsAt(run, run.requirements, g.lands.id);
    } else if g.lands.Exists? {
      HashesAt(run.requirements, g.lands.id);
    }
  }

  // ----- order does not matter -----

  // The same inputs, the results, binding files, attestations and gaps each in any order.
  ghost predicate Reordered(a: Run, b: Run)
  {
    && a.requirements == b.requirements && a.witnessed == b.witnessed && a.policy == b.policy
    && multiset(a.results) == multiset(b.results) && multiset(a.bindings) == multiset(b.bindings)
    && multiset(a.attestations) == multiset(b.attestations) && multiset(a.gaps) == multiset(b.gaps)
  }

  lemma SameMembers<T>(s: seq<T>, t: seq<T>)
    requires multiset(s) == multiset(t)
    ensures forall x :: x in s <==> x in t
  {
    forall x ensures x in s <==> x in t {
      assert x in s <==> x in multiset(s);
      assert x in t <==> x in multiset(t);
    }
  }

  // No row, no violation and no gap's row depends on the order of results, files or gap records.
  lemma OrderIrrelevant(a: Run, b: Run, q: Requirement, g: Gap)
    requires Reordered(a, b)
    ensures RowOf(a, q) == RowOf(b, q) && (Violates(a, q) <==> Violates(b, q)) && GapRowOf(a, g) == GapRowOf(b, g)
  {
    hide *;
    SameInputs(a, b);
    SameEvidence(a, b);
    forall p: Requirement ensures BucketOf(a, p) == BucketOf(b, p) {
      SameBucket(a, b, p);
    }
    SameBuckets(a, b, a.requirements);
    SameExcuses(a, b, q.id);
    SameRows(a, b, q, g);
  }

  ghost predicate SameSets(a: Run, b: Run)
  {
    && a.requirements == b.requirements && a.witnessed == b.witnessed && a.policy == b.policy
    && (forall r :: r in a.results <==> r in b.results) && (forall f :: f in a.bindings <==> f in b.bindings)
    && (forall t :: t in a.attestations <==> t in b.attestations) && (forall g :: g in a.gaps <==> g in b.gaps)
  }

  lemma SameInputs(a: Run, b: Run)
    requires Reordered(a, b)
    ensures SameSets(a, b)
  {
    SameMembers(a.results, b.results);
    SameMembers(a.bindings, b.bindings);
    SameMembers(a.attestations, b.attestations);
    SameMembers(a.gaps, b.gaps);
  }

  lemma SameEvidence(a: Run, b: Run)
    requires SameSets(a, b)
    ensures forall id :: EvidenceOf(a, id) == EvidenceOf(b, id)
    ensures forall id, o :: ClauseFacts(a, a.results, id, o) == ClauseFacts(b, b.results, id, o)
    ensures forall id :: (Bound(a, id) <==> Bound(b, id)) && (DanglesAt(a, id) <==> DanglesAt(b, id))
  {
    hide Shown, RequiresScope, ClausesOf;
    forall id: nat, p: nat ensures Resolves(a.bindings, id, p) <==> Resolves(b.bindings, id, p) {
    }
    forall id: nat, r ensures Contribution(a, r, id) == Contribution(b, r, id) {
    }
    forall id: nat ensures DanglesAt(a, id) <==> DanglesAt(b, id) {
    }
    forall id: nat ensures ResultFacts(a, a.results, id) == ResultFacts(b, b.results, id) {
    }
    forall id: nat, o: nat ensures ClauseFacts(a, a.results, id, o) == ClauseFacts(b, b.results, id, o) {
      assert forall r :: ClauseContribution(a, r, id, o) == ClauseContribution(b, r, id, o);
    }
    forall id: nat ensures AttestationFacts(a.attestations, id) == AttestationFacts(b.attestations, id) {
    }
  }

  lemma SameBucket(a: Run, b: Run, q: Requirement)
    requires a.policy == b.policy && EvidenceOf(a, q.id) == EvidenceOf(b, q.id)
    requires forall o :: ClauseFacts(a, a.results, q.id, o) == ClauseFacts(b, b.results, q.id, o)
    requires Bound(a, q.id) <==> Bound(b, q.id)
    ensures BucketOf(a, q) == BucketOf(b, q)
  {
  }

  lemma {:induction false} SameBuckets(a: Run, b: Run, requirements: seq<Requirement>)
    requires forall q: Requirement :: BucketOf(a, q) == BucketOf(b, q)
    ensures Buckets(a, requirements) == Buckets(b, requirements)
  {
    hide BucketOf;
    if requirements != [] {
      SameBuckets(a, b, requirements[..|requirements| - 1]);
    }
  }

  lemma SameExcuses(a: Run, b: Run, id: nat)
    requires SameSets(a, b)
    ensures Excused(a, id) == Excused(b, id) && (Gapped(a, id) <==> Gapped(b, id))
    ensures forall g :: Drifted(a, g) <==> Drifted(b, g)
  {
  }

  lemma SameRows(a: Run, b: Run, q: Requirement, g: Gap)
    requires a.requirements == b.requirements
    requires BucketOf(a, q) == BucketOf(b, q) && EvidenceOf(a, q.id) == EvidenceOf(b, q.id)
    requires Excused(a, q.id) == Excused(b, q.id) && (Gapped(a, q.id) <==> Gapped(b, q.id))
    requires DanglesAt(a, q.id) <==> DanglesAt(b, q.id)
    requires (Drifted(a, g) <==> Drifted(b, g)) && Buckets(a, a.requirements) == Buckets(b, a.requirements)
    ensures RowOf(a, q) == RowOf(b, q) && (Violates(a, q) <==> Violates(b, q)) && GapRowOf(a, g) == GapRowOf(b, g)
  {
  }

  // ----- the boundary classes -----

  // The run in which every test the caller's scope left unexecuted was skipped instead.
  function Unscoped(run: Run): Run
  {
    run.(results := seq(|run.results|, i requires 0 <= i < |run.results| => Unskip(run.witnessed, run.results[i])))
  }

  function Unskip(witnessed: bool, r: Result): Result
  {
    if Shows(witnessed, r, ScopeSkipped) then r.(outcome := Skipped) else r
  }

  // A row red solely on the scope boundary is not broken once that boundary is gone, and what
  // staleness is left a current gap declares: it is no violation.
  lemma ScopeBlockedIsScopeOnly(run: Run, q: Requirement)
    requires RowOf(run, q).scopeBlocked
    ensures var b := BucketOf(Unscoped(run), q);
      !b.Broken? && (b.Stale? ==> !Violates(Unscoped(run), q))
  {
    hide ResultFacts, DanglesAt, Excused, Gapped, Unscoped, AllMet, AnyMet, Unclaimed;
    UnscopedStands(run, q.id, IsStale);
    UnscopedBroken(run, q.id);
    UnscopedGaps(run, q.id);
  }

  lemma UnscopedGaps(run: Run, id: nat)
    ensures var after := Unscoped(run);
      && Excused(after, id) == Excused(run, id) && (DanglesAt(after, id) <==> DanglesAt(run, id))
      && after.attestations == run.attestations && (Excused(after, id) != {} ==> Gapped(after, id))
  {
  }

  // Only the scope facts, and the brokenness they alone carry, go.
  lemma UnskippedShows(witnessed: bool, r: Result, x: Fact)
    ensures x in {IsStale, OtherRed, OutsideSelection} ==> (Shows(witnessed, Unskip(witnessed, r), x) <==> Shows(witnessed, r, x))
    ensures Shows(witnessed, Unskip(witnessed, r), IsBroken) ==> Shows(witnessed, r, OtherRed) || Shows(witnessed, r, OutsideSelection)
  {
  }

  // A red fact of the results is one some result of the requirement shows.
  ghost predicate SomeShows(run: Run, id: nat, x: Fact)
  {
    exists i :: 0 <= i < |run.results| && run.results[i].id == id && Shows(run.witnessed, run.results[i], x)
  }

  lemma RedFact(run: Run, id: nat, x: Fact)
    requires x in REDS
    ensures x in ResultFacts(run, run.results, id) <==> SomeShows(run, id, x)
  {
    hide Shows, GrantsWhole;
    if SomeShows(run, id, x) {
      var i :| 0 <= i < |run.results| && run.results[i].id == id && Shows(run.witnessed, run.results[i], x);
      assert run.results[i] in run.results && x in Contribution(run, run.results[i], id);
    }
  }

  lemma UnscopedStands(run: Run, id: nat, x: Fact)
    requires x in {IsStale, OtherRed, OutsideSelection}
    ensures x in ResultFacts(Unscoped(run), Unscoped(run).results, id) <==> x in ResultFacts(run, run.results, id)
  {
    hide Shows, ResultFacts;
    var after := Unscoped(run);
    RedFact(run, id, x);
    RedFact(after, id, x);
    forall i | 0 <= i < |run.results| ensures Shows(run.witnessed, after.results[i], x) <==> Shows(run.witnessed, run.results[i], x) {
      UnskippedShows(run.witnessed, run.results[i], x);
    }
  }

  lemma UnscopedBroken(run: Run, id: nat)
    ensures IsBroken in ResultFacts(Unscoped(run), Unscoped(run).results, id) ==>
      OtherRed in ResultFacts(run, run.results, id) || OutsideSelection in ResultFacts(run, run.results, id)
  {
    hide Shows, ResultFacts;
    var after := Unscoped(run);
    RedFact(after, id, IsBroken);
    RedFact(run, id, OtherRed);
    RedFact(run, id, OutsideSelection);
    if SomeShows(after, id, IsBroken) {
      var i :| 0 <= i < |after.results| && after.results[i].id == id && Shows(after.witnessed, after.results[i], IsBroken);
      UnskippedShows(run.witnessed, run.results[i], IsBroken);
    }
  }

  // ----- adding a result -----

  // A result that shows nothing red.
  predicate Clean(witnessed: bool, r: Result)
  {
    && r.pinned && r.resolution.Resolved? && r.shape.ShapeMatch?
    && (Executes(witnessed, r) ==> r.outcome.Passed? && (r.role.Proves? ==> r.class_.AnalyzerProof?))
  }

  function Added(run: Run, r: Result): Run
  {
    run.(results := run.results + [r])
  }

  // The grants of a whole and of its clauses after one more result.
  lemma AddedFacts(run: Run, r: Result, id: nat, ordinal: nat)
    ensures EvidenceOf(Added(run, r), id) == EvidenceOf(run, id) + Contribution(run, r, id)
    ensures ClauseFacts(Added(run, r), Added(run, r).results, id, ordinal) ==
      ClauseFacts(run, run.results, id, ordinal) + ClauseContribution(run, r, id, ordinal)
    ensures Bound(Added(run, r), id) <==> Bound(run, id) || r.id == id
  {
    hide Shown, RequiresScope, ClausesOf;
    var after := Added(run, r);
    assert forall q :: Dangles(after, q) <==> Dangles(run, q);
    assert forall x :: x in after.results <==> x in run.results || x == r;
    assert forall x :: Contribution(after, x, id) == Contribution(run, x, id);
    assert forall x :: ClauseContribution(after, x, id, ordinal) == ClauseContribution(run, x, id, ordinal);
  }

  lemma CleanShows(witnessed: bool, r: Result)
    requires Clean(witnessed, r)
    ensures Shown(witnessed, r, REDS) == {} && Static in Shown(witnessed, r, GRANTS)
  {
  }

  // More grants never unmeet the policy.
  lemma SatisfiedMore(policy: Policy, q: Requirement, e: Facts, more: Facts)
    requires Satisfied(policy, q, e) && e <= more
    ensures Satisfied(policy, q, more)
  {
  }

  // A clean result on a requirement that is not exempt turns no green row red and adds no violation.
  lemma CleanNeverHurts(run: Run, r: Result, q: Requirement)
    requires Clean(run.witnessed, r) && !BucketOf(run, q).Exempt?
    ensures Red(BucketOf(Added(run, r), q)) ==> Red(BucketOf(run, q))
    ensures Violates(Added(run, r), q) ==> Violates(run, q)
  {
    hide Satisfied, EvidenceOf, Bound, Gapped, Excused, DanglesAt;
    AddedReds(run, r, q.id);
    AddedMeets(run, r, q);
    AddedFacts(run, r, q.id, 0);
    AddedGaps(run, r, q.id);
  }

  lemma AddedGaps(run: Run, r: Result, id: nat)
    ensures Excused(Added(run, r), id) == Excused(run, id) && (Gapped(Added(run, r), id) <==> Gapped(run, id))
    ensures DanglesAt(Added(run, r), id) <==> DanglesAt(run, id)
  {
  }

  lemma AddedReds(run: Run, r: Result, id: nat)
    requires Clean(run.witnessed, r)
    ensures forall x :: x in REDS + {Vouched} ==> (x in EvidenceOf(Added(run, r), id) <==> x in EvidenceOf(run, id))
  {
    hide EvidenceOf, Shows, GrantsWhole;
    AddedFacts(run, r, id, 0);
    CleanShows(run.witnessed, r);
  }

  lemma AddedMeets(run: Run, r: Result, q: Requirement)
    ensures AllMet(run, q) ==> AllMet(Added(run, r), q)
    ensures AnyMet(run, q) ==> AnyMet(Added(run, r), q)
  {
    hide Satisfied, EvidenceOf, ClauseFacts, Contribution, ClauseContribution;
    AddedFacts(run, r, q.id, 0);
    forall o | MeetsClause(run, q, o) ensures MeetsClause(Added(run, r), q, o) {
      AddedFacts(run, r, q.id, o);
      SatisfiedMore(run.policy, q, ClauseEvidence(run, q, o), ClauseEvidence(Added(run, r), q, o));
    }
    if Satisfied(run.policy, q, EvidenceOf(run, q.id)) {
      SatisfiedMore(run.policy, q, EvidenceOf(run, q.id), EvidenceOf(Added(run, r), q.id));
    }
  }

  // A grant scoped to one clause reaches no other clause and not the whole.
  lemma ScopedGrantStays(run: Run, r: Result, id: nat, ordinal: nat)
    requires r.clause.Some? && (r.id != id || r.clause.value != ordinal)
    ensures ClauseFacts(Added(run, r), Added(run, r).results, id, ordinal) == ClauseFacts(run, run.results, id, ordinal)
    ensures EvidenceOf(Added(run, r), id) * GRANTS == EvidenceOf(run, id) * GRANTS
  {
    hide EvidenceOf, ClauseFacts;
    AddedFacts(run, r, id, ordinal);
  }

  // What meets the policy for the whole requirement meets it for every clause.
  lemma WholeMeetsEveryClause(run: Run, q: Requirement)
    requires Satisfied(run.policy, q, EvidenceOf(run, q.id))
    ensures AllMet(run, q) && AnyMet(run, q)
  {
    hide Satisfied, EvidenceOf, ClauseFacts;
    forall o: nat ensures MeetsClause(run, q, o) {
      SatisfiedMore(run.policy, q, EvidenceOf(run, q.id), ClauseEvidence(run, q, o));
    }
    if q.clauses != [] {
      assert q.clauses[0] in q.clauses;
    }
  }

  // The manifest does not exempt the cell, the claim grants nothing to the whole, and the requirement
  // has no clause or one the claim does not name.
  ghost predicate Reddens(run: Run, r: Result, q: Requirement)
  {
    && !ExemptCell(run.policy, q) && !GrantsWhole(run, r)
    && !(q.clauses != [] && forall c :: c in q.clauses ==> r.clause == Some(c.ordinal))
  }

  // An exempt requirement is another matter: unclaimed, it owes nothing; claimed, it is judged.
  // A clean claim turns it red exactly when its cell is not exempted by the manifest and its grant
  // leaves some clause, or a requirement without the named clause, unmet.
  lemma CleanClaimOnExempt(run: Run, r: Result, q: Requirement)
    requires Clean(run.witnessed, r) && BucketOf(run, q).Exempt? && r.id == q.id
    ensures Red(BucketOf(Added(run, r), q)) <==> Reddens(run, r, q)
    ensures Red(BucketOf(Added(run, r), q)) || BucketOf(Added(run, r), q).Covered?
  {
    hide EvidenceOf, Bound, ClauseFacts, Shown, RequiresScope;
    var after := Added(run, r);
    AddedFacts(run, r, q.id, 0);
    NothingKnown(run, q.id);
    CleanShows(run.witnessed, r);
    ShownAmong(run.witnessed, r);
    forall o: nat ensures MeetsClause(after, q, o) <==> ExemptCell(run.policy, q) || GrantsWhole(run, r) || r.clause == Some(o) {
      AddedFacts(run, r, q.id, o);
    }
  }

  // One such: an unclaimed MAY of two clauses is exempt and passes; a passing, current test of its
  // first clause makes it partial, and it fails the gate.
  lemma ExemptTurnsRed(first: Clause, second: Clause, r: Result)
    requires first.ordinal != second.ordinal
    requires r.clause == Some(first.ordinal) && Clean(true, r) && r.role.Tests? && r.outcome.Passed? && !r.class_.AnalyzerProof?
    ensures var q := Requirement(r.id, Behavior, May, [first, second], [], Consent.Surface(1, 1));
      var run := Run([q], [], [], [], [], true, Policy(map[], true));
      && BucketOf(run, q).Exempt? && !Violates(run, q)
      && BucketOf(Added(run, r), q).Partial? && Violates(Added(run, r), q)
  {
    hide EvidenceOf, ClauseFacts, DanglesAt, Shown;
    var q := Requirement(r.id, Behavior, May, [first, second], [], Consent.Surface(1, 1));
    var run := Run([q], [], [], [], [], true, Policy(map[], true));
    assert !DanglesAt(run, r.id) by { NoPointers(run, r.id); }
    CleanClaimOnExempt(run, r, q);
    assert second in q.clauses && first in q.clauses;
    AddedFacts(run, r, q.id, first.ordinal);
    AddedGaps(run, r, q.id);
    CleanShows(true, r);
    AddedReds(run, r, q.id);
    NothingKnown(run, q.id);
    assert MeetsClause(Added(run, r), q, first.ordinal);
  }

  lemma NoPointers(run: Run, id: nat)
    requires forall q :: q in run.requirements ==> q.pointers == []
    ensures !DanglesAt(run, id)
  {
  }

  lemma ShownAmong(witnessed: bool, r: Result)
    ensures Shown(witnessed, r, GRANTS) <= GRANTS
  {
  }

  // An unbound requirement has no evidence at all.
  lemma NothingKnown(run: Run, id: nat)
    requires !Bound(run, id)
    ensures EvidenceOf(run, id) == {} && forall o :: ClauseFacts(run, run.results, id, o) == {}
  {
  }

  // ----- gaps as evidence is added -----

  // What a clean result does to a bucket: elsewhere nothing; what is covered stays so; and an exempt
  // requirement it claims is covered or turns red.
  lemma CleanBucket(run: Run, r: Result, q: Requirement)
    requires Clean(run.witnessed, r)
    ensures q.id != r.id ==> BucketOf(Added(run, r), q) == BucketOf(run, q)
    ensures BucketOf(run, q).Covered? ==> BucketOf(Added(run, r), q).Covered?
    ensures q.id == r.id ==> !BucketOf(Added(run, r), q).Exempt?
    ensures q.id == r.id && BucketOf(run, q).Exempt? ==> (BucketOf(Added(run, r), q).Covered? <==> !Reddens(run, r, q))
  {
    hide EvidenceOf, ClauseFacts, DanglesAt, Satisfied, AllMet, AnyMet, Reddens;
    AddedFacts(run, r, q.id, 0);
    if q.id != r.id {
      forall o ensures ClauseFacts(Added(run, r), Added(run, r).results, q.id, o) == ClauseFacts(run, run.results, q.id, o) {
        AddedFacts(run, r, q.id, o);
      }
      assert Contribution(run, r, q.id) == {};
      SameBucket(run, Added(run, r), q);
    } else {
      AddedReds(run, r, q.id);
      AddedMeets(run, r, q);
      assert r in Added(run, r).results;
      if BucketOf(run, q).Exempt? {
        CleanClaimOnExempt(run, r, q);
      }
    }
  }

  function Rank(s: GapState): nat
  {
    match s
    case Open => 0
    case Due => 1
    case Landed => 2
  }

  // Evidence moves a gap on, from open to due to resolved and never back, with one exception that is
  // exact: the resolved gap of an exempt requirement, its condition met, falls due again when a
  // clean claim on that very requirement turns it red.
  lemma CleanMovesGapsOn(run: Run, r: Result, g: Gap)
    requires Clean(run.witnessed, r)
    ensures var q := RequirementOf(run.requirements, g.id);
      Rank(GapRowOf(Added(run, r), g).state) < Rank(GapRowOf(run, g).state) <==>
        && q.Some? && g.id == r.id && BucketOf(run, q.value).Exempt? && Reddens(run, r, q.value)
        && Lands(Buckets(run, run.requirements), HashesOf(run.requirements), g.lands)
  {
    hide BucketOf, Reddens, Buckets, HashesOf, RequirementOf;
    var after := Added(run, r);
    BucketsAt(run, run.requirements, g.id);
    BucketsAt(after, run.requirements, g.id);
    if g.lands.CoveredBy? {
      var other := RequirementOf(run.requirements, g.lands.id);
      BucketsAt(run, run.requirements, g.lands.id);
      BucketsAt(after, run.requirements, g.lands.id);
      if other.Some? {
        CleanBucket(run, r, other.value);
      }
    }
    var q := RequirementOf(run.requirements, g.id);
    if q.Some? {
      CleanBucket(run, r, q.value);
    }
  }
}
