/** Self-contained spec closures (internal/bundle/bundle.go): the requested requirements, what
    their typed edges reach, and what the notes and annotations of the sections so entered refer
    to, to a fixed point.

    Requirement identifiers, lower-cased term names and section keys are compared for equality
    alone, so numbers stand for them. */
module Bundle {
  import Ordering

  type Section = nat

  // The section key of a node the corpus does not declare: an absent location's.
  const NO_SECTION: Section := 0

  datatype Node = Req(id: nat) | Term(name: nat)

  datatype EdgeKind = Unspecified | Reference | UsesTerm | Refines | Depends | Supersedes

  datatype Edge = Edge(from: Node, to: Node, kind: EdgeKind)

  // A note or an annotation: where it stands and what it refers to.
  datatype Block = Block(section: Section, references: seq<Node>)

  datatype Spec = Spec(
    requirements: map<nat, Section>,
    terms: map<nat, Section>,
    edges: seq<Edge>,
    notes: seq<Block>,
    annotations: seq<Block>)

  datatype Result = Unknown(id: nat) | Ok(bundle: Spec)

  // A superseded requirement is history: the closure does not follow that edge, nor one of no kind.
  predicate InClosure(kind: EdgeKind)
  {
    kind.UsesTerm? || kind.Reference? || kind.Refines? || kind.Depends?
  }

  // The sections a node enters: an undeclared term enters none.
  function Sections(spec: Spec, n: Node): set<Section>
  {
    match n
    case Req(id) => {if id in spec.requirements then spec.requirements[id] else NO_SECTION}
    case Term(name) => if name in spec.terms then {spec.terms[name]} else {}
  }

  // ----- the closure a bundle is -----

  ghost predicate EdgeStep(spec: Spec, x: Node, y: Node)
  {
    exists e :: e in spec.edges && InClosure(e.kind) && e.from == x && e.to == y
  }

  ghost predicate BlockStep(spec: Spec, x: Node, y: Node)
  {
    exists b :: b in spec.notes + spec.annotations && b.section in Sections(spec, x) && y in b.references
  }

  ghost predicate Step(spec: Spec, x: Node, y: Node)
  {
    EdgeStep(spec, x, y) || BlockStep(spec, x, y)
  }

  ghost predicate IsPath(spec: Spec, path: seq<Node>)
  {
    path != [] && forall i :: 0 <= i < |path| - 1 ==> Step(spec, path[i], path[i + 1])
  }

  ghost predicate Reachable(spec: Spec, roots: set<Node>, y: Node)
  {
    exists path :: IsPath(spec, path) && path[0] in roots && path[|path| - 1] == y
  }

  ghost predicate Closed(spec: Spec, nodes: set<Node>)
  {
    forall x, y :: x in nodes && Step(spec, x, y) ==> y in nodes
  }

  lemma RootReachable(spec: Spec, roots: set<Node>, x: Node)
    requires x in roots
    ensures Reachable(spec, roots, x)
  {
    assert IsPath(spec, [x]);
    assert [x][0] in roots && [x][|[x]| - 1] == x;
  }

  lemma StepReachable(spec: Spec, roots: set<Node>, x: Node, y: Node)
    requires Reachable(spec, roots, x) && Step(spec, x, y)
    ensures Reachable(spec, roots, y)
  {
    var path :| IsPath(spec, path) && path[0] in roots && path[|path| - 1] == x;
    var longer := path + [y];
    assert IsPath(spec, longer);
    assert longer[0] in roots && longer[|longer| - 1] == y;
  }

  // A closed set holding the start of a path holds the whole of it.
  lemma {:induction false} PathStays(spec: Spec, nodes: set<Node>, path: seq<Node>, i: nat)
    requires Closed(spec, nodes) && IsPath(spec, path) && path[0] in nodes && i < |path|
    ensures path[i] in nodes
  {
    if i > 0 {
      PathStays(spec, nodes, path, i - 1);
      assert Step(spec, path[i - 1], path[i - 1 + 1]);
    }
  }

  lemma ReachableStays(spec: Spec, roots: set<Node>, nodes: set<Node>, y: Node)
    requires Closed(spec, nodes) && roots <= nodes && Reachable(spec, roots, y)
    ensures y in nodes
  {
    var path :| IsPath(spec, path) && path[0] in roots && path[|path| - 1] == y;
    PathStays(spec, nodes, path, |path| - 1);
  }

  // Every node a run can meet.
  function Mentioned(blocks: seq<Block>): set<Node>
  {
    if blocks == [] then {} else Ordering.Elements(blocks[0].references) + Mentioned(blocks[1..])
  }

  function Targets(edges: seq<Edge>): set<Node>
  {
    set e | e in edges :: e.to
  }

  function Universe(spec: Spec, roots: set<Node>): set<Node>
  {
    roots + Targets(spec.edges) + Mentioned(spec.notes + spec.annotations)
  }

  lemma {:induction false} MentionedHas(blocks: seq<Block>, b: Block, y: Node)
    requires b in blocks && y in b.references
    ensures y in Mentioned(blocks)
  {
    if b != blocks[0] {
      MentionedHas(blocks[1..], b, y);
    }
  }

  lemma StepInUniverse(spec: Spec, roots: set<Node>, x: Node, y: Node)
    requires Step(spec, x, y)
    ensures y in Universe(spec, roots)
  {
    if BlockStep(spec, x, y) {
      var b :| b in spec.notes + spec.annotations && b.section in Sections(spec, x) && y in b.references;
      MentionedHas(spec.notes + spec.annotations, b, y);
    }
  }

  // The nodes reachable from the roots.
  ghost function Closure(spec: Spec, roots: set<Node>): (nodes: set<Node>)
    ensures forall y :: y in nodes <==> Reachable(spec, roots, y)
  {
    assert forall y :: Reachable(spec, roots, y) ==> y in Universe(spec, roots) by {
      forall y | Reachable(spec, roots, y) ensures y in Universe(spec, roots) {
        var path :| IsPath(spec, path) && path[0] in roots && path[|path| - 1] == y;
        if |path| > 1 {
          assert Step(spec, path[|path| - 2], path[|path| - 2 + 1]);
          StepInUniverse(spec, roots, path[|path| - 2], y);
        }
      }
    }
    set y | y in Universe(spec, roots) && Reachable(spec, roots, y)
  }

  // ----- the bundle of a closure -----

  function ActiveSections(spec: Spec, nodes: set<Node>): set<Section>
  {
    set n, s | n in nodes && s in Sections(spec, n) :: s
  }

  function KeepBlocks(blocks: seq<Block>, sections: set<Section>): (kept: seq<Block>)
    ensures forall b :: b in kept <==> b in blocks && b.section in sections
  {
    if blocks == [] then []
    else (if blocks[0].section in sections then [blocks[0]] else []) + KeepBlocks(blocks[1..], sections)
  }

  function KeepEdges(edges: seq<Edge>, nodes: set<Node>): (kept: seq<Edge>)
    ensures forall e :: e in kept <==> e in edges && e.from in nodes && e.to in nodes
  {
    if edges == [] then []
    else (if edges[0].from in nodes && edges[0].to in nodes then [edges[0]] else []) + KeepEdges(edges[1..], nodes)
  }

  function BundleOf(spec: Spec, nodes: set<Node>): Spec
  {
    Spec(
      map id | id in spec.requirements && Req(id) in nodes :: spec.requirements[id],
      map name | name in spec.terms && Term(name) in nodes :: spec.terms[name],
      KeepEdges(spec.edges, nodes),
      KeepBlocks(spec.notes, ActiveSections(spec, nodes)),
      KeepBlocks(spec.annotations, ActiveSections(spec, nodes)))
  }

  function Roots(ids: seq<nat>): set<Node>
  {
    set id | id in ids :: Req(id)
  }

  // ----- the computation -----

  function Successors(edges: seq<Edge>, x: Node): (out: seq<Node>)
    ensures forall y :: y in out <==> exists e :: e in edges && InClosure(e.kind) && e.from == x && e.to == y
  {
    if edges == [] then []
    else
      (if InClosure(edges[0].kind) && edges[0].from == x then [edges[0].to] else []) + Successors(edges[1..], x)
  }

  // The fixed point under way: everything met is reachable, and what the included nodes' edges
  // reach is included or queued.
  ghost predicate Stands(spec: Spec, roots: set<Node>, included: set<Node>, queue: seq<Node>)
  {
    && (forall y :: y in included || y in queue ==> Reachable(spec, roots, y) && y in Universe(spec, roots))
    && (forall y :: y in roots ==> y in included || y in queue)
    && (forall x, y :: x in included && EdgeStep(spec, x, y) ==> y in included || y in queue)
  }

  method Compute(spec: Spec, ids: seq<nat>) returns (r: Result)
    ensures r.Unknown? ==> r.id in ids && r.id !in spec.requirements
    ensures r.Ok? ==> forall id :: id in ids ==> id in spec.requirements
    ensures r.Ok? ==> r.bundle == BundleOf(spec, Closure(spec, Roots(ids)))
  {
    var queue: seq<Node> := [];
    for i := 0 to |ids|
      invariant forall id :: id in ids[..i] ==> id in spec.requirements
      invariant forall n :: n in queue <==> n.Req? && n.id in ids[..i]
    {
      if ids[i] !in spec.requirements {
        return Unknown(ids[i]);
      }
      queue := queue + [Req(ids[i])];
    }
    assert ids[..|ids|] == ids;
    var included := Close(spec, queue, Roots(ids));
    return Ok(BundleOf(spec, included));
  }

  method Close(spec: Spec, start: seq<Node>, ghost roots: set<Node>) returns (included: set<Node>)
    requires forall n :: n in start <==> n in roots
    ensures included == Closure(spec, roots)
  {
    hide Stands, Universe, Closure, BlockStep, EdgeStep, Reachable;
    var queue := start;
    included := {};
    StartStands(spec, roots, start);
    var grew := true;
    while grew
      invariant Stands(spec, roots, included, queue)
      invariant !grew ==> queue == [] && forall x, y :: x in included && BlockStep(spec, x, y) ==> y in included
      decreases |Universe(spec, roots) - included|, grew, if exists n :: n in queue && n !in included then 0 else 1
    {
      ghost var before, pending := included, queue;
      StandsInside(spec, roots, included, queue);
      included := Drain(spec, included, queue, roots);
      queue := References(spec, included, roots);
      grew := queue != [];
      Progress(Universe(spec, roots), before, included);
      assert grew ==> queue[0] in queue && queue[0] !in included;
    }
    Finished(spec, roots, included);
  }

  lemma StartStands(spec: Spec, roots: set<Node>, start: seq<Node>)
    requires forall n :: n in start <==> n in roots
    ensures Stands(spec, roots, {}, start)
  {
    forall y | y in start ensures Reachable(spec, roots, y) {
      RootReachable(spec, roots, y);
    }
  }

  lemma Finished(spec: Spec, roots: set<Node>, included: set<Node>)
    requires Stands(spec, roots, included, [])
    requires forall x, y :: x in included && BlockStep(spec, x, y) ==> y in included
    ensures included == Closure(spec, roots)
  {
    hide Reachable, EdgeStep, BlockStep, Universe;
    forall y | y in Closure(spec, roots) ensures y in included {
      ReachableStays(spec, roots, included, y);
    }
  }

  lemma Progress(universe: set<Node>, before: set<Node>, after: set<Node>)
    requires before <= after
    ensures |universe - after| <= |universe - before|
    ensures (exists n :: n in universe && n in after && n !in before) ==> |universe - after| < |universe - before|
  {
    var less, more := universe - after, universe - before;
    assert more == less + (more - less);
    if n :| n in universe && n in after && n !in before {
      assert n in more - less;
    }
  }

  lemma PopKnown(spec: Spec, roots: set<Node>, included: set<Node>, n: Node, rest: seq<Node>)
    requires Stands(spec, roots, included, [n] + rest) && n in included
    ensures Stands(spec, roots, included, rest)
  {
  }

  lemma PopNew(spec: Spec, roots: set<Node>, included: set<Node>, n: Node, rest: seq<Node>)
    requires Stands(spec, roots, included, [n] + rest)
    ensures Stands(spec, roots, included + {n}, rest + Successors(spec.edges, n))
  {
    hide Reachable, Universe;
    assert forall y :: y in [n] + rest <==> y == n || y in rest;
    forall y | y in Successors(spec.edges, n) ensures Reachable(spec, roots, y) && y in Universe(spec, roots) {
      assert EdgeStep(spec, n, y);
      StepReachable(spec, roots, n, y);
      StepInUniverse(spec, roots, n, y);
    }
  }

  lemma Push(spec: Spec, roots: set<Node>, included: set<Node>, queue: seq<Node>, x: Node, y: Node)
    requires Stands(spec, roots, included, queue) && x in included && Step(spec, x, y)
    ensures Stands(spec, roots, included, queue + [y])
  {
    hide Reachable, EdgeStep, BlockStep, Universe;
    StepReachable(spec, roots, x, y);
    StepInUniverse(spec, roots, x, y);
    assert forall z :: z in queue + [y] <==> z in queue || z == y;
  }

  // The queue run empty: every node it reaches over closure edges included.
  method Drain(spec: Spec, start: set<Node>, pending: seq<Node>, ghost roots: set<Node>) returns (included: set<Node>)
    requires Stands(spec, roots, start, pending)
    ensures Stands(spec, roots, included, []) && start <= included
    ensures forall n :: n in pending ==> n in included
  {
    hide Stands, Universe, Successors;
    var queue := pending;
    included := start;
    while queue != []
      invariant Stands(spec, roots, included, queue) && start <= included
      invariant forall n :: n in pending ==> n in included || n in queue
      decreases |Universe(spec, roots) - included|, |queue|
    {
      var n := queue[0];
      assert queue == [n] + queue[1..];
      assert forall y :: y in queue <==> y == n || y in queue[1..];
      if n in included {
        PopKnown(spec, roots, included, n, queue[1..]);
        queue := queue[1..];
      } else {
        PopNew(spec, roots, included, n, queue[1..]);
        StandsInside(spec, roots, included, queue);
        Progress(Universe(spec, roots), included, included + {n});
        included := included + {n};
        queue := queue[1..] + Successors(spec.edges, n);
      }
    }
  }

  lemma StandsInside(spec: Spec, roots: set<Node>, included: set<Node>, queue: seq<Node>)
    requires Stands(spec, roots, included, queue)
    ensures forall y :: y in queue ==> y in Universe(spec, roots)
  {
  }

  // The references of the entered sections' notes and annotations not yet included.
  method References(spec: Spec, included: set<Node>, ghost roots: set<Node>) returns (queue: seq<Node>)
    requires Stands(spec, roots, included, [])
    ensures Stands(spec, roots, included, queue)
    ensures forall n :: n in queue ==> n !in included
    ensures queue == [] ==> forall x, y :: x in included && BlockStep(spec, x, y) ==> y in included
  {
    hide Stands, ActiveSections;
    var sections := ActiveSections(spec, included);
    var blocks := KeepBlocks(spec.notes, sections) + KeepBlocks(spec.annotations, sections);
    queue := [];
    for i := 0 to |blocks|
      invariant Stands(spec, roots, included, queue)
      invariant forall n :: n in queue ==> n !in included
      invariant forall b, y :: b in blocks[..i] && y in b.references ==> y in included || y in queue
    {
      assert blocks[i] in blocks;
      assert blocks[..i + 1] == blocks[..i] + [blocks[i]];
      queue := AddReferences(spec, included, blocks[i], queue, roots);
    }
    assert blocks[..|blocks|] == blocks;
    NoneMissing(spec, included, blocks, queue);
  }

  lemma NoneMissing(spec: Spec, included: set<Node>, blocks: seq<Block>, queue: seq<Node>)
    requires forall b :: b in blocks <==> b in spec.notes + spec.annotations && b.section in ActiveSections(spec, included)
    requires forall b, y :: b in blocks && y in b.references ==> y in included || y in queue
    ensures queue == [] ==> forall x, y :: x in included && BlockStep(spec, x, y) ==> y in included
  {
  }

  method AddReferences(spec: Spec, included: set<Node>, b: Block, start: seq<Node>, ghost roots: set<Node>) returns (queue: seq<Node>)
    requires Stands(spec, roots, included, start) && (forall n :: n in start ==> n !in included)
    requires b in spec.notes + spec.annotations && b.section in ActiveSections(spec, included)
    ensures Stands(spec, roots, included, queue)
    ensures forall n :: n in start ==> n in queue
    ensures forall n :: n in queue ==> n !in included
    ensures forall y :: y in b.references ==> y in included || y in queue
  {
    hide Stands, BlockStep;
    queue := start;
    ghost var x :| x in included && b.section in Sections(spec, x);
    for i := 0 to |b.references|
      invariant Stands(spec, roots, included, queue)
      invariant forall n :: n in start ==> n in queue
      invariant forall n :: n in queue ==> n !in included
      invariant forall y :: y in b.references[..i] ==> y in included || y in queue
    {
      var y := b.references[i];
      assert b.references[..i + 1] == b.references[..i] + [y];
      if y !in included {
        BlockStepBy(spec, x, b, y);
        Push(spec, roots, included, queue, x, y);
        queue := queue + [y];
      }
    }
    assert b.references[..|b.references|] == b.references;
  }

  lemma BlockStepBy(spec: Spec, x: Node, b: Block, y: Node)
    requires b in spec.notes + spec.annotations && b.section in Sections(spec, x) && y in b.references
    ensures Step(spec, x, y)
  {
  }

  // ----- what a bundle is -----

  // Asking for what a bundle already includes adds nothing.
  lemma ClosureIdempotent(spec: Spec, roots: set<Node>)
    ensures Closure(spec, Closure(spec, roots)) == Closure(spec, roots)
    ensures Closed(spec, Closure(spec, roots)) && roots <= Closure(spec, roots)
  {
    var nodes := Closure(spec, roots);
    forall x, y | x in nodes && Step(spec, x, y) ensures y in nodes {
      StepReachable(spec, roots, x, y);
    }
    forall x | x in roots ensures x in nodes {
      RootReachable(spec, roots, x);
    }
    forall y ensures y in Closure(spec, nodes) <==> y in nodes {
      if y in Closure(spec, nodes) { ReachableStays(spec, nodes, nodes, y); }
      if y in nodes { RootReachable(spec, nodes, y); }
    }
  }

  // The bundle of a union of requests is the union of their bundles.
  lemma ClosureDistributes(spec: Spec, a: set<Node>, b: set<Node>)
    ensures Closure(spec, a + b) == Closure(spec, a) + Closure(spec, b)
  {
  }

  // The closure is the least closed set holding the request.
  lemma ClosureIsLeast(spec: Spec, roots: set<Node>, nodes: set<Node>)
    requires Closed(spec, nodes) && roots <= nodes
    ensures Closure(spec, roots) <= nodes
  {
    forall y | y in Closure(spec, roots) ensures y in nodes {
      ReachableStays(spec, roots, nodes, y);
    }
  }

  predicate Declared(spec: Spec, n: Node)
  {
    match n
    case Req(id) => id in spec.requirements
    case Term(name) => name in spec.terms
  }

  // Every reference of a note or an annotation, and both ends of every edge, are declared.
  ghost predicate Resolves(spec: Spec)
  {
    && (forall b, y :: b in spec.notes + spec.annotations && y in b.references ==> Declared(spec, y))
    && (forall e :: e in spec.edges ==> Declared(spec, e.from) && Declared(spec, e.to))
  }

  // Nothing in a bundle dangles that did not dangle in the corpus: whatever its notes, annotations
  // and edges name is declared in the bundle exactly when the corpus declares it, an included
  // node's closure edges come with it, and the bundle of a corpus that resolves resolves.
  lemma SelfContained(spec: Spec, roots: set<Node>)
    ensures var out := BundleOf(spec, Closure(spec, roots));
      && (forall b, y :: b in out.notes + out.annotations && y in b.references ==> (Declared(out, y) <==> Declared(spec, y)))
      && (forall e :: e in out.edges ==> (Declared(out, e.from) <==> Declared(spec, e.from)) && (Declared(out, e.to) <==> Declared(spec, e.to)))
      && (forall e :: e in spec.edges && InClosure(e.kind) && e.from in Closure(spec, roots) ==> e in out.edges)
      && (Resolves(spec) ==> Resolves(out))
  {
    hide Closure, Reachable, BundleOf;
    var nodes := Closure(spec, roots);
    var out := BundleOf(spec, nodes);
    ClosureIdempotent(spec, roots);
    ReferencesResolve(spec, nodes);
    EdgesResolve(spec, nodes);
    forall y | y in nodes ensures Declared(out, y) <==> Declared(spec, y) {
      DeclaredInside(spec, nodes, y);
    }
  }

  lemma DeclaredInside(spec: Spec, nodes: set<Node>, y: Node)
    requires y in nodes
    ensures Declared(BundleOf(spec, nodes), y) <==> Declared(spec, y)
  {
  }

  lemma ReferencesResolve(spec: Spec, nodes: set<Node>)
    requires Closed(spec, nodes)
    ensures var out := BundleOf(spec, nodes);
      && (forall b, y :: b in out.notes + out.annotations && y in b.references ==> y in nodes)
      && (forall b :: b in out.notes + out.annotations ==> b in spec.notes + spec.annotations)
      && (forall e :: e in out.edges ==> e in spec.edges && e.from in nodes && e.to in nodes)
  {
  }

  lemma EdgesResolve(spec: Spec, nodes: set<Node>)
    requires Closed(spec, nodes)
    ensures forall e :: e in spec.edges && InClosure(e.kind) && e.from in nodes ==> e in BundleOf(spec, nodes).edges
  {
  }

  // ----- a bundle on the corpus alone -----

  // A section a node stands in: a requirement the corpus does not declare stands in the absent one.
  predicate StandsIn(spec: Spec, n: Node, s: Section)
  {
    match n
    case Req(id) => (id in spec.requirements && spec.requirements[id] == s) || (id !in spec.requirements && s == NO_SECTION)
    case Term(name) => name in spec.terms && spec.terms[name] == s
  }

  // x brings y along: by an edge that uses it as a term, refers to it, refines it or depends on it,
  // or by a note or an annotation of x's section that refers to it.
  ghost predicate Brings(spec: Spec, x: Node, y: Node)
  {
    || (exists e :: e in spec.edges && e.kind in {UsesTerm, Reference, Refines, Depends} && e.from == x && e.to == y)
    || (exists b :: (b in spec.notes || b in spec.annotations) && StandsIn(spec, x, b.section) && y in b.references)
  }

  ghost predicate Whole(spec: Spec, ids: seq<nat>, nodes: set<Node>)
  {
    && (forall id :: id in ids ==> Req(id) in nodes)
    && forall x, y :: x in nodes && Brings(spec, x, y) ==> y in nodes
  }

  // The corpus cut to some nodes: their declarations, the edges between them, and the notes and
  // annotations of the sections they stand in.
  ghost predicate Cut(spec: Spec, nodes: set<Node>, out: Spec)
  {
    && (forall id :: id in out.requirements <==> id in spec.requirements && Req(id) in nodes)
    && (forall id :: id in out.requirements ==> out.requirements[id] == spec.requirements[id])
    && (forall name :: name in out.terms <==> name in spec.terms && Term(name) in nodes)
    && (forall name :: name in out.terms ==> out.terms[name] == spec.terms[name])
    && (forall e :: e in out.edges <==> e in spec.edges && e.from in nodes && e.to in nodes)
    && (forall b :: b in out.notes <==> b in spec.notes && Entered(spec, nodes, b.section))
    && (forall b :: b in out.annotations <==> b in spec.annotations && Entered(spec, nodes, b.section))
  }

  ghost predicate Entered(spec: Spec, nodes: set<Node>, s: Section)
  {
    exists x :: x in nodes && StandsIn(spec, x, s)
  }

  lemma SectionsMean(spec: Spec, n: Node, s: Section)
    ensures s in Sections(spec, n) <==> StandsIn(spec, n, s)
  {
  }

  lemma StepsBring(spec: Spec, x: Node, y: Node)
    ensures Step(spec, x, y) <==> Brings(spec, x, y)
  {
    hide Sections, StandsIn;
    forall s ensures s in Sections(spec, x) <==> StandsIn(spec, x, s) {
      SectionsMean(spec, x, s);
    }
    EdgesBring(spec, x, y);
  }

  lemma EdgesBring(spec: Spec, x: Node, y: Node)
    ensures EdgeStep(spec, x, y) <==>
      exists e :: e in spec.edges && e.kind in {UsesTerm, Reference, Refines, Depends} && e.from == x && e.to == y
  {
  }

  lemma ActiveMeans(spec: Spec, nodes: set<Node>, s: Section)
    ensures s in ActiveSections(spec, nodes) <==> Entered(spec, nodes, s)
  {
    hide Sections, StandsIn;
    forall x ensures s in Sections(spec, x) <==> StandsIn(spec, x, s) {
      SectionsMean(spec, x, s);
    }
  }

  // A bundle is the corpus cut to the least nodes that hold the request and everything they bring.
  lemma BundleMeans(spec: Spec, ids: seq<nat>)
    ensures var nodes := Closure(spec, Roots(ids));
      && Whole(spec, ids, nodes) && (forall more :: Whole(spec, ids, more) ==> nodes <= more)
      && Cut(spec, nodes, BundleOf(spec, nodes))
  {
    hide Closure, Reachable, Step, Brings, StandsIn, Sections, ActiveSections;
    var nodes := Closure(spec, Roots(ids));
    forall x, y ensures Step(spec, x, y) <==> Brings(spec, x, y) {
      StepsBring(spec, x, y);
    }
    ClosureIdempotent(spec, Roots(ids));
    RootsMean(ids);
    forall more | Whole(spec, ids, more) ensures nodes <= more {
      ClosureIsLeast(spec, Roots(ids), more);
    }
    forall s ensures s in ActiveSections(spec, nodes) <==> Entered(spec, nodes, s) {
      ActiveMeans(spec, nodes, s);
    }
  }

  lemma RootsMean(ids: seq<nat>)
    ensures forall id :: id in ids <==> Req(id) in Roots(ids)
    ensures forall x :: x in Roots(ids) ==> x.Req? && x.id in ids
  {
  }

  // An included node's term uses, references, refinements and dependencies are declared in the
  // bundle wherever the corpus declares them.
  lemma EdgesByKind(spec: Spec, ids: seq<nat>, e: Edge)
    requires e in spec.edges && e.kind in {UsesTerm, Reference, Refines, Depends}
    requires e.from in Closure(spec, Roots(ids))
    ensures var out := BundleOf(spec, Closure(spec, Roots(ids))); e in out.edges && (Declared(out, e.to) <==> Declared(spec, e.to))
  {
    hide Closure, BundleOf, Roots;
    BundleMeans(spec, ids);
    assert Brings(spec, e.from, e.to);
  }

  // And nothing comes along by superseding: a corpus with no other edges, no notes and no
  // annotations is bundled to the requirements asked for.
  lemma SupersededIsLeft(spec: Spec, ids: seq<nat>)
    requires spec.notes == [] && spec.annotations == []
    requires forall e :: e in spec.edges ==> e.kind.Supersedes? || e.kind.Unspecified?
    requires forall id :: id in ids ==> id in spec.requirements
    ensures var out := BundleOf(spec, Closure(spec, Roots(ids)));
      && (forall id :: id in out.requirements <==> id in ids) && out.terms == map[]
      && (forall e :: e in out.edges <==> e in spec.edges && e.from.Req? && e.to.Req? && e.from.id in ids && e.to.id in ids)
  {
    hide Closure, BundleOf, StandsIn, Roots;
    BundleMeans(spec, ids);
    RootsMean(ids);
    assert Whole(spec, ids, Roots(ids));
  }

  lemma SameSections(spec: Spec, nodes: set<Node>, x: Node)
    requires x in nodes
    ensures Sections(BundleOf(spec, nodes), x) == Sections(spec, x)
  {
  }

  lemma SameSteps(spec: Spec, nodes: set<Node>, x: Node, y: Node)
    requires Closed(spec, nodes) && x in nodes
    ensures Step(BundleOf(spec, nodes), x, y) <==> Step(spec, x, y)
  {
  }

  lemma {:induction false} PathSurvives(spec: Spec, nodes: set<Node>, roots: set<Node>, path: seq<Node>, i: nat)
    requires Closed(spec, nodes) && roots <= nodes
    requires IsPath(spec, path) && path[0] in roots && i < |path|
    ensures Reachable(BundleOf(spec, nodes), roots, path[i])
  {
    hide Closed, Reachable, Step, BundleOf;
    var out := BundleOf(spec, nodes);
    if i == 0 {
      RootReachable(out, roots, path[0]);
    } else {
      PathSurvives(spec, nodes, roots, path, i - 1);
      PathStays(spec, nodes, path, i - 1);
      assert Step(spec, path[i - 1], path[i - 1 + 1]);
      SameSteps(spec, nodes, path[i - 1], path[i]);
      StepReachable(out, roots, path[i - 1], path[i]);
    }
  }

  lemma SameClosure(spec: Spec, roots: set<Node>)
    ensures Closure(BundleOf(spec, Closure(spec, roots)), roots) == Closure(spec, roots)
  {
    hide Closure, Step, BundleOf, Reachable, Closed;
    var nodes := Closure(spec, roots);
    var out := BundleOf(spec, nodes);
    ClosureIdempotent(spec, roots);
    forall y | y in nodes ensures y in Closure(out, roots) {
      StillReachable(spec, nodes, roots, y);
    }
    StillClosed(spec, nodes);
    ClosureIsLeast(out, roots, nodes);
  }

  lemma StillReachable(spec: Spec, nodes: set<Node>, roots: set<Node>, y: Node)
    requires Closed(spec, nodes) && roots <= nodes && Reachable(spec, roots, y)
    ensures Reachable(BundleOf(spec, nodes), roots, y)
  {
    hide Closed, Step, BundleOf;
    var path :| IsPath(spec, path) && path[0] in roots && path[|path| - 1] == y;
    PathSurvives(spec, nodes, roots, path, |path| - 1);
  }

  lemma StillClosed(spec: Spec, nodes: set<Node>)
    requires Closed(spec, nodes)
    ensures Closed(BundleOf(spec, nodes), nodes)
  {
    hide Step, BundleOf;
    forall x, y | x in nodes && Step(BundleOf(spec, nodes), x, y) ensures y in nodes {
      SameSteps(spec, nodes, x, y);
    }
  }

  lemma {:induction false} KeepAll(blocks: seq<Block>, sections: set<Section>)
    requires forall b :: b in blocks ==> b.section in sections
    ensures KeepBlocks(blocks, sections) == blocks
  {
    if blocks != [] {
      KeepAll(blocks[1..], sections);
    }
  }

  lemma {:induction false} KeepAllEdges(edges: seq<Edge>, nodes: set<Node>)
    requires forall e :: e in edges ==> e.from in nodes && e.to in nodes
    ensures KeepEdges(edges, nodes) == edges
  {
    if edges != [] {
      KeepAllEdges(edges[1..], nodes);
    }
  }

  // A bundle is a corpus of its own: computed over it, the same request gives it back whole.
  lemma BundleOfItself(spec: Spec, ids: seq<nat>)
    ensures var out := BundleOf(spec, Closure(spec, Roots(ids)));
      BundleOf(out, Closure(out, Roots(ids))) == out
  {
    hide Closure, Reachable;
    SameClosure(spec, Roots(ids));
    BundleTwice(spec, Closure(spec, Roots(ids)));
  }

  lemma BundleTwice(spec: Spec, nodes: set<Node>)
    ensures BundleOf(BundleOf(spec, nodes), nodes) == BundleOf(spec, nodes)
  {
    var out := BundleOf(spec, nodes);
    SameActive(spec, nodes);
    KeepAll(out.notes, ActiveSections(spec, nodes));
    KeepAll(out.annotations, ActiveSections(spec, nodes));
    KeepAllEdges(out.edges, nodes);
    hide ActiveSections, KeepBlocks, KeepEdges;
    var again := BundleOf(out, nodes);
    assert again.requirements == out.requirements && again.terms == out.terms;
  }

  lemma SameActive(spec: Spec, nodes: set<Node>)
    ensures ActiveSections(BundleOf(spec, nodes), nodes) == ActiveSections(spec, nodes)
  {
    hide BundleOf, Sections;
    forall x | x in nodes ensures Sections(BundleOf(spec, nodes), x) == Sections(spec, x) {
      SameSections(spec, nodes, x);
    }
  }
}
