/** Supersede dispositions (internal/compile/compile.go, supersedeComponents): removed sources and
    the successors declaring them, grouped by a search over the bipartite graph between them. */
module Supersede {
  import opened Basics

  // One requirement block as declared: its identity and the targets its supersedes edges name.
  datatype Declaration = Declaration(id: nat, targets: seq<nat>)

  // The documents' declarations in order, the one the corpus keeps for each identity, the
  // tombstoned identities, and the folding tombstones are looked up by.
  datatype Corpus = Corpus(declared: seq<Declaration>, kept: map<nat, nat>, tombstones: set<nat>, lower: nat -> nat)

  // Neither declared nor tombstoned.
  predicate Dangling(c: Corpus, target: nat)
  {
    target !in c.kept && c.lower(target) !in c.tombstones
  }

  // A kept declaration of the successor names the source, which is neither declared nor tombstoned.
  predicate Declares(c: Corpus, successor: nat, source: nat)
  {
    exists i :: 0 <= i < |c.declared| && Names(c, i, successor, source)
  }

  predicate Names(c: Corpus, i: nat, successor: nat, source: nat)
    requires i < |c.declared|
  {
    var d := c.declared[i];
    && d.id == successor && d.id in c.kept && c.kept[d.id] == i && source in d.targets
    && source !in c.kept && c.lower(source) !in c.tombstones
  }

  // ----- components -----

  ghost predicate Share(c: Corpus, a: nat, b: nat)
  {
    exists s :: Declares(c, s, a) && Declares(c, s, b)
  }

  ghost predicate IsChain(c: Corpus, path: seq<nat>)
  {
    path != [] && forall k :: 0 <= k < |path| - 1 ==> Share(c, path[k], path[k + 1])
  }

  // Some chain of sources, neighbours sharing a successor, leads from a to b.
  ghost predicate Connected(c: Corpus, a: nat, b: nat)
  {
    exists path :: IsChain(c, path) && path[0] == a && path[|path| - 1] == b
  }

  lemma ConnectedSelf(c: Corpus, a: nat)
    ensures Connected(c, a, a)
  {
    assert IsChain(c, [a]) && [a][0] == a;
  }

  lemma ConnectedOn(c: Corpus, a: nat, b: nat, d: nat)
    requires Connected(c, a, b) && Share(c, b, d)
    ensures Connected(c, a, d)
  {
    var path :| IsChain(c, path) && path[0] == a && path[|path| - 1] == b;
    var more := path + [d];
    assert IsChain(c, more) && more[|more| - 1] == d;
  }

  // A set closed under sharing holds every chain that starts in it.
  lemma {:induction false} ChainStays(c: Corpus, nodes: set<nat>, path: seq<nat>, k: nat)
    requires IsChain(c, path) && k < |path| && path[0] in nodes
    requires forall a, b :: a in nodes && Share(c, a, b) ==> b in nodes
    ensures path[k] in nodes
  {
    if k > 0 {
      ChainStays(c, nodes, path, k - 1);
      assert Share(c, path[k - 1], path[k - 1 + 1]);
    }
  }

  datatype Component = Component(sources: set<nat>, successors: set<nat>)

  // The connected sources, and every successor declaring one of them.
  ghost predicate IsComponent(c: Corpus, source: nat, k: Component)
  {
    && (forall t :: t in k.sources <==> Connected(c, source, t))
    && (forall s :: s in k.successors <==> exists t :: t in k.sources && Declares(c, s, t))
  }

  // ----- the graph -----

  function At(m: map<nat, set<nat>>, k: nat): set<nat>
  {
    if k in m then m[k] else {}
  }

  ghost predicate IsGraph(c: Corpus, declares: map<nat, set<nat>>, declaredBy: map<nat, set<nat>>)
  {
    && (forall s, t :: t in At(declares, s) <==> Declares(c, s, t))
    && (forall s, t :: s in At(declaredBy, t) <==> Declares(c, s, t))
    && (forall t :: t in declaredBy ==> declaredBy[t] != {})
  }

  // The maps hold exactly these edges, successor first.
  ghost predicate Holds(edges: set<(nat, nat)>, declares: map<nat, set<nat>>, declaredBy: map<nat, set<nat>>)
  {
    && (forall s: nat, t: nat :: t in At(declares, s) <==> (s, t) in edges)
    && (forall s: nat, t: nat :: s in At(declaredBy, t) <==> (s, t) in edges)
    && (forall t :: t in declaredBy ==> declaredBy[t] != {})
  }

  lemma AddEdge(edges: set<(nat, nat)>, declares: map<nat, set<nat>>, declaredBy: map<nat, set<nat>>, s: nat, t: nat)
    requires Holds(edges, declares, declaredBy)
    ensures Holds(edges + {(s, t)}, declares[s := At(declares, s) + {t}], declaredBy[t := At(declaredBy, t) + {s}])
  {
  }

  // The dangling targets of one kept declaration.
  method AddTargets(c: Corpus, d: Declaration, declares: map<nat, set<nat>>, declaredBy: map<nat, set<nat>>, ghost edges: set<(nat, nat)>)
    returns (declares': map<nat, set<nat>>, declaredBy': map<nat, set<nat>>, ghost edges': set<(nat, nat)>)
    requires Holds(edges, declares, declaredBy)
    ensures Holds(edges', declares', declaredBy')
    ensures forall s: nat, t: nat :: (s, t) in edges' <==> (s, t) in edges || (s == d.id && t in d.targets && Dangling(c, t))
  {
    hide Holds, At, Dangling;
    declares', declaredBy', edges' := declares, declaredBy, edges;
    for j := 0 to |d.targets|
      invariant Holds(edges', declares', declaredBy')
      invariant forall s: nat, t: nat :: (s, t) in edges' <==> (s, t) in edges || (s == d.id && t in d.targets[..j] && Dangling(c, t))
    {
      var t := d.targets[j];
      assert d.targets[..j + 1] == d.targets[..j] + [t];
      if Dangling(c, t) {
        AddEdge(edges', declares', declaredBy', d.id, t);
        declares' := declares'[d.id := At(declares', d.id) + {t}];
        declaredBy' := declaredBy'[t := At(declaredBy', t) + {d.id}];
        edges' := edges' + {(d.id, t)};
      }
    }
    assert d.targets[..|d.targets|] == d.targets;
  }

  ghost predicate NamedBefore(c: Corpus, i: nat, s: nat, t: nat)
    requires i <= |c.declared|
  {
    exists k :: 0 <= k < i && Names(c, k, s, t)
  }

  lemma NamedNext(c: Corpus, i: nat)
    requires i < |c.declared|
    ensures forall s: nat, t: nat :: NamedBefore(c, i + 1, s, t) <==> NamedBefore(c, i, s, t) || Names(c, i, s, t)
  {
  }

  method Graph(c: Corpus) returns (declares: map<nat, set<nat>>, declaredBy: map<nat, set<nat>>)
    ensures IsGraph(c, declares, declaredBy)
  {
    hide Holds;
    declares, declaredBy := map[], map[];
    ghost var edges: set<(nat, nat)> := {};
    assert Holds({}, map[], map[]) by { NoEdges(); }
    for i := 0 to |c.declared|
      invariant Holds(edges, declares, declaredBy)
      invariant forall s: nat, t: nat :: (s, t) in edges <==> NamedBefore(c, i, s, t)
    {
      var d := c.declared[i];
      if d.id in c.kept && c.kept[d.id] == i {
        declares, declaredBy, edges := AddTargets(c, d, declares, declaredBy, edges);
      }
      NamedNext(c, i);
    }
    assert forall s: nat, t: nat :: NamedBefore(c, |c.declared|, s, t) <==> Declares(c, s, t);
    GraphHolds(c, edges, declares, declaredBy);
  }

  lemma NoEdges()
    ensures Holds({}, map[], map[])
  {
  }

  lemma GraphHolds(c: Corpus, edges: set<(nat, nat)>, declares: map<nat, set<nat>>, declaredBy: map<nat, set<nat>>)
    requires Holds(edges, declares, declaredBy) && forall s: nat, t: nat :: (s, t) in edges <==> Declares(c, s, t)
    ensures IsGraph(c, declares, declaredBy)
  {
  }

  // ----- the search -----

  // A search from `source` under way: only connected sources are found, a source off the queue has
  // all its successors found, and a successor found has all its sources found.
  ghost predicate Searching(c: Corpus, source: nat, k: Component, queue: seq<nat>)
  {
    && source in k.sources && (forall t :: t in k.sources ==> Connected(c, source, t))
    && (forall t :: t in queue ==> t in k.sources)
    && (forall t, s :: t in k.sources && t !in queue && Declares(c, s, t) ==> s in k.successors)
    && (forall s, t :: s in k.successors && Declares(c, s, t) ==> t in k.sources)
    && (forall s :: s in k.successors ==> exists t :: t in k.sources && Declares(c, s, t))
  }

  lemma SearchDone(c: Corpus, source: nat, k: Component)
    requires Searching(c, source, k, [])
    ensures IsComponent(c, source, k)
  {
    forall t | Connected(c, source, t) ensures t in k.sources {
      var path :| IsChain(c, path) && path[0] == source && path[|path| - 1] == t;
      ChainStays(c, k.sources, path, |path| - 1);
    }
  }

  // The successors of one source taken off the queue, each with its other sources.
  method Visit(c: Corpus, declares: map<nat, set<nat>>, declaredBy: map<nat, set<nat>>, ghost source: nat, all: set<nat>, k: Component, queue: seq<nat>)
    returns (k': Component, queue': seq<nat>)
    requires IsGraph(c, declares, declaredBy) && queue != [] && Searching(c, source, k, queue)
    requires k.sources <= all && forall s, t :: Declares(c, s, t) ==> t in all
    ensures Searching(c, source, k', queue') && k'.sources <= all
    ensures k.sources <= k'.sources && (k'.sources == k.sources ==> |queue'| < |queue|)
  {
    hide *;
    var x := queue[0];
    k', queue' := k, queue[1..];
    var left := At(declaredBy, x);
    HalfStart(c, declares, declaredBy, source, k, queue);
    while left != {}
      invariant left <= At(declaredBy, x) && x in k'.sources
      invariant k.sources <= k'.sources <= all && (k'.sources == k.sources ==> |queue'| < |queue|)
      invariant Half(c, source, k', queue', x, left)
      decreases left
    {
      var s :| s in left;
      Neighbours(c, declares, declaredBy, s, x);
      assert left - {s} + {s} == left;
      left := left - {s};
      if s in k'.successors {
        HalfSkip(c, source, k', queue', x, left, s);
      } else {
        var more := At(declares, s) - k'.sources;
        var listed := ListOf(more);
        FoundMore(c, source, k', queue', x, left, s, more, listed);
        Grows(k.sources, k'.sources, more, all);
        k', queue' := Component(k'.sources + more, k'.successors + {s}), queue' + listed;
      }
    }
    HalfEnd(c, source, k', queue', x);
  }

  lemma Neighbours(c: Corpus, declares: map<nat, set<nat>>, declaredBy: map<nat, set<nat>>, s: nat, x: nat)
    requires IsGraph(c, declares, declaredBy) && s in At(declaredBy, x)
    ensures Declares(c, s, x) && forall t :: t in At(declares, s) <==> Declares(c, s, t)
  {
  }

  lemma HalfStart(c: Corpus, declares: map<nat, set<nat>>, declaredBy: map<nat, set<nat>>, source: nat, k: Component, queue: seq<nat>)
    requires IsGraph(c, declares, declaredBy) && queue != [] && Searching(c, source, k, queue)
    ensures queue[0] in k.sources && Half(c, source, k, queue[1..], queue[0], At(declaredBy, queue[0]))
  {
  }

  lemma HalfSkip(c: Corpus, source: nat, k: Component, queue: seq<nat>, x: nat, left: set<nat>, s: nat)
    requires Half(c, source, k, queue, x, left + {s}) && s in k.successors
    ensures Half(c, source, k, queue, x, left)
  {
  }

  lemma HalfEnd(c: Corpus, source: nat, k: Component, queue: seq<nat>, x: nat)
    requires Half(c, source, k, queue, x, {})
    ensures Searching(c, source, k, queue)
  {
  }

  lemma Grows(start: set<nat>, now: set<nat>, more: set<nat>, all: set<nat>)
    requires start <= now <= all && more !! now && more <= all
    ensures start <= now + more <= all && (now + more == start ==> now == start && more == {})
  {
  }

  method ListOf(more: set<nat>) returns (listed: seq<nat>)
    ensures forall t :: t in listed <==> t in more
    ensures more == {} ==> listed == []
  {
    listed := [];
    var left := more;
    while left != {}
      invariant left <= more && forall t :: t in listed <==> t in more - left
      invariant left == more ==> listed == []
      decreases left
    {
      var t :| t in left;
      listed, left := listed + [t], left - {t};
    }
  }

  // The search with x off the queue and the successors `left` of x still to visit.
  ghost predicate Half(c: Corpus, source: nat, k: Component, queue: seq<nat>, x: nat, left: set<nat>)
  {
    && source in k.sources && (forall t :: t in k.sources ==> Connected(c, source, t))
    && (forall t :: t in queue ==> t in k.sources)
    && (forall t, s :: t in k.sources && t !in queue && Declares(c, s, t) ==> s in k.successors || (t == x && s in left))
    && (forall s, t :: s in k.successors && Declares(c, s, t) ==> t in k.sources)
    && (forall s :: s in k.successors ==> exists t :: t in k.sources && Declares(c, s, t))
  }

  lemma FoundMore(c: Corpus, source: nat, k: Component, queue: seq<nat>, x: nat, left: set<nat>, s: nat, more: set<nat>, listed: seq<nat>)
    requires Half(c, source, k, queue, x, left + {s}) && x in k.sources && Declares(c, s, x)
    requires forall t :: t in more <==> Declares(c, s, t) && t !in k.sources
    requires forall t :: t in listed <==> t in more
    ensures Half(c, source, Component(k.sources + more, k.successors + {s}), queue + listed, x, left)
  {
    hide Connected, Declares, Share;
    forall t | t in more ensures Connected(c, source, t) {
      Shares(c, s, x, t);
      ConnectedOn(c, source, x, t);
    }
  }

  lemma Shares(c: Corpus, s: nat, a: nat, b: nat)
    requires Declares(c, s, a) && Declares(c, s, b)
    ensures Share(c, a, b)
  {
  }

  // One component, breadth first.
  method Search(c: Corpus, declares: map<nat, set<nat>>, declaredBy: map<nat, set<nat>>, source: nat) returns (k: Component)
    requires IsGraph(c, declares, declaredBy) && source in declaredBy
    ensures IsComponent(c, source, k) && k.sources <= declaredBy.Keys
  {
    hide Connected, Declares;
    k := Component({source}, {});
    var queue := [source];
    ConnectedSelf(c, source);
    while queue != []
      invariant Searching(c, source, k, queue) && k.sources <= declaredBy.Keys
      decreases |declaredBy.Keys - k.sources|, |queue|
    {
      ghost var before := k.sources;
      k, queue := Visit(c, declares, declaredBy, source, declaredBy.Keys, k, queue);
      Shrinks(declaredBy.Keys, before, k.sources);
    }
    SearchDone(c, source, k);
  }

  lemma Shrinks(all: set<nat>, before: set<nat>, after: set<nat>)
    requires before <= after <= all
    ensures before == after || |all - after| < |all - before|
  {
    if before != after {
      var t :| t in after && t !in before;
      assert all - after <= (all - before) - {t};
      SubsetSize(all - after, (all - before) - {t});
    }
  }

  // Every removed source with its component; a component found is given to all its sources at once.
  method Components(c: Corpus) returns (out: map<nat, Component>)
    ensures forall t :: t in out <==> exists s :: Declares(c, s, t)
    ensures forall t :: t in out ==> IsComponent(c, t, out[t])
  {
    hide Connected, Declares;
    var declares, declaredBy := Graph(c);
    out := map[];
    var left := declaredBy.Keys;
    while left != {}
      invariant left <= declaredBy.Keys && declaredBy.Keys - left <= out.Keys <= declaredBy.Keys
      invariant forall t :: t in out ==> IsComponent(c, t, out[t])
      decreases left
    {
      var source :| source in left;
      left := left - {source};
      if source !in out {
        var k := Search(c, declares, declaredBy, source);
        ConnectedSelf(c, source);
        forall t | t in k.sources ensures IsComponent(c, t, k) {
          SharedComponent(c, source, t, k);
        }
        out := out + map t | t in k.sources :: k;
      }
    }
    SourcesAreKeys(c, declares, declaredBy);
  }

  lemma SourcesAreKeys(c: Corpus, declares: map<nat, set<nat>>, declaredBy: map<nat, set<nat>>)
    requires IsGraph(c, declares, declaredBy)
    ensures forall t :: t in declaredBy <==> exists s :: Declares(c, s, t)
  {
    hide Declares;
    forall t | t in declaredBy ensures exists s :: Declares(c, s, t) {
      var s :| s in At(declaredBy, t);
    }
  }

  // A component is the component of each of its sources.
  lemma SharedComponent(c: Corpus, a: nat, b: nat, k: Component)
    requires IsComponent(c, a, k) && b in k.sources
    ensures IsComponent(c, b, k)
  {
    hide Declares;
    forall t ensures Connected(c, a, t) <==> Connected(c, b, t) {
      if Connected(c, a, t) {
        ConnectedBack(c, a, b);
        ConnectedThrough(c, b, a, t);
      } else if Connected(c, b, t) {
        ConnectedThrough(c, a, b, t);
      }
    }
  }

  lemma ConnectedBack(c: Corpus, a: nat, b: nat)
    requires Connected(c, a, b)
    ensures Connected(c, b, a)
  {
    hide Declares;
    var path :| IsChain(c, path) && path[0] == a && path[|path| - 1] == b;
    var back := seq(|path|, k requires 0 <= k < |path| => path[|path| - 1 - k]);
    forall k | 0 <= k < |back| - 1 ensures Share(c, back[k], back[k + 1]) {
      var m := |path| - 2 - k;
      assert Share(c, path[m], path[m + 1]);
    }
    assert IsChain(c, back);
  }

  lemma ConnectedThrough(c: Corpus, a: nat, b: nat, d: nat)
    requires Connected(c, a, b) && Connected(c, b, d)
    ensures Connected(c, a, d)
  {
    hide Share;
    var p :| IsChain(c, p) && p[0] == a && p[|p| - 1] == b;
    var q :| IsChain(c, q) && q[0] == b && q[|q| - 1] == d;
    var path := p + q[1..];
    forall k | 0 <= k < |path| - 1 ensures Share(c, path[k], path[k + 1]) {
      if k >= |p| - 1 {
        assert path[k] == q[k - (|p| - 1)];
      }
    }
    assert IsChain(c, path) && path[|path| - 1] == d;
  }

  // Two removed sources have one component exactly when a chain of shared successors connects them.
  lemma SameComponent(c: Corpus, a: nat, b: nat, k: Component, l: Component)
    requires IsComponent(c, a, k) && IsComponent(c, b, l)
    ensures k == l <==> Connected(c, a, b)
  {
    hide Connected, Declares;
    ConnectedSelf(c, b);
    if Connected(c, a, b) {
      SharedComponent(c, a, b, k);
      OneComponent(c, b, k, l);
    }
  }

  lemma OneComponent(c: Corpus, a: nat, k: Component, l: Component)
    requires IsComponent(c, a, k) && IsComponent(c, a, l)
    ensures k == l
  {
  }
}
