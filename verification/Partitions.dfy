/** Candidate work units (internal/facts/facts.go): requirements grouped by union-find with path
    compression over intersecting closures. */
module Partitions {
  import Bundle
  import opened Ordering

  // ----- the forest -----

  // One element's link is well-formed: root names its representative, and height falls along
  // parent links to zero there.
  ghost predicate LinkOk(parent: seq<nat>, root: seq<nat>, height: seq<nat>, i: nat)
    requires i < |parent| == |root| == |height|
  {
    && parent[i] < |parent| && root[i] < |parent|
    && root[root[i]] == root[i] && root[parent[i]] == root[i]
    && (parent[i] == i <==> root[i] == i) && (parent[i] == i <==> height[i] == 0)
    && (parent[i] != i ==> height[i] > height[parent[i]])
  }

  ghost predicate IsForest(parent: seq<nat>, root: seq<nat>, height: seq<nat>)
  {
    |parent| == |root| == |height| && forall i: nat :: i < |parent| ==> LinkOk(parent, root, height, i)
  }

  // Linking i straight to its representative changes no meaning.
  lemma Compress(parent: seq<nat>, root: seq<nat>, height: seq<nat>, i: nat)
    requires IsForest(parent, root, height) && i < |parent| && parent[i] != i
    ensures root[i] < |parent| && IsForest(parent[i := root[i]], root, height)
  {
    assert LinkOk(parent, root, height, i) && LinkOk(parent, root, height, root[i]);
    var parent' := parent[i := root[i]];
    forall k: nat | k < |parent| ensures LinkOk(parent', root, height, k) {
      assert LinkOk(parent, root, height, k);
    }
  }

  // Everything under one representative moves one link away from the other.
  function Lifted(root: seq<nat>, height: seq<nat>, r: nat): seq<nat>
    requires |root| == |height|
  {
    seq(|height|, x requires 0 <= x < |height| => if root[x] == r then height[x] + 1 else height[x])
  }

  lemma Link(parent: seq<nat>, root: seq<nat>, height: seq<nat>, i: nat, j: nat)
    requires IsForest(parent, root, height) && i < |parent| && j < |parent| && root[i] != root[j]
    ensures root[i] < |parent|
    ensures IsForest(parent[root[i] := root[j]], Merged(root, i, j), Lifted(root, height, root[i]))
  {
    assert LinkOk(parent, root, height, i) && LinkOk(parent, root, height, j);
    assert LinkOk(parent, root, height, root[i]) && LinkOk(parent, root, height, root[j]);
    var parent', root', height' := parent[root[i] := root[j]], Merged(root, i, j), Lifted(root, height, root[i]);
    forall k: nat | k < |parent| ensures LinkOk(parent', root', height', k) {
      assert LinkOk(parent, root, height, k);
      assert LinkOk(parent, root, height, root[k]) && LinkOk(parent, root, height, parent[k]);
    }
  }

  class Forest {
    const parent: array<nat>
    ghost var root: seq<nat>
    ghost var height: seq<nat>

    ghost predicate Valid()
      reads this, parent
    {
      IsForest(parent[..], root, height)
    }

    constructor (n: nat)
      ensures Valid() && fresh(parent) && root == seq(n, i => i)
    {
      parent := new nat[n](i => i);
      root, height := seq(n, i => i), seq(n, _ => 0);
    }

    // The representative of i, the path to it compressed.
    method Find(i: nat) returns (r: nat)
      requires Valid() && i < |root|
      modifies parent
      ensures Valid() && r == root[i] && r < |root|
      decreases height[i]
    {
      assert LinkOk(parent[..], root, height, i);
      if parent[i] != i {
        var up := Find(parent[i]);
        assert LinkOk(parent[..], root, height, i);
        Compress(parent[..], root, height, i);
        parent[i] := up;
      }
      r := parent[i];
    }

    // Links i's tree under j's representative.
    method Union(i: nat, j: nat)
      requires Valid() && i < |root| && j < |root|
      modifies this`root, this`height, parent
      ensures Valid() && root == Merged(old(root), i, j)
    {
      hide LinkOk;
      var ri := Find(i);
      var rj := Find(j);
      if ri != rj {
        Link(parent[..], root, height, i, j);
        height := Lifted(root, height, ri);
      } else {
        RootInside(parent[..], root, height, i);
      }
      parent[ri] := rj;
      root := Merged(root, i, j);
    }
  }

  // A representative stands for itself, so linking it to itself changes nothing.
  lemma RootInside(parent: seq<nat>, root: seq<nat>, height: seq<nat>, i: nat)
    requires IsForest(parent, root, height) && i < |root|
    ensures root[i] < |parent| && parent[root[i] := root[i]] == parent
    ensures forall j: nat :: j < |root| && root[j] == root[i] ==> Merged(root, i, j) == root
  {
    assert LinkOk(parent, root, height, i) && LinkOk(parent, root, height, root[i]);
  }

  function Merged(root: seq<nat>, i: nat, j: nat): seq<nat>
    requires i < |root| && j < |root|
  {
    seq(|root|, x requires 0 <= x < |root| => if root[x] == root[i] then root[j] else root[x])
  }

  // ----- chains of intersecting closures -----

  predicate Meet(closures: seq<set<nat>>, a: nat, b: nat)
  {
    a < |closures| && b < |closures| && closures[a] * closures[b] != {}
  }

  ghost predicate IsChain(closures: seq<set<nat>>, path: seq<nat>, a: nat, b: nat)
  {
    && path != [] && path[0] == a && path[|path| - 1] == b
    && forall k :: 0 <= k < |path| - 1 ==> Meet(closures, path[k], path[k + 1])
  }

  ghost predicate Linked(closures: seq<set<nat>>, a: nat, b: nat)
  {
    exists path :: IsChain(closures, path, a, b)
  }

  lemma LinkedSelf(closures: seq<set<nat>>, a: nat)
    ensures Linked(closures, a, a)
  {
    assert IsChain(closures, [a], a, a);
  }

  lemma LinkedMeet(closures: seq<set<nat>>, a: nat, b: nat)
    requires Meet(closures, a, b)
    ensures Linked(closures, a, b)
  {
    assert IsChain(closures, [a, b], a, b);
  }

  lemma LinkedSymmetric(closures: seq<set<nat>>, a: nat, b: nat)
    requires Linked(closures, a, b)
    ensures Linked(closures, b, a)
  {
    var path :| IsChain(closures, path, a, b);
    var back := seq(|path|, k requires 0 <= k < |path| => path[|path| - 1 - k]);
    forall k | 0 <= k < |back| - 1 ensures Meet(closures, back[k], back[k + 1]) {
      var m := |path| - 2 - k;
      assert Meet(closures, path[m], path[m + 1]);
      assert closures[path[m]] * closures[path[m + 1]] == closures[path[m + 1]] * closures[path[m]];
    }
    assert IsChain(closures, back, b, a);
  }

  lemma LinkedTransitive(closures: seq<set<nat>>, a: nat, b: nat, c: nat)
    requires Linked(closures, a, b) && Linked(closures, b, c)
    ensures Linked(closures, a, c)
  {
    var p :| IsChain(closures, p, a, b);
    var q :| IsChain(closures, q, b, c);
    var path := p + q[1..];
    forall k | 0 <= k < |path| - 1 ensures Meet(closures, path[k], path[k + 1]) {
      if k < |p| - 1 {
        assert Meet(closures, p[k], p[k + 1]);
      } else {
        var m := k - (|p| - 1);
        assert path[k] == q[m] && Meet(closures, q[m], q[m + 1]);
      }
    }
    assert IsChain(closures, path, a, c);
  }

  // Representatives that agree on every meeting pair agree along every chain.
  lemma {:induction false} ChainStays(closures: seq<set<nat>>, root: seq<nat>, path: seq<nat>, a: nat, b: nat, k: nat)
    requires |root| == |closures| && IsChain(closures, path, a, b) && a < |closures| && k < |path|
    requires forall x: nat, y: nat :: x < y && Meet(closures, x, y) ==> root[x] == root[y]
    ensures path[k] < |closures| && root[path[k]] == root[a]
  {
    if k > 0 {
      ChainStays(closures, root, path, a, b, k - 1);
      assert Meet(closures, path[k - 1], path[k - 1 + 1]);
      MeetSymmetric(closures, path[k - 1], path[k]);
    }
  }

  lemma MeetSymmetric(closures: seq<set<nat>>, a: nat, b: nat)
    ensures Meet(closures, a, b) <==> Meet(closures, b, a)
  {
  }

  // Only linked elements share a representative.
  ghost predicate Sound(closures: seq<set<nat>>, root: seq<nat>)
  {
    |root| == |closures| && forall a, b :: 0 <= a < |root| && 0 <= b < |root| && root[a] == root[b] ==> Linked(closures, a, b)
  }

  lemma MergeSound(closures: seq<set<nat>>, root: seq<nat>, i: nat, j: nat)
    requires Sound(closures, root) && i < |root| && j < |root| && Meet(closures, i, j)
    ensures Sound(closures, Merged(root, i, j))
  {
    hide Linked;
    var after := Merged(root, i, j);
    LinkedMeet(closures, i, j);
    LinkedSymmetric(closures, i, j);
    forall a, b | 0 <= a < |root| && 0 <= b < |root| && after[a] == after[b]
      ensures Linked(closures, a, b)
    {
      if root[a] != root[b] {
        var x, y := if root[a] == root[i] then i else j, if root[a] == root[i] then j else i;
        LinkedTransitive(closures, a, x, y);
        LinkedTransitive(closures, a, y, b);
      }
    }
  }

  // ----- the partition -----

  method Intersects(a: set<nat>, b: set<nat>) returns (r: bool)
    ensures r <==> a * b != {}
  {
    var few, many := a, b;
    if |b| < |a| {
      few, many := b, a;
    }
    var left := few;
    while left != {}
      invariant left <= few && (few - left) * many == {}
      decreases left
    {
      var k :| k in left;
      if k in many {
        assert k in a * b;
        return true;
      }
      left := left - {k};
    }
    assert a * b == few * many;
    return false;
  }

  // Joins every meeting pair: afterwards two elements share a representative exactly when a
  // chain of meeting closures links them.
  method Join(closures: seq<set<nat>>, forest: Forest)
    requires forest.Valid() && forest.root == seq(|closures|, i => i)
    modifies forest, forest.parent
    ensures forest.Valid() && |forest.root| == |closures|
    ensures forall a, b :: 0 <= a < |closures| && 0 <= b < |closures| ==>
      (forest.root[a] == forest.root[b] <==> Linked(closures, a, b))
  {
    hide Linked, IsForest;
    forall a, b | 0 <= a < |closures| && 0 <= b < |closures| && a == b ensures Linked(closures, a, b) {
      LinkedSelf(closures, a);
    }
    for i := 0 to |closures|
      invariant forest.Valid() && Sound(closures, forest.root)
      invariant forall x: nat, y: nat :: x < i && x < y && Meet(closures, x, y) ==> forest.root[x] == forest.root[y]
    {
      for j := i + 1 to |closures|
        invariant forest.Valid() && Sound(closures, forest.root)
        invariant forall x: nat, y: nat :: x < i && x < y && Meet(closures, x, y) ==> forest.root[x] == forest.root[y]
        invariant forall y: nat :: i < y < j && Meet(closures, i, y) ==> forest.root[i] == forest.root[y]
      {
        var meets := Intersects(closures[i], closures[j]);
        if meets {
          MergeSound(closures, forest.root, i, j);
          forest.Union(i, j);
        }
      }
    }
    JoinExact(closures, forest.root);
  }

  lemma JoinExact(closures: seq<set<nat>>, root: seq<nat>)
    requires Sound(closures, root)
    requires forall x: nat, y: nat :: x < y && Meet(closures, x, y) ==> root[x] == root[y]
    ensures forall a, b :: 0 <= a < |closures| && 0 <= b < |closures| ==> (root[a] == root[b] <==> Linked(closures, a, b))
  {
    forall a, b | 0 <= a < |closures| && 0 <= b < |closures| && Linked(closures, a, b)
      ensures root[a] == root[b]
    {
      var path :| IsChain(closures, path, a, b);
      ChainStays(closures, root, path, a, b, |path| - 1);
    }
  }

  // The components list every position once, and two share one exactly when linked.
  ghost predicate IsPartition(closures: seq<set<nat>>, components: seq<seq<nat>>)
  {
    && (forall c, i: nat :: 0 <= c < |components| && i in components[c] ==> i < |closures|)
    && (forall c :: 0 <= c < |components| ==> components[c] != [] && Ascending(Smaller, components[c]))
    && (forall i: nat :: i < |closures| ==> Has(components, i))
    && (forall c, d, a: nat, b: nat :: 0 <= c < |components| && 0 <= d < |components| && a in components[c] && b in components[d] ==>
          (c == d <==> Linked(closures, a, b)))
  }

  predicate Has(components: seq<seq<nat>>, i: nat)
  {
    exists c :: 0 <= c < |components| && i in components[c]
  }

  predicate Smaller(a: nat, b: nat)
  {
    a < b
  }

  method Components(closures: seq<set<nat>>) returns (components: seq<seq<nat>>)
    ensures IsPartition(closures, components)
  {
    hide Linked, IsForest;
    var forest := new Forest(|closures|);
    Join(closures, forest);
    ghost var root := forest.root;
    var groups: map<nat, seq<nat>> := map[];
    for i := 0 to |closures|
      invariant forest.Valid() && forest.root == root && fresh(forest) && fresh(forest.parent)
      invariant Grouped(root, i, groups)
    {
      var r := forest.Find(i);
      GroupNext(root, i, groups);
      groups := groups[r := (if r in groups then groups[r] else []) + [i]];
    }
    components := InOrder(groups, |closures|);
    ListPartition(closures, root, groups, components);
  }

  // One group holds positions of its own representative only, in order.
  ghost predicate GroupOk(root: seq<nat>, n: nat, r: nat, group: seq<nat>)
    requires n <= |root|
  {
    r < |root| && group != [] && Ascending(Smaller, group) && forall i: nat :: i in group ==> i < n && root[i] == r
  }

  // The groups after n positions: each position below n once, under its representative.
  ghost predicate Grouped(root: seq<nat>, n: nat, groups: map<nat, seq<nat>>)
    requires n <= |root|
  {
    && (forall r :: r in groups ==> GroupOk(root, n, r, groups[r]))
    && (forall i :: 0 <= i < n ==> root[i] in groups && i in groups[root[i]])
  }

  lemma GroupNext(root: seq<nat>, n: nat, groups: map<nat, seq<nat>>)
    requires n < |root| && root[n] < |root| && Grouped(root, n, groups)
    ensures Grouped(root, n + 1, groups[root[n] := (if root[n] in groups then groups[root[n]] else []) + [n]])
  {
    var before := if root[n] in groups then groups[root[n]] else [];
    var after := groups[root[n] := before + [n]];
    assert n in before + [n];
    forall r | r in after ensures GroupOk(root, n + 1, r, after[r]) {
      if r == root[n] {
        Appended(root, n, before);
      } else {
        assert GroupOk(root, n, r, groups[r]);
      }
    }
    forall i | 0 <= i < n + 1 ensures root[i] in after && i in after[root[i]] {
    }
  }

  lemma Appended(root: seq<nat>, n: nat, group: seq<nat>)
    requires n < |root| && root[n] < |root| && (group == [] || GroupOk(root, n, root[n], group))
    ensures GroupOk(root, n + 1, root[n], group + [n])
  {
    forall k | 0 <= k < |group| ensures group[k] < n {
      assert group[k] in group;
    }
  }

  // The groups by ascending representative.
  method InOrder(groups: map<nat, seq<nat>>, n: nat) returns (components: seq<seq<nat>>)
    requires forall r :: r in groups ==> r < n
    ensures exists roots: seq<nat> :: ListedBy(groups, components, roots) && forall r :: r in groups ==> r in roots
  {
    components := [];
    ghost var roots: seq<nat> := [];
    for r := 0 to n
      invariant ListedBy(groups, components, roots)
      invariant forall x :: x in roots <==> x in groups && x < r
    {
      if r in groups {
        components, roots := components + [groups[r]], roots + [r];
      }
    }
  }

  ghost predicate ListedBy(groups: map<nat, seq<nat>>, components: seq<seq<nat>>, roots: seq<nat>)
  {
    && |roots| == |components| && Ascending(Smaller, roots)
    && forall c :: 0 <= c < |roots| ==> roots[c] in groups && components[c] == groups[roots[c]]
  }

  lemma ListPartition(closures: seq<set<nat>>, root: seq<nat>, groups: map<nat, seq<nat>>, components: seq<seq<nat>>)
    requires |root| == |closures| && Grouped(root, |root|, groups)
    requires exists roots: seq<nat> :: ListedBy(groups, components, roots) && forall r :: r in groups ==> r in roots
    requires forall a, b :: 0 <= a < |closures| && 0 <= b < |closures| ==> (root[a] == root[b] <==> Linked(closures, a, b))
    ensures IsPartition(closures, components)
  {
    hide Linked, Ascending, Grouped, ListedBy;
    var roots: seq<nat> :| ListedBy(groups, components, roots) && forall r :: r in groups ==> r in roots;
    ListedAt(root, groups, components, roots);
    forall i: nat | i < |closures| ensures Has(components, i) {
      ListedEach(root, groups, components, roots, i);
    }
    forall c, d, a: nat, b: nat | 0 <= c < |components| && 0 <= d < |components| && a in components[c] && b in components[d]
      ensures c == d <==> Linked(closures, a, b)
    {
      assert GroupOk(root, |root|, roots[c], components[c]) && GroupOk(root, |root|, roots[d], components[d]);
      RootsDiffer(groups, components, roots, c, d);
    }
  }

  lemma ListedAt(root: seq<nat>, groups: map<nat, seq<nat>>, components: seq<seq<nat>>, roots: seq<nat>)
    requires Grouped(root, |root|, groups) && ListedBy(groups, components, roots)
    ensures |roots| == |components|
    ensures forall c :: 0 <= c < |components| ==> GroupOk(root, |root|, roots[c], components[c])
  {
  }

  lemma ListedEach(root: seq<nat>, groups: map<nat, seq<nat>>, components: seq<seq<nat>>, roots: seq<nat>, i: nat)
    requires Grouped(root, |root|, groups) && ListedBy(groups, components, roots) && i < |root|
    requires forall r :: r in groups ==> r in roots
    ensures Has(components, i)
  {
    var c :| 0 <= c < |roots| && roots[c] == root[i];
    assert i in components[c];
  }

  lemma RootsDiffer(groups: map<nat, seq<nat>>, components: seq<seq<nat>>, roots: seq<nat>, c: nat, d: nat)
    requires ListedBy(groups, components, roots) && c < |roots| && d < |roots|
    ensures roots[c] == roots[d] <==> c == d
  {
  }

  // Partitions over a corpus: the closure of each requested requirement is its bundle's
  // requirements, and an unknown identifier is the error.
  method Partition(spec: Bundle.Spec, ids: seq<nat>) returns (known: bool, components: seq<seq<nat>>)
    ensures known <==> forall i :: 0 <= i < |ids| ==> ids[i] in spec.requirements
    ensures known ==> IsPartition(RequirementClosures(spec, ids), components)
  {
    var closures: seq<set<nat>> := [];
    for i := 0 to |ids|
      invariant forall k :: 0 <= k < i ==> ids[k] in spec.requirements
      invariant closures == RequirementClosures(spec, ids[..i])
    {
      var r := Bundle.Compute(spec, [ids[i]]);
      if r.Unknown? {
        return false, [];
      }
      assert ids[i] in [ids[i]];
      closures := closures + [r.bundle.requirements.Keys];
      assert ids[..i + 1] == ids[..i] + [ids[i]] && ids[..i + 1][..i] == ids[..i];
    }
    assert ids[..|ids|] == ids;
    known := true;
    components := Components(closures);
  }

  ghost function RequirementClosures(spec: Bundle.Spec, ids: seq<nat>): seq<set<nat>>
  {
    if ids == [] then []
    else
      RequirementClosures(spec, ids[..|ids| - 1])
      + [Bundle.BundleOf(spec, Bundle.Closure(spec, Bundle.Roots([ids[|ids| - 1]]))).requirements.Keys]
  }
}
