/** The batch applier (internal/recordapply/recordapply.go): a compare-and-swap over many files.
    Every path is admitted, every precondition checked and every file staged before the first
    commit; creates are exclusive; deletions land last. What the file system answers each
    operation is an argument, so any of them may fault; another writer may change the tree between
    the steps of the landing, but for the look at a reservation and the removal that follows it.

    Paths and contents are compared for equality alone, so numbers stand for them; Empty is the
    empty file. */
module Applier {
  import opened Basics

  type Path = nat

  datatype Content = Empty | Bytes(digest: nat)

  type Tree = map<Path, Content>

  // What an operation wants at a path (nothing: delete it) and what it read there.
  datatype Update = Update(path: Path, content: Option<Content>, prior: Option<Content>, priorAbsent: bool, document: bool)

  datatype Error =
    | Fine
    | Duplicate(path: Path) | Inadmissible(path: Path)
    | Unstamped(path: Path) | Vanished(path: Path) | Appeared(path: Path) | Changed(path: Path)
    | Fault(path: Path, phase: Phase)
    | Residue(path: Path)  // a fault that leaves an empty reservation standing, and names it

  datatype Phase = Reading | Staging | Landing | Removing

  // What the file system answers the steps of one commit: whether each succeeds.
  datatype CommitAnswers = CommitAnswers(opens: bool, stats: bool, closes: bool, renames: bool, looks: bool, removes: bool)

  // What it answers a batch: each precondition's read and each staging by its update's place,
  // each commit by its place among the writes, each removal by its place among the deletions.
  datatype Answers = Answers(read: nat -> bool, staged: nat -> bool, commits: nat -> CommitAnswers, removed: nat -> bool)

  datatype Result = Result(wrote: seq<Path>, deleted: seq<Path>)

  function At(t: Tree, p: Path): Option<Content>
  {
    if p in t then Some(t[p]) else None
  }

  // ----- the batch, on values -----

  function Paths(ups: seq<Update>): (r: seq<Path>)
    ensures |r| == |ups| && forall i :: 0 <= i < |ups| ==> r[i] == ups[i].path
  {
    seq(|ups|, i requires 0 <= i < |ups| => ups[i].path)
  }

  ghost predicate Distinct(ups: seq<Update>)
  {
    forall i, j :: 0 <= i < j < |ups| ==> ups[i].path != ups[j].path
  }

  function Writes(ups: seq<Update>): (r: seq<Update>)
    ensures forall u :: u in r <==> u in ups && u.content.Some?
  {
    if ups == [] then []
    else
      var u := ups[|ups| - 1];
      Writes(ups[..|ups| - 1]) + if u.content.Some? then [u] else []
  }

  function Deletions(ups: seq<Update>): (r: seq<Update>)
    ensures forall u :: u in r <==> u in ups && u.content.None?
  {
    if ups == [] then []
    else
      var u := ups[|ups| - 1];
      Deletions(ups[..|ups| - 1]) + if u.content.None? then [u] else []
  }

  // What lands of a batch that commits `wrote` files and removes `deleted`.
  function Landed(ups: seq<Update>, wrote: nat, deleted: nat): seq<Update>
    requires wrote <= |Writes(ups)| && deleted <= |Deletions(ups)|
  {
    Writes(ups)[..wrote] + Deletions(ups)[..deleted]
  }

  function Set(t: Tree, p: Path, c: Option<Content>): Tree
  {
    if c.Some? then t[p := c.value] else t - {p}
  }

  function Put(t: Tree, u: Update): Tree
  {
    Set(t, u.path, u.content)
  }

  function Fold(t: Tree, us: seq<Update>): Tree
  {
    if us == [] then t else Put(Fold(t, us[..|us| - 1]), us[|us| - 1])
  }

  // ----- judging the batch -----

  // Duplicate paths and paths outside the applier's reach, first offender first.
  function Judge(admit: (Path, bool) -> bool, ups: seq<Update>): Error
  {
    if ups == [] then Fine
    else
      var before, u := ups[..|ups| - 1], ups[|ups| - 1];
      var e := Judge(admit, before);
      if !e.Fine? then e
      else if u.path in Paths(before) then Duplicate(u.path)
      else if !admit(u.path, u.content.Some? && u.document) then Inadmissible(u.path)
      else Fine
  }

  lemma {:induction false} JudgeFine(admit: (Path, bool) -> bool, ups: seq<Update>)
    ensures Judge(admit, ups).Fine? <==>
      Distinct(ups) && forall i :: 0 <= i < |ups| ==> admit(ups[i].path, ups[i].content.Some? && ups[i].document)
  {
    if ups != [] {
      var before, u := ups[..|ups| - 1], ups[|ups| - 1];
      JudgeFine(admit, before);
      if u.path in Paths(before) {
        var i :| 0 <= i < |before| && Paths(before)[i] == u.path;
        assert ups[i].path == ups[|ups| - 1].path;
      } else {
        forall i | 0 <= i < |before| ensures ups[i].path != u.path {
          assert Paths(before)[i] == ups[i].path;
        }
      }
    }
  }

  // One update's precondition against the tree.
  function CheckPrior(t: Tree, u: Update): Error
  {
    if u.prior.None? && !u.priorAbsent then Unstamped(u.path)
    else if u.path !in t then (if !u.priorAbsent && u.prior.Some? then Vanished(u.path) else Fine)
    else if u.priorAbsent then Appeared(u.path)
    else if t[u.path] != u.prior.value then Changed(u.path)
    else Fine
  }

  // The update was stamped, and the tree holds at its path what the operation read.
  predicate Holds(t: Tree, u: Update)
  {
    (u.prior.Some? || u.priorAbsent) && At(t, u.path) == if u.priorAbsent then None else u.prior
  }

  lemma PriorHolds(t: Tree, u: Update)
    ensures CheckPrior(t, u).Fine? <==> Holds(t, u)
    ensures CheckPrior(t, u).Unstamped? <==> u.prior.None? && !u.priorAbsent
    ensures CheckPrior(t, u).Vanished? <==> u.prior.Some? && !u.priorAbsent && At(t, u.path).None?
    ensures CheckPrior(t, u).Appeared? <==> u.priorAbsent && At(t, u.path).Some?
    ensures CheckPrior(t, u).Changed? <==> u.prior.Some? && !u.priorAbsent && At(t, u.path).Some? && At(t, u.path) != u.prior
    ensures !CheckPrior(t, u).Fine? ==> CheckPrior(t, u).path == u.path
  {
  }

  // The preconditions in batch order; an update never stamped is refused before its path is read.
  function Checked(t: Tree, ups: seq<Update>, read: nat -> bool): Error
  {
    if ups == [] then Fine
    else
      var k := |ups| - 1;
      var e := Checked(t, ups[..k], read);
      if !e.Fine? then e else CheckRead(t, ups[k], read(k))
  }

  function CheckRead(t: Tree, u: Update, read: bool): Error
  {
    if !read && (u.prior.Some? || u.priorAbsent) then Fault(u.path, Reading) else CheckPrior(t, u)
  }

  // An update is refused as unstamped whether or not its path can be read, and otherwise passes
  // exactly when it can be and the precondition holds.
  lemma ReadHolds(t: Tree, u: Update, read: bool)
    ensures CheckRead(t, u, read).Fine? <==> read && Holds(t, u)
    ensures CheckRead(t, u, read).Unstamped? <==> u.prior.None? && !u.priorAbsent
    ensures CheckRead(t, u, read).Fault? <==> !read && (u.prior.Some? || u.priorAbsent)
  {
    PriorHolds(t, u);
  }

  lemma {:induction false} CheckedHolds(t: Tree, ups: seq<Update>, read: nat -> bool)
    ensures Checked(t, ups, read).Fine? <==> forall i: nat :: i < |ups| ==> read(i) && Holds(t, ups[i])
  {
    if ups != [] {
      var k := |ups| - 1;
      CheckedHolds(t, ups[..k], read);
      ReadHolds(t, ups[k], read(k));
    }
  }

  // ----- one commit -----

  // What a name holds after a commit, and the commit's error.
  datatype Spot = Spot(content: Option<Content>, err: Error)

  datatype Left = Left(tree: Tree, err: Error)

  // The reservation taken back, judged by identity: only the applier's own file is removed, and a
  // removal that fails is named; a look that fails leaves the tree and the fault as they are.
  function Unreserved(tree: Tree, reserved: set<Path>, path: Path, looked: bool, removed: bool): Left
  {
    if !looked || path !in reserved then Left(tree, Fault(path, Landing))
    else if removed then Left(tree - {path}, Fault(path, Landing))
    else Left(tree, Residue(path))
  }

  // A standing reservation goes unnamed exactly when it could not be looked at.
  lemma UnnamedWhenUnseen(tree: Tree, reserved: set<Path>, path: Path, looked: bool, removed: bool)
    requires path in reserved && path in tree
    ensures var left := Unreserved(tree, reserved, path, looked, removed);
      path in left.tree && left.err != Residue(path) <==> !looked
  {
  }

  // One commit where no other writer is: a plain write renames, a create reserves the name first.
  function CommitAt(path: Path, was: Option<Content>, create: bool, wanted: Option<Content>, f: CommitAnswers): Spot
  {
    if !create then (if f.renames then Spot(wanted, Fine) else Spot(was, Fault(path, Landing)))
    else if was.Some? then Spot(was, if f.opens then Appeared(path) else Fault(path, Landing))
    else if !f.opens then Spot(None, Fault(path, Landing))
    else if !f.stats then Spot(Some(Empty), Residue(path))
    else if f.closes && f.renames then Spot(wanted, Fine)
    else
      var left := Unreserved(map[path := Empty], {path}, path, f.looks, f.removes);
      Spot(At(left.tree, path), left.err)
  }

  // The answers under which a create leaves its reservation standing unnamed: the name reserved,
  // the close or the rename failed, and then the look at it too.
  predicate Strands(f: CommitAnswers)
  {
    f.opens && f.stats && !(f.closes && f.renames) && !f.looks
  }

  // ----- an apply no other writer disturbs, as a function -----

  datatype Reach = Reach(tree: Tree, done: nat, err: Error)

  function CommitsOn(t: Tree, ws: seq<Update>, commits: nat -> CommitAnswers): (r: Reach)
    ensures r.done <= |ws| && (r.err.Fine? ==> r.done == |ws|)
  {
    if ws == [] then Reach(t, 0, Fine)
    else
      var k := |ws| - 1;
      var before := CommitsOn(t, ws[..k], commits);
      if !before.err.Fine? then before
      else
        var s := CommitAt(ws[k].path, At(before.tree, ws[k].path), ws[k].priorAbsent, ws[k].content, commits(k));
        Reach(Set(before.tree, ws[k].path, s.content), if s.err.Fine? then k + 1 else k, s.err)
  }

  function RemovalsOn(t: Tree, ds: seq<Update>, removed: nat -> bool): (r: Reach)
    ensures r.done <= |ds| && (r.err.Fine? ==> r.done == |ds|)
  {
    if ds == [] then Reach(t, 0, Fine)
    else
      var k := |ds| - 1;
      var before := RemovalsOn(t, ds[..k], removed);
      if !before.err.Fine? then before
      else if removed(k) && ds[k].path in before.tree then Reach(before.tree - {ds[k].path}, k + 1, Fine)
      else Reach(before.tree, k, Fault(ds[k].path, Removing))
  }

  function StagedOn(ups: seq<Update>, staged: nat -> bool): Error
  {
    if ups == [] then Fine
    else
      var k := |ups| - 1;
      var e := StagedOn(ups[..k], staged);
      if !e.Fine? then e
      else if ups[k].content.Some? && !staged(k) then Fault(ups[k].path, Staging)
      else Fine
  }

  // Everything before the first commit.
  function Prepared(admit: (Path, bool) -> bool, t: Tree, ups: seq<Update>, a: Answers): Error
  {
    var judged, checked := Judge(admit, ups), Checked(t, ups, a.read);
    if !judged.Fine? then judged else if !checked.Fine? then checked else StagedOn(ups, a.staged)
  }

  datatype Outcome = Outcome(tree: Tree, out: Result, err: Error)

  function Quiet(admit: (Path, bool) -> bool, t: Tree, ups: seq<Update>, a: Answers): Outcome
  {
    var e := Prepared(admit, t, ups, a);
    if !e.Fine? then Outcome(t, Result([], []), e)
    else
      var c := CommitsOn(t, Writes(ups), a.commits);
      var wrote := Paths(Writes(ups))[..c.done];
      if !c.err.Fine? then Outcome(c.tree, Result(wrote, []), c.err)
      else
        var d := RemovalsOn(c.tree, Deletions(ups), a.removed);
        Outcome(d.tree, Result(wrote, Paths(Deletions(ups))[..d.done]), d.err)
  }

  // ----- the outcome of one apply -----

  // From `before` to `after`, at every path no other writer touched: exactly the writes and then
  // the deletions the result names have landed, and anything landed at all means the whole batch
  // was admitted and its preconditions held.
  ghost predicate Applied(admit: (Path, bool) -> bool, before: Tree, after: Tree, touched: set<Path>, a: Answers,
                          ups: seq<Update>, out: Result, err: Error)
  {
    var w, d := |out.wrote|, |out.deleted|;
    && w <= |Writes(ups)| && out.wrote == Paths(Writes(ups))[..w]
    && d <= |Deletions(ups)| && out.deleted == Paths(Deletions(ups))[..d]
    && (d > 0 ==> w == |Writes(ups)|)
    && (err.Fine? ==> w == |Writes(ups)| && d == |Deletions(ups)|)
    && (w + d > 0 || err.Fine? || LandingFault(err) ==> Lawful(admit, before, touched, ups))
    && (forall p :: p !in touched ==> At(after, p) == At(Fold(before, Landed(ups, w, d)), p) || Stranded(after, err, p))
    && Faulted(before, after, touched, Writes(ups), w, a.commits, err)
    && (Judge(admit, ups) != Fine ==> err == Judge(admit, ups) && w == d == 0)
  }

  ghost predicate Lawful(admit: (Path, bool) -> bool, before: Tree, touched: set<Path>, ups: seq<Update>)
  {
    Judge(admit, ups).Fine? && forall i :: 0 <= i < |ups| && ups[i].path !in touched ==> Holds(before, ups[i])
  }

  // A commit's fault, its reservation named or not.
  predicate LandingFault(err: Error)
  {
    err.Residue? || (err.Fault? && err.phase.Landing?)
  }

  // An empty reservation left at p by the commit that failed.
  predicate Stranded(after: Tree, err: Error, p: Path)
  {
    At(after, p) == Some(Empty) && (err == Residue(p) || err == Fault(p, Landing))
  }

  // A fault in landing is that of the first write not landed, and has left at its name what the
  // answers to its commit say.
  ghost predicate Faulted(before: Tree, after: Tree, touched: set<Path>, ws: seq<Update>, w: nat,
                          commits: nat -> CommitAnswers, err: Error)
  {
    LandingFault(err) ==> w < |ws| && err.path == ws[w].path && FaultLeaves(before, after, touched, ws, w, commits, err)
  }

  ghost predicate FaultLeaves(before: Tree, after: Tree, touched: set<Path>, ws: seq<Update>, w: nat,
                              commits: nat -> CommitAnswers, err: Error)
    requires w < |ws|
  {
    var p := ws[w].path;
    p !in touched ==>
      Spot(At(after, p), err) == CommitAt(p, At(Fold(before, ws[..w]), p), ws[w].priorAbsent, ws[w].content, commits(w))
  }

  // ----- the applier -----

  // A staged write: its target, its dot-temp, and whether the name must still be absent.
  datatype Staged = Staged(path: Path, temp: nat, create: bool)

  // The dot-temps hold the contents the writes will land.
  ghost predicate Ready(writes: seq<Staged>, temps: map<nat, Content>, ws: seq<Update>)
  {
    && |writes| == |ws|
    && (forall k :: 0 <= k < |writes| ==>
          writes[k].path == ws[k].path && writes[k].create == ws[k].priorAbsent && At(temps, writes[k].temp) == ws[k].content)
    && (forall j, k :: 0 <= j < k < |writes| ==> writes[j].temp < writes[k].temp)
  }

  // Nothing but the given dot-temps, and those a failed removal leaked, stands beside the old ones.
  ghost predicate Tidy(temps: map<nat, Content>, old_: map<nat, Content>, leaked: set<nat>, writes: seq<Staged>)
  {
    && (forall t :: t in old_ ==> t in temps && temps[t] == old_[t])
    && (forall t :: t in temps && t !in leaked ==> t in old_ || exists k :: 0 <= k < |writes| && writes[k].temp == t)
    && (forall k :: 0 <= k < |writes| ==> writes[k].temp !in old_)
  }

  class Applier {
    // The confinement: whether a path may be written, as a record or as a document rewrite.
    const admit: (Path, bool) -> bool
    var tree: Tree
    // The names whose file is the applier's own empty reservation.
    var reserved: set<Path>
    var temps: map<nat, Content>
    var nextTemp: nat

    ghost var touched: set<Path>  // paths another writer has changed
    ghost var leaked: set<nat>    // dot-temps whose removal failed

    ghost predicate Valid()
      reads `tree, `reserved, `temps, `nextTemp
    {
      reserved <= tree.Keys && forall t :: t in temps ==> t < nextTemp
    }

    constructor (admit: (Path, bool) -> bool, tree: Tree)
      ensures Valid() && this.admit == admit && this.tree == tree
    {
      this.admit, this.tree, reserved, temps, nextTemp := admit, tree, {}, map[], 0;
      touched, leaked := {}, {};
    }

    // Another process replaces or removes any files at all.
    method Interfere()
      requires Valid()
      modifies `tree, `reserved, `touched
      ensures Valid() && touched >= old(touched)
      ensures forall p :: p !in touched ==> At(tree, p) == At(old(tree), p) && (p in reserved <==> p in old(reserved))
    {
      var put: Tree := *;
      var gone: set<Path> := *;
      tree := (tree + put) - gone;
      reserved := reserved - put.Keys - gone;
      touched := touched + put.Keys + gone;
    }

    // A dot-temp holding the content, or a fault and no dot-temp.
    method Stage(content: Content, ok: bool, ghost writes: seq<Staged>, ghost base: map<nat, Content>) returns (temp: nat)
      requires Valid() && Tidy(temps, base, leaked, writes)
      modifies `temps, `nextTemp, `leaked
      ensures Valid() && nextTemp >= old(nextTemp) && leaked >= old(leaked)
      ensures ok ==> temp == old(nextTemp) < nextTemp && temps == old(temps)[temp := content] && leaked == old(leaked)
      ensures forall t :: t in old(temps) ==> t in temps && temps[t] == old(temps)[t]
      ensures !ok ==> Tidy(temps, base, leaked, writes)
    {
      temp := nextTemp;
      var created: bool := *;
      if ok || created {
        nextTemp := nextTemp + 1;
        temps := temps[temp := Empty];
        if ok {
          temps := temps[temp := content];
        } else {
          Discard(temp);
        }
      }
    }

    // Sweeps a dot-temp; the removal itself may fail, unreported.
    method Discard(temp: nat)
      requires Valid()
      modifies `temps, `leaked
      ensures Valid() && leaked >= old(leaked)
      ensures temps == old(temps) - {temp} || (temps == old(temps) && leaked == old(leaked) + {temp})
    {
      var removed: bool := *;
      if removed || temp !in temps {
        temps := temps - {temp};
      } else {
        leaked := leaked + {temp};
      }
    }

    // A plain write lands by one rename.
    method Rename(path: Path, temp: nat, ok: bool) returns (err: Error)
      requires Valid() && temp in temps
      modifies `tree, `reserved, `temps
      ensures Valid() && err == if ok then Fine else Fault(path, Landing)
      ensures ok ==> tree == old(tree)[path := old(temps)[temp]] && temps == old(temps) - {temp} && reserved == old(reserved) - {path}
      ensures !ok ==> unchanged(`tree, `reserved, `temps)
    {
      if !ok {
        return Fault(path, Landing);
      }
      tree, reserved := tree[path := temps[temp]], reserved - {path};
      temps := temps - {temp};
      return Fine;
    }

    // A create reserves the name exclusively and renames over the reservation. Only the window
    // between the two lets another writer's file be replaced; `window` is the tree at its end,
    // and what stands there then but for the reservation is another writer's.
    method Create(path: Path, temp: nat, f: CommitAnswers) returns (err: Error, ghost window: Tree, ghost foreign: bool)
      requires Valid() && temp in temps
      modifies `tree, `reserved, `temps, `touched
      ensures Valid() && touched >= old(touched)
      ensures forall p :: p != path && p !in touched ==> At(tree, p) == At(old(tree), p)
      ensures path in old(tree) ==> tree == old(tree)
      ensures err.Fine? ==> path !in old(tree) && tree == window[path := old(temps)[temp]] && temps == old(temps) - {temp}
      ensures !err.Fine? ==> temps == old(temps) && err.path == path
      ensures path !in touched ==> Spot(At(tree, path), err) == CommitAt(path, At(old(tree), path), true, Some(old(temps)[temp]), f)
      ensures foreign && !err.Fine? ==> path in window && At(tree, path) == At(window, path)
    {
      window, foreign := tree, false;
      if path in tree {
        err := if f.opens then Appeared(path) else Fault(path, Landing);
        return;
      }
      if !f.opens {
        err := Fault(path, Landing);
        return;
      }
      tree, reserved := tree[path := Empty], reserved + {path};
      if !f.stats {
        err := Residue(path);
        return;
      }
      if f.closes {
        Interfere();
        window := tree;
        err := Rename(path, temp, f.renames);
        if err.Fine? {
          return;
        }
      }
      Interfere();
      window, foreign := tree, path in tree && path !in reserved;
      err := Unreserve(path, f);
    }

    // Takes the reservation back.
    method Unreserve(path: Path, f: CommitAnswers) returns (err: Error)
      requires Valid()
      modifies `tree, `reserved
      ensures Valid() && Left(tree, err) == Unreserved(old(tree), old(reserved), path, f.looks, f.removes)
    {
      err := Fault(path, Landing);
      if f.looks && path in reserved {
        if f.removes {
          tree, reserved := tree - {path}, reserved - {path};
        } else {
          err := Residue(path);
        }
      }
    }

    method Remove(path: Path, ok: bool) returns (err: Error)
      requires Valid()
      modifies `tree, `reserved
      ensures Valid() && err == if ok && path in old(tree) then Fine else Fault(path, Removing)
      ensures tree == if err.Fine? then old(tree) - {path} else old(tree)
    {
      err := Fault(path, Removing);
      if ok && path in tree {
        tree, reserved := tree - {path}, reserved - {path};
        err := Fine;
      }
    }

    // ----- the phases of an apply -----

    method Admit(ups: seq<Update>) returns (err: Error)
      ensures err == Judge(admit, ups)
    {
      err := Fine;
      var seen: set<Path> := {};
      var i := 0;
      while i < |ups| && err.Fine?
        invariant i <= |ups| && err == Judge(admit, ups[..i])
        invariant err.Fine? ==> forall p :: p in seen <==> p in Paths(ups[..i])
        invariant !err.Fine? ==> Judge(admit, ups) == err
      {
        assert ups[..i + 1][..i] == ups[..i];
        if ups[i].path in seen {
          err := Duplicate(ups[i].path);
        } else if !admit(ups[i].path, ups[i].content.Some? && ups[i].document) {
          err := Inadmissible(ups[i].path);
        }
        PathsNext(ups, i);
        seen := seen + {ups[i].path};
        i := i + 1;
        JudgePrefix(admit, ups, i);
      }
      assert ups[..|ups|] == ups;
    }

    // Every precondition, in batch order, each against the tree as it then stands.
    method CheckAll(ups: seq<Update>, a: Answers, ghost before: Tree) returns (err: Error)
      requires Valid() && Same(before, tree, touched)
      modifies `tree, `reserved, `touched
      ensures Valid() && touched >= old(touched) && Same(before, tree, touched) && !LandingFault(err)
      ensures err.Fine? ==> forall i :: 0 <= i < |ups| && ups[i].path !in touched ==> Holds(before, ups[i])
      ensures touched == {} ==> err == Checked(before, ups, a.read)
    {
      err := Fine;
      var i := 0;
      while i < |ups| && err.Fine?
        invariant i <= |ups| && Valid() && touched >= old(touched) && Same(before, tree, touched) && !LandingFault(err)
        invariant err.Fine? ==> forall k :: 0 <= k < i && ups[k].path !in touched ==> Holds(before, ups[k])
        invariant touched == {} ==> err == Checked(before, ups[..i], a.read)
      {
        Interfere();
        assert ups[..i + 1][..i] == ups[..i];
        err := CheckRead(tree, ups[i], a.read(i));
        PriorHolds(tree, ups[i]);
        i := i + 1;
      }
      assert ups[..|ups|] == ups;
      if i < |ups| {
        CheckedPrefix(before, ups, a.read, i);
      }
    }

    method StageOne(u: Update, ok: bool, writes: seq<Staged>, ghost ws: seq<Update>, ghost base: map<nat, Content>)
      returns (more: seq<Staged>, err: Error)
      requires Valid() && Ready(writes, temps, ws) && Tidy(temps, base, leaked, writes) && u.content.Some?
      requires forall w :: w in ws ==> w.content.Some?
      modifies `temps, `nextTemp, `leaked
      ensures Valid() && Tidy(temps, base, leaked, more)
      ensures err == if ok then Fine else Fault(u.path, Staging)
      ensures err.Fine? ==> Ready(more, temps, ws + [u])
    {
      hide Ready, Tidy;
      ghost var held := temps;
      var temp := Stage(u.content.value, ok, writes, base);
      more, err := writes, Fault(u.path, Staging);
      if ok {
        StageNext(writes, held, base, leaked, ws, u, temp);
        more, err := writes + [Staged(u.path, temp, u.priorAbsent)], Fine;
      }
    }

    // Every file to a dot-temp; the deletions are set aside.
    method StageAll(ups: seq<Update>, a: Answers, ghost base: map<nat, Content>)
      returns (writes: seq<Staged>, deletions: seq<Path>, err: Error)
      requires Valid() && temps == base
      modifies `temps, `nextTemp, `leaked
      ensures Valid() && Tidy(temps, base, leaked, writes) && err == StagedOn(ups, a.staged)
      ensures err.Fine? ==> Ready(writes, temps, Writes(ups)) && deletions == Paths(Deletions(ups))
    {
      hide *;
      writes, deletions, err := [], [], Fine;
      StageStart(ups, temps, base, leaked, a.staged);
      var i := 0;
      while i < |ups| && err.Fine?
        invariant i <= |ups| && Valid() && Tidy(temps, base, leaked, writes) && err == StagedOn(ups[..i], a.staged)
        invariant err.Fine? ==> Ready(writes, temps, Writes(ups[..i])) && deletions == Paths(Deletions(ups[..i]))
      {
        var u := ups[i];
        SplitNext(ups, i);
        StagedNext(ups, a.staged, i);
        if u.content.None? {
          deletions := deletions + [u.path];
        } else {
          writes, err := StageOne(u, a.staged(i), writes, Writes(ups[..i]), base);
        }
        i := i + 1;
      }
      StagedPrefix(ups, a.staged, i);
      assert err.Fine? ==> ups[..i] == ups;
    }

    // One staged write lands, or nothing of it does but what its answers leave.
    method Commit(w: Staged, f: CommitAnswers) returns (err: Error)
      requires Valid() && w.temp in temps
      modifies `tree, `reserved, `temps, `touched
      ensures Valid() && touched >= old(touched)
      ensures forall p :: p != w.path && p !in touched ==> At(tree, p) == At(old(tree), p)
      ensures temps == if err.Fine? then old(temps) - {w.temp} else old(temps)
      ensures !err.Fine? ==> err.path == w.path
      ensures w.path !in touched ==>
        Spot(At(tree, w.path), err) == CommitAt(w.path, At(old(tree), w.path), w.create, Some(old(temps)[w.temp]), f)
    {
      Interfere();
      if w.create {
        ghost var window, foreign;
        err, window, foreign := Create(w.path, w.temp, f);
      } else {
        err := Rename(w.path, w.temp, f.renames);
      }
    }

    // The commits, in order, until one faults.
    method CommitAll(writes: seq<Staged>, a: Answers, ghost ws: seq<Update>, ghost before: Tree, ghost base: map<nat, Content>)
      returns (rest: seq<Staged>, wrote: seq<Path>, err: Error)
      requires Valid() && Ready(writes, temps, ws) && Tidy(temps, base, leaked, writes) && Same(before, tree, touched)
      requires forall u :: u in ws ==> u.content.Some?
      modifies `tree, `reserved, `temps, `touched
      ensures Valid() && touched >= old(touched)
      ensures |wrote| <= |ws| && wrote == Paths(ws)[..|wrote|] && (err.Fine? ==> |wrote| == |ws|)
      ensures Tidy(temps, base, leaked, rest)
      ensures Reached(before, tree, touched, ws[..|wrote|], err)
      ensures Faulted(before, tree, touched, ws, |wrote|, a.commits, err)
      ensures touched == {} ==> Reach(tree, |wrote|, err) == CommitsOn(before, ws, a.commits)
      ensures err.Fine? ==> rest == []
    {
      hide *;
      rest, wrote, err := writes, [], Fine;
      CommitStart(writes, temps, ws, before, tree, touched, a.commits);
      while rest != [] && err.Fine?
        invariant Valid() && touched >= old(touched)
        invariant |wrote| <= |ws| && wrote == Paths(ws)[..|wrote|] && |rest| == |ws| - |wrote| && (!err.Fine? ==> rest != [])
        invariant Tidy(temps, base, leaked, rest)
        invariant err.Fine? ==> Ready(rest, temps, ws[|wrote|..])
        invariant Committed(before, tree, touched, ws, |wrote|, a.commits, err)
        decreases |rest|, err.Fine?
      {
        var n := |wrote|;
        ghost var from, held, was := tree, temps, touched;
        CommitReady(rest, temps, ws[n..]);
        assert ws[n..][0] == ws[n] && ws[n] in ws;
        err := Commit(rest[0], a.commits(n));
        assert CommitsOne(from, tree, touched, ws[n], a.commits(n), err) by {
          OneCommitted(from, tree, touched, ws[n], a.commits(n), err);
        }
        CommitNext(before, from, tree, was, touched, ws, n, a.commits, err);
        if err.Fine? {
          TempSpent(rest, held, base, leaked, ws[n..]);
          assert ws[n..][1..] == ws[n + 1..];
          wrote := wrote + [rest[0].path];
          rest := rest[1..];
        }
      }
      CommitEnd(before, tree, touched, ws, a.commits, |wrote|, err);
    }

    // The deletions, after every write.
    method RemoveAll(deletions: seq<Path>, a: Answers, ghost ds: seq<Update>, ghost landed: seq<Update>, ghost before: Tree)
      returns (deleted: seq<Path>, err: Error)
      requires Valid() && deletions == Paths(ds) && Reached(before, tree, touched, landed, Fine)
      requires forall u :: u in ds ==> u.content.None?
      modifies `tree, `reserved, `touched
      ensures Valid() && touched >= old(touched) && !LandingFault(err)
      ensures |deleted| <= |ds| && deleted == Paths(ds)[..|deleted|] && (err.Fine? ==> |deleted| == |ds|)
      ensures Reached(before, tree, touched, landed + ds[..|deleted|], err)
      ensures touched == {} ==> Reach(tree, |deleted|, err) == RemovalsOn(old(tree), ds, a.removed)
    {
      hide *;
      deleted, err := [], Fine;
      RemoveStart(before, tree, touched, landed, ds, a.removed);
      ghost var mid := tree;
      while |deleted| < |deletions| && err.Fine?
        invariant Valid() && touched >= old(touched) && !LandingFault(err)
        invariant |deleted| <= |ds| && deleted == Paths(ds)[..|deleted|] && (!err.Fine? ==> |deleted| < |ds|)
        invariant Reached(before, tree, touched, landed + ds[..|deleted|], err)
        invariant touched == {} ==>
          Reach(tree, |deleted|, err) == RemovalsOn(mid, ds[..if err.Fine? then |deleted| else |deleted| + 1], a.removed)
        decreases |ds| - |deleted|, err.Fine?
      {
        var n := |deleted|;
        ghost var from, was := tree, touched;
        Interfere();
        ghost var met := tree;
        err := Remove(deletions[n], a.removed(n));
        assert ds[n] in ds;
        RemoveNext(before, mid, from, met, tree, was, touched, landed, ds, n, a.removed, err);
        if err.Fine? {
          deleted := deleted + [deletions[n]];
        }
      }
      RemoveEnd(mid, ds, a.removed, |deleted|, err);
    }

    method DiscardAll(writes: seq<Staged>, ghost base: map<nat, Content>)
      requires Valid() && Tidy(temps, base, leaked, writes)
      modifies `temps, `leaked
      ensures Valid() && Tidy(temps, base, leaked, [])
    {
      for k := 0 to |writes|
        invariant Valid() && Tidy(temps, base, leaked, writes[k..])
      {
        Discard(writes[k].temp);
      }
    }

    // Everything before the first commit.
    method Prepare(ups: seq<Update>, a: Answers, ghost before: Tree, ghost base: map<nat, Content>)
      returns (writes: seq<Staged>, deletions: seq<Path>, err: Error)
      requires Valid() && temps == base && tree == before && touched == {}
      modifies `tree, `reserved, `touched, `temps, `nextTemp, `leaked
      ensures Valid() && Tidy(temps, base, leaked, writes)
      ensures Judged(admit, before, tree, touched, ups, err)
      ensures touched == {} ==> err == Prepared(admit, before, ups, a)
      ensures err.Fine? ==> Ready(writes, temps, Writes(ups)) && deletions == Paths(Deletions(ups))
    {
      hide Ready, Tidy, Writes, Deletions, Judge, Checked, StagedOn, Holds;
      writes, deletions := [], [];
      StageStart([], temps, base, leaked, a.staged);
      err := Admit(ups);
      JudgeFine(admit, ups);
      PreparedKinds(admit, before, ups, a);
      if err.Fine? {
        err := CheckAll(ups, a, before);
        if err.Fine? {
          writes, deletions, err := StageAll(ups, a, base);
          StagedKinds(ups, a.staged);
        }
      }
    }

    // Apply: the batch lands whole, or a named prefix of it, or nothing. Undisturbed, the tree, the
    // result and the error are those the answers determine.
    method Apply(ups: seq<Update>, a: Answers) returns (out: Result, err: Error)
      requires Valid()
      modifies this
      ensures Valid() && Tidy(temps, old(temps), leaked, [])
      ensures Applied(admit, old(tree), tree, touched, a, ups, out, err)
      ensures touched == {} ==> Outcome(tree, out, err) == Quiet(admit, old(tree), ups, a)
    {
      hide *;
      touched := {};
      ghost var before, base := tree, temps;
      var writes, deletions;
      writes, deletions, err := Prepare(ups, a, before, base);
      ghost var was, refused := touched, err;
      var wrote, deleted := [], [];
      if err.Fine? {
        JudgedSame(admit, before, tree, touched, ups, err);
        SameUntouched(before, tree, touched);
        writes, wrote, err := CommitAll(writes, a, Writes(ups), before, base);
        ghost var mid, landing := tree, err;
        if err.Fine? {
          assert Writes(ups)[..|wrote|] == Writes(ups);
          deleted, err := RemoveAll(deletions, a, Deletions(ups), Writes(ups), before);
          assert Writes(ups) + Deletions(ups)[..|deleted|] == Landed(ups, |wrote|, |deleted|) by { AllWrites(ups, |deleted|); }
          NoLandingFault(before, tree, touched, Writes(ups), |wrote|, a.commits, err);
        } else {
          assert Writes(ups)[..|wrote|] == Landed(ups, |wrote|, 0) by { NoDeletions(ups, |wrote|); }
        }
        if touched == {} {
          QuietLanding(admit, before, ups, a, mid, wrote, landing, tree, deleted, err);
        }
      } else {
        NothingLanded(admit, before, tree, touched, ups, err);
        NothingFaulted(admit, before, tree, touched, ups, a, err);
        if touched == {} {
          QuietRefusal(admit, before, ups, a, tree, err);
        }
      }
      out := Result(wrote, deleted);
      Conclude(admit, before, was, refused, tree, touched, a, ups, out, err);
      DiscardAll(writes, base);
    }
  }

  // The trees agree wherever no other writer has been.
  ghost predicate Same(before: Tree, after: Tree, touched: set<Path>)
  {
    forall p :: p !in touched ==> At(after, p) == At(before, p)
  }

  // The tree is where the landed updates take it, wherever no other writer has been.
  ghost predicate Reached(before: Tree, after: Tree, touched: set<Path>, landed: seq<Update>, err: Error)
  {
    forall p :: p !in touched ==> At(after, p) == At(Fold(before, landed), p) || Stranded(after, err, p)
  }

  lemma PathsNext(ups: seq<Update>, i: nat)
    requires i < |ups|
    ensures Paths(ups[..i + 1]) == Paths(ups[..i]) + [ups[i].path]
  {
  }

  lemma {:induction false} JudgePrefix(admit: (Path, bool) -> bool, ups: seq<Update>, i: nat)
    requires i <= |ups|
    ensures !Judge(admit, ups[..i]).Fine? ==> Judge(admit, ups) == Judge(admit, ups[..i])
  {
    if i == |ups| {
      assert ups[..i] == ups;
    } else {
      JudgePrefix(admit, ups[..|ups| - 1], i);
      assert ups[..|ups| - 1][..i] == ups[..i];
    }
  }

  lemma {:induction false} CheckedPrefix(t: Tree, ups: seq<Update>, read: nat -> bool, i: nat)
    requires i <= |ups|
    ensures !Checked(t, ups[..i], read).Fine? ==> Checked(t, ups, read) == Checked(t, ups[..i], read)
  {
    if i == |ups| {
      assert ups[..i] == ups;
    } else {
      CheckedPrefix(t, ups[..|ups| - 1], read, i);
      assert ups[..|ups| - 1][..i] == ups[..i];
    }
  }

  lemma {:induction false} StagedPrefix(ups: seq<Update>, staged: nat -> bool, i: nat)
    requires i <= |ups|
    ensures i == |ups| || !StagedOn(ups[..i], staged).Fine? ==> StagedOn(ups, staged) == StagedOn(ups[..i], staged)
  {
    if i == |ups| {
      assert ups[..i] == ups;
    } else {
      StagedPrefix(ups[..|ups| - 1], staged, i);
      assert ups[..|ups| - 1][..i] == ups[..i];
    }
  }

  lemma StagedNext(ups: seq<Update>, staged: nat -> bool, i: nat)
    requires i < |ups| && StagedOn(ups[..i], staged).Fine?
    ensures StagedOn(ups[..i + 1], staged)
         == if ups[i].content.Some? && !staged(i) then Fault(ups[i].path, Staging) else Fine
  {
    assert ups[..i + 1][..i] == ups[..i];
  }

  lemma {:induction false} StagedKinds(ups: seq<Update>, staged: nat -> bool)
    ensures !StagedOn(ups, staged).Fine? ==> StagedOn(ups, staged).Fault? && StagedOn(ups, staged).phase.Staging?
  {
    if ups != [] {
      StagedKinds(ups[..|ups| - 1], staged);
    }
  }

  lemma StageStart(ups: seq<Update>, temps: map<nat, Content>, base: map<nat, Content>, leaked: set<nat>, staged: nat -> bool)
    requires temps == base
    ensures Tidy(temps, base, leaked, []) && Ready([], temps, Writes(ups[..0])) && [] == Paths(Deletions(ups[..0]))
    ensures StagedOn(ups[..0], staged) == Fine
  {
  }

  lemma SplitNext(ups: seq<Update>, i: nat)
    requires i < |ups|
    ensures Writes(ups[..i + 1]) == if ups[i].content.Some? then Writes(ups[..i]) + [ups[i]] else Writes(ups[..i])
    ensures Deletions(ups[..i + 1]) == if ups[i].content.None? then Deletions(ups[..i]) + [ups[i]] else Deletions(ups[..i])
    ensures Paths(Deletions(ups[..i + 1])) == if ups[i].content.None? then Paths(Deletions(ups[..i])) + [ups[i].path] else Paths(Deletions(ups[..i]))
    ensures forall w :: w in Writes(ups[..i]) ==> w.content.Some?
  {
    assert ups[..i + 1][..i] == ups[..i];
  }

  // A freshly staged update joins the staged ones.
  lemma StageNext(writes: seq<Staged>, temps: map<nat, Content>, base: map<nat, Content>, leaked: set<nat>,
                  ws: seq<Update>, u: Update, temp: nat)
    requires Ready(writes, temps, ws) && Tidy(temps, base, leaked, writes) && u.content.Some?
    requires forall t :: t in temps ==> t < temp
    requires forall w :: w in ws ==> w.content.Some?
    ensures var more, after := writes + [Staged(u.path, temp, u.priorAbsent)], temps[temp := u.content.value];
      Ready(more, after, ws + [u]) && Tidy(after, base, leaked, more)
  {
    var more, after := writes + [Staged(u.path, temp, u.priorAbsent)], temps[temp := u.content.value];
    forall k | 0 <= k < |writes| ensures writes[k].temp in temps {
      assert ws[k] in ws;
    }
    assert more[|writes|].temp == temp;
    forall t | t in after && t !in leaked ensures t in base || exists k :: 0 <= k < |more| && more[k].temp == t {
      if t != temp && t !in base {
        var k :| 0 <= k < |writes| && writes[k].temp == t;
        assert more[k].temp == t;
      }
    }
  }

  // The commits so far: n writes landed and perhaps a fault in the next.
  ghost predicate Committed(before: Tree, after: Tree, touched: set<Path>, ws: seq<Update>, n: nat,
                            commits: nat -> CommitAnswers, err: Error)
  {
    && (if err.Fine? then n <= |ws| else n < |ws|)
    && Reached(before, after, touched, ws[..n], err)
    && Faulted(before, after, touched, ws, n, commits, err)
    && (touched == {} ==> Reach(after, n, err) == CommitsOn(before, ws[..if err.Fine? then n else n + 1], commits))
  }

  lemma CommitStart(writes: seq<Staged>, temps: map<nat, Content>, ws: seq<Update>, before: Tree, after: Tree,
                    touched: set<Path>, commits: nat -> CommitAnswers)
    requires Ready(writes, temps, ws) && Same(before, after, touched)
    ensures |writes| == |ws| && ws[0..] == ws && Ready(writes, temps, ws[0..])
    ensures Committed(before, after, touched, ws, 0, commits, Fine)
  {
    SameUntouched(before, after, touched);
  }

  lemma SameUntouched(before: Tree, after: Tree, touched: set<Path>)
    requires Same(before, after, touched)
    ensures touched == {} ==> after == before
  {
    SameTree(after, before);
  }

  lemma CommitReady(rest: seq<Staged>, temps: map<nat, Content>, ws: seq<Update>)
    requires Ready(rest, temps, ws) && rest != [] && forall w :: w in ws ==> w.content.Some?
    ensures rest[0].temp in temps && Some(temps[rest[0].temp]) == ws[0].content
    ensures rest[0].path == ws[0].path && rest[0].create == ws[0].priorAbsent
  {
  }

  // What one more commit does: elsewhere nothing, at its name what the answers say.
  ghost predicate CommitsOne(from: Tree, after: Tree, touched: set<Path>, u: Update, f: CommitAnswers, err: Error)
  {
    && (forall p :: p != u.path && p !in touched ==> At(after, p) == At(from, p))
    && (!err.Fine? ==> err.path == u.path)
    && (u.path !in touched ==>
          Spot(At(after, u.path), err) == CommitAt(u.path, At(from, u.path), u.priorAbsent, u.content, f))
  }

  // One more write has landed where it is wanted, or the fault has left at its name what the
  // answers say.
  lemma CommitNext(before: Tree, from: Tree, after: Tree, was: set<Path>, touched: set<Path>, ws: seq<Update>, n: nat,
                   commits: nat -> CommitAnswers, err: Error)
    requires n < |ws| && was <= touched && Committed(before, from, was, ws, n, commits, Fine)
    requires CommitsOne(from, after, touched, ws[n], commits(n), err)
    ensures Committed(before, after, touched, ws, if err.Fine? then n + 1 else n, commits, err)
  {
    hide Reached, CommitsOne, Faulted, CommitsOn;
    CommitReaches(before, from, after, was, touched, ws, n, commits, err);
    CommitFaults(before, from, after, was, touched, ws, n, commits, err);
    if touched == {} {
      CommitQuiet(before, from, after, ws, n, commits, err);
    }
  }

  lemma OneCommitted(from: Tree, after: Tree, touched: set<Path>, u: Update, f: CommitAnswers, err: Error)
    requires forall p :: p != u.path && p !in touched ==> At(after, p) == At(from, p)
    requires !err.Fine? ==> err.path == u.path
    requires u.path !in touched ==>
      Spot(At(after, u.path), err) == CommitAt(u.path, At(from, u.path), u.priorAbsent, u.content, f)
    ensures CommitsOne(from, after, touched, u, f, err)
  {
  }

  lemma CommitReaches(before: Tree, from: Tree, after: Tree, was: set<Path>, touched: set<Path>, ws: seq<Update>, n: nat,
                      commits: nat -> CommitAnswers, err: Error)
    requires n < |ws| && was <= touched && Reached(before, from, was, ws[..n], Fine)
    requires CommitsOne(from, after, touched, ws[n], commits(n), err)
    ensures Reached(before, after, touched, ws[..if err.Fine? then n + 1 else n], err)
  {
    hide Fold, CommitAt;
    var u := ws[n];
    FoldNext(before, ws, n);
    CommitKinds(u.path, At(from, u.path), u.priorAbsent, u.content, commits(n));
    forall p | p !in touched
      ensures At(after, p) == At(Fold(before, ws[..if err.Fine? then n + 1 else n]), p) || Stranded(after, err, p)
    {
      assert At(from, p) == At(Fold(before, ws[..n]), p);
    }
  }

  lemma CommitFaults(before: Tree, from: Tree, after: Tree, was: set<Path>, touched: set<Path>, ws: seq<Update>, n: nat,
                     commits: nat -> CommitAnswers, err: Error)
    requires n < |ws| && was <= touched && Reached(before, from, was, ws[..n], Fine)
    requires CommitsOne(from, after, touched, ws[n], commits(n), err)
    ensures Faulted(before, after, touched, ws, if err.Fine? then n + 1 else n, commits, err)
  {
    hide Fold, CommitAt;
    var p := ws[n].path;
    assert p !in touched ==> At(from, p) == At(Fold(before, ws[..n]), p);
  }

  lemma CommitQuiet(before: Tree, from: Tree, after: Tree, ws: seq<Update>, n: nat, commits: nat -> CommitAnswers, err: Error)
    requires n < |ws| && Reach(from, n, Fine) == CommitsOn(before, ws[..n], commits)
    requires CommitsOne(from, after, {}, ws[n], commits(n), err)
    ensures Reach(after, if err.Fine? then n + 1 else n, err) == CommitsOn(before, ws[..n + 1], commits)
  {
    hide CommitAt;
    var p := ws[n].path;
    assert ws[..n + 1][..n] == ws[..n];
    SameTree(after, Set(from, p, At(after, p)));
  }

  lemma FoldNext(t: Tree, us: seq<Update>, n: nat)
    requires n < |us|
    ensures Fold(t, us[..n + 1]) == Put(Fold(t, us[..n]), us[n])
  {
    assert us[..n + 1][..n] == us[..n];
  }

  // A commit lands what is wanted, leaves the name as it was, or leaves its reservation there.
  lemma CommitKinds(path: Path, was: Option<Content>, create: bool, wanted: Option<Content>, f: CommitAnswers)
    ensures var s := CommitAt(path, was, create, wanted, f);
      && (s.err.Fine? ==> s.content == wanted)
      && (s.err.Fine? || s.content == was
          || (s.content == Some(Empty) && (s.err == Residue(path) || s.err == Fault(path, Landing))))
  {
  }

  lemma {:induction false} CommitsPrefix(t: Tree, ws: seq<Update>, commits: nat -> CommitAnswers, i: nat)
    requires i <= |ws|
    ensures i == |ws| || !CommitsOn(t, ws[..i], commits).err.Fine? ==> CommitsOn(t, ws, commits) == CommitsOn(t, ws[..i], commits)
  {
    if i == |ws| {
      assert ws[..i] == ws;
    } else {
      CommitsPrefix(t, ws[..|ws| - 1], commits, i);
      assert ws[..|ws| - 1][..i] == ws[..i];
    }
  }

  lemma CommitEnd(before: Tree, after: Tree, touched: set<Path>, ws: seq<Update>, commits: nat -> CommitAnswers, n: nat, err: Error)
    requires Committed(before, after, touched, ws, n, commits, err) && (err.Fine? ==> n == |ws|)
    ensures Reached(before, after, touched, ws[..n], err) && Faulted(before, after, touched, ws, n, commits, err)
    ensures touched == {} ==> Reach(after, n, err) == CommitsOn(before, ws, commits)
  {
    hide Reached, Faulted, CommitsOn;
    CommitsPrefix(before, ws, commits, if err.Fine? then n else n + 1);
  }

  lemma RemoveStart(before: Tree, mid: Tree, touched: set<Path>, landed: seq<Update>, ds: seq<Update>, removed: nat -> bool)
    requires Reached(before, mid, touched, landed, Fine)
    ensures landed + ds[..0] == landed && Reached(before, mid, touched, landed + ds[..0], Fine) && !LandingFault(Fine)
    ensures Reach(mid, 0, Fine) == RemovalsOn(mid, ds[..0], removed)
  {
    assert landed + ds[..0] == landed;
  }

  lemma RemoveNext(before: Tree, mid: Tree, from: Tree, met: Tree, after: Tree, was: set<Path>, touched: set<Path>,
                   landed: seq<Update>, ds: seq<Update>, n: nat, removed: nat -> bool, err: Error)
    requires n < |ds| && ds[n].content.None? && Reached(before, from, was, landed + ds[..n], Fine) && was <= touched
    requires forall p :: p !in touched ==> At(met, p) == At(from, p)
    requires err == if removed(n) && ds[n].path in met then Fine else Fault(ds[n].path, Removing)
    requires after == if err.Fine? then met - {ds[n].path} else met
    requires was == {} ==> Reach(from, n, Fine) == RemovalsOn(mid, ds[..n], removed)
    ensures !LandingFault(err)
    ensures Reached(before, after, touched, landed + ds[..if err.Fine? then n + 1 else n], err)
    ensures touched == {} ==> Reach(after, if err.Fine? then n + 1 else n, err) == RemovalsOn(mid, ds[..n + 1], removed)
  {
    assert (landed + ds[..n + 1])[..|landed| + n] == landed + ds[..n] && (landed + ds[..n + 1])[|landed| + n] == ds[n];
    assert ds[..n + 1][..n] == ds[..n];
    if touched == {} {
      SameTree(met, from);
    }
  }

  lemma {:induction false} RemovalsPrefix(t: Tree, ds: seq<Update>, removed: nat -> bool, i: nat)
    requires i <= |ds|
    ensures i == |ds| || !RemovalsOn(t, ds[..i], removed).err.Fine? ==> RemovalsOn(t, ds, removed) == RemovalsOn(t, ds[..i], removed)
  {
    if i == |ds| {
      assert ds[..i] == ds;
    } else {
      RemovalsPrefix(t, ds[..|ds| - 1], removed, i);
      assert ds[..|ds| - 1][..i] == ds[..i];
    }
  }

  lemma RemoveEnd(t: Tree, ds: seq<Update>, removed: nat -> bool, n: nat, err: Error)
    requires n <= |ds| && (if err.Fine? then n == |ds| else n < |ds|)
    ensures var i := if err.Fine? then n else n + 1;
      RemovalsOn(t, ds[..i], removed).err == err ==> RemovalsOn(t, ds, removed) == RemovalsOn(t, ds[..i], removed)
  {
    RemovalsPrefix(t, ds, removed, if err.Fine? then n else n + 1);
  }

  lemma TempSpent(rest: seq<Staged>, temps: map<nat, Content>, base: map<nat, Content>, leaked: set<nat>, ws: seq<Update>)
    requires Ready(rest, temps, ws) && Tidy(temps, base, leaked, rest) && rest != []
    ensures Ready(rest[1..], temps - {rest[0].temp}, ws[1..]) && Tidy(temps - {rest[0].temp}, base, leaked, rest[1..])
  {
  }

  // What holds once everything before the first commit is done.
  ghost predicate Judged(admit: (Path, bool) -> bool, before: Tree, after: Tree, touched: set<Path>, ups: seq<Update>, err: Error)
  {
    && Same(before, after, touched) && !LandingFault(err)
    && (Judge(admit, ups) != Fine ==> err == Judge(admit, ups))
    && (err.Fine? ==> Lawful(admit, before, touched, ups))
  }

  lemma JudgedSame(admit: (Path, bool) -> bool, before: Tree, after: Tree, touched: set<Path>, ups: seq<Update>, err: Error)
    requires Judged(admit, before, after, touched, ups, err)
    ensures Same(before, after, touched)
    ensures forall u :: u in Writes(ups) ==> u.content.Some?
    ensures forall u :: u in Deletions(ups) ==> u.content.None?
  {
  }

  lemma AllWrites(ups: seq<Update>, d: nat)
    requires d <= |Deletions(ups)|
    ensures Writes(ups) + Deletions(ups)[..d] == Landed(ups, |Writes(ups)|, d)
  {
  }

  lemma NoDeletions(ups: seq<Update>, w: nat)
    requires w <= |Writes(ups)|
    ensures Writes(ups)[..w] == Landed(ups, w, 0)
  {
  }

  lemma NothingLanded(admit: (Path, bool) -> bool, before: Tree, after: Tree, touched: set<Path>, ups: seq<Update>, err: Error)
    requires Judged(admit, before, after, touched, ups, err)
    ensures Landed(ups, 0, 0) == [] && Reached(before, after, touched, Landed(ups, 0, 0), err)
  {
  }

  lemma NothingFaulted(admit: (Path, bool) -> bool, before: Tree, after: Tree, touched: set<Path>, ups: seq<Update>, a: Answers, err: Error)
    requires Judged(admit, before, after, touched, ups, err)
    ensures Same(before, after, touched) && Faulted(before, after, touched, Writes(ups), 0, a.commits, err)
  {
  }

  lemma NoLandingFault(before: Tree, after: Tree, touched: set<Path>, ws: seq<Update>, w: nat, commits: nat -> CommitAnswers, err: Error)
    requires !LandingFault(err)
    ensures Faulted(before, after, touched, ws, w, commits, err)
  {
  }

  lemma QuietRefusal(admit: (Path, bool) -> bool, before: Tree, ups: seq<Update>, a: Answers, after: Tree, err: Error)
    requires err == Prepared(admit, before, ups, a) && !err.Fine? && Same(before, after, {})
    ensures Quiet(admit, before, ups, a) == Outcome(after, Result([], []), err)
  {
    SameUntouched(before, after, {});
  }

  lemma QuietLanding(admit: (Path, bool) -> bool, before: Tree, ups: seq<Update>, a: Answers,
                     mid: Tree, wrote: seq<Path>, landing: Error, after: Tree, deleted: seq<Path>, err: Error)
    requires Prepared(admit, before, ups, a).Fine?
    requires Reach(mid, |wrote|, landing) == CommitsOn(before, Writes(ups), a.commits)
    requires |wrote| <= |Writes(ups)| && wrote == Paths(Writes(ups))[..|wrote|]
    requires !landing.Fine? ==> after == mid && deleted == [] && err == landing
    requires landing.Fine? ==> Reach(after, |deleted|, err) == RemovalsOn(mid, Deletions(ups), a.removed)
    requires |deleted| <= |Deletions(ups)| && deleted == Paths(Deletions(ups))[..|deleted|]
    ensures Quiet(admit, before, ups, a) == Outcome(after, Result(wrote, deleted), err)
  {
    hide CommitsOn, RemovalsOn, Prepared, Writes, Deletions;
  }

  lemma Conclude(admit: (Path, bool) -> bool, before: Tree, was: set<Path>, refused: Error,
                 after: Tree, touched: set<Path>, a: Answers, ups: seq<Update>, out: Result, err: Error)
    requires exists mid :: Judged(admit, before, mid, was, ups, refused)
    requires was <= touched
    requires !refused.Fine? ==> err == refused && touched == was && out == Result([], [])
    requires |out.wrote| <= |Writes(ups)| && out.wrote == Paths(Writes(ups))[..|out.wrote|]
    requires |out.deleted| <= |Deletions(ups)| && out.deleted == Paths(Deletions(ups))[..|out.deleted|]
    requires out.deleted != [] ==> |out.wrote| == |Writes(ups)|
    requires err.Fine? ==> |out.wrote| == |Writes(ups)| && |out.deleted| == |Deletions(ups)|
    requires Reached(before, after, touched, Landed(ups, |out.wrote|, |out.deleted|), err)
    requires Faulted(before, after, touched, Writes(ups), |out.wrote|, a.commits, err)
    ensures Applied(admit, before, after, touched, a, ups, out, err)
  {
    hide Faulted, Fold, Writes, Deletions, Landed, Judge, Holds, Stranded;
  }

  // ----- what an apply leaves -----

  // Distinct paths: each keeps what its own update gave it, and every other path keeps its file.
  lemma {:induction false} FoldAt(t: Tree, us: seq<Update>, p: Path)
    requires Distinct(us)
    ensures p !in Paths(us) ==> At(Fold(t, us), p) == At(t, p)
    ensures forall i :: 0 <= i < |us| && us[i].path == p ==> At(Fold(t, us), p) == us[i].content
  {
    if us != [] {
      var before := us[..|us| - 1];
      FoldAt(t, before, p);
      assert us[|us| - 1].path == Paths(us)[|us| - 1];
      if p !in Paths(us) {
        assert forall i :: 0 <= i < |before| ==> Paths(before)[i] == Paths(us)[i];
      }
      if us[|us| - 1].path != p {
        assert forall i :: 0 <= i < |us| && us[i].path == p ==> i < |before| && before[i] == us[i];
      }
    }
  }

  lemma {:induction false} WritesDistinct(ups: seq<Update>)
    requires Distinct(ups)
    ensures Distinct(Writes(ups)) && Distinct(Deletions(ups))
  {
    if ups != [] {
      var before, u := ups[..|ups| - 1], ups[|ups| - 1];
      WritesDistinct(before);
      forall v | v in before ensures v.path != u.path {
        var i :| 0 <= i < |before| && before[i] == v;
        assert ups[i].path != ups[|ups| - 1].path;
      }
      forall i | 0 <= i < |Writes(before)| ensures Writes(before)[i].path != u.path {
        assert Writes(before)[i] in Writes(before);
      }
      forall i | 0 <= i < |Deletions(before)| ensures Deletions(before)[i].path != u.path {
        assert Deletions(before)[i] in Deletions(before);
      }
    }
  }

  lemma LandedDistinct(ups: seq<Update>, w: nat, d: nat)
    requires Distinct(ups) && w <= |Writes(ups)| && d <= |Deletions(ups)|
    ensures Distinct(Landed(ups, w, d)) && forall u :: u in Landed(ups, w, d) ==> u in ups
    ensures w == |Writes(ups)| && d == |Deletions(ups)| ==> forall u :: u in ups ==> u in Landed(ups, w, d)
  {
    WritesDistinct(ups);
    forall i, j | 0 <= i < w && 0 <= j < d ensures Writes(ups)[i].path != Deletions(ups)[j].path {
      var u, v := Writes(ups)[i], Deletions(ups)[j];
      assert u in Writes(ups) && v in Deletions(ups);
      var a :| 0 <= a < |ups| && ups[a] == u;
      var b :| 0 <= b < |ups| && ups[b] == v;
      assert a != b;
      assert a < b ==> ups[a].path != ups[b].path;
    }
    var landed := Landed(ups, w, d);
    if w == |Writes(ups)| && d == |Deletions(ups)| {
      forall u | u in ups ensures u in landed {
        assert u in Writes(ups) || u in Deletions(ups);
      }
    }
  }

  // Success: every path of the batch holds exactly what its update wanted, every other path what
  // it held, and each update found there what its operation had read.
  lemma SuccessIsWhole(admit: (Path, bool) -> bool, before: Tree, after: Tree, touched: set<Path>, a: Answers,
                       ups: seq<Update>, out: Result, err: Error, u: Update, p: Path)
    requires Applied(admit, before, after, touched, a, ups, out, err) && err.Fine?
    ensures u in ups && u.path !in touched ==> Holds(before, u) && At(after, u.path) == u.content
    ensures p !in Paths(ups) && p !in touched ==> At(after, p) == At(before, p)
  {
    hide Fold, Writes, Deletions, Landed, Holds;
    JudgeFine(admit, ups);
    var landed := Landed(ups, |out.wrote|, |out.deleted|);
    LandedDistinct(ups, |out.wrote|, |out.deleted|);
    if u in ups && u.path !in touched {
      FoldAt(before, landed, u.path);
      assert u in landed;
    }
    if p !in Paths(ups) && p !in touched {
      FoldAt(before, landed, p);
      OutsideLanded(ups, landed, p);
    }
  }

  lemma OutsideLanded(ups: seq<Update>, landed: seq<Update>, p: Path)
    requires p !in Paths(ups) && forall u :: u in landed ==> u in ups
    ensures p !in Paths(landed)
  {
    forall i | 0 <= i < |landed| ensures Paths(landed)[i] != p {
      assert landed[i] in landed;
      var k :| 0 <= k < |ups| && ups[k] == landed[i];
      assert Paths(ups)[k] != p;
    }
  }

  // A fault: the paths the result does not name are as they were, but for an empty reservation
  // where the failed commit names it in the error or could not look at it.
  lemma FaultIsNamed(admit: (Path, bool) -> bool, before: Tree, after: Tree, touched: set<Path>, a: Answers,
                     ups: seq<Update>, out: Result, err: Error, p: Path)
    requires Applied(admit, before, after, touched, a, ups, out, err) && p !in touched
    requires p !in out.wrote + out.deleted
    ensures At(after, p) == At(before, p)
      || (At(after, p) == Some(Empty) && (err == Residue(p) || (err == Fault(p, Landing) && Strands(a.commits(|out.wrote|)))))
  {
    hide Fold, Writes, Deletions, Stranded, Faulted, Strands;
    var w, d := |out.wrote|, |out.deleted|;
    var landed := Landed(ups, w, d);
    if w + d == 0 {
      assert landed == [];
      assert At(Fold(before, []), p) == At(before, p) by { FoldAt(before, [], p); }
    } else {
      JudgeFine(admit, ups);
      LandedDistinct(ups, w, d);
      FoldAt(before, landed, p);
      assert Paths(landed) == out.wrote + out.deleted;
    }
    if Stranded(after, err, p) {
      StrandedKinds(after, err, p);
    }
    if err == Fault(p, Landing) {
      UnnamedExactly(admit, before, after, touched, a, ups, out, err, p);
    }
  }

  lemma StrandedKinds(after: Tree, err: Error, p: Path)
    requires Stranded(after, err, p)
    ensures At(after, p) == Some(Empty) && (err == Residue(p) || err == Fault(p, Landing))
  {
  }

  // Where no other writer is, a failed commit leaves its reservation standing unnamed exactly when
  // it is a create whose answers strand it: reserved, not renamed, and the look at it failed.
  lemma UnnamedExactly(admit: (Path, bool) -> bool, before: Tree, after: Tree, touched: set<Path>, a: Answers,
                       ups: seq<Update>, out: Result, err: Error, p: Path)
    requires Applied(admit, before, after, touched, a, ups, out, err) && p !in touched && err == Fault(p, Landing)
    ensures var w := |out.wrote|;
      && w < |Writes(ups)| && Writes(ups)[w].path == p
      && (p !in before && At(after, p) == Some(Empty) <==> Writes(ups)[w].priorAbsent && Strands(a.commits(w)))
      && (At(after, p) != At(before, p) ==> Writes(ups)[w].priorAbsent && Strands(a.commits(w)))
  {
    hide Fold, Writes, Deletions, Landed, Stranded;
    var w := |out.wrote|;
    var ws := Writes(ups);
    JudgeFine(admit, ups);
    WritesDistinct(ups);
    FoldAt(before, ws[..w], p);
    assert p !in Paths(ws[..w]);
    assert ws[w] in ws;
    var i :| 0 <= i < |ups| && ups[i] == ws[w];
    assert Holds(before, ups[i]);
  }

  // Where no other writer is, a commit that fails leaves its name as it was, but for the empty
  // reservation of a create: that stands exactly when the name was reserved and either it could not
  // be identified, or the file was not renamed over it and the look at it or its removal failed too;
  // and the error names it exactly when it stands and the look, if one was due, succeeded.
  lemma ReservationExactly(admit: (Path, bool) -> bool, before: Tree, after: Tree, touched: set<Path>, a: Answers,
                           ups: seq<Update>, out: Result, err: Error, p: Path)
    requires Applied(admit, before, after, touched, a, ups, out, err) && p !in touched
    requires err == Fault(p, Landing) || err == Residue(p)
    ensures var w := |out.wrote|;
      && w < |Writes(ups)| && Writes(ups)[w].path == p
      && var f, create := a.commits(w), Writes(ups)[w].priorAbsent;
         var reserved := create && f.opens && !(f.stats && f.closes && f.renames);
         && At(after, p) == (if reserved && !(f.stats && f.looks && f.removes) then Some(Empty) else At(before, p))
         && (err == Residue(p) <==> reserved && (!f.stats || (f.looks && !f.removes)))
         && (create ==> p !in before)
  {
    hide Fold, Writes, Deletions, Landed, Stranded;
    var w := |out.wrote|;
    var ws := Writes(ups);
    JudgeFine(admit, ups);
    WritesDistinct(ups);
    FoldAt(before, ws[..w], p);
    assert p !in Paths(ws[..w]);
    assert ws[w] in ws;
    var i :| 0 <= i < |ups| && ups[i] == ws[w];
    assert Holds(before, ups[i]);
  }

  // ----- the reservation that stands unnamed -----

  // Whether a write lands under its commit's answers, its precondition standing.
  predicate Goes(u: Update, f: CommitAnswers)
  {
    f.renames && (u.priorAbsent ==> f.opens && f.stats && f.closes)
  }

  // The first commit that cannot land is a create whose answers strand its reservation.
  ghost predicate StrandsFirst(ws: seq<Update>, commits: nat -> CommitAnswers, k: nat)
  {
    && k < |ws| && ws[k].priorAbsent && Strands(commits(k))
    && forall j: nat :: j < k ==> Goes(ws[j], commits(j))
  }

  lemma {:induction false} PreparedKinds(admit: (Path, bool) -> bool, t: Tree, ups: seq<Update>, a: Answers)
    ensures !LandingFault(Judge(admit, ups)) && !LandingFault(Checked(t, ups, a.read)) && !LandingFault(StagedOn(ups, a.staged))
  {
    if ups != [] {
      PreparedKinds(admit, t, ups[..|ups| - 1], a);
    }
  }

  lemma {:induction false} RemovalsKinds(t: Tree, ds: seq<Update>, removed: nat -> bool)
    ensures !LandingFault(RemovalsOn(t, ds, removed).err)
  {
    if ds != [] {
      RemovalsKinds(t, ds[..|ds| - 1], removed);
    }
  }

  // A batch that gets as far as its commits: distinct writes, each finding what it read.
  lemma WritesHold(admit: (Path, bool) -> bool, t: Tree, ups: seq<Update>, a: Answers)
    requires Prepared(admit, t, ups, a).Fine?
    ensures Distinct(Writes(ups)) && forall w :: w in Writes(ups) ==> Holds(t, w)
  {
    hide Judge, Checked, Holds, Writes, StagedOn;
    JudgeFine(admit, ups);
    CheckedHolds(t, ups, a.read);
    WritesDistinct(ups);
    forall w | w in Writes(ups) ensures Holds(t, w) {
      var i: nat :| i < |ups| && ups[i] == w;
      assert a.read(i) && Holds(t, ups[i]);
    }
  }

  // What one commit leaves of a write whose precondition stands.
  lemma GoesOrFails(t: Tree, u: Update, f: CommitAnswers)
    requires Holds(t, u)
    ensures var s := CommitAt(u.path, At(t, u.path), u.priorAbsent, u.content, f);
      && (s.err.Fine? <==> Goes(u, f)) && (!s.err.Fine? ==> s.err.path == u.path)
      && (u.path !in t && s.content == Some(Empty) && s.err == Fault(u.path, Landing) <==> u.priorAbsent && Strands(f))
  {
  }

  // The commits stop at the first write that does not go, having left the other names alone.
  lemma {:induction false} CommitsStop(t: Tree, ws: seq<Update>, commits: nat -> CommitAnswers)
    requires Distinct(ws) && forall w :: w in ws ==> Holds(t, w)
    ensures var c := CommitsOn(t, ws, commits);
      && (c.err.Fine? <==> c.done == |ws|)
      && (forall j: nat :: j < c.done ==> Goes(ws[j], commits(j)))
      && (forall p :: p !in Paths(ws) ==> At(c.tree, p) == At(t, p))
      && (c.done < |ws| ==>
            var u := ws[c.done];
            Spot(At(c.tree, u.path), c.err) == CommitAt(u.path, At(t, u.path), u.priorAbsent, u.content, commits(c.done)))
  {
    hide CommitAt, Goes, Holds;
    if ws != [] {
      var k := |ws| - 1;
      CommitsStop(t, ws[..k], commits);
      assert forall j :: 0 <= j < k ==> Paths(ws)[j] == Paths(ws[..k])[j];
      assert Paths(ws)[k] == ws[k].path;
      assert ws[k].path !in Paths(ws[..k]);
      assert ws[k] in ws;
      GoesOrFails(t, ws[k], commits(k));
    }
  }

  lemma StopsOnce(ws: seq<Update>, commits: nat -> CommitAnswers, done: nat)
    requires done <= |ws| && (forall j: nat :: j < done ==> Goes(ws[j], commits(j)))
    requires done < |ws| ==> !Goes(ws[done], commits(done))
    ensures (exists k: nat :: StrandsFirst(ws, commits, k)) <==> StrandsFirst(ws, commits, done)
  {
    forall k: nat | StrandsFirst(ws, commits, k) ensures k == done {
      assert !Goes(ws[k], commits(k));
    }
  }

  // Over every batch and every answer of the file system: an undisturbed apply leaves a reservation
  // standing that its error does not name exactly when the batch gets as far as its commits and the
  // first commit that cannot land strands it.
  lemma UnnamedIffStranded(admit: (Path, bool) -> bool, before: Tree, ups: seq<Update>, a: Answers)
    ensures var o := Quiet(admit, before, ups, a);
      (exists p :: p !in before && At(o.tree, p) == Some(Empty) && o.err == Fault(p, Landing))
      <==> Prepared(admit, before, ups, a).Fine? && exists k: nat :: StrandsFirst(Writes(ups), a.commits, k)
  {
    hide CommitsOn, RemovalsOn, CommitAt, Goes, Holds, Judge, Checked, StagedOn, Writes, Deletions, Strands;
    PreparedKinds(admit, before, ups, a);
    var o, ws := Quiet(admit, before, ups, a), Writes(ups);
    if Prepared(admit, before, ups, a).Fine? {
      WritesHold(admit, before, ups, a);
      CommitsStop(before, ws, a.commits);
      var c := CommitsOn(before, ws, a.commits);
      RemovalsKinds(c.tree, Deletions(ups), a.removed);
      if c.done < |ws| {
        assert ws[c.done] in ws;
        GoesOrFails(before, ws[c.done], a.commits(c.done));
      }
      StopsOnce(ws, a.commits, c.done);
    }
  }

  lemma OnePrepared(admit: (Path, bool) -> bool, t: Tree, p: Path, content: Content, a: Answers)
    requires p !in t && admit(p, false) && a.read(0) && a.staged(0)
    ensures Prepared(admit, t, [Update(p, Some(content), None, true, false)], a) == Fine
  {
    hide Judge, Checked;
    var u := Update(p, Some(content), None, true, false);
    JudgeFine(admit, [u]);
    CheckedHolds(t, [u], a.read);
    assert StagedOn([u][..0], a.staged) == Fine;
  }

  lemma OneCreate(admit: (Path, bool) -> bool, t: Tree, p: Path, content: Content, a: Answers)
    requires p !in t && admit(p, false) && a.read(0) && a.staged(0)
    requires a.commits(0).opens && a.commits(0).stats && !a.commits(0).renames && !a.commits(0).looks
    ensures Quiet(admit, t, [Update(p, Some(content), None, true, false)], a)
         == Outcome(t[p := Empty], Result([], []), Fault(p, Landing))
  {
    hide Prepared;
    var u := Update(p, Some(content), None, true, false);
    assert [u][..0] == [];
    assert Writes([u]) == [u];
    OnePrepared(admit, t, p, content, a);
    assert CommitsOn(t, [u], a.commits) == Reach(t[p := Empty], 0, Fault(p, Landing));
  }

  // The create of an absent file whose rename fails, and then the look at the name too: the empty
  // file stands and the error is the rename's alone.
  method LeaveUnnamed(applier: Applier, p: Path, content: Content) returns (out: Result, err: Error)
    requires applier.Valid() && p !in applier.tree && applier.admit(p, false)
    modifies applier
    ensures applier.touched == {} ==>
      applier.tree == old(applier.tree)[p := Empty] && out == Result([], []) && err == Fault(p, Landing)
  {
    var batch := [Update(p, Some(content), None, true, false)];
    var answers := Answers(_ => true, _ => true, _ => CommitAnswers(true, true, true, false, false, true), _ => true);
    ghost var before := applier.tree;
    out, err := applier.Apply(batch, answers);
    OneCreate(applier.admit, before, p, content, answers);
  }

  // ----- no lost update, over any run of batches -----

  // A batch and how much of it landed.
  datatype Batch = Batch(ups: seq<Update>, wrote: nat, deleted: nat)

  // What one apply does to the tree when no other writer intervenes and nothing is stranded.
  ghost predicate Lands(t: Tree, b: Batch)
  {
    && b.wrote <= |Writes(b.ups)| && b.deleted <= |Deletions(b.ups)|
    && (b.wrote + b.deleted > 0 ==> Distinct(b.ups) && forall i :: 0 <= i < |b.ups| ==> Holds(t, b.ups[i]))
  }

  lemma AppliedLands(admit: (Path, bool) -> bool, before: Tree, after: Tree, a: Answers, ups: seq<Update>, out: Result, err: Error)
    requires Applied(admit, before, after, {}, a, ups, out, err) && forall p :: !Stranded(after, err, p)
    ensures var b := Batch(ups, |out.wrote|, |out.deleted|);
      Lands(before, b) && after == Fold(before, Landed(ups, b.wrote, b.deleted))
  {
    hide Fold, Stranded, Writes, Deletions, Holds, Landed, Faulted;
    JudgeFine(admit, ups);
    SameTree(after, Fold(before, Landed(ups, |out.wrote|, |out.deleted|)));
  }

  lemma SameTree(a: Tree, b: Tree)
    ensures (forall p :: At(a, p) == At(b, p)) ==> a == b
  {
    if forall p :: At(a, p) == At(b, p) {
      forall p ensures p in a <==> p in b {
        assert At(a, p) == At(b, p);
      }
      forall p | p in a ensures a[p] == b[p] {
        assert At(a, p) == At(b, p);
      }
    }
  }

  // Everything a run lands, in landing order.
  function History(run: seq<Batch>): seq<Update>
    requires forall i :: 0 <= i < |run| ==> run[i].wrote <= |Writes(run[i].ups)| && run[i].deleted <= |Deletions(run[i].ups)|
  {
    if run == [] then []
    else
      var b := run[|run| - 1];
      History(run[..|run| - 1]) + Landed(b.ups, b.wrote, b.deleted)
  }

  // A run through one applier: each batch meets the tree the earlier ones left.
  ghost predicate IsRun(t: Tree, run: seq<Batch>)
  {
    && (forall i :: 0 <= i < |run| ==> run[i].wrote <= |Writes(run[i].ups)| && run[i].deleted <= |Deletions(run[i].ups)|)
    && forall i :: 0 <= i < |run| ==> Lands(Fold(t, History(run[..i])), run[i])
  }

  lemma {:induction false} FoldAppend(t: Tree, a: seq<Update>, b: seq<Update>)
    ensures Fold(t, a + b) == Fold(Fold(t, a), b)
  {
    if b == [] {
      assert a + b == a;
    } else {
      assert (a + b)[..|a + b| - 1] == a + b[..|b| - 1];
      FoldAppend(t, a, b[..|b| - 1]);
    }
  }

  // Within one batch an earlier landing leaves a later one's precondition standing.
  lemma BatchChain(t: Tree, b: Batch, k: nat)
    requires Lands(t, b) && k < |Landed(b.ups, b.wrote, b.deleted)|
    ensures var landed := Landed(b.ups, b.wrote, b.deleted);
      Holds(Fold(t, landed[..k]), landed[k])
  {
    hide Writes, Deletions, Landed, Fold;
    var landed := Landed(b.ups, b.wrote, b.deleted);
    assert b.wrote + b.deleted > 0 by { LandedSize(b); }
    LandedDistinct(b.ups, b.wrote, b.deleted);
    FoldAt(t, landed[..k], landed[k].path);
    assert landed[k].path !in Paths(landed[..k]);
    assert landed[k] in landed;
    var i :| 0 <= i < |b.ups| && b.ups[i] == landed[k];
    assert Holds(t, b.ups[i]);
  }

  lemma LandedSize(b: Batch)
    requires b.wrote <= |Writes(b.ups)| && b.deleted <= |Deletions(b.ups)|
    ensures |Landed(b.ups, b.wrote, b.deleted)| == b.wrote + b.deleted
  {
  }

  // No lost update: over any run of batches, partly landed ones included, every update that lands
  // replaces exactly what its operation read.
  lemma {:induction false} NoLostUpdate(t: Tree, run: seq<Batch>, k: nat)
    requires IsRun(t, run) && k < |History(run)|
    decreases |run|
    ensures Holds(Fold(t, History(run)[..k]), History(run)[k])
  {
    hide Fold, Holds, Landed, Writes, Deletions, Lands;
    var before, b := run[..|run| - 1], run[|run| - 1];
    RunSplits(t, run);
    var earlier, landed := History(before), Landed(b.ups, b.wrote, b.deleted);
    if k < |earlier| {
      NoLostUpdate(t, before, k);
      assert History(run)[..k] == earlier[..k];
    } else {
      BatchChain(Fold(t, earlier), b, k - |earlier|);
      assert History(run)[..k] == earlier + landed[..k - |earlier|];
      FoldAppend(t, earlier, landed[..k - |earlier|]);
    }
  }

  lemma RunSplits(t: Tree, run: seq<Batch>)
    requires IsRun(t, run) && run != []
    ensures var before, b := run[..|run| - 1], run[|run| - 1];
      && IsRun(t, before) && b.wrote <= |Writes(b.ups)| && b.deleted <= |Deletions(b.ups)|
      && Lands(Fold(t, History(before)), b)
      && History(run) == History(before) + Landed(b.ups, b.wrote, b.deleted)
  {
    hide Fold, Landed, Writes, Deletions, Lands;
    var before := run[..|run| - 1];
    assert forall i :: 0 <= i < |before| ==> before[..i] == run[..i];
  }

  // Hence of two landings at one path with none between, the later operation read what the earlier
  // one wrote.
  lemma ReadsLastWrite(t: Tree, run: seq<Batch>, i: nat, k: nat)
    requires IsRun(t, run) && i < k < |History(run)| && History(run)[i].path == History(run)[k].path
    requires forall j :: i < j < k ==> History(run)[j].path != History(run)[k].path
    ensures var u := History(run)[k];
      History(run)[i].content == if u.priorAbsent then None else u.prior
  {
    hide Writes, Deletions, Landed, Lands, History;
    NoLostUpdate(t, run, k);
    LastPut(t, History(run), i, k);
  }

  lemma {:induction false} LastPut(t: Tree, us: seq<Update>, i: nat, k: nat)
    requires i < k <= |us| && forall j :: i < j < k ==> us[j].path != us[i].path
    ensures At(Fold(t, us[..k]), us[i].path) == us[i].content
  {
    assert us[..k][..k - 1] == us[..k - 1];
    if k > i + 1 {
      LastPut(t, us, i, k - 1);
    }
  }
}
