/** The symbol retarget (internal/author/retarget.go): binding symbols under one prefix move to
    another, at a path or member boundary, unless the store would then carry one claim twice; the
    enforcement pointers that name a moved member are respliced in the document. */
module Retarget {
  import opened Basics
  import opened Clauses

  type Digest = nat

  const UNSET: Digest := 0

  // ----- prefixes -----

  // The prefix ends the symbol, or a separator follows it.
  predicate Matches(symbol: string, prefix: string)
  {
    prefix <= symbol && (|symbol| == |prefix| || symbol[|prefix|] in {'/', '.'})
  }

  function Moved(symbol: string, old_: string, new_: string): string
    requires old_ <= symbol
  {
    new_ + symbol[|old_|..]
  }

  // Moving a matching symbol leaves one that matches the new prefix, and moving it back restores it.
  lemma MoveBack(symbol: string, old_: string, new_: string)
    requires Matches(symbol, old_)
    ensures Matches(Moved(symbol, old_, new_), new_)
    ensures Moved(Moved(symbol, old_, new_), new_, old_) == symbol
  {
  }

  // ----- claims -----

  datatype Claim = Claim(requirement: nat, backend: nat, symbol: string, role: Role, scope: Scope, shape: Digest)

  // A claim's identity short of its clause.
  datatype Coordinates = Coordinates(requirement: nat, backend: nat, symbol: string, role: Role)

  function At(c: Claim): Coordinates
  {
    Coordinates(c.requirement, c.backend, c.symbol, c.role)
  }

  type Corpus = map<nat, seq<Clause>>

  function ClausesOf(corpus: Corpus, id: nat): seq<Clause>
  {
    if id in corpus then corpus[id] else []
  }

  // Two claims of one identity: requirement, backend, symbol, role and resolved clause.
  predicate Same(corpus: Corpus, a: Claim, b: Claim)
  {
    At(a) == At(b) && SameClaim(ClausesOf(corpus, a.requirement), a.scope, b.scope)
  }

  ghost predicate Distinct(corpus: Corpus, claims: seq<Claim>)
  {
    forall i, j :: 0 <= i < j < |claims| ==> !Same(corpus, claims[i], claims[j])
  }

  ghost predicate WellFormed(corpus: Corpus)
  {
    forall id :: id in corpus ==> LabelsApart(corpus[id])
  }

  // A pair that only the corpus can tell apart.
  predicate NeedsCorpus(a: Claim, b: Claim)
  {
    At(a) == At(b) && Mixed(a.scope, b.scope)
  }

  // A mapping of one backend's symbols.
  datatype Mapping = Mapping(backend: nat, old_: string, new_: string)

  predicate Targets(m: Mapping, c: Claim)
  {
    c.backend == m.backend && Matches(c.symbol, m.old_)
  }

  function Renamed(m: Mapping, c: Claim): Claim
  {
    if Targets(m, c) then c.(symbol := Moved(c.symbol, m.old_, m.new_)) else c
  }

  function AllRenamed(m: Mapping, claims: seq<Claim>): (r: seq<Claim>)
    ensures |r| == |claims| && forall i :: 0 <= i < |claims| ==> r[i] == Renamed(m, claims[i])
  {
    seq(|claims|, i requires 0 <= i < |claims| => Renamed(m, claims[i]))
  }

  // ----- the collision check -----

  datatype Check = NoCollision | Collides(at: nat) | Uncompiled

  // What the full clause resolution would say of the post-rewrite store.
  ghost predicate Judges(corpus: Corpus, compiles: bool, claims: seq<Claim>, check: Check)
  {
    match check
    case NoCollision => Distinct(corpus, claims)
    case Collides(j) => j < |claims| && exists i :: 0 <= i < j && Same(corpus, claims[i], claims[j])
    case Uncompiled => !compiles && exists i, j :: 0 <= i < j < |claims| && NeedsCorpus(claims[i], claims[j])
  }

  // One earlier claim at the same coordinates against the next: the corpus is read only for a mixed
  // pair.
  method Collide(corpus: Corpus, compiles: bool, requirement: nat, s: Scope, t: Scope) returns (known: bool, same: bool)
    requires WellFormed(corpus)
    ensures known ==> (same <==> SameClaim(ClausesOf(corpus, requirement), s, t))
    ensures !known <==> Mixed(s, t) && !compiles
  {
    SpellingsDecide(ClausesOf(corpus, requirement));
    EmptyApart();
    known, same := true, false;
    if Mixed(s, t) {
      known := compiles;
      same := compiles && SameClaim(ClausesOf(corpus, requirement), s, t);
    } else {
      same := SameClaim([], s, t);
    }
  }

  lemma EmptyApart()
    ensures LabelsApart([])
  {
  }

  // The scopes met so far at each coordinate.
  ghost predicate Indexed(claims: seq<Claim>, n: nat, members: map<Coordinates, seq<Scope>>)
    requires n <= |claims|
  {
    && (forall at, s :: at in members && s in members[at] ==> exists k :: 0 <= k < n && At(claims[k]) == at && claims[k].scope == s)
    && (forall k :: 0 <= k < n ==> At(claims[k]) in members && claims[k].scope in members[At(claims[k])])
  }

  function Prior(members: map<Coordinates, seq<Scope>>, at: Coordinates): seq<Scope>
  {
    if at in members then members[at] else []
  }

  // The scopes of the claims before i at its coordinates.
  ghost predicate Met(claims: seq<Claim>, i: nat, prior: seq<Scope>)
    requires i < |claims|
  {
    forall s :: s in prior <==> exists k :: 0 <= k < i && At(claims[k]) == At(claims[i]) && claims[k].scope == s
  }

  // The collision check over the post-rewrite claims, in store order.
  method CheckCollisions(corpus: Corpus, compiles: bool, claims: seq<Claim>) returns (check: Check)
    requires WellFormed(corpus)
    ensures Judges(corpus, compiles, claims, check)
  {
    hide *;
    check := NoCollision;
    var members: map<Coordinates, seq<Scope>> := map[];
    NothingIndexed(corpus, claims);
    var i := 0;
    while i < |claims| && check.NoCollision?
      invariant i <= |claims|
      invariant check.NoCollision? ==> Indexed(claims, i, members) && Distinct(corpus, claims[..i])
      invariant !check.NoCollision? ==> Judges(corpus, compiles, claims, check)
    {
      var at := At(claims[i]);
      var prior := Prior(members, at);
      IndexedAt(claims, i, members);
      check := CheckPriors(corpus, compiles, claims, i, prior);
      if check.NoCollision? {
        IndexedNext(corpus, claims, i, members);
      }
      members := members[at := prior + [claims[i].scope]];
      i := i + 1;
    }
    if check.NoCollision? {
      assert claims[..i] == claims;
      assert Judges(corpus, compiles, claims, check) by { DistinctPasses(corpus, compiles, claims); }
    }
  }

  lemma DistinctPasses(corpus: Corpus, compiles: bool, claims: seq<Claim>)
    requires Distinct(corpus, claims)
    ensures Judges(corpus, compiles, claims, NoCollision)
  {
  }

  lemma NothingIndexed(corpus: Corpus, claims: seq<Claim>)
    ensures Indexed(claims, 0, map[]) && Distinct(corpus, claims[..0])
  {
  }

  lemma IndexedAt(claims: seq<Claim>, i: nat, members: map<Coordinates, seq<Scope>>)
    requires i < |claims| && Indexed(claims, i, members)
    ensures Met(claims, i, Prior(members, At(claims[i])))
  {
  }

  lemma IndexedNext(corpus: Corpus, claims: seq<Claim>, i: nat, members: map<Coordinates, seq<Scope>>)
    requires i < |claims| && Indexed(claims, i, members) && Distinct(corpus, claims[..i])
    requires forall k :: 0 <= k < i ==> !Same(corpus, claims[k], claims[i])
    ensures var at := At(claims[i]);
      Indexed(claims, i + 1, members[at := Prior(members, at) + [claims[i].scope]])
    ensures Distinct(corpus, claims[..i + 1])
  {
  }

  method CheckPriors(corpus: Corpus, compiles: bool, claims: seq<Claim>, i: nat, prior: seq<Scope>) returns (check: Check)
    requires WellFormed(corpus) && i < |claims|
    requires Met(claims, i, prior)
    ensures check.NoCollision? ==> forall k :: 0 <= k < i ==> !Same(corpus, claims[k], claims[i])
    ensures !check.NoCollision? ==> Judges(corpus, compiles, claims, check)
  {
    check := NoCollision;
    var j := 0;
    while j < |prior| && check.NoCollision?
      invariant j <= |prior|
      invariant check.NoCollision? ==> forall k :: 0 <= k < j ==> !SameClaim(ClausesOf(corpus, claims[i].requirement), prior[k], claims[i].scope)
      invariant !check.NoCollision? ==> Judges(corpus, compiles, claims, check)
    {
      var known, same := Collide(corpus, compiles, claims[i].requirement, prior[j], claims[i].scope);
      assert prior[j] in prior;
      if !known {
        check := Uncompiled;
      } else if same {
        check := Collides(i);
      }
      j := j + 1;
    }
    if check.NoCollision? {
      forall k | 0 <= k < i ensures !Same(corpus, claims[k], claims[i]) {
        assert At(claims[k]) == At(claims[i]) ==> claims[k].scope in prior;
      }
    }
  }

  // The check refuses exactly the stores full clause resolution would: over a corpus that compiles
  // there is no third answer.
  lemma CheckIsExact(corpus: Corpus, claims: seq<Claim>, check: Check)
    requires Judges(corpus, true, claims, check)
    ensures check.NoCollision? <==> Distinct(corpus, claims)
  {
  }

  // A corpus that does not compile refuses only a store that holds a pair it alone could tell apart.
  lemma NoPairNoCorpus(corpus: Corpus, claims: seq<Claim>, check: Check)
    requires Judges(corpus, false, claims, check)
    requires forall i, j :: 0 <= i < j < |claims| ==> !NeedsCorpus(claims[i], claims[j])
    ensures check.NoCollision? <==> Distinct(corpus, claims)
  {
  }

  // ----- the retarget -----

  class Binding {
    const requirement: nat
    const backend: nat
    const role: Role
    const scope: Scope
    var symbol: string
    var shape: Digest

    constructor (c: Claim)
      ensures Seen() == c
    {
      requirement, backend, role, scope := c.requirement, c.backend, c.role, c.scope;
      symbol, shape := c.symbol, c.shape;
    }

    function Seen(): Claim
      reads this
    {
      Claim(requirement, backend, symbol, role, scope, shape)
    }
  }

  function Values(bs: seq<Binding>): (cs: seq<Claim>)
    reads bs
    ensures |cs| == |bs| && forall i :: 0 <= i < |bs| ==> cs[i] == bs[i].Seen()
  {
    seq(|bs|, i requires 0 <= i < |bs| reads bs => bs[i].Seen())
  }

  // What a backend answers for a symbol.
  datatype Lookup = Found(shape: Digest) | NotFound | Generated | Broken

  datatype Refusal =
    | Done | Missing | UnknownBackend | Identical | NotLoaded | Collision(at: nat) | CorpusNeeded | NothingMatches
    | Unresolved(symbol: string)

  // A pinned shape follows the replacement; an unpinned one stays unpinned.
  function Retargeted(m: Mapping, shapes: map<string, Digest>, c: Claim): Claim
    requires Targets(m, c) ==> Moved(c.symbol, m.old_, m.new_) in shapes
  {
    if !Targets(m, c) then c
    else
      var symbol := Moved(c.symbol, m.old_, m.new_);
      c.(symbol := symbol, shape := if c.shape == UNSET then UNSET else shapes[symbol])
  }

  // Every replacement resolves, to its shape.
  ghost predicate Resolved(m: Mapping, lookup: string -> Lookup, claims: seq<Claim>, shapes: map<string, Digest>)
  {
    forall i :: 0 <= i < |claims| && Targets(m, claims[i]) ==>
      var symbol := Moved(claims[i].symbol, m.old_, m.new_);
      symbol in shapes && lookup(symbol) == Lookup.Found(shapes[symbol])
  }

  predicate Replaces(m: Mapping, c: Claim, symbol: string)
  {
    Targets(m, c) && Moved(c.symbol, m.old_, m.new_) == symbol
  }

  // Some replacement does not resolve.
  ghost predicate Unresolvable(m: Mapping, lookup: string -> Lookup, claims: seq<Claim>, symbol: string)
  {
    !lookup(symbol).Found? && exists i :: 0 <= i < |claims| && Replaces(m, claims[i], symbol)
  }

  // The replacements, each resolved once, until one does not.
  method Resolve(m: Mapping, lookup: string -> Lookup, claims: seq<Claim>) returns (refusal: Refusal, shapes: map<string, Digest>)
    ensures refusal.Done? || refusal.Unresolved?
    ensures refusal.Done? ==> Resolved(m, lookup, claims, shapes)
    ensures refusal.Unresolved? ==> Unresolvable(m, lookup, claims, refusal.symbol)
  {
    refusal, shapes := Done, map[];
    var i := 0;
    while i < |claims| && refusal.Done?
      invariant i <= |claims| && (refusal.Done? || refusal.Unresolved?)
      invariant refusal.Done? ==> Resolved(m, lookup, claims[..i], shapes) && forall s :: s in shapes ==> lookup(s) == Lookup.Found(shapes[s])
      invariant refusal.Unresolved? ==> Unresolvable(m, lookup, claims, refusal.symbol)
    {
      if Targets(m, claims[i]) {
        var symbol := Moved(claims[i].symbol, m.old_, m.new_);
        assert Replaces(m, claims[i], symbol);
        if symbol !in shapes {
          match lookup(symbol)
          case Found(shape) => shapes := shapes[symbol := shape];
          case _ => refusal := Unresolved(symbol);
        }
      }
      i := i + 1;
    }
  }

  method RenameAll(m: Mapping, claims: seq<Claim>) returns (renamed: seq<Claim>, any: bool)
    ensures renamed == AllRenamed(m, claims)
    ensures any <==> exists i :: 0 <= i < |claims| && Targets(m, claims[i])
  {
    hide Targets, Renamed;
    renamed, any := [], false;
    for i := 0 to |claims|
      invariant |renamed| == i && forall k :: 0 <= k < i ==> renamed[k] == Renamed(m, claims[k])
      invariant any <==> exists k :: 0 <= k < i && Targets(m, claims[k])
    {
      renamed := renamed + [Renamed(m, claims[i])];
      any := any || Targets(m, claims[i]);
    }
  }

  // What retargetBindings answers: every precondition it refuses on leaves the store as it was.
  ghost predicate Outcome(
    m: Mapping, known: set<nat>, loaded: set<nat>, corpus: Corpus, compiles: bool, lookup: string -> Lookup,
    was: seq<Claim>, now: seq<Claim>, refusal: Refusal)
  {
    && |now| == |was|
    && (!refusal.Done? ==> now == was)
    && match refusal
       case Missing => m.backend == 0 || m.old_ == "" || m.new_ == ""
       case UnknownBackend => m.backend !in known
       case Identical => m.old_ == m.new_
       case NotLoaded => m.backend !in loaded
       case Collision(j) => Judges(corpus, compiles, AllRenamed(m, was), Collides(j))
       case CorpusNeeded => Judges(corpus, compiles, AllRenamed(m, was), Uncompiled)
       case NothingMatches => forall i :: 0 <= i < |was| ==> !Targets(m, was[i])
       case Unresolved(symbol) => Unresolvable(m, lookup, was, symbol)
       case Done =>
         && m.old_ != m.new_ && m.old_ != "" && m.new_ != ""
         && Distinct(corpus, AllRenamed(m, was))
         && (exists i :: 0 <= i < |was| && Targets(m, was[i]))
         && exists shapes :: Resolved(m, lookup, was, shapes) && Followed(m, shapes, was, now)
  }

  // Every claim has followed the mapping, shapes included.
  ghost predicate Followed(m: Mapping, shapes: map<string, Digest>, was: seq<Claim>, now: seq<Claim>)
  {
    |now| == |was| && forall i :: 0 <= i < |was| ==> Follows(m, shapes, was[i], now[i])
  }

  ghost predicate Follows(m: Mapping, shapes: map<string, Digest>, was: Claim, now: Claim)
  {
    (Targets(m, was) ==> Moved(was.symbol, m.old_, m.new_) in shapes) && now == Retargeted(m, shapes, was)
  }

  method Rewrite(m: Mapping, shapes: map<string, Digest>, bs: seq<Binding>)
    requires forall i, j :: 0 <= i < j < |bs| ==> bs[i] != bs[j]
    requires forall b :: b in bs && Targets(m, b.Seen()) ==> Moved(b.symbol, m.old_, m.new_) in shapes
    modifies bs
    ensures Followed(m, shapes, old(Values(bs)), Values(bs))
  {
    hide Targets, Moved, Retargeted;
    ghost var was := Values(bs);
    for i := 0 to |bs|
      invariant forall k :: i <= k < |bs| ==> bs[k].Seen() == was[k]
      invariant forall k :: 0 <= k < i ==> Follows(m, shapes, was[k], bs[k].Seen())
    {
      RewriteOne(m, shapes, bs[i]);
    }
  }

  method RewriteOne(m: Mapping, shapes: map<string, Digest>, b: Binding)
    requires Targets(m, b.Seen()) ==> Moved(b.symbol, m.old_, m.new_) in shapes
    modifies b
    ensures Follows(m, shapes, old(b.Seen()), b.Seen())
  {
    if Targets(m, b.Seen()) {
      b.symbol := Moved(b.symbol, m.old_, m.new_);
      if b.shape != UNSET {
        b.shape := shapes[b.symbol];
      }
    }
  }

  // retargetBindings: all or nothing.
  method RetargetBindings(m: Mapping, known: set<nat>, loaded: set<nat>, corpus: Corpus, compiles: bool, lookup: string -> Lookup, bs: seq<Binding>)
    returns (refusal: Refusal)
    requires WellFormed(corpus) && forall i, j :: 0 <= i < j < |bs| ==> bs[i] != bs[j]
    modifies bs
    ensures Outcome(m, known, loaded, corpus, compiles, lookup, old(Values(bs)), Values(bs), refusal)
    ensures refusal.Done? ==> m.backend in known && m.backend in loaded && m.backend != 0
  {
    hide Targets, Judges, Resolved, Followed, Unresolvable, Distinct, WellFormed, Renamed, AllRenamed;
    if m.backend == 0 || m.old_ == "" || m.new_ == "" {
      refusal := Missing;
    } else if m.backend !in known {
      refusal := UnknownBackend;
    } else if m.old_ == m.new_ {
      refusal := Identical;
    } else if m.backend !in loaded {
      refusal := NotLoaded;
    } else {
      refusal := Replace(m, corpus, compiles, lookup, bs);
    }
  }

  method Replace(m: Mapping, corpus: Corpus, compiles: bool, lookup: string -> Lookup, bs: seq<Binding>) returns (refusal: Refusal)
    requires m.old_ != m.new_ && m.old_ != "" && m.new_ != ""
    requires WellFormed(corpus) && forall i, j :: 0 <= i < j < |bs| ==> bs[i] != bs[j]
    modifies bs
    ensures !refusal.Missing? && !refusal.UnknownBackend? && !refusal.Identical? && !refusal.NotLoaded?
    ensures Outcome(m, {}, {}, corpus, compiles, lookup, old(Values(bs)), Values(bs), refusal)
  {
    hide Targets, Judges, Resolved, Followed, Unresolvable, Distinct, WellFormed, Renamed, AllRenamed;
    var claims := Read(bs);
    ghost var was := claims;
    var renamed, any := RenameAll(m, claims);
    var check := CheckCollisions(corpus, compiles, renamed);
    if check.Collides? {
      refusal := Collision(check.at);
    } else if check.Uncompiled? {
      refusal := CorpusNeeded;
    } else if !any {
      refusal := NothingMatches;
    } else {
      var shapes;
      refusal, shapes := Resolve(m, lookup, claims);
      if refusal.Done? {
        NoCollisionDistinct(corpus, compiles, renamed);
        ResolvedShapes(m, lookup, claims, shapes);
        forall b | b in bs && Targets(m, b.Seen()) ensures Moves(m, b.Seen(), shapes) {
          var i :| 0 <= i < |bs| && bs[i] == b;
          assert claims[i] == b.Seen();
        }
        Rewrite(m, shapes, bs);
      }
    }
  }

  predicate Moves(m: Mapping, c: Claim, shapes: map<string, Digest>)
  {
    Targets(m, c) && Moved(c.symbol, m.old_, m.new_) in shapes
  }

  lemma ResolvedShapes(m: Mapping, lookup: string -> Lookup, claims: seq<Claim>, shapes: map<string, Digest>)
    requires Resolved(m, lookup, claims, shapes)
    ensures forall i :: 0 <= i < |claims| && Targets(m, claims[i]) ==> Moves(m, claims[i], shapes)
  {
  }

  lemma NoCollisionDistinct(corpus: Corpus, compiles: bool, claims: seq<Claim>)
    requires Judges(corpus, compiles, claims, NoCollision)
    ensures Distinct(corpus, claims)
  {
  }

  method Read(bs: seq<Binding>) returns (claims: seq<Claim>)
    ensures claims == Values(bs)
  {
    claims := [];
    for i := 0 to |bs|
      invariant |claims| == i && forall k :: 0 <= k < i ==> claims[k] == bs[k].Seen()
    {
      claims := claims + [bs[i].Seen()];
    }
  }

  // ----- what a retarget does, symbol by symbol -----

  // The symbol is the prefix with something after it: nothing, a path or a member.
  ghost predicate Under(symbol: string, prefix: string, rest: string)
  {
    symbol == prefix + rest && (rest == "" || rest[0] == '/' || rest[0] == '.')
  }

  // A claim before and after its symbol has moved: elsewhere in the store, and under no such prefix,
  // nothing changes.
  ghost predicate MovesTo(m: Mapping, was: Claim, now: Claim)
  {
    && now == was.(symbol := now.symbol, shape := now.shape)
    && (forall rest :: was.backend == m.backend && Under(was.symbol, m.old_, rest) ==> now.symbol == m.new_ + rest)
    && (was.backend != m.backend || (forall rest :: !Under(was.symbol, m.old_, rest)) ==> now == was)
  }

  // One claim twice: every field that places it, and the clause.
  ghost predicate Twice(corpus: Corpus, a: Claim, b: Claim)
  {
    && a.requirement == b.requirement && a.backend == b.backend && a.symbol == b.symbol && a.role == b.role
    && (a.scope == b.scope
        || exists o :: Leads(ClausesOf(corpus, a.requirement), a.scope, o) && Leads(ClausesOf(corpus, a.requirement), b.scope, o))
  }

  lemma SameMeans(corpus: Corpus, a: Claim, b: Claim)
    ensures Same(corpus, a, b) <==> Twice(corpus, a, b)
  {
    hide SameClaim, Leads;
    SameClaimMeans(ClausesOf(corpus, a.requirement), a.scope, b.scope);
  }

  lemma TargetsMeans(m: Mapping, c: Claim)
    ensures Targets(m, c) <==> c.backend == m.backend && exists rest :: Under(c.symbol, m.old_, rest)
    ensures forall rest :: Under(c.symbol, m.old_, rest) ==> Moved(c.symbol, m.old_, m.new_) == m.new_ + rest
  {
    if m.old_ <= c.symbol {
      var rest := c.symbol[|m.old_|..];
      assert c.symbol == m.old_ + rest;
      assert Matches(c.symbol, m.old_) <==> Under(c.symbol, m.old_, rest);
    }
    forall rest | Under(c.symbol, m.old_, rest) ensures m.old_ <= c.symbol && c.symbol[|m.old_|..] == rest {
    }
  }

  lemma RenamedMeans(m: Mapping, c: Claim)
    ensures MovesTo(m, c, Renamed(m, c)) && Renamed(m, c).shape == c.shape
  {
    hide Matches, Under, Moved;
    TargetsMeans(m, c);
  }

  lemma RenamedKeeps(m: Mapping, c: Claim)
    ensures Renamed(m, c) == c.(symbol := Renamed(m, c).symbol)
  {
  }

  // A claim of the backend under the old prefix.
  ghost predicate Reached(m: Mapping, c: Claim, rest: string)
  {
    c.backend == m.backend && Under(c.symbol, m.old_, rest)
  }

  // What a retarget that went through leaves: every symbol of the backend under the old prefix, at
  // the end, a path or a member boundary, is under the new one and resolves there; a pinned shape is
  // the one resolved, an unpinned one is not pinned; nothing else has changed; some claim moved, and
  // no two claims are one.
  ghost predicate Retargets(m: Mapping, corpus: Corpus, lookup: string -> Lookup, was: seq<Claim>, now: seq<Claim>)
  {
    && |now| == |was|
    && (forall i :: 0 <= i < |was| ==> MovesTo(m, was[i], now[i]))
    && (forall i, rest :: 0 <= i < |was| && Reached(m, was[i], rest) ==>
          lookup(m.new_ + rest).Found? && now[i].shape == if was[i].shape == UNSET then UNSET else lookup(m.new_ + rest).shape)
    && (exists i, rest :: 0 <= i < |was| && Reached(m, was[i], rest))
    && forall i, j :: 0 <= i < j < |now| ==> !Twice(corpus, now[i], now[j])
  }

  lemma DoneMeans(m: Mapping, known: set<nat>, loaded: set<nat>, corpus: Corpus, compiles: bool, lookup: string -> Lookup,
                  was: seq<Claim>, now: seq<Claim>)
    requires Outcome(m, known, loaded, corpus, compiles, lookup, was, now, Done)
    ensures Retargets(m, corpus, lookup, was, now)
  {
    hide Matches, Under, Moved, Same, Twice, AllRenamed, SameClaim;
    var shapes :| Resolved(m, lookup, was, shapes) && Followed(m, shapes, was, now);
    forall i | 0 <= i < |was| ensures MovesTo(m, was[i], now[i]) {
      TargetsMeans(m, was[i]);
      assert Follows(m, shapes, was[i], now[i]);
    }
    forall i, rest | 0 <= i < |was| && Reached(m, was[i], rest)
      ensures lookup(m.new_ + rest).Found? && now[i].shape == if was[i].shape == UNSET then UNSET else lookup(m.new_ + rest).shape
    {
      TargetsMeans(m, was[i]);
      assert Follows(m, shapes, was[i], now[i]);
    }
    var k :| 0 <= k < |was| && Targets(m, was[k]);
    TargetsMeans(m, was[k]);
    var rest :| Under(was[k].symbol, m.old_, rest);
    assert Reached(m, was[k], rest);
    StoreStaysDistinct(m, corpus, shapes, was, now);
    forall i, j | 0 <= i < j < |now| ensures !Twice(corpus, now[i], now[j]) {
      SameMeans(corpus, now[i], now[j]);
    }
  }

  // What each refusal for the store's sake says of it, the store left as it was: nothing is under the
  // prefix; a replacement does not resolve; two claims would be one once moved.
  lemma RefusalMeans(m: Mapping, known: set<nat>, loaded: set<nat>, corpus: Corpus, compiles: bool, lookup: string -> Lookup,
                     was: seq<Claim>, now: seq<Claim>, refusal: Refusal)
    requires Outcome(m, known, loaded, corpus, compiles, lookup, was, now, refusal) && !refusal.Done?
    ensures now == was
    ensures refusal.NothingMatches? ==> forall i, rest :: 0 <= i < |was| ==> !Reached(m, was[i], rest)
    ensures refusal.Unresolved? ==> !lookup(refusal.symbol).Found?
    ensures refusal.Unresolved? ==> exists i, rest :: 0 <= i < |was| && Reached(m, was[i], rest) && refusal.symbol == m.new_ + rest
    ensures refusal.CorpusNeeded? ==> !compiles && exists i, j ::
      && 0 <= i < j < |was| && was[i].requirement == was[j].requirement && was[i].backend == was[j].backend && was[i].role == was[j].role
      && ((was[i].scope.Ordinal? && was[j].scope.Labelled?) || (was[i].scope.Labelled? && was[j].scope.Ordinal?))
    ensures refusal.Collision? ==> exists moved: seq<Claim>, i ::
      && |moved| == |was| && (forall k :: 0 <= k < |was| ==> MovesTo(m, was[k], moved[k]) && moved[k].shape == was[k].shape)
      && 0 <= i < refusal.at < |was| && Twice(corpus, moved[i], moved[refusal.at])
  {
    hide Matches, Under, Moved, Same, Twice, SameClaim, MovesTo;
    match refusal {
      case NothingMatches =>
        forall i, rest | 0 <= i < |was| ensures !Reached(m, was[i], rest) {
          TargetsMeans(m, was[i]);
        }
      case Unresolved(symbol) =>
        var i :| 0 <= i < |was| && Replaces(m, was[i], symbol);
        TargetsMeans(m, was[i]);
        var rest :| Under(was[i].symbol, m.old_, rest);
        assert Reached(m, was[i], rest);
      case CorpusNeeded =>
        var i, j :| 0 <= i < j < |was| && NeedsCorpus(AllRenamed(m, was)[i], AllRenamed(m, was)[j]);
        RenamedKeeps(m, was[i]);
        RenamedKeeps(m, was[j]);
      case Collision(j) =>
        var moved := AllRenamed(m, was);
        forall k | 0 <= k < |was| ensures MovesTo(m, was[k], moved[k]) && moved[k].shape == was[k].shape {
          RenamedMeans(m, was[k]);
        }
        var i :| 0 <= i < j && Same(corpus, moved[i], moved[j]);
        SameMeans(corpus, moved[i], moved[j]);
      case _ =>
    }
  }

  // ----- undoing a retarget -----

  function Reverse(m: Mapping): Mapping
  {
    Mapping(m.backend, m.new_, m.old_)
  }

  // Retargeting back restores every symbol exactly when no claim stood under the new prefix before
  // that did not stand under the old one.
  lemma ReverseRestores(m: Mapping, claims: seq<Claim>)
    requires m.old_ != m.new_
    ensures AllRenamed(Reverse(m), AllRenamed(m, claims)) == claims <==>
      forall i :: 0 <= i < |claims| && Targets(Reverse(m), claims[i]) ==> Targets(m, claims[i])
  {
    hide Matches, Moved;
    var there := AllRenamed(m, claims);
    var back := AllRenamed(Reverse(m), there);
    forall i | 0 <= i < |claims| ensures back[i] == claims[i] <==> (Targets(Reverse(m), claims[i]) ==> Targets(m, claims[i])) {
      ReverseOne(m, claims[i]);
    }
    assert back == claims <==> forall i :: 0 <= i < |claims| ==> back[i] == claims[i];
  }

  lemma ReverseOne(m: Mapping, c: Claim)
    requires m.old_ != m.new_
    ensures Renamed(Reverse(m), Renamed(m, c)) == c <==> (Targets(Reverse(m), c) ==> Targets(m, c))
  {
  }

  // After a retarget no two claims of the store are one.
  lemma StoreStaysDistinct(m: Mapping, corpus: Corpus, shapes: map<string, Digest>, was: seq<Claim>, now: seq<Claim>)
    requires Distinct(corpus, AllRenamed(m, was)) && Followed(m, shapes, was, now)
    ensures Distinct(corpus, now)
  {
  }

  // ----- the pointer splice -----

  datatype Span = Span(start: int, end: int)

  predicate Reads(src: string, s: Span, member: string)
  {
    0 <= s.start <= s.end <= |src| && src[s.start..s.end] == member
  }

  // One span replaced.
  function Cut(src: string, s: Span, member: string): string
    requires 0 <= s.start <= s.end <= |src|
  {
    src[..s.start] + member + src[s.end..]
  }

  // Retarget's rewrite of one requirement's source: the spans are spliced from the right, each in
  // the text as spliced so far, where it must read the old member.
  function Spliced(text: string, spans: seq<Span>, old_: string, new_: string): Option<string>
    decreases |spans|
  {
    if spans == [] then Some(text)
    else
      var last, before := spans[|spans| - 1], spans[..|spans| - 1];
      if Reads(text, last, old_) then Spliced(Cut(text, last, new_), before, old_, new_) else None
  }

  method Splice(src: string, spans: seq<Span>, old_: string, new_: string) returns (r: Option<string>)
    ensures r == Spliced(src, spans, old_, new_)
  {
    var text, k := src, |spans|;
    assert spans[..k] == spans;
    while k > 0
      invariant 0 <= k <= |spans|
      invariant Spliced(text, spans[..k], old_, new_) == Spliced(src, spans, old_, new_)
    {
      assert spans[..k][..k - 1] == spans[..k - 1];
      k := k - 1;
      if !Reads(text, spans[k], old_) {
        return None;
      }
      text := Cut(text, spans[k], new_);
    }
    r := Some(text);
  }

  // Spans in text order and apart, as the extractor records them; they may still miss the text.
  ghost predicate Apart(spans: seq<Span>)
  {
    forall i, j :: 0 <= i < j < |spans| ==> spans[i].end <= spans[j].start
  }

  // The spans of the source that read the old member.
  ghost predicate AllRead(src: string, spans: seq<Span>, member: string)
  {
    forall i :: 0 <= i < |spans| ==> Holds(src, spans[i].start, spans[i].end, member)
  }

  predicate Holds(src: string, start: int, end: int, member: string)
  {
    && 0 <= start && start <= end && end <= |src|
    && end - start == |member| && forall k :: 0 <= k < |member| ==> src[start + k] == member[k]
  }

  lemma ReadsMeans(src: string, s: Span, member: string)
    ensures Reads(src, s, member) <==> Holds(src, s.start, s.end, member)
  {
    if Holds(src, s.start, s.end, member) {
      assert src[s.start..s.end] == member;
    }
    if Reads(src, s, member) {
      forall k | 0 <= k < |member| ensures src[s.start + k] == member[k] {
        assert src[s.start..s.end][k] == member[k];
      }
    }
  }

  // Every span replaced at once: the text between the spans kept.
  function Replaced(src: string, spans: seq<Span>, old_: string, new_: string): string
    requires Apart(spans) && AllRead(src, spans, old_)
    decreases |spans|
  {
    if spans == [] then src
    else
      var last, before := spans[|spans| - 1], spans[..|spans| - 1];
      ReadBefore(src, spans, old_);
      Replaced(src[..last.start], before, old_, new_) + new_ + src[last.end..]
  }

  lemma ReadBefore(src: string, spans: seq<Span>, member: string)
    requires Apart(spans) && spans != [] && Holds(src, spans[|spans| - 1].start, spans[|spans| - 1].end, member)
    ensures var last, before := spans[|spans| - 1], spans[..|spans| - 1];
      Apart(before) && (AllRead(src, spans, member) <==> AllRead(src[..last.start], before, member))
  {
    var last, before := spans[|spans| - 1], spans[..|spans| - 1];
    forall i | 0 <= i < |before|
      ensures Holds(src, spans[i].start, spans[i].end, member) <==> Holds(src[..last.start], before[i].start, before[i].end, member)
    {
    }
  }

  lemma ReadHead(src: string, n: nat, s: Span, member: string)
    requires s.end <= n <= |src|
    ensures Reads(src, s, member) <==> Reads(src[..n], s, member)
  {
    if 0 <= s.start <= s.end {
      assert src[..n][s.start..s.end] == src[s.start..s.end];
    }
  }

  // Splicing inside a text leaves what follows it alone.
  lemma {:induction false} SplicedHead(head: string, tail: string, spans: seq<Span>, old_: string, new_: string)
    requires Apart(spans) && forall i :: 0 <= i < |spans| ==> spans[i].end <= |head|
    ensures var inside := Spliced(head, spans, old_, new_);
      Spliced(head + tail, spans, old_, new_) == if inside.Some? then Some(inside.value + tail) else None
    decreases |spans|
  {
    if spans != [] {
      var last, before := spans[|spans| - 1], spans[..|spans| - 1];
      assert (head + tail)[..|head|] == head;
      ReadHead(head + tail, |head|, last, old_);
      if Reads(head, last, old_) {
        assert Cut(head + tail, last, new_) == Cut(head, last, new_) + tail;
        SplicedHead(Cut(head, last, new_), tail, before, old_, new_);
      }
    }
  }

  // Splicing spans that stand apart is replacing them all at once in the source, and it is refused
  // exactly when one of them is not in the source or does not read the old member there.
  lemma {:induction false} SplicedIsReplaced(src: string, spans: seq<Span>, old_: string, new_: string)
    requires Apart(spans)
    ensures Spliced(src, spans, old_, new_).Some? <==> AllRead(src, spans, old_)
    ensures AllRead(src, spans, old_) ==> Spliced(src, spans, old_, new_) == Some(Replaced(src, spans, old_, new_))
    decreases |spans|
  {
    if spans != [] {
      var last, before := spans[|spans| - 1], spans[..|spans| - 1];
      ReadsMeans(src, last, old_);
      if Reads(src, last, old_) {
        var head, tail := src[..last.start], new_ + src[last.end..];
        ReadBefore(src, spans, old_);
        SplicedIsReplaced(head, before, old_, new_);
        SplicedHead(head, tail, before, old_, new_);
        assert Cut(src, last, new_) == head + tail;
        if AllRead(src, spans, old_) {
          var r := Replaced(head, before, old_, new_);
          assert r + tail == r + new_ + src[last.end..];
        }
      }
    }
  }
}
