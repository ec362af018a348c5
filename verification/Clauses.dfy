/** Clause claims (internal/records/clause.go): which payload clause a binding names, and the claim
    identity duplicate judgments read. Names, symbols and labels are compared for equality alone
    here, so numbers stand for them; identities are compared as tuples. */
module Clauses {

  // A label of white space alone names no clause.
  datatype Label = Blank(spelling: nat) | Named(name: nat)

  // How a binding spells its clause.
  datatype Scope = Whole | Ordinal(ordinal: nat) | Labelled(tag: Label)

  datatype Clause = Clause(ordinal: nat, tag: Label)

  datatype Resolution = Unscoped | Found(clause: Clause) | Dangling

  datatype Role = Implements | Tests | Proves | OtherRole

  predicate Names(c: Clause, s: Scope)
  {
    match s
    case Whole => false
    case Ordinal(n) => c.ordinal == n
    case Labelled(l) => l.Named? && c.tag == l
  }

  // The first clause the scope names.
  function Resolve(clauses: seq<Clause>, s: Scope): (r: Resolution)
    ensures r.Found? ==> r.clause in clauses && Names(r.clause, s)
    ensures r.Dangling? <==> !s.Whole? && forall c :: c in clauses ==> !Names(c, s)
    ensures r.Unscoped? <==> s.Whole?
  {
    if s.Whole? then Unscoped
    else if clauses == [] then Dangling
    else if Names(clauses[0], s) then Found(clauses[0])
    else Resolve(clauses[1..], s)
  }

  predicate RequiresScope(clauses: seq<Clause>, role: Role, allowWhole: bool)
  {
    !allowWhole && clauses != [] && (role.Tests? || role.Proves?)
  }

  // The clause part of a claim's identity: the resolved clause's ordinal, or the spelling of a claim
  // that resolves to nothing.
  datatype Key = NoClause | AtOrdinal(ordinal: nat) | AtLabel(tag: Label)

  function ClauseKey(clauses: seq<Clause>, s: Scope): Key
  {
    match Resolve(clauses, s)
    case Unscoped => NoClause
    case Found(c) => AtOrdinal(c.ordinal)
    case Dangling => if s.Ordinal? then AtOrdinal(s.ordinal) else if s.Labelled? then AtLabel(s.tag) else NoClause
  }

  ghost predicate UniqueOrdinals(clauses: seq<Clause>)
  {
    forall c, d :: c in clauses && d in clauses && c.ordinal == d.ordinal ==> c == d
  }

  // No two labels lead to one ordinal.
  ghost predicate LabelsApart(clauses: seq<Clause>)
  {
    forall a, b :: a != b && ByLabel(clauses, a).Found? && ByLabel(clauses, b).Found? ==>
      ByLabel(clauses, a).clause.ordinal != ByLabel(clauses, b).clause.ordinal
  }

  function ByLabel(clauses: seq<Clause>, name: nat): Resolution
  {
    Resolve(clauses, Labelled(Named(name)))
  }

  lemma UniqueOrdinalsPartLabels(clauses: seq<Clause>)
    requires UniqueOrdinals(clauses)
    ensures LabelsApart(clauses)
  {
  }

  // One claim spells an ordinal and the other a label.
  predicate Mixed(s: Scope, t: Scope)
  {
    (s.Ordinal? && t.Labelled?) || (s.Labelled? && t.Ordinal?)
  }

  predicate SameClaim(clauses: seq<Clause>, s: Scope, t: Scope)
  {
    ClauseKey(clauses, s) == ClauseKey(clauses, t)
  }

  // For a pair that is not mixed the spellings alone tell whether the two claims are one, exactly
  // when no two labels lead to one ordinal.
  lemma SpellingsDecide(clauses: seq<Clause>)
    ensures LabelsApart(clauses) <==> forall s, t :: !Mixed(s, t) ==> (SameClaim(clauses, s, t) <==> SameClaim([], s, t))
  {
    if LabelsApart(clauses) {
      forall s, t | !Mixed(s, t) ensures SameClaim(clauses, s, t) <==> SameClaim([], s, t) {
        if s.Labelled? && t.Labelled? && s.tag.Named? && t.tag.Named? && s != t {
          assert ByLabel(clauses, s.tag.name) == Resolve(clauses, s) && ByLabel(clauses, t.tag.name) == Resolve(clauses, t);
        }
      }
    } else {
      var a, b :| a != b && ByLabel(clauses, a).Found? && ByLabel(clauses, b).Found?
        && ByLabel(clauses, a).clause.ordinal == ByLabel(clauses, b).clause.ordinal;
      var s, t := Labelled(Named(a)), Labelled(Named(b));
      assert !Mixed(s, t) && SameClaim(clauses, s, t) && !SameClaim([], s, t);
    }
  }

  // A scope leads to an ordinal: it spells it, or its label is first that of a clause at it.
  ghost predicate Leads(clauses: seq<Clause>, s: Scope, o: nat)
  {
    || s == Ordinal(o)
    || (s.Labelled? && s.tag.Named? && exists k :: FirstAt(clauses, s.tag, k) && clauses[k].ordinal == o)
  }

  ghost predicate FirstAt(clauses: seq<Clause>, tag: Label, k: int)
  {
    0 <= k < |clauses| && clauses[k].tag == tag && forall j :: 0 <= j < k ==> clauses[j].tag != tag
  }

  // Two claims at one place are one exactly when they spell their clause alike or lead to one ordinal.
  lemma SameClaimMeans(clauses: seq<Clause>, s: Scope, t: Scope)
    ensures SameClaim(clauses, s, t) <==> s == t || exists o :: Leads(clauses, s, o) && Leads(clauses, t, o)
  {
    KeyLeads(clauses, s);
    KeyLeads(clauses, t);
    if SameClaim(clauses, s, t) && s != t {
      assert Leads(clauses, s, ClauseKey(clauses, s).ordinal);
    }
  }

  lemma KeyLeads(clauses: seq<Clause>, s: Scope)
    ensures forall o :: Leads(clauses, s, o) <==> ClauseKey(clauses, s) == AtOrdinal(o)
    ensures !ClauseKey(clauses, s).AtOrdinal? ==> ClauseKey(clauses, s) == if s.Labelled? then AtLabel(s.tag) else NoClause
    ensures s.Ordinal? ==> ClauseKey(clauses, s) == AtOrdinal(s.ordinal)
  {
    if s.Labelled? && s.tag.Named? {
      LabelFirst(clauses, s.tag);
    }
  }

  lemma {:induction false} LabelFirst(clauses: seq<Clause>, tag: Label)
    requires tag.Named?
    ensures var r := Resolve(clauses, Labelled(tag));
      && (r.Found? ==> exists k :: FirstAt(clauses, tag, k) && clauses[k] == r.clause)
      && (r.Dangling? ==> forall k :: !FirstAt(clauses, tag, k))
  {
    var r := Resolve(clauses, Labelled(tag));
    if r.Dangling? {
      forall k | 0 <= k < |clauses| ensures !FirstAt(clauses, tag, k) {
        assert clauses[k] in clauses;
      }
    } else if Names(clauses[0], Labelled(tag)) {
      assert FirstAt(clauses, tag, 0);
    } else {
      LabelFirst(clauses[1..], tag);
      var k :| FirstAt(clauses[1..], tag, k) && clauses[1..][k] == r.clause;
      assert FirstAt(clauses, tag, k + 1);
    }
  }
}
