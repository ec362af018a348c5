/** Term occurrences in prose (internal/compile/compile.go): word-bounded, longest name first, each
    claimed occurrence blanked in place so that no later name matches inside it.

    Names and texts are lower-cased Unicode text, so a claim at a byte offset is one at a character
    offset and only the length order looks at encoded bytes. */
module TermMatcher {
  import Ordering
  import opened Utf8

  // The byte a claimed occurrence is overwritten with: not a word character.
  const BLANK: char := '\U{0001}'

  // ----- the order of names -----

  // Longest first, equals in string order.
  predicate TermBefore(a: string, b: string)
  {
    Bytes(a) > Bytes(b) || (Bytes(a) == Bytes(b) && Ordering.Less(a, b))
  }

  lemma TermBeforeIsStrictOrder()
    ensures Ordering.StrictOrder(TermBefore) && forall s: set<string> :: Ordering.TotalOn(TermBefore, s)
  {
    Ordering.LessIsStrictOrder();
    forall a, b | a != b ensures TermBefore(a, b) || TermBefore(b, a) {
      Ordering.LessTotal(a, b);
    }
  }

  // A name of more bytes claims first, and of as many the one whose bytes come first.
  ghost predicate ClaimsFirst(a: string, b: string)
  {
    |Encoded(a)| > |Encoded(b)| || (|Encoded(a)| == |Encoded(b)| && Precedes(Encoded(a), Encoded(b)))
  }

  lemma TermOrder(a: string, b: string)
    ensures TermBefore(a, b) <==> ClaimsFirst(a, b)
  {
    hide Bytes, Encoded, Precedes;
    BytesAreEncoded(a);
    BytesAreEncoded(b);
    LessIsByteOrder(a, b);
  }

  // newTermMatcher: every declared name once, in claiming order.
  method Names(terms: set<string>) returns (names: seq<string>)
    ensures Ordering.Ascending(TermBefore, names) && Ordering.Elements(names) == terms
    ensures forall i, j :: 0 <= i < j < |names| ==> ClaimsFirst(names[i], names[j])
  {
    var listed: seq<string> := [];
    var left := terms;
    while left != {}
      invariant left <= terms && Ordering.Elements(listed) == terms - left
      invariant forall i, j :: 0 <= i < j < |listed| ==> listed[i] != listed[j]
      decreases left
    {
      var name :| name in left;
      assert name !in Ordering.Elements(listed);
      Ordering.ElementsAppend(listed, name);
      listed := listed + [name];
      left := left - {name};
    }
    TermBeforeIsStrictOrder();
    names := Ordering.Sort(TermBefore, listed);
    forall i, j | 0 <= i < j < |names| ensures ClaimsFirst(names[i], names[j]) {
      TermOrder(names[i], names[j]);
    }
  }

  // ----- occurrences and claims -----

  // One name's occurrence: which name, and where it starts.
  datatype Claim = Claim(term: nat, start: nat)

  // Claiming order: an earlier name first, and within one name left to right.
  predicate Before(a: Claim, b: Claim)
  {
    a.term < b.term || (a.term == b.term && a.start < b.start)
  }

  predicate Matches(text: string, name: string, at: nat)
  {
    at + |name| <= |text| && text[at..at + |name|] == name
  }

  predicate Occurs(names: seq<string>, text: string, c: Claim)
  {
    c.term < |names| && Matches(text, names[c.term], c.start)
  }

  predicate Covers(names: seq<string>, c: Claim, k: int)
  {
    c.term < |names| && c.start <= k < c.start + |names[c.term]|
  }

  ghost predicate Overlap(names: seq<string>, a: Claim, b: Claim)
  {
    exists k :: Covers(names, a, k) && Covers(names, b, k)
  }

  ghost predicate Covered(names: seq<string>, claims: set<Claim>, k: int)
  {
    exists c :: c in claims && Covers(names, c, k)
  }

  // Some claim of higher rank than x covers position k.
  ghost predicate CoveredBefore(names: seq<string>, claims: set<Claim>, x: Claim, k: int)
  {
    exists c :: c in claims && Before(c, x) && Covers(names, c, k)
  }

  // Both edges of x are at a word boundary of the text, or at a higher-ranked claim.
  ghost predicate Open(word: char -> bool, names: seq<string>, text: string, claims: set<Claim>, x: Claim)
    requires Occurs(names, text, x)
  {
    var end := x.start + |names[x.term]|;
    && (x.start == 0 || !word(text[x.start - 1]) || CoveredBefore(names, claims, x, x.start - 1))
    && (end == |text| || !word(text[end]) || CoveredBefore(names, claims, x, end))
  }

  // Both edges of x are at a word boundary of the text.
  predicate Bounded(word: char -> bool, names: seq<string>, text: string, x: Claim)
    requires Occurs(names, text, x)
  {
    var end := x.start + |names[x.term]|;
    (x.start == 0 || !word(text[x.start - 1])) && (end == |text| || !word(text[end]))
  }

  // What a longest-match claim set is, up to rank `upto`: disjoint open occurrences, and every
  // other open occurrence loses a position to a claim of higher rank.
  ghost predicate IsMatching(word: char -> bool, names: seq<string>, text: string, claims: set<Claim>, upto: Claim)
  {
    && (forall c :: c in claims ==> Before(c, upto) && Occurs(names, text, c) && Open(word, names, text, claims, c))
    && (forall c, d :: c in claims && d in claims && c != d ==> !Overlap(names, c, d))
    && (forall x :: Before(x, upto) && Occurs(names, text, x) && Open(word, names, text, claims, x) ==>
          x in claims || Beaten(names, claims, x))
  }

  ghost predicate Beaten(names: seq<string>, claims: set<Claim>, x: Claim)
  {
    exists c :: c in claims && Before(c, x) && Overlap(names, c, x)
  }

  // ----- the scan -----

  datatype Scanned = Scanned(text: string, claims: set<Claim>)

  function Blanked(text: string, start: nat, end: nat): (r: string)
    ensures |r| == |text|
  {
    seq(|text|, k requires 0 <= k < |text| => if start <= k < end then BLANK else text[k])
  }

  // Word boundaries of the text as it now stands.
  predicate Edges(word: char -> bool, text: string, start: nat, end: nat)
    requires start <= end <= |text|
  {
    (start == 0 || !word(text[start - 1])) && (end == |text| || !word(text[end]))
  }

  // One name, from one position on: each bounded match is claimed and blanked.
  function Scan(word: char -> bool, text: string, name: string, term: nat, from: nat): (r: Scanned)
    ensures |r.text| == |text|
    decreases |text| + 1 - from
  {
    if from + |name| > |text| then Scanned(text, {})
    else if Matches(text, name, from) && Edges(word, text, from, from + |name|) then
      var rest := Scan(word, Blanked(text, from, from + |name|), name, term, from + 1);
      Scanned(rest.text, {Claim(term, from)} + rest.claims)
    else Scan(word, text, name, term, from + 1)
  }

  // The first n names, in order.
  function ScanAll(word: char -> bool, text: string, names: seq<string>, n: nat): (r: Scanned)
    requires n <= |names|
    ensures |r.text| == |text|
  {
    if n == 0 then Scanned(text, {})
    else
      var before := ScanAll(word, text, names, n - 1);
      var s := Scan(word, before.text, names[n - 1], n - 1, 0);
      Scanned(s.text, before.claims + s.claims)
  }

  // ----- what the scan keeps -----

  // The text now is the original with every claimed position blanked.
  ghost predicate Stands(names: seq<string>, text: string, now: string, claims: set<Claim>)
  {
    |now| == |text| && forall k :: 0 <= k < |text| ==> now[k] == if Covered(names, claims, k) then BLANK else text[k]
  }

  // A name that holds no blank cannot be confused with claimed text.
  ghost predicate Clean(names: seq<string>)
  {
    forall i :: 0 <= i < |names| ==> BLANK !in names[i]
  }

  // A match read letter by letter.
  lemma MatchedLetter(text: string, name: string, at: nat, k: nat)
    requires Matches(text, name, at) && k < |name|
    ensures at + |name| <= |text| && text[at + k] == name[k]
  {
    assert text[at..at + |name|][k] == name[k];
  }

  lemma LettersMatch(text: string, name: string, at: nat)
    requires at + |name| <= |text| && forall k: nat :: k < |name| ==> text[at + k] == name[k]
    ensures Matches(text, name, at)
  {
    assert text[at..at + |name|] == name;
  }

  // A match in the blanked text is a match in the original that no claim touches.
  lemma MatchIsFree(names: seq<string>, text: string, now: string, claims: set<Claim>, x: Claim)
    requires Stands(names, text, now, claims) && x.term < |names| && BLANK !in names[x.term]
    requires forall c :: c in claims ==> Before(c, x)
    ensures Matches(now, names[x.term], x.start) <==> Occurs(names, text, x) && !Beaten(names, claims, x)
  {
    if Matches(now, names[x.term], x.start) {
      MatchOccurs(names, text, now, claims, x);
    }
    if Occurs(names, text, x) && !Beaten(names, claims, x) {
      OccurrenceMatches(names, text, now, claims, x);
    }
  }

  lemma MatchOccurs(names: seq<string>, text: string, now: string, claims: set<Claim>, x: Claim)
    requires Stands(names, text, now, claims) && x.term < |names| && BLANK !in names[x.term]
    requires forall c :: c in claims ==> Before(c, x)
    requires Matches(now, names[x.term], x.start)
    ensures Occurs(names, text, x) && !Beaten(names, claims, x)
  {
    hide Covered, Beaten, Matches;
    var name := names[x.term];
    MatchFits(now, name, x.start);
    forall k: nat | k < |name| ensures text[x.start + k] == name[k] && !Covered(names, claims, x.start + k) {
      MatchedLetter(now, name, x.start, k);
      assert name[k] in name;
    }
    LettersMatch(text, name, x.start);
    BeatenWhereCovered(names, claims, x);
    forall k | Covers(names, x, k) ensures !Covered(names, claims, k) {
      MatchedLetter(now, name, x.start, k - x.start);
      assert name[k - x.start] in name;
    }
  }

  lemma MatchFits(text: string, name: string, at: nat)
    requires Matches(text, name, at)
    ensures at + |name| <= |text|
  {
  }

  lemma OccurrenceMatches(names: seq<string>, text: string, now: string, claims: set<Claim>, x: Claim)
    requires Stands(names, text, now, claims) && Occurs(names, text, x) && !Beaten(names, claims, x)
    requires forall c :: c in claims ==> Before(c, x)
    ensures Matches(now, names[x.term], x.start)
  {
    hide Covered, Beaten, Matches;
    var name := names[x.term];
    MatchFits(text, name, x.start);
    BeatenWhereCovered(names, claims, x);
    forall k: nat | k < |name| ensures now[x.start + k] == name[k] {
      MatchedLetter(text, name, x.start, k);
      assert Covers(names, x, x.start + k);
    }
    LettersMatch(now, name, x.start);
  }

  lemma BeatenWhereCovered(names: seq<string>, claims: set<Claim>, x: Claim)
    requires forall c :: c in claims ==> Before(c, x)
    ensures Beaten(names, claims, x) <==> exists k :: Covers(names, x, k) && Covered(names, claims, k)
  {
  }

  // Boundaries of the blanked text are the open edges of the original.
  lemma EdgesAreOpen(word: char -> bool, names: seq<string>, text: string, now: string, claims: set<Claim>, x: Claim)
    requires Stands(names, text, now, claims) && Occurs(names, text, x) && !word(BLANK)
    requires forall c :: c in claims ==> Before(c, x)
    ensures Edges(word, now, x.start, x.start + |names[x.term]|) <==> Open(word, names, text, claims, x)
  {
  }

  // Claiming x leaves what higher ranks see unchanged.
  lemma OpenStays(word: char -> bool, names: seq<string>, text: string, claims: set<Claim>, x: Claim, y: Claim)
    requires Occurs(names, text, y) && !Before(x, y)
    ensures Open(word, names, text, claims + {x}, y) <==> Open(word, names, text, claims, y)
  {
  }

  function Next(x: Claim): Claim
  {
    Claim(x.term, x.start + 1)
  }

  // Claiming a free open occurrence extends the matching by one rank.
  lemma Take(word: char -> bool, names: seq<string>, text: string, claims: set<Claim>, x: Claim)
    requires IsMatching(word, names, text, claims, x)
    requires Occurs(names, text, x) && Open(word, names, text, claims, x) && !Beaten(names, claims, x)
    ensures IsMatching(word, names, text, claims + {x}, Next(x))
  {
    hide Open, Occurs, Overlap;
    var after := claims + {x};
    forall c | c in after ensures Before(c, Next(x)) && Occurs(names, text, c) && Open(word, names, text, after, c) {
      OpenStays(word, names, text, claims, x, c);
    }
    forall c, d | c in after && d in after && c != d ensures !Overlap(names, c, d) {
      OverlapSymmetric(names, c, d);
    }
    forall y | Before(y, Next(x)) && Occurs(names, text, y) && Open(word, names, text, after, y)
      ensures y in after || Beaten(names, after, y)
    {
      if y != x {
        OpenStays(word, names, text, claims, x, y);
      }
    }
  }

  lemma OverlapSymmetric(names: seq<string>, a: Claim, b: Claim)
    ensures Overlap(names, a, b) <==> Overlap(names, b, a)
  {
  }

  // Passing over anything else extends it too.
  lemma Pass(word: char -> bool, names: seq<string>, text: string, claims: set<Claim>, x: Claim)
    requires IsMatching(word, names, text, claims, x)
    requires !Occurs(names, text, x) || !Open(word, names, text, claims, x) || Beaten(names, claims, x)
    ensures IsMatching(word, names, text, claims, Next(x))
  {
  }

  lemma TakeStands(names: seq<string>, text: string, now: string, claims: set<Claim>, x: Claim)
    requires Stands(names, text, now, claims) && x.term < |names|
    ensures Stands(names, text, Blanked(now, x.start, x.start + |names[x.term]|), claims + {x})
  {
  }

  // No name has room past the end of the text.
  lemma Exhausted(word: char -> bool, names: seq<string>, text: string, claims: set<Claim>, x: Claim)
    requires IsMatching(word, names, text, claims, x) && x.term < |names| && x.start + |names[x.term]| > |text|
    ensures IsMatching(word, names, text, claims, Claim(x.term + 1, 0))
  {
  }

  lemma {:induction false} ScanMatches(word: char -> bool, names: seq<string>, text: string, now: string, claims: set<Claim>,
                                       term: nat, from: nat)
    requires term < |names| && BLANK !in names[term] && !word(BLANK)
    requires Stands(names, text, now, claims) && IsMatching(word, names, text, claims, Claim(term, from))
    ensures var s := Scan(word, now, names[term], term, from);
      && Stands(names, text, s.text, claims + s.claims)
      && IsMatching(word, names, text, claims + s.claims, Claim(term + 1, 0))
    decreases |text| + 1 - from
  {
    hide IsMatching, Stands, Open, Occurs, Beaten;
    var name := names[term];
    var x := Claim(term, from);
    StandsLength(names, text, now, claims);
    if from + |name| > |text| {
      Exhausted(word, names, text, claims, x);
      assert claims + {} == claims;
    } else {
      MatchingRanks(word, names, text, claims, x);
      MatchIsFree(names, text, now, claims, x);
      if Occurs(names, text, x) {
        EdgesAreOpen(word, names, text, now, claims, x);
      }
      if Matches(now, name, from) && Edges(word, now, from, from + |name|) {
        Take(word, names, text, claims, x);
        TakeStands(names, text, now, claims, x);
        var after := Blanked(now, from, from + |name|);
        ScanMatches(word, names, text, after, claims + {x}, term, from + 1);
        var rest := Scan(word, after, name, term, from + 1);
        assert claims + ({x} + rest.claims) == claims + {x} + rest.claims;
      } else {
        Pass(word, names, text, claims, x);
        ScanMatches(word, names, text, now, claims, term, from + 1);
      }
    }
  }

  lemma StandsLength(names: seq<string>, text: string, now: string, claims: set<Claim>)
    requires Stands(names, text, now, claims)
    ensures |now| == |text|
  {
  }

  lemma MatchingRanks(word: char -> bool, names: seq<string>, text: string, claims: set<Claim>, x: Claim)
    requires IsMatching(word, names, text, claims, x)
    ensures forall c :: c in claims ==> Before(c, x)
  {
  }

  lemma NothingClaimed(word: char -> bool, names: seq<string>, text: string)
    ensures Stands(names, text, text, {}) && IsMatching(word, names, text, {}, Claim(0, 0))
  {
  }

  // The whole run over one text claims a longest-match set.
  lemma {:induction false} ScanAllMatches(word: char -> bool, names: seq<string>, text: string, n: nat)
    requires n <= |names| && Clean(names) && !word(BLANK)
    ensures var s := ScanAll(word, text, names, n);
      && Stands(names, text, s.text, s.claims)
      && IsMatching(word, names, text, s.claims, Claim(n, 0))
  {
    hide Stands, IsMatching, Scan;
    if n == 0 {
      NothingClaimed(word, names, text);
    } else {
      var before := ScanAll(word, text, names, n - 1);
      ScanAllMatches(word, names, text, n - 1);
      ScanMatches(word, names, text, before.text, before.claims, n - 1, 0);
    }
  }

  // ----- what a matching means -----

  // There is only one longest-match set.
  lemma {:induction false} MatchingUnique(word: char -> bool, names: seq<string>, text: string, a: set<Claim>, b: set<Claim>)
    requires IsMatching(word, names, text, a, Claim(|names|, 0)) && IsMatching(word, names, text, b, Claim(|names|, 0))
    ensures a == b
  {
    forall x ensures x in a <==> x in b {
      MatchingAgrees(word, names, text, a, b, x);
    }
  }

  lemma {:induction false} MatchingAgrees(word: char -> bool, names: seq<string>, text: string, a: set<Claim>, b: set<Claim>, x: Claim)
    requires IsMatching(word, names, text, a, Claim(|names|, 0)) && IsMatching(word, names, text, b, Claim(|names|, 0))
    ensures x in a <==> x in b
    decreases x.term, x.start
  {
    forall y | Before(y, x) ensures y in a <==> y in b {
      MatchingAgrees(word, names, text, a, b, y);
    }
    AgreeAbove(word, names, text, a, b, x);
    AgreeAbove(word, names, text, b, a, x);
  }

  lemma AgreeAbove(word: char -> bool, names: seq<string>, text: string, a: set<Claim>, b: set<Claim>, x: Claim)
    requires IsMatching(word, names, text, a, Claim(|names|, 0)) && IsMatching(word, names, text, b, Claim(|names|, 0))
    requires forall y :: Before(y, x) ==> (y in a <==> y in b)
    ensures x in a ==> x in b
  {
  }

  // ----- word boundaries of the original text -----

  predicate Starts(word: char -> bool, name: string)
    requires name != []
  {
    word(name[0])
  }

  predicate Ends(word: char -> bool, name: string)
    requires name != []
  {
    word(name[|name| - 1])
  }

  // No name has a non-word edge that a name claimed before it can meet with a word edge. Names that
  // begin and end with a word character are always compatible.
  ghost predicate Compatible(word: char -> bool, names: seq<string>)
  {
    && (forall i :: 0 <= i < |names| ==> names[i] != [])
    && (forall i, j :: 0 <= i <= j < |names| && Ends(word, names[i]) ==> Starts(word, names[j]))
    && (forall i, j :: 0 <= i < j < |names| && Starts(word, names[i]) ==> Ends(word, names[j]))
  }

  lemma WordEdgedNames(word: char -> bool, names: seq<string>)
    requires forall i :: 0 <= i < |names| ==> names[i] != [] && Starts(word, names[i]) && Ends(word, names[i])
    ensures Compatible(word, names)
  {
  }

  // Longer in bytes, then smaller, then further left.
  predicate Outranks(names: seq<string>, a: Claim, b: Claim)
    requires a.term < |names| && b.term < |names|
  {
    TermBefore(names[a.term], names[b.term]) || (names[a.term] == names[b.term] && a.start < b.start)
  }

  // Longest match: disjoint occurrences on word boundaries of the text, and every other occurrence
  // on word boundaries overlaps one that outranks it.
  ghost predicate Longest(word: char -> bool, names: seq<string>, text: string, claims: set<Claim>)
  {
    && (forall c :: c in claims ==> Occurs(names, text, c) && Bounded(word, names, text, c))
    && (forall c, d :: c in claims && d in claims && c != d ==> !Overlap(names, c, d))
    && (forall x :: Occurs(names, text, x) && Bounded(word, names, text, x) && x !in claims ==> Lost(names, claims, x))
  }

  ghost predicate Lost(names: seq<string>, claims: set<Claim>, x: Claim)
    requires x.term < |names|
  {
    exists c :: c in claims && c.term < |names| && Outranks(names, c, x) && Overlap(names, c, x)
  }

  // Over compatible names the scan finds the longest match, and nothing else is one.
  lemma LongestMatchWins(word: char -> bool, names: seq<string>, text: string)
    requires Clean(names) && !word(BLANK) && Compatible(word, names) && Ordering.Ascending(TermBefore, names)
    ensures forall claims :: Longest(word, names, text, claims) <==> claims == ScanAll(word, text, names, |names|).claims
  {
    hide Longest, IsMatching, ScanAll, Compatible, TermBefore;
    var found := ScanAll(word, text, names, |names|).claims;
    ScanAllMatches(word, names, text, |names|);
    MatchingIsLongest(word, names, text, found);
    forall claims | Longest(word, names, text, claims) ensures claims == found {
      LongestIsMatching(word, names, text, claims);
      MatchingUnique(word, names, text, claims, found);
    }
  }

  lemma RankIsOrder(names: seq<string>, a: Claim, b: Claim)
    requires Ordering.Ascending(TermBefore, names) && a.term < |names| && b.term < |names|
    ensures Before(a, b) <==> Outranks(names, a, b)
  {
    hide TermBefore;
    TermBeforeIsStrictOrder();
    assert a.term < b.term ==> TermBefore(names[a.term], names[b.term]);
    assert b.term < a.term ==> TermBefore(names[b.term], names[a.term]);
  }

  lemma MatchingIsLongest(word: char -> bool, names: seq<string>, text: string, claims: set<Claim>)
    requires IsMatching(word, names, text, claims, Claim(|names|, 0))
    requires Compatible(word, names) && Ordering.Ascending(TermBefore, names)
    ensures Longest(word, names, text, claims)
  {
    hide Compatible, TermBefore, Outranks;
    forall c | c in claims ensures Bounded(word, names, text, c) {
      ClaimsAreBounded(word, names, text, claims, c);
    }
    forall x | Occurs(names, text, x) && Bounded(word, names, text, x) && x !in claims ensures Lost(names, claims, x) {
      assert Open(word, names, text, claims, x);
      var c :| c in claims && Before(c, x) && Overlap(names, c, x);
      RankIsOrder(names, c, x);
    }
  }

  // The character of an occurrence is its name's.
  lemma EdgeCharacters(names: seq<string>, text: string, c: Claim)
    requires Occurs(names, text, c) && names[c.term] != []
    ensures text[c.start] == names[c.term][0]
    ensures text[c.start + |names[c.term]| - 1] == names[c.term][|names[c.term]| - 1]
    ensures Covers(names, c, c.start) && Covers(names, c, c.start + |names[c.term]| - 1)
  {
  }

  // Over compatible names every claim is on word boundaries of the original text.
  lemma ClaimsAreBounded(word: char -> bool, names: seq<string>, text: string, claims: set<Claim>, c: Claim)
    requires IsMatching(word, names, text, claims, Claim(|names|, 0)) && c in claims && Compatible(word, names)
    ensures Occurs(names, text, c) && Bounded(word, names, text, c)
  {
    hide IsMatching, Compatible;
    assert Occurs(names, text, c) && Open(word, names, text, claims, c) by {
      ClaimIsOpen(word, names, text, claims, c);
    }
    forall d | d in claims && Before(d, c)
      ensures Covers(names, d, c.start - 1) ==> !word(text[c.start - 1])
      ensures Covers(names, d, c.start + |names[c.term]|) ==> c.start + |names[c.term]| < |text| && !word(text[c.start + |names[c.term]|])
    {
      NextToWord(word, names, text, claims, c, d);
    }
  }

  lemma ClaimIsOpen(word: char -> bool, names: seq<string>, text: string, claims: set<Claim>, c: Claim)
    requires IsMatching(word, names, text, claims, Claim(|names|, 0)) && c in claims
    ensures Occurs(names, text, c) && Open(word, names, text, claims, c)
  {
  }

  // A higher-ranked claim next to c ends or begins there with a non-word character.
  lemma NextToWord(word: char -> bool, names: seq<string>, text: string, claims: set<Claim>, c: Claim, d: Claim)
    requires IsMatching(word, names, text, claims, Claim(|names|, 0)) && Compatible(word, names)
    requires c in claims && d in claims && Before(d, c)
    ensures Occurs(names, text, c) && Occurs(names, text, d)
    ensures Covers(names, d, c.start - 1) ==> !word(text[c.start - 1])
    ensures Covers(names, d, c.start + |names[c.term]|) ==> c.start + |names[c.term]| < |text| && !word(text[c.start + |names[c.term]|])
  {
    hide Overlap, Open;
    var end := c.start + |names[c.term]|;
    EdgeCharacters(names, text, c);
    assert !Overlap(names, d, c);
    EdgeCharacters(names, text, d);
    Apart(names, c, d, c.start - 1, c.start);
    Apart(names, c, d, end, end - 1);
    TouchedAtNonWord(word, names, text, claims, c, d);
  }

  // A disjoint d that covers the position next to c's edge ends or starts there.
  lemma Apart(names: seq<string>, c: Claim, d: Claim, k: int, m: int)
    requires !Overlap(names, d, c) && Covers(names, c, m) && (k == m - 1 || k == m + 1)
    ensures Covers(names, d, k) ==> if k < m then k == d.start + |names[d.term]| - 1 else k == d.start
  {
  }

  // Where a higher-ranked claim d touches c, the character of c is no word character: c was not yet
  // blanked when d was claimed.
  lemma TouchedAtNonWord(word: char -> bool, names: seq<string>, text: string, claims: set<Claim>, c: Claim, d: Claim)
    requires IsMatching(word, names, text, claims, Claim(|names|, 0)) && c in claims && d in claims && Before(d, c)
    requires names[c.term] != []
    ensures d.start + |names[d.term]| == c.start ==> !word(text[c.start])
    ensures c.start + |names[c.term]| == d.start ==> !word(text[d.start - 1])
  {
  }

  lemma LongestIsMatching(word: char -> bool, names: seq<string>, text: string, claims: set<Claim>)
    requires Longest(word, names, text, claims) && Compatible(word, names) && Ordering.Ascending(TermBefore, names)
    ensures IsMatching(word, names, text, claims, Claim(|names|, 0))
  {
    hide Compatible, TermBefore, Outranks, Overlap, Beaten;
    forall x | Occurs(names, text, x) && Open(word, names, text, claims, x) && x !in claims ensures Beaten(names, claims, x) {
      LoserIsBeaten(word, names, text, claims, x);
    }
    assert forall c :: c in claims ==> Open(word, names, text, claims, c);
  }

  lemma LoserIsBeaten(word: char -> bool, names: seq<string>, text: string, claims: set<Claim>, x: Claim)
    requires Longest(word, names, text, claims) && Compatible(word, names) && Ordering.Ascending(TermBefore, names)
    requires Occurs(names, text, x) && Open(word, names, text, claims, x) && x !in claims
    ensures Beaten(names, claims, x)
  {
    hide Compatible, TermBefore, Outranks, Overlap;
    if Bounded(word, names, text, x) {
      var c :| c in claims && c.term < |names| && Outranks(names, c, x) && Overlap(names, c, x);
      RankIsOrder(names, c, x);
    } else {
      var end := x.start + |names[x.term]|;
      var k := if x.start > 0 && word(text[x.start - 1]) then x.start - 1 else end;
      var d :| d in claims && Before(d, x) && Covers(names, d, k);
      Swallowed(word, names, text, x, d, k);
    }
  }

  // A bounded d that covers a word character next to x's edge covers the edge as well.
  lemma Swallowed(word: char -> bool, names: seq<string>, text: string, x: Claim, d: Claim, k: nat)
    requires Compatible(word, names) && Occurs(names, text, x) && Occurs(names, text, d) && Bounded(word, names, text, d)
    requires Before(d, x) && Covers(names, d, k) && word(text[k])
    requires k == x.start - 1 || k == x.start + |names[x.term]|
    ensures Overlap(names, d, x)
  {
    EdgeCharacters(names, text, x);
    EdgeCharacters(names, text, d);
    var edge := if k == x.start - 1 then x.start else k - 1;
    assert Covers(names, x, edge);
    assert Ends(word, names[d.term]) ==> Starts(word, names[x.term]);
    assert d.term < x.term && Starts(word, names[d.term]) ==> Ends(word, names[x.term]);
    assert Covers(names, d, edge);
  }

  // ----- names with non-word edges -----

  lemma {:induction false} BytesAppend(a: string, b: string)
    ensures Bytes(a + b) == Bytes(a) + Bytes(b)
  {
    if a == [] {
      assert a + b == b;
    } else {
      assert (a + b)[1..] == a[1..] + b;
      BytesAppend(a[1..], b);
    }
  }

  // What occurs inside a name is shorter, or all of it.
  lemma InsideIsShorter(p: string, q: string, at: nat)
    requires Matches(q, p, at)
    ensures Bytes(p) < Bytes(q) || p == q
  {
    var before, after := q[..at], q[at + |p|..];
    assert q == before + p + after;
    BytesAppend(before + p, after);
    BytesAppend(before, p);
    if before == [] && after == [] {
      assert p == q;
    } else {
      assert Bytes(before) + Bytes(after) > 0;
    }
  }

  // The claim of an earlier name p opens a boundary its own word character denied: in the text p
  // followed by q, a name q that begins with a non-word character is claimed off the word boundary.
  lemma ClaimOffBoundary(word: char -> bool, p: string, q: string)
    requires p != [] && q != [] && BLANK !in p && BLANK !in q && !word(BLANK)
    requires TermBefore(p, q) && Ends(word, p) && !Starts(word, q)
    ensures var c := Claim(1, |p|);
      && Occurs([p, q], p + q, c) && !Bounded(word, [p, q], p + q, c)
      && c in ScanAll(word, p + q, [p, q], 2).claims
  {
    hide ScanAll, TermBefore, IsMatching, Overlap;
    var names, text := [p, q], p + q;
    var claims := ScanAll(word, text, names, 2).claims;
    ScanAllMatches(word, names, text, 2);
    NotInside(p, q);
    var first, x := Claim(0, 0), Claim(1, |p|);
    assert text[0..|p|] == p && text[|p|..|p| + |q|] == q;
    forall c | Before(c, x) && Occurs(names, text, c) ensures c.start < |p| {
      if c.term == 0 {
        Inside(p, q, c.start);
      }
    }
    OpenedByFirst(word, names, text, claims, first, x);
  }

  lemma Inside(p: string, q: string, at: nat)
    requires Matches(p + q, p, at) && forall k: nat :: !Matches(q, p, k)
    ensures at < |p|
  {
    if at >= |p| {
      assert (p + q)[at..at + |p|] == q[at - |p|..at];
      assert Matches(q, p, at - |p|);
    }
  }

  lemma NotInside(p: string, q: string)
    requires TermBefore(p, q)
    ensures forall at: nat :: !Matches(q, p, at)
  {
    TermBeforeIsStrictOrder();
    forall at: nat ensures !Matches(q, p, at) {
      if Matches(q, p, at) {
        InsideIsShorter(p, q, at);
      }
    }
  }

  // An occurrence right behind a claim at the start of the text, with nothing of higher rank over
  // it, is claimed, though the text before it is a word character.
  lemma OpenedByFirst(word: char -> bool, names: seq<string>, text: string, claims: set<Claim>, first: Claim, x: Claim)
    requires IsMatching(word, names, text, claims, Claim(|names|, 0))
    requires forall i :: 0 <= i < |names| ==> names[i] != []
    requires first == Claim(0, 0) && Occurs(names, text, first) && Occurs(names, text, x) && Before(first, x)
    requires x.start == |names[0]| && x.start + |names[x.term]| == |text|
    requires word(text[x.start - 1]) && !word(text[x.start])
    requires forall c :: Before(c, x) && Occurs(names, text, c) ==> c.start < x.start
    ensures x in claims && !Bounded(word, names, text, x)
  {
    hide Overlap;
    assert Open(word, names, text, claims, first);
    assert first in claims;
    assert Covers(names, first, x.start - 1);
    assert Open(word, names, text, claims, x);
    forall c | c in claims && Before(c, x) ensures !Overlap(names, c, x) {
      StartsApart(names, claims, first, c);
      FirstEndsBefore(names, first, x);
    }
  }

  lemma FirstEndsBefore(names: seq<string>, first: Claim, x: Claim)
    requires first.term < |names| && first.start + |names[first.term]| <= x.start
    ensures !Overlap(names, first, x)
  {
  }

  lemma StartsApart(names: seq<string>, claims: set<Claim>, first: Claim, c: Claim)
    requires first in claims && c in claims && first == Claim(0, 0) && c.term < |names| && names[0] != [] && names[c.term] != []
    requires forall a, b :: a in claims && b in claims && a != b ==> !Overlap(names, a, b)
    ensures c == first || c.start >= |names[0]|
  {
    if c != first {
      assert !Overlap(names, first, c);
      assert Covers(names, c, c.start);
    }
  }

  // A single name stays on word boundaries in every text exactly when it does not begin with a
  // non-word character and end with a word character.
  lemma SingleNameBounded(word: char -> bool, q: string)
    requires q != [] && BLANK !in q && !word(BLANK)
    ensures (forall text, c :: c in ScanAll(word, text, [q], 1).claims ==> Occurs([q], text, c) && Bounded(word, [q], text, c))
      <==> (Ends(word, q) ==> Starts(word, q))
  {
    hide ScanAll;
    var names := [q];
    if Ends(word, q) ==> Starts(word, q) {
      forall text, c | c in ScanAll(word, text, names, 1).claims ensures Occurs(names, text, c) && Bounded(word, names, text, c) {
        ScanAllMatches(word, names, text, 1);
        ClaimsAreBounded(word, names, text, ScanAll(word, text, names, 1).claims, c);
      }
    } else {
      Doubled(word, q);
    }
  }

  lemma Doubled(word: char -> bool, q: string)
    requires q != [] && BLANK !in q && !word(BLANK) && Ends(word, q) && !Starts(word, q)
    ensures var c := Claim(0, |q|);
      && Occurs([q], q + q, c) && !Bounded(word, [q], q + q, c)
      && c in ScanAll(word, q + q, [q], 1).claims
  {
    hide ScanAll, IsMatching, Overlap, Matches;
    var names, text := [q], q + q;
    ScanAllMatches(word, names, text, 1);
    BothMatch(q, q);
    OpenedByFirst(word, names, text, ScanAll(word, text, names, 1).claims, Claim(0, 0), Claim(0, |q|));
  }

  lemma BothMatch(p: string, q: string)
    ensures Matches(p + q, p, 0) && Matches(p + q, q, |p|) && |p + q| == |p| + |q|
  {
  }

  // ----- the matcher -----

  // bytes.Index from a position on: the first match, or nothing.
  method Index(a: array<char>, name: string, from: nat) returns (i: int)
    ensures i < 0 ==> forall k :: from <= k ==> !Matches(a[..], name, k)
    ensures i >= 0 ==> from <= i <= i + |name| <= a.Length && Matches(a[..], name, i)
    ensures forall k :: from <= k < i ==> !Matches(a[..], name, k)
  {
    i := from;
    while i + |name| <= a.Length
      invariant from <= i && forall k :: from <= k < i ==> !Matches(a[..], name, k)
    {
      assert a[..][i..i + |name|] == a[i..i + |name|];
      if a[i..i + |name|] == name {
        return;
      }
      i := i + 1;
    }
    i := -1;
  }

  // Positions that match nothing are passed over.
  lemma {:induction false} SkipTo(word: char -> bool, text: string, name: string, term: nat, from: nat, i: nat)
    requires from <= i && forall k :: from <= k < i ==> !Matches(text, name, k)
    ensures Scan(word, text, name, term, from) == Scan(word, text, name, term, i) || i + |name| > |text|
    ensures i + |name| > |text| ==> Scan(word, text, name, term, from) == Scanned(text, {})
    decreases i - from
  {
    if from < i && from + |name| <= |text| {
      SkipTo(word, text, name, term, from + 1, i);
    }
  }

  // A scan under way: what is claimed already, and what the rest of the text will give.
  ghost function Rest(word: char -> bool, text: string, name: string, term: nat, from: nat, claimed: set<Claim>): Scanned
  {
    var s := Scan(word, text, name, term, from);
    Scanned(s.text, claimed + s.claims)
  }

  lemma RestStart(word: char -> bool, text: string, name: string, term: nat)
    ensures Rest(word, text, name, term, 0, {}) == Scan(word, text, name, term, 0)
  {
  }

  lemma RestEnd(word: char -> bool, text: string, name: string, term: nat, from: nat, claimed: set<Claim>)
    requires forall k :: from <= k ==> !Matches(text, name, k)
    ensures Rest(word, text, name, term, from, claimed) == Scanned(text, claimed)
  {
    SkipTo(word, text, name, term, from, from + |text| + 1);
  }

  lemma RestNext(word: char -> bool, text: string, name: string, term: nat, from: nat, i: nat, claimed: set<Claim>)
    requires from <= i && Matches(text, name, i) && forall k :: from <= k < i ==> !Matches(text, name, k)
    ensures Rest(word, text, name, term, from, claimed)
      == if Edges(word, text, i, i + |name|)
         then Rest(word, Blanked(text, i, i + |name|), name, term, i + 1, claimed + {Claim(term, i)})
         else Rest(word, text, name, term, i + 1, claimed)
  {
    SkipTo(word, text, name, term, from, i);
    assert Rest(word, text, name, term, from, claimed) == Rest(word, text, name, term, i, claimed);
    if Edges(word, text, i, i + |name|) {
      var rest := Scan(word, Blanked(text, i, i + |name|), name, term, i + 1);
      assert claimed + ({Claim(term, i)} + rest.claims) == claimed + {Claim(term, i)} + rest.claims;
    }
  }

  // One name over one text: every bounded match, left to right, blanked in place.
  method ClaimName(word: char -> bool, a: array<char>, name: string, ghost term: nat) returns (matched: bool)
    modifies a
    ensures var s := Scan(word, old(a[..]), name, term, 0);
      a[..] == s.text && (matched <==> s.claims != {})
  {
    hide Rest, Scan, Matches, Blanked, Edges;
    matched := false;
    ghost var whole := Scan(word, a[..], name, term, 0);
    RestStart(word, a[..], name, term);
    ghost var claimed: set<Claim> := {};
    var from := 0;
    var more := true;
    while more && from + |name| <= a.Length
      invariant Rest(word, a[..], name, term, from, claimed) == whole
      invariant matched <==> claimed != {}
      invariant from <= a.Length + 1
      invariant !more ==> whole == Scanned(a[..], claimed)
      decreases a.Length + 1 - from, more
    {
      var i := Index(a, name, from);
      if i < 0 {
        RestEnd(word, a[..], name, term, from, claimed);
        more := false;
      } else {
        RestNext(word, a[..], name, term, from, i, claimed);
        var bounded := IsBounded(word, a, i, i + |name|);
        if bounded {
          matched := true;
          claimed := claimed + {Claim(term, i)};
          Blank(a, i, i + |name|);
        }
        from := i + 1;
      }
    }
    if more {
      NoRoom(a[..], name, from);
      RestEnd(word, a[..], name, term, from, claimed);
    }
  }

  lemma NoRoom(text: string, name: string, from: nat)
    requires from + |name| > |text|
    ensures forall k :: from <= k ==> !Matches(text, name, k)
  {
  }

  method IsBounded(word: char -> bool, a: array<char>, start: nat, end: nat) returns (r: bool)
    requires start <= end <= a.Length
    ensures r <==> Edges(word, a[..], start, end)
  {
    r := (start == 0 || !word(a[start - 1])) && (end == a.Length || !word(a[end]));
  }

  method Blank(a: array<char>, start: nat, end: nat)
    requires start <= end <= a.Length
    modifies a
    ensures a[..] == Blanked(old(a[..]), start, end)
  {
    for k := start to end
      invariant forall j :: 0 <= j < a.Length ==> a[j] == if start <= j < k then BLANK else old(a[j])
    {
      a[k] := BLANK;
    }
  }

  // Whether some run of the text has a claim of the name at this place in the claiming order.
  ghost predicate Found(word: char -> bool, names: seq<string>, runs: seq<string>, term: nat)
  {
    exists r, c :: 0 <= r < |runs| && c in ScanAll(word, runs[r], names, |names|).claims && c.term == term
  }

  ghost predicate FoundIn(word: char -> bool, names: seq<string>, run: string, term: nat)
    requires term < |names|
  {
    Scan(word, ScanAll(word, run, names, term).text, names[term], term, 0).claims != {}
  }

  // Every text of the list stands as the first n names left it.
  ghost predicate Blanks(word: char -> bool, names: seq<string>, runs: seq<string>, texts: seq<array<char>>, n: nat, lo: nat, hi: nat)
    requires n <= |names| && |texts| == |runs| && lo <= hi <= |runs|
    reads texts
  {
    forall r :: lo <= r < hi ==> texts[r][..] == ScanAll(word, runs[r], names, n).text
  }

  // One name over every run.
  method ClaimInRuns(word: char -> bool, names: seq<string>, ghost runs: seq<string>, texts: seq<array<char>>, n: nat)
    returns (matched: bool)
    requires n < |names| && |texts| == |runs| && forall i, j :: 0 <= i < j < |texts| ==> texts[i] != texts[j]
    requires Blanks(word, names, runs, texts, n, 0, |runs|)
    modifies texts
    ensures Blanks(word, names, runs, texts, n + 1, 0, |runs|)
    ensures matched <==> exists r :: 0 <= r < |runs| && FoundIn(word, names, runs[r], n)
  {
    hide Scan;
    matched := false;
    for r := 0 to |texts|
      invariant Blanks(word, names, runs, texts, n + 1, 0, r) && Blanks(word, names, runs, texts, n, r, |runs|)
      invariant matched <==> exists k :: 0 <= k < r && FoundIn(word, names, runs[k], n)
    {
      var here := ClaimName(word, texts[r], names[n], n);
      matched := matched || here;
    }
  }

  // Claims of a place in the claiming order are made while that place is scanned, and only then.
  lemma {:induction false} ClaimedInTurn(word: char -> bool, names: seq<string>, run: string, n: nat, term: nat)
    requires n <= |names| && term < |names|
    ensures (exists c :: c in ScanAll(word, run, names, n).claims && c.term == term) <==> term < n && FoundIn(word, names, run, term)
  {
    hide Scan;
    if n > 0 {
      ClaimedInTurn(word, names, run, n - 1, term);
      var before := ScanAll(word, run, names, n - 1);
      var s := Scan(word, before.text, names[n - 1], n - 1, 0);
      OwnClaims(word, before.text, names[n - 1], n - 1, 0);
      if s.claims != {} {
        var c :| c in s.claims;
        assert c in before.claims + s.claims;
      }
      forall c | c in before.claims ensures c in before.claims + s.claims {
      }
    }
  }

  lemma {:induction false} OwnClaims(word: char -> bool, text: string, name: string, term: nat, from: nat)
    ensures forall c :: c in Scan(word, text, name, term, from).claims ==> c.term == term
    decreases |text| + 1 - from
  {
    if from + |name| <= |text| {
      OwnClaims(word, Blanked(text, from, from + |name|), name, term, from + 1);
      OwnClaims(word, text, name, term, from + 1);
    }
  }

  lemma FoundOnce(word: char -> bool, names: seq<string>, runs: seq<string>, term: nat)
    requires term < |names|
    ensures Found(word, names, runs, term) <==> exists r :: 0 <= r < |runs| && FoundIn(word, names, runs[r], term)
  {
    hide ScanAll, FoundIn;
    forall r | 0 <= r < |runs|
      ensures FoundIn(word, names, runs[r], term) <==> exists c :: c in ScanAll(word, runs[r], names, |names|).claims && c.term == term
    {
      ClaimedInTurn(word, names, runs[r], |names|, term);
    }
  }

  // The names listed so far: those of the places scanned that some run claims.
  ghost predicate Lists(word: char -> bool, names: seq<string>, runs: seq<string>, self: string, n: nat, listed: seq<string>, places: seq<nat>)
    requires n <= |names|
  {
    && |listed| == |places|
    && (forall k :: 0 <= k < |places| ==> places[k] < n && listed[k] == names[places[k]] != self && Found(word, names, runs, places[k]))
    && (forall i, j :: 0 <= i < j < |places| ==> places[i] < places[j])
    && (forall i :: 0 <= i < n && names[i] != self && Found(word, names, runs, i) ==> i in places)
  }

  lemma ListNext(word: char -> bool, names: seq<string>, runs: seq<string>, self: string, n: nat, listed: seq<string>, places: seq<nat>)
    requires n < |names| && Lists(word, names, runs, self, n, listed, places)
    ensures if Found(word, names, runs, n) && names[n] != self
      then Lists(word, names, runs, self, n + 1, listed + [names[n]], places + [n])
      else Lists(word, names, runs, self, n + 1, listed, places)
  {
  }

  lemma ListsNames(word: char -> bool, names: seq<string>, runs: seq<string>, self: string, listed: seq<string>, places: seq<nat>)
    requires Ordering.Ascending(TermBefore, names) && Lists(word, names, runs, self, |names|, listed, places)
    ensures forall i, j :: 0 <= i < j < |listed| ==> listed[i] != listed[j]
    ensures Ordering.Elements(listed) == Mentioned(word, names, runs, self)
  {
    hide Found, TermBefore;
    TermBeforeIsStrictOrder();
    forall i, j | 0 <= i < j < |listed| ensures listed[i] != listed[j] {
      assert TermBefore(names[places[i]], names[places[j]]);
    }
    forall i | 0 <= i < |names| && names[i] != self && Found(word, names, runs, i) ensures names[i] in listed {
      var k :| 0 <= k < |places| && places[k] == i;
      assert listed[k] == names[i];
    }
  }

  ghost function Mentioned(word: char -> bool, names: seq<string>, runs: seq<string>, self: string): set<string>
  {
    set i | 0 <= i < |names| && names[i] != self && Found(word, names, runs, i) :: names[i]
  }

  // match: the names some run claims, sorted, without the block's own.
  method Match(word: char -> bool, names: seq<string>, runs: seq<string>, self: string) returns (out: seq<string>)
    requires Ordering.Ascending(TermBefore, names)
    ensures Ordering.Ascending(Ordering.Less, out)
    ensures Ordering.Elements(out) == Mentioned(word, names, runs, self)
  {
    hide *;
    var texts := Texts(runs);
    StartBlanks(word, names, runs, texts);
    var listed: seq<string> := [];
    ghost var places: seq<nat> := [];
    StartLists(word, names, runs, self);
    for n := 0 to |names|
      invariant Blanks(word, names, runs, texts, n, 0, |runs|)
      invariant Lists(word, names, runs, self, n, listed, places)
    {
      var matched := ClaimInRuns(word, names, runs, texts, n);
      FoundOnce(word, names, runs, n);
      ListNext(word, names, runs, self, n, listed, places);
      if matched && names[n] != self {
        listed, places := listed + [names[n]], places + [n];
      }
    }
    ListsNames(word, names, runs, self, listed, places);
    SortableByLess(listed);
    out := Ordering.Sort(Ordering.Less, listed);
  }

  lemma SortableByLess(listed: seq<string>)
    ensures Ordering.StrictOrder(Ordering.Less) && Ordering.TotalOn(Ordering.Less, Ordering.Elements(listed))
  {
    Ordering.LessIsStrictOrder();
  }

  lemma StartBlanks(word: char -> bool, names: seq<string>, runs: seq<string>, texts: seq<array<char>>)
    requires |texts| == |runs| && forall r :: 0 <= r < |runs| ==> texts[r][..] == runs[r]
    ensures Blanks(word, names, runs, texts, 0, 0, |runs|)
  {
  }

  lemma StartLists(word: char -> bool, names: seq<string>, runs: seq<string>, self: string)
    ensures Lists(word, names, runs, self, 0, [], [])
  {
  }

  // A mutable copy of every run.
  method Texts(runs: seq<string>) returns (texts: seq<array<char>>)
    ensures |texts| == |runs| && fresh(texts)
    ensures forall i, j :: 0 <= i < j < |texts| ==> texts[i] != texts[j]
    ensures forall r :: 0 <= r < |runs| ==> texts[r][..] == runs[r]
  {
    texts := [];
    for r := 0 to |runs|
      invariant |texts| == r && fresh(texts)
      invariant forall i, j :: 0 <= i < j < r ==> texts[i] != texts[j]
      invariant forall i :: 0 <= i < r ==> texts[i][..] == runs[i]
    {
      var run := runs[r];
      var a := new char[|run|](k requires 0 <= k < |run| => run[k]);
      assert a[..] == run;
      texts := texts + [a];
    }
  }
}
