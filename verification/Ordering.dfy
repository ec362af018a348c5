/** Orders and sorting shared by the stores, the reports and the matcher: the byte order of
    strings, and sorting by a strict order that is total on the elements sorted. */
module Ordering {

  // Go's `<` on strings: the first differing character decides, a proper prefix is smaller.
  predicate Less(a: string, b: string)
  {
    if |b| == 0 then false
    else if |a| == 0 then true
    else a[0] < b[0] || (a[0] == b[0] && Less(a[1..], b[1..]))
  }

  lemma {:induction false} LessIrreflexive(a: string)
    ensures !Less(a, a)
  {
    if |a| > 0 {
      LessIrreflexive(a[1..]);
    }
  }

  lemma {:induction false} LessTransitive(a: string, b: string, c: string)
    requires Less(a, b) && Less(b, c)
    ensures Less(a, c)
  {
    if |a| > 0 && a[0] == b[0] == c[0] {
      LessTransitive(a[1..], b[1..], c[1..]);
    }
  }

  lemma {:induction false} LessTotal(a: string, b: string)
    requires a != b
    ensures Less(a, b) || Less(b, a)
  {
    if |a| > 0 && |b| > 0 && a[0] == b[0] {
      assert a == [a[0]] + a[1..] && b == [b[0]] + b[1..];
      LessTotal(a[1..], b[1..]);
    }
  }

  lemma LessIsStrictOrder()
    ensures StrictOrder(Less) && forall s: set<string> :: TotalOn(Less, s)
  {
    forall a { LessIrreflexive(a); }
    forall a, b, c | Less(a, b) && Less(b, c) ensures Less(a, c) { LessTransitive(a, b, c); }
    forall a, b | a != b ensures Less(a, b) || Less(b, a) { LessTotal(a, b); }
  }

  ghost predicate StrictOrder<T(!new)>(less: (T, T) -> bool)
  {
    && (forall a :: !less(a, a))
    && (forall a, b, c :: less(a, b) && less(b, c) ==> less(a, c))
  }

  ghost predicate TotalOn<T>(less: (T, T) -> bool, s: set<T>)
  {
    forall a, b :: a in s && b in s && a != b ==> less(a, b) || less(b, a)
  }

  ghost predicate Ascending<T>(less: (T, T) -> bool, s: seq<T>)
  {
    forall i, j :: 0 <= i < j < |s| ==> less(s[i], s[j])
  }

  function Elements<T>(s: seq<T>): set<T>
  {
    set x | x in s
  }

  // sort.Slice and slices.SortFunc over distinct elements: the order decides the result.
  method Sort<T(==, !new)>(less: (T, T) -> bool, s: seq<T>) returns (r: seq<T>)
    requires StrictOrder(less) && TotalOn(less, Elements(s))
    requires forall i, j :: 0 <= i < j < |s| ==> s[i] != s[j]
    ensures Ascending(less, r) && Elements(r) == Elements(s) && |r| == |s|
  {
    r := [];
    for i := 0 to |s|
      invariant Ascending(less, r) && |r| == i
      invariant Elements(r) == Elements(s[..i])
    {
      var k := 0;
      while k < |r| && less(r[k], s[i])
        invariant 0 <= k <= |r|
        invariant forall j :: 0 <= j < k ==> less(r[j], s[i])
      {
        k := k + 1;
      }
      if k < |r| {
        assert r[k] in Elements(r) && r[k] in Elements(s) && s[i] in Elements(s);
        assert less(s[i], r[k]) by {
          assert r[k] in s[..i];
          assert r[k] != s[i];
        }
      }
      ghost var before := r;
      r := r[..k] + [s[i]] + r[k..];
      assert Elements(r) == Elements(s[..i + 1]) by {
        assert s[..i + 1] == s[..i] + [s[i]];
        assert before == before[..k] + before[k..];
        forall x ensures x in Elements(r) <==> x in Elements(s[..i + 1]) {
          assert x in r <==> x in before[..k] || x == s[i] || x in before[k..];
          assert x in before <==> x in before[..k] || x in before[k..];
          assert x in before <==> x in Elements(before);
          assert x in s[..i] <==> x in Elements(s[..i]);
        }
      }
    }
    assert s[..|s|] == s;
  }

  lemma FirstIsLeast<T(!new)>(less: (T, T) -> bool, s: seq<T>, x: T)
    requires Ascending(less, s) && x in s
    ensures x == s[0] || less(s[0], x)
  {
  }

  // An ascending sequence is determined by its elements.
  lemma {:induction false} AscendingUnique<T(!new)>(less: (T, T) -> bool, s: seq<T>, t: seq<T>)
    requires StrictOrder(less) && Ascending(less, s) && Ascending(less, t)
    requires Elements(s) == Elements(t)
    ensures s == t
  {
    if s == [] {
      assert forall i :: 0 <= i < |t| ==> t[i] in Elements(t);
    } else {
      assert s[0] in Elements(t);
      assert t != [];
      assert t[0] in Elements(s);
      FirstIsLeast(less, s, t[0]);
      FirstIsLeast(less, t, s[0]);
      assert Elements(s[1..]) == Elements(t[1..]) by {
        forall x ensures x in s[1..] <==> x in t[1..] {
          if x in s[1..] {
            var i :| 1 <= i < |s| && s[i] == x;
            assert less(s[0], x) && x in Elements(s);
            var j :| 0 <= j < |t| && t[j] == x;
            assert x == t[1..][j - 1];
          }
          if x in t[1..] {
            var i :| 1 <= i < |t| && t[i] == x;
            assert less(t[0], x) && x in Elements(t);
            var j :| 0 <= j < |s| && s[j] == x;
            assert x == s[1..][j - 1];
          }
        }
      }
      AscendingUnique(less, s[1..], t[1..]);
    }
  }

  lemma ElementsAppend<T>(s: seq<T>, x: T)
    ensures Elements(s + [x]) == Elements(s) + {x}
  {
  }

  lemma AscendingDistinct<T(!new)>(less: (T, T) -> bool, s: seq<T>)
    requires StrictOrder(less) && Ascending(less, s)
    ensures forall i, j :: 0 <= i < j < |s| ==> s[i] != s[j]
    ensures |Elements(s)| == |s|
  {
    forall i, j | 0 <= i < j < |s| ensures s[i] != s[j] {
      assert less(s[i], s[j]);
    }
    DistinctSize(s);
  }

  lemma {:induction false} DistinctSize<T>(s: seq<T>)
    requires forall i, j :: 0 <= i < j < |s| ==> s[i] != s[j]
    ensures |Elements(s)| == |s|
  {
    if s != [] {
      var n := |s| - 1;
      DistinctSize(s[..n]);
      assert Elements(s) == Elements(s[..n]) + {s[n]} by {
        assert s == s[..n] + [s[n]];
      }
    }
  }

  function Above<T(==, !new)>(less: (T, T) -> bool, all: set<T>, x: T): set<T>
  {
    set y | y in all && less(y, x)
  }

  // The elements fewer than bound others stand above.
  function Top<T(==, !new)>(less: (T, T) -> bool, all: set<T>, bound: int): set<T>
  {
    set x | x in all && |Above(less, all, x)| < bound
  }

  lemma {:induction false} Last<T(!new)>(less: (T, T) -> bool, s: set<T>) returns (z: T)
    requires StrictOrder(less) && TotalOn(less, s) && s != {}
    ensures z in s && Above(less, s, z) == s - {z}
  {
    var x :| x in s;
    if s == {x} {
      z := x;
    } else {
      var y := Last(less, s - {x});
      z := if less(x, y) then y else x;
      assert less(x, y) || less(y, x);
      forall a | a in s - {z} ensures less(a, z) {
        assert a != x && a != y ==> a in Above(less, s - {x}, y);
      }
    }
  }

  // Every finite set has an ascending list.
  lemma {:induction false} Arrange<T(!new)>(less: (T, T) -> bool, s: set<T>) returns (r: seq<T>)
    requires StrictOrder(less) && TotalOn(less, s)
    ensures Ascending(less, r) && Elements(r) == s
    decreases |s|
  {
    if s == {} {
      r := [];
    } else {
      var z := Last(less, s);
      var before := Arrange(less, s - {z});
      r := before + [z];
      ElementsAppend(before, z);
      forall i | 0 <= i < |before| ensures less(before[i], z) {
        assert before[i] in Elements(before) && before[i] in Above(less, s, z);
      }
    }
  }

  // Under a strict total order the top bound elements number min(bound, |all|).
  lemma {:induction false} TopSize<T(!new)>(less: (T, T) -> bool, all: set<T>, bound: int)
    requires StrictOrder(less) && TotalOn(less, all)
    ensures |Top(less, all, bound)| == if bound <= 0 then 0 else if |all| < bound then |all| else bound
    decreases |all|
  {
    if all != {} {
      var z := Last(less, all);
      TopSize(less, all - {z}, bound);
      forall x | x in all - {z} ensures Above(less, all, x) == Above(less, all - {z}, x) {
        assert x in Above(less, all, z);
      }
      assert Top(less, all, bound) == Top(less, all - {z}, bound) + if |all| - 1 < bound then {z} else {};
    }
  }
}
