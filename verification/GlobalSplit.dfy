/** The two-store retention verb (internal/prune/prune.go): one byte bound split between the
    witness and the resolution stores in proportion to what each would keep, each store then
    pruned under its share. Byte counts are 64-bit in the program, so the product the split
    takes is wrapped here as it wraps there. */
module GlobalSplit {
  import opened Basics
  import opened Retention
  import opened Sums

  const MODULUS: int := 0x1_0000_0000_0000_0000
  const MAX_INT64: int := 0x7fff_ffff_ffff_ffff

  // A product as a signed 64-bit integer holds it.
  function Wrap(x: int): (r: int)
    ensures -MAX_INT64 - 1 <= r <= MAX_INT64
  {
    var low := x % MODULUS;
    if low <= MAX_INT64 then low else low - MODULUS
  }

  // Go's division: toward zero.
  function Quotient(a: int, b: int): int
    requires b > 0
  {
    if a >= 0 then a / b else -((-a) / b)
  }

  datatype Shares = Shares(forWitnesses: int, forResolutions: int)

  // The ceilings the two passes run under; w and r are what the previews would keep.
  function Split(bound: int, w: nat, r: nat): Shares
  {
    if bound < 0 then Shares(-1, -1)
    else if w + r > bound then
      var share := Quotient(Wrap(bound * r), w + r);
      Shares(bound - share, share)
    else Shares(bound, bound)
  }

  // The proportional share, rounded down, is non-negative and no more than its store keeps,
  // and what is left of the bound is no more than the other keeps.
  lemma ProportionalShare(bound: nat, w: nat, r: nat)
    requires w + r > bound
    ensures 0 <= bound * r / (w + r) <= r
    ensures 0 <= bound - bound * r / (w + r) <= w
  {
    var t := w + r;
    Grows(bound, t, r);
    AtMost(bound * r, t, r);
    Grows(r, t, bound);
    AtMost(bound * r, t, bound);
    assert (bound - w) * t == bound * r + w * (bound - t);
    Grows(bound - t, 0, w);
    AtLeast(bound * r, t, bound - w);
  }

  lemma Grows(a: int, b: int, c: nat)
    requires a <= b
    ensures a * c <= b * c
  {
  }

  lemma AtMost(x: nat, t: nat, m: nat)
    requires t > 0 && x <= t * m
    ensures 0 <= x / t <= m
  {
    var q := x / t;
    assert q * t <= x;
    if q > m {
      Grows(m + 1, q, t);
    }
  }

  lemma AtLeast(x: nat, t: nat, m: int)
    requires t > 0 && m * t <= x
    ensures m <= x / t
  {
    var q := x / t;
    assert x < (q + 1) * t;
    if q + 1 <= m {
      Grows(q + 1, m, t);
    }
  }

  lemma WrapSmall(x: nat)
    requires x <= MAX_INT64
    ensures Wrap(x) == x
  {
  }

  // The split is the proportional one exactly when the product fits 64 bits.
  lemma SplitIsProportional(bound: nat, w: nat, r: nat)
    requires bound < w + r <= MAX_INT64
    ensures Split(bound, w, r).forResolutions == bound * r / (w + r) <==> bound * r <= MAX_INT64
  {
    hide Wrap, Quotient;
    if bound * r <= MAX_INT64 {
      WrapSmall(bound * r);
      QuotientOf(bound * r, w + r);
    } else {
      WrapLarge(bound * r);
      LowerQuotient(Wrap(bound * r), bound * r, w + r);
    }
  }

  lemma QuotientOf(x: nat, t: nat)
    requires t > 0
    ensures Quotient(x, t) == x / t
  {
  }

  // A product wrapped by more than the divisor divides to less.
  lemma LowerQuotient(low: int, x: nat, t: nat)
    requires t > 0 && t <= x && low <= x - t
    ensures Quotient(low, t) != x / t
  {
    if low >= 0 {
      NonNegativeQuotient(low, t);
      Below(low / t, x / t, low, x, t);
    } else {
      Below(0, x / t, 0, x, t);
    }
  }

  lemma NonNegativeQuotient(low: nat, t: nat)
    requires t > 0
    ensures Quotient(low, t) == low / t && low / t * t <= low
  {
  }

  lemma Below(a: int, q: int, low: int, x: nat, t: nat)
    requires t > 0 && a * t <= low <= x - t && q == x / t
    ensures a < q
  {
    assert x < q * t + t;
    assert (q - a) * t == q * t - a * t;
    PositiveFactor(q - a, t);
  }

  lemma WrapLarge(x: nat)
    requires x > MAX_INT64
    ensures Wrap(x) <= x - MODULUS
  {
    assert x == x / MODULUS * MODULUS + x % MODULUS;
  }

  // The shares a bound within the product's range gives: non-negative, within the bound
  // together, and neither above what its store would keep when they bind.
  lemma SplitShares(bound: nat, w: nat, r: nat)
    requires bound * r <= MAX_INT64
    ensures var s := Split(bound, w, r);
      && s.forWitnesses >= 0 && s.forResolutions >= 0
      && (w + r <= bound ==> s == Shares(bound, bound))
      && (w + r > bound ==> s.forWitnesses + s.forResolutions == bound && s.forWitnesses <= w && s.forResolutions <= r)
  {
    WrapSmall(bound * r);
    if w + r > bound {
      ProportionalShare(bound, w, r);
    }
  }

  // The guard the split lacks: the bytes fit anyway, or the wrapped product is not so far below zero
  // that a share comes out negative. A product within 64 bits always passes.
  predicate InRange(bound: nat, w: nat, r: nat)
  {
    w + r <= bound || Wrap(bound * r) > -(w + r)
  }

  lemma SmallProductInRange(bound: nat, w: nat, r: nat)
    requires bound * r <= MAX_INT64
    ensures InRange(bound, w, r)
  {
    WrapSmall(bound * r);
  }

  lemma WrapAtMost(x: nat)
    ensures Wrap(x) <= x
  {
    if x <= MAX_INT64 {
      WrapSmall(x);
    } else {
      WrapLarge(x);
    }
  }

  // The shares are ceilings exactly under the guard.
  lemma SharesAreCeilings(bound: nat, w: nat, r: nat)
    ensures var s := Split(bound, w, r);
      && (InRange(bound, w, r) <==> s.forWitnesses >= 0 && s.forResolutions >= 0)
      && (!InRange(bound, w, r) ==> s.forResolutions < 0)
      && (w + r > bound ==> s.forWitnesses + s.forResolutions == bound)
  {
    hide Wrap;
    if w + r > bound {
      var low := Wrap(bound * r);
      if low >= 0 {
        WrapAtMost(bound * r);
        Grows(r, w + r, bound);
        AtMost(low, w + r, bound);
      } else {
        NegativeQuotient(-low, w + r);
      }
    }
  }

  lemma NegativeQuotient(x: nat, t: nat)
    requires t > 0
    ensures x / t == 0 <==> x < t
  {
    if x < t {
      var q := x / t;
      assert (1 - q) * t == t - q * t;
      PositiveFactor(1 - q, t);
    } else {
      AtLeast(x, t, 1);
    }
  }

  // Both passes done undisturbed, each under its share.
  ghost predicate Undisturbed(bound: nat, witnesses: seq<StoreDir>, resolutions: seq<StoreDir>, dry: bool,
                              a: Report, witnesses': seq<StoreDir>, b: Report, resolutions': seq<StoreDir>)
  {
    var s := Split(bound, Retained(witnesses, {}), Retained(resolutions, {}));
    && Distinct(witnesses) && Distinct(resolutions)
    && Outcome(witnesses, s.forWitnesses, dry, a, witnesses') && Outcome(resolutions, s.forResolutions, dry, b, resolutions')
  }

  // Under the guard they keep at most the bound in all, whatever the split.
  lemma RetainedWithinBound(bound: nat, witnesses: seq<StoreDir>, resolutions: seq<StoreDir>, dry: bool,
                            a: Report, witnesses': seq<StoreDir>, b: Report, resolutions': seq<StoreDir>)
    requires InRange(bound, Retained(witnesses, {}), Retained(resolutions, {}))
    requires Undisturbed(bound, witnesses, resolutions, dry, a, witnesses', b, resolutions')
    ensures a.remaining + b.remaining <= bound
  {
    hide Retained, UsedBytes, Files, RetainedFiles, AbandonedCount, Pruned, InRange, Split, Outcome, Distinct;
    var s := Split(bound, Retained(witnesses, {}), Retained(resolutions, {}));
    SharesAreCeilings(bound, Retained(witnesses, {}), Retained(resolutions, {}));
    OutcomeRemaining(witnesses, s.forWitnesses, dry, a, witnesses');
    OutcomeRemaining(resolutions, s.forResolutions, dry, b, resolutions');
    Roomy(bound, Retained(witnesses, {}), Retained(resolutions, {}));
  }

  lemma Roomy(bound: nat, w: nat, r: nat)
    ensures w + r <= bound ==> Split(bound, w, r) == Shares(bound, bound)
  {
  }

  // A store of two records, the first the older.
  function TwoRecords(older: nat, newer: nat): seq<StoreDir>
  {
    [StoreDir(false, map[0 := RecordFile(older, 0, []), 1 := RecordFile(newer, 1, [])], map[])]
  }

  lemma TwoRecordsHold(older: nat, newer: nat)
    ensures var stores := TwoRecords(older, newer);
      Distinct(stores) && Retained(stores, {}) == older + newer && Retained(stores, {0}) == newer
  {
    var stores := TwoRecords(older, newer);
    var s := stores[0];
    var none: map<Path, nat>, one: map<Path, nat> := map[], map[1 := newer];
    assert stores[..|stores| - 1] == [];
    SumAdd(none, 1, newer);
    SumAdd(one, 0, older);
    assert Sizes(s, {0}) == none[1 := newer] && Sizes(s, {}) == one[0 := older];
    assert NamedLedgers(s, {}) == none && NamedLedgers(s, {0}) == none;
    assert KeptBytes(s, {}) == older + newer && KeptBytes(s, {0}) == newer;
  }

  // Pruned under no ceiling it keeps everything; under one its newer record meets, at least that.
  lemma TwoRecordsKeep(older: nat, newer: nat, max: int, dry: bool) returns (r: Report, after: seq<StoreDir>)
    requires max < 0 || newer <= max
    ensures Outcome(TwoRecords(older, newer), max, dry, r, after)
    ensures r.remaining == if max < 0 || older + newer <= max then older + newer else newer
  {
    hide Retained, UsedBytes, Files, RetainedFiles, AbandonedCount, Pruned, PrunedStore, Distinct;
    var stores := TwoRecords(older, newer);
    TwoRecordsHold(older, newer);
    var gone: set<Path> := if max < 0 || older + newer <= max then {} else {0};
    if gone == {0} {
      TwoRecordsCut(older, newer, max);
    }
    r, after := Expected(stores, gone), if dry then stores else Pruned(stores, gone);
    assert IsPrune(stores, max, gone);
  }

  lemma TwoRecordsCut(older: nat, newer: nat, max: int)
    requires newer <= max < older + newer
    ensures IsPrune(TwoRecords(older, newer), max, {0})
  {
    hide Retained;
    var stores := TwoRecords(older, newer);
    TwoRecordsHold(older, newer);
    var order := [Candidate(0, 0, older, 0), Candidate(0, 1, newer, 1)];
    assert order[0] in order && order[1] in order;
    assert IsOrder(stores, order);
    assert order[..0] == [] && order[..1] == [order[0]];
    assert Paths(order[..0]) == {};
    assert order[0] in order[..1] && Paths(order[..1]) == {0};
    assert IsCut(stores, max, order, 1);
  }

  // Without the guard a pass reads the negative share as no ceiling at all: there are stores of any
  // such sizes that keep more than the bound.
  lemma OverflowLiftsTheCeiling(bound: nat, w: nat, r: nat, dry: bool)
    returns (witnesses: seq<StoreDir>, resolutions: seq<StoreDir>, a: Report, witnesses': seq<StoreDir>, b: Report, resolutions': seq<StoreDir>)
    requires !InRange(bound, w, r)
    ensures Retained(witnesses, {}) == w && Retained(resolutions, {}) == r
    ensures Undisturbed(bound, witnesses, resolutions, dry, a, witnesses', b, resolutions')
    ensures a.remaining + b.remaining > bound
  {
    hide InRange, Split, Retained, Outcome, Distinct, TwoRecords;
    SharesAreCeilings(bound, w, r);
    Overfull(bound, w, r);
    var s := Split(bound, w, r);
    var k := if w <= s.forWitnesses then w else s.forWitnesses;
    witnesses, resolutions := TwoRecords(w - k, k), TwoRecords(0, r);
    TwoRecordsHold(w - k, k);
    TwoRecordsHold(0, r);
    a, witnesses' := TwoRecordsKeep(w - k, k, s.forWitnesses, dry);
    b, resolutions' := TwoRecordsKeep(0, r, s.forResolutions, dry);
  }

  lemma Overfull(bound: nat, w: nat, r: nat)
    requires !InRange(bound, w, r)
    ensures w + r > bound
  {
  }

  // The guard is exact: the two stores end within the bound, whatever files hold their bytes, exactly
  // under it.
  lemma GuardIsExact(bound: nat, w: nat, r: nat)
    ensures InRange(bound, w, r) <==>
      forall witnesses, resolutions, dry, a, witnesses', b, resolutions' ::
        (Undisturbed(bound, witnesses, resolutions, dry, a, witnesses', b, resolutions')
        && Retained(witnesses, {}) == w && Retained(resolutions, {}) == r) ==> a.remaining + b.remaining <= bound
  {
    hide InRange, Undisturbed, Retained;
    if InRange(bound, w, r) {
      forall witnesses, resolutions, dry, a, witnesses', b, resolutions' |
        Undisturbed(bound, witnesses, resolutions, dry, a, witnesses', b, resolutions')
        && Retained(witnesses, {}) == w && Retained(resolutions, {}) == r
        ensures a.remaining + b.remaining <= bound
      {
        RetainedWithinBound(bound, witnesses, resolutions, dry, a, witnesses', b, resolutions');
      }
    } else {
      var witnesses, resolutions, a, witnesses', b, resolutions' := OverflowLiftsTheCeiling(bound, w, r, true);
    }
  }

  // Such stores are no curiosity: a bound of 4 GiB over 4 and 2 GiB is one, and all 6 GiB stay.
  lemma FourGibibytesOverflow(dry: bool)
    returns (witnesses: seq<StoreDir>, resolutions: seq<StoreDir>, a: Report, witnesses': seq<StoreDir>, b: Report, resolutions': seq<StoreDir>)
    ensures Retained(witnesses, {}) == 0x1_0000_0000 && Retained(resolutions, {}) == 0x8000_0000
    ensures Undisturbed(0x1_0000_0000, witnesses, resolutions, dry, a, witnesses', b, resolutions')
    ensures a.remaining == 0x1_0000_0000 && b.remaining == 0x8000_0000
  {
    hide Retained, Outcome, Distinct, TwoRecords;
    var w, r := 0x1_0000_0000, 0x8000_0000;
    assert Wrap(w * r) == -0x8000_0000_0000_0000;
    var s := Split(w, w, r);
    assert s == Shares(w + 0x5555_5555, -0x5555_5555);
    witnesses, resolutions := TwoRecords(0, w), TwoRecords(0, r);
    TwoRecordsHold(0, w);
    TwoRecordsHold(0, r);
    a, witnesses' := TwoRecordsKeep(0, w, s.forWitnesses, dry);
    b, resolutions' := TwoRecordsKeep(0, r, s.forResolutions, dry);
  }

  // A pass keeps everything it would anyway when that fits, and fits its ceiling otherwise.
  lemma OutcomeRemaining(stores: seq<StoreDir>, max: int, dry: bool, r: Report, after: seq<StoreDir>)
    requires Outcome(stores, max, dry, r, after)
    ensures max < 0 || Retained(stores, {}) <= max ==> r.remaining == Retained(stores, {})
    ensures max >= 0 ==> r.remaining <= max
  {
    hide Retained, UsedBytes, Files, RetainedFiles, AbandonedCount, Pruned;
  }

  // The verb: previews, split, passes. Gone through, it reports as reclaimed the bytes that went,
  // whatever failed. Undisturbed and with the split in range, what the two stores retain together
  // is within a non-negative bound.
  method PruneGlobalCache(witnesses: Cache, resolutions: Cache, bound: int, dry: bool, world: World)
    returns (a: Report, b: Report, cancelled: bool)
    requires witnesses != resolutions && Distinct(witnesses.stores) && Distinct(resolutions.stores)
    modifies witnesses, resolutions, world
    ensures dry ==> witnesses.stores == old(witnesses.stores) && resolutions.stores == old(resolutions.stores)
    ensures !dry && !cancelled ==>
      a.reclaimed + b.reclaimed == UsedBytes(old(witnesses.stores)) - UsedBytes(witnesses.stores) + UsedBytes(old(resolutions.stores)) - UsedBytes(resolutions.stores)
    ensures world.clean ==> !cancelled
    ensures world.clean ==>
      var s := Split(bound, Retained(old(witnesses.stores), {}), Retained(old(resolutions.stores), {}));
      && Outcome(old(witnesses.stores), s.forWitnesses, dry, a, witnesses.stores)
      && Outcome(old(resolutions.stores), s.forResolutions, dry, b, resolutions.stores)
    ensures world.clean && bound >= 0 && InRange(bound, Retained(old(witnesses.stores), {}), Retained(old(resolutions.stores), {})) ==>
      a.remaining + b.remaining <= bound
    ensures world.clean && (bound < 0 || Retained(old(witnesses.stores), {}) + Retained(old(resolutions.stores), {}) <= bound) ==>
      a.remaining == Retained(old(witnesses.stores), {}) && b.remaining == Retained(old(resolutions.stores), {})
  {
    hide InRange, Retained, UsedBytes, Files, RetainedFiles, AbandonedCount, Pruned, Outcome, Expected, Distinct;
    ghost var w0, r0 := witnesses.stores, resolutions.stores;
    var shares := Shares(-1, -1);
    b := Report(0, 0, 0, 0, 0, 0, 0);
    if bound >= 0 {
      a, cancelled := witnesses.PruneKind(-1, true, world);
      if cancelled {
        return;
      }
      b, cancelled := resolutions.PruneKind(-1, true, world);
      if cancelled {
        return;
      }
      if world.clean {
        OutcomeRemaining(w0, -1, true, a, witnesses.stores);
        OutcomeRemaining(r0, -1, true, b, resolutions.stores);
      }
      shares := Split(bound, a.remaining, b.remaining);
    }
    a, cancelled := witnesses.PruneKind(shares.forWitnesses, dry, world);
    if cancelled {
      return;
    }
    b, cancelled := resolutions.PruneKind(shares.forResolutions, dry, world);
    if world.clean {
      OutcomeRemaining(w0, shares.forWitnesses, dry, a, witnesses.stores);
      OutcomeRemaining(r0, shares.forResolutions, dry, b, resolutions.stores);
    }
    if world.clean && bound >= 0 && InRange(bound, Retained(w0, {}), Retained(r0, {})) {
      RetainedWithinBound(bound, w0, r0, dry, a, witnesses.stores, b, resolutions.stores);
    }
  }
}
