/**
 * The aggregation store: a map from customer id to the running
 * "stand-to-win" total, plus the one-way "feed complete" flag.
 * C# `decimal` is modelled as an exact `real`, `long` ids as `int`.
 */
module WageringData {
  import opened Wrappers

  /** One store update: add `amount` to the total of `customerId`. */
  datatype Contribution = Contribution(customerId: int, amount: real)

  /** `AddOrUpdate(id, amount, (_, v) => v + amount)` on the dictionary. */
  function Upsert(m: map<int, real>, customerId: int, amount: real): (r: map<int, real>)
    ensures r.Keys == m.Keys + {customerId}
    ensures customerId !in m ==> r[customerId] == amount
    ensures customerId in m ==> r[customerId] == m[customerId] + amount
    ensures forall c :: c in m && c != customerId ==> r[c] == m[c]
  {
    m[customerId := if customerId in m then m[customerId] + amount else amount]
  }

  /** `TryGetValue(id, out total) ? total : null`: absence is not zero. */
  function Lookup(m: map<int, real>, customerId: int): (r: Option<real>)
    ensures r.None? <==> customerId !in m
    ensures r.Some? ==> r.value == m[customerId]
  {
    if customerId in m then Some(m[customerId]) else None
  }

  /** The store after the contributions `cs`, applied in order. */
  function ApplyAll(m: map<int, real>, cs: seq<Contribution>): map<int, real>
  {
    if cs == [] then m
    else
      var last := cs[|cs| - 1];
      Upsert(ApplyAll(m, cs[..|cs| - 1]), last.customerId, last.amount)
  }

  /** Whether some contribution in `cs` is for customer `c`. */
  predicate HasFor(cs: seq<Contribution>, c: int)
  {
    exists i :: 0 <= i < |cs| && cs[i].customerId == c
  }

  /** The sum of the amounts in `cs` for customer `c`. */
  function SumFor(cs: seq<Contribution>, c: int): real
  {
    if cs == [] then 0.0
    else
      var last := cs[|cs| - 1];
      SumFor(cs[..|cs| - 1], c) + (if last.customerId == c then last.amount else 0.0)
  }

  /**
   * What a reader sees after a run of contributions: an existing total grows
   * by exactly the sum of the new amounts for that customer; a customer with
   * no entry and no contribution still reads as absent, never as zero.
   */
  lemma {:induction false} ApplyAllLookup(m: map<int, real>, cs: seq<Contribution>, c: int)
    ensures Lookup(ApplyAll(m, cs), c) ==
      if c in m then Some(m[c] + SumFor(cs, c))
      else if HasFor(cs, c) then Some(SumFor(cs, c))
      else None
  {
    if cs != [] {
      var init := cs[..|cs| - 1];
      var last := cs[|cs| - 1];
      ApplyAllLookup(m, init, c);
      if last.customerId == c {
        assert HasFor(cs, c) by { assert cs[|cs| - 1].customerId == c; }
        if !HasFor(init, c) { SumForAbsent(init, c); }
      } else if HasFor(cs, c) {
        var i :| 0 <= i < |cs| && cs[i].customerId == c;
        assert init[i].customerId == c;
      } else {
        forall i | 0 <= i < |init| ensures init[i].customerId != c {
          assert init[i] == cs[i];
        }
      }
    }
  }

  lemma {:induction false} SumForAbsent(cs: seq<Contribution>, c: int)
    requires !HasFor(cs, c)
    ensures SumFor(cs, c) == 0.0
  {
    if cs != [] {
      var init := cs[..|cs| - 1];
      forall i | 0 <= i < |init| ensures init[i].customerId != c {
        assert init[i] == cs[i];
      }
      SumForAbsent(init, c);
      assert cs[|cs| - 1].customerId != c;
    }
  }

  /** Starting from an empty store, the total of each customer is the sum of their contributions. */
  lemma TotalsFromEmpty(cs: seq<Contribution>, c: int)
    ensures Lookup(ApplyAll(map[], cs), c) == if HasFor(cs, c) then Some(SumFor(cs, c)) else None
  {
    ApplyAllLookup(map[], cs, c);
  }

  lemma {:induction false} SumForAppend(a: seq<Contribution>, b: seq<Contribution>, c: int)
    ensures SumFor(a + b, c) == SumFor(a, c) + SumFor(b, c)
  {
    if b != [] {
      assert (a + b)[..|a + b| - 1] == a + b[..|b| - 1];
      SumForAppend(a, b[..|b| - 1], c);
    } else {
      assert a + b == a;
    }
  }

  /** Totals do not depend on the order in which contributions arrive. */
  lemma {:induction false} SumForPermutation(cs: seq<Contribution>, ds: seq<Contribution>, c: int)
    requires multiset(cs) == multiset(ds)
    ensures SumFor(cs, c) == SumFor(ds, c)
    decreases |cs|
  {
    if cs != [] {
      var n := |cs| - 1;
      var x := cs[n];
      assert cs == cs[..n] + [x];
      assert x in multiset(ds);
      var j :| 0 <= j < |ds| && ds[j] == x;
      var rest := ds[..j] + ds[j + 1..];
      assert ds == ds[..j] + [x] + ds[j + 1..];
      assert multiset(ds) == multiset(rest) + multiset{x};
      assert multiset(cs) == multiset(cs[..n]) + multiset{x};
      assert multiset(cs[..n]) == multiset(rest) by {
        assert multiset(cs[..n]) == multiset(cs) - multiset{x};
        assert multiset(rest) == multiset(ds) - multiset{x};
      }
      SumForPermutation(cs[..n], rest, c);
      SumForAppend(ds[..j] + [x], ds[j + 1..], c);
      SumForAppend(ds[..j], [x], c);
      SumForAppend(ds[..j], ds[j + 1..], c);
      SumForAppend(cs[..n], [x], c);
      assert SumFor([x], c) == (if x.customerId == c then x.amount else 0.0) by {
        assert [x][..0] == [];
      }
    } else {
      assert ds == [] by { assert |multiset(ds)| == 0; }
    }
  }

  /** `n` contributions of the same `amount` for one customer: `n * amount`, no update lost. */
  lemma {:induction false} RepeatedAdd(c: int, amount: real, n: nat)
    ensures SumFor(seq(n, _ => Contribution(c, amount)), c) == n as real * amount
  {
    if n > 0 {
      var cs := seq(n, _ => Contribution(c, amount));
      assert cs[..n - 1] == seq(n - 1, _ => Contribution(c, amount));
      RepeatedAdd(c, amount, n - 1);
    } else {
      assert seq(n, _ => Contribution(c, amount)) == [];
    }
  }

  /** The store: `ConcurrentDictionary<long, decimal>` plus the `volatile bool` flag. */
  class WageringDataRepository {
    var wageringData: map<int, real>
    var isFeedComplete: bool

    /** A new repository is empty and the feed is not complete. */
    constructor ()
      ensures wageringData == map[] && !isFeedComplete
    {
      wageringData := map[];
      isFeedComplete := false;
    }

    /** Reads the completion flag. */
    method IsFeedComplete() returns (complete: bool)
      ensures complete <==> isFeedComplete
    {
      complete := isFeedComplete;
    }

    /**
     * Adds `amount` to the customer's total, creating the entry when absent.
     * Only that entry changes; the completion flag is neither read nor written.
     */
    method AddPotentialWinning(customerId: int, amount: real)
      modifies this
      ensures wageringData == Upsert(old(wageringData), customerId, amount)
      ensures isFeedComplete == old(isFeedComplete)
    {
      wageringData := wageringData[customerId :=
        if customerId in wageringData then wageringData[customerId] + amount else amount];
    }

    /** The customer's total, or `None` (C# `null`) when there is no entry. */
    method GetTotalStandToWin(customerId: int) returns (total: Option<real>)
      ensures total.None? <==> customerId !in wageringData
      ensures total.Some? ==> total.value == wageringData[customerId]
    {
      if customerId in wageringData {
        total := Some(wageringData[customerId]);
      } else {
        total := None;
      }
    }

    /** Sets the flag; idempotent; the totals are untouched. */
    method MarkFeedComplete()
      modifies this
      ensures isFeedComplete
      ensures wageringData == old(wageringData)
    {
      isFeedComplete := true;
    }

    /** Forgets every total and resets the flag. */
    method Clear()
      modifies this
      ensures wageringData == map[] && !isFeedComplete
      ensures forall c :: Lookup(wageringData, c).None?
    {
      wageringData := map[];
      isFeedComplete := false;
    }
  }
}
