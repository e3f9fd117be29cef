/**
 * What the person summary of `calculatePersonSummary` means: which expenses
 * each figure sums, what an uninvolved person gets, and why the balances of
 * everybody add up to zero up to rounding (every amount paid is owed once).
 */
module SummaryFacts {
  import opened Money
  import opened Records
  import opened Calculator

  /** The sum of the amounts of a list of expenses. */
  function Total<K>(cs: seq<Charge<K>>): real
  {
    if cs == [] then 0.0 else Total(cs[..|cs| - 1]) + cs[|cs| - 1].amount
  }

  /** The expenses this person paid, in order. */
  function PaidBy<K(==)>(key: K, cs: seq<Charge<K>>): seq<Charge<K>>
  {
    if cs == [] then []
    else PaidBy(key, cs[..|cs| - 1]) + if cs[|cs| - 1].payer == key then [cs[|cs| - 1]] else []
  }

  /** The expenses that list this person among their participants, in order. */
  function SharedBy<K(==)>(key: K, cs: seq<Charge<K>>): seq<Charge<K>>
  {
    if cs == [] then []
    else
      var c := cs[|cs| - 1];
      SharedBy(key, cs[..|cs| - 1]) + if c.shares.Some? && key in c.shares.value then [c] else []
  }

  /** The sum of one equal share of each expense. */
  function EqualShares<K>(cs: seq<Charge<K>>): real
  {
    if cs == [] then 0.0
    else
      var c := cs[|cs| - 1];
      EqualShares(cs[..|cs| - 1]) + match c.shares
        case Some(ps) => if |ps| > 0 then c.amount / |ps| as real else 0.0
        case None => 0.0
  }

  predicate Distinct<K(==)>(s: seq<K>)
  {
    forall p, q :: 0 <= p < q < |s| ==> s[p] != s[q]
  }

  /** `totalPaid` before rounding is the sum of the amounts of exactly the expenses this person paid. */
  lemma {:induction false} PaidSumIsTotalOfPaidBy<K>(key: K, cs: seq<Charge<K>>)
    ensures PaidSum(key, cs) == Total(PaidBy(key, cs))
    ensures forall c :: c in PaidBy(key, cs) <==> c in cs && c.payer == key
  {
    if cs != [] {
      var init := cs[..|cs| - 1];
      PaidSumIsTotalOfPaidBy(key, init);
      var c := cs[|cs| - 1];
      assert cs == init + [c];
      var tail := if c.payer == key then [c] else [];
      var pb := PaidBy(key, init) + tail;
      assert PaidBy(key, cs) == pb;
      assert PaidSum(key, cs) == PaidSum(key, init) + PaidPart(key, c);
      if c.payer == key {
        assert pb[..|pb| - 1] == PaidBy(key, init);
        assert Total(pb) == Total(PaidBy(key, init)) + c.amount;
      } else {
        assert pb == PaidBy(key, init);
      }
      forall x ensures x in pb <==> x in cs && x.payer == key {
        assert x in pb <==> x in PaidBy(key, init) || x in tail;
        assert x in cs <==> x in init || x == c;
      }
    }
  }

  /**
   * `totalShould` before rounding is one equal share of exactly the expenses
   * whose participants include this person; an expense without a participants
   * field contributes nothing.
   */
  lemma {:induction false} ShareSumIsSharesOfSharedBy<K>(key: K, cs: seq<Charge<K>>)
    ensures ShareSum(key, cs) == EqualShares(SharedBy(key, cs))
    ensures forall c :: c in SharedBy(key, cs) <==> c in cs && c.shares.Some? && key in c.shares.value
  {
    if cs != [] {
      var init := cs[..|cs| - 1];
      ShareSumIsSharesOfSharedBy(key, init);
      var c := cs[|cs| - 1];
      assert cs == init + [c];
      var tail := if c.shares.Some? && key in c.shares.value then [c] else [];
      var sb := SharedBy(key, init) + tail;
      if tail != [] {
        assert sb[..|sb| - 1] == SharedBy(key, init);
      } else {
        assert sb == SharedBy(key, init);
      }
    }
  }

  /** A person who neither paid nor shares any expense gets `{totalPaid: 0, totalShould: 0, balance: 0}`. */
  lemma {:induction false} UninvolvedSummaryIsZero<K>(key: K, cs: seq<Charge<K>>)
    requires forall c :: c in cs ==> c.payer != key && (c.shares.Some? ==> key !in c.shares.value)
    ensures Summary(key, cs) == PersonSummary(0.0, 0.0, 0.0)
  {
    NotInvolvedSumsZero(key, cs);
    assert Round2(0.0) == 0.0;
  }

  lemma {:induction false} NotInvolvedSumsZero<K>(key: K, cs: seq<Charge<K>>)
    requires forall c :: c in cs ==> c.payer != key && (c.shares.Some? ==> key !in c.shares.value)
    ensures PaidSum(key, cs) == 0.0 && ShareSum(key, cs) == 0.0
  {
    if cs != [] {
      NotInvolvedSumsZero(key, cs[..|cs| - 1]);
      assert cs[|cs| - 1] in cs;
    }
  }

  /** With non-negative amounts, neither total is negative. */
  lemma {:induction false} TotalsNonNegative<K>(key: K, cs: seq<Charge<K>>)
    requires forall c :: c in cs ==> c.amount >= 0.0
    ensures PaidSum(key, cs) >= 0.0 && ShareSum(key, cs) >= 0.0
    ensures Summary(key, cs).totalPaid >= 0.0 && Summary(key, cs).totalShould >= 0.0
  {
    if cs != [] {
      TotalsNonNegative(key, cs[..|cs| - 1]);
      var c := cs[|cs| - 1];
      assert c in cs;
      if c.shares.Some? && key in c.shares.value {
        assert |c.shares.value| > 0;
        assert c.amount / |c.shares.value| as real >= 0.0;
      }
      assert SharePart(key, c) >= 0.0 && PaidPart(key, c) >= 0.0;
      assert ShareSum(key, cs) == ShareSum(key, cs[..|cs| - 1]) + SharePart(key, c);
      assert PaidSum(key, cs) == PaidSum(key, cs[..|cs| - 1]) + PaidPart(key, c);
    }
    Round2Monotone(0.0, PaidSum(key, cs));
    Round2Monotone(0.0, ShareSum(key, cs));
    assert Round2(0.0) == 0.0;
  }

  /**
   * The balance is rounded from the unrounded difference, so it need not be
   * the difference of the two rounded totals: a person owing half of 0.01
   * shows `totalShould` 0.01 and balance 0 (-0.005 rounds up to 0).
   */
  lemma BalanceIsNotDifferenceOfRoundedTotals()
    ensures var s := Summary(2, [Charge(0.01, 1, Some([1, 2]))]);
            s.totalPaid == 0.0 && s.totalShould == 0.01 && s.balance == 0.0 && s.balance != s.totalPaid - s.totalShould
  {
    var cs := [Charge(0.01, 1, Some([1, 2]))];
    assert cs[..0] == [];
    assert PaidSum(2, cs) == 0.0;
    assert ShareSum(2, cs) == 0.005;
  }

  // ---------------------------------------------------------------------------
  // Conservation: what everybody paid, and what everybody owes, is the total.
  // ---------------------------------------------------------------------------

  /** Sum of the unrounded `totalPaid` of the people with these keys. */
  function PaidAcross<K(==)>(keys: seq<K>, cs: seq<Charge<K>>): real
  {
    if keys == [] then 0.0 else PaidAcross(keys[..|keys| - 1], cs) + PaidSum(keys[|keys| - 1], cs)
  }

  /** Sum of the unrounded `totalShould` of the people with these keys. */
  function ShareAcross<K(==)>(keys: seq<K>, cs: seq<Charge<K>>): real
  {
    if keys == [] then 0.0 else ShareAcross(keys[..|keys| - 1], cs) + ShareSum(keys[|keys| - 1], cs)
  }

  /** Sum of the unrounded balances of the people with these keys. */
  function NetAcross<K(==)>(keys: seq<K>, cs: seq<Charge<K>>): real
  {
    if keys == [] then 0.0
    else NetAcross(keys[..|keys| - 1], cs) + (PaidSum(keys[|keys| - 1], cs) - ShareSum(keys[|keys| - 1], cs))
  }

  /** Sum of the rounded balances of the people with these keys (the `reduce` of the validation report). */
  function BalanceAcross<K(==)>(keys: seq<K>, cs: seq<Charge<K>>): real
  {
    if keys == [] then 0.0 else BalanceAcross(keys[..|keys| - 1], cs) + Summary(keys[|keys| - 1], cs).balance
  }

  function PaidOf<K(==)>(keys: seq<K>, c: Charge<K>): real
  {
    if keys == [] then 0.0 else PaidOf(keys[..|keys| - 1], c) + PaidPart(keys[|keys| - 1], c)
  }

  function ShareOf<K(==)>(keys: seq<K>, c: Charge<K>): real
  {
    if keys == [] then 0.0 else ShareOf(keys[..|keys| - 1], c) + SharePart(keys[|keys| - 1], c)
  }

  /** How many of `keys` occur in `ps`. */
  function CountIn<K(==)>(keys: seq<K>, ps: seq<K>): nat
  {
    if keys == [] then 0 else CountIn(keys[..|keys| - 1], ps) + if keys[|keys| - 1] in ps then 1 else 0
  }

  /** Every expense is paid by, and shared among, distinct known people, and has at least one participant. */
  ghost predicate Referenced<K>(keys: seq<K>, cs: seq<Charge<K>>)
  {
    forall c :: c in cs ==>
      c.payer in keys && c.shares.Some? && |c.shares.value| > 0 && Distinct(c.shares.value) &&
      forall k :: k in c.shares.value ==> k in keys
  }

  lemma {:induction false} PaidAcrossSnoc<K>(keys: seq<K>, cs: seq<Charge<K>>, c: Charge<K>)
    ensures PaidAcross(keys, cs + [c]) == PaidAcross(keys, cs) + PaidOf(keys, c)
  {
    assert (cs + [c])[..|cs|] == cs;
    if keys != [] {
      PaidAcrossSnoc(keys[..|keys| - 1], cs, c);
    }
  }

  lemma {:induction false} ShareAcrossSnoc<K>(keys: seq<K>, cs: seq<Charge<K>>, c: Charge<K>)
    ensures ShareAcross(keys, cs + [c]) == ShareAcross(keys, cs) + ShareOf(keys, c)
  {
    assert (cs + [c])[..|cs|] == cs;
    if keys != [] {
      ShareAcrossSnoc(keys[..|keys| - 1], cs, c);
    }
  }

  /** Among distinct keys, exactly the payer receives the amount. */
  lemma {:induction false} PaidOfDistinct<K>(keys: seq<K>, c: Charge<K>)
    requires Distinct(keys)
    ensures PaidOf(keys, c) == if c.payer in keys then c.amount else 0.0
  {
    if keys != [] {
      var init := keys[..|keys| - 1];
      assert keys == init + [keys[|keys| - 1]];
      PaidOfDistinct(init, c);
    }
  }

  lemma {:induction false} ShareOfCount<K>(keys: seq<K>, c: Charge<K>)
    requires c.shares.Some? && |c.shares.value| > 0
    ensures ShareOf(keys, c) == CountIn(keys, c.shares.value) as real * (c.amount / |c.shares.value| as real)
  {
    if keys != [] {
      ShareOfCount(keys[..|keys| - 1], c);
    }
  }

  /** How many times `x` occurs in `keys`. */
  function Occurrences<K(==)>(keys: seq<K>, x: K): nat
  {
    if keys == [] then 0 else Occurrences(keys[..|keys| - 1], x) + if keys[|keys| - 1] == x then 1 else 0
  }

  lemma {:induction false} CountInEmpty<K>(keys: seq<K>)
    ensures CountIn(keys, []) == 0
  {
    if keys != [] {
      CountInEmpty(keys[..|keys| - 1]);
    }
  }

  lemma {:induction false} CountInSnoc<K>(keys: seq<K>, ps: seq<K>, x: K)
    requires x !in ps
    ensures CountIn(keys, ps + [x]) == CountIn(keys, ps) + Occurrences(keys, x)
  {
    if keys != [] {
      CountInSnoc(keys[..|keys| - 1], ps, x);
    }
  }

  lemma {:induction false} OccurrencesAbsent<K>(keys: seq<K>, x: K)
    requires x !in keys
    ensures Occurrences(keys, x) == 0
  {
    if keys != [] {
      var init := keys[..|keys| - 1];
      assert forall k :: k in init ==> k in keys;
      OccurrencesAbsent(init, x);
    }
  }

  /** A key of a list of distinct keys occurs in it once. */
  lemma {:induction false} OccurrencesDistinct<K>(keys: seq<K>, x: K)
    requires Distinct(keys) && x in keys
    ensures Occurrences(keys, x) == 1
  {
    var init, last := keys[..|keys| - 1], keys[|keys| - 1];
    assert keys == init + [last];
    if last == x {
      assert x !in init by {
        forall p | 0 <= p < |init|
          ensures init[p] != x
        {
          assert keys[p] != keys[|keys| - 1];
        }
      }
      OccurrencesAbsent(init, x);
    } else {
      assert x in init;
      OccurrencesDistinct(init, x);
    }
  }

  /** Distinct keys that include every one of the distinct `ps` meet `ps` exactly `|ps|` times. */
  lemma {:induction false} CountInCovers<K>(keys: seq<K>, ps: seq<K>)
    requires Distinct(keys) && Distinct(ps)
    requires forall k :: k in ps ==> k in keys
    ensures CountIn(keys, ps) == |ps|
  {
    if ps == [] {
      CountInEmpty(keys);
    } else {
      var init, x := ps[..|ps| - 1], ps[|ps| - 1];
      assert ps == init + [x];
      assert x !in init by {
        forall p | 0 <= p < |init|
          ensures init[p] != x
        {
          assert ps[p] != ps[|ps| - 1];
        }
      }
      CountInCovers(keys, init);
      CountInSnoc(keys, init, x);
      OccurrencesDistinct(keys, x);
    }
  }

  /** Conservation of payments: everything paid is paid by exactly one known person. */
  lemma {:induction false} PaidAcrossIsTotal<K>(keys: seq<K>, cs: seq<Charge<K>>)
    requires Distinct(keys)
    requires forall c :: c in cs ==> c.payer in keys
    ensures PaidAcross(keys, cs) == Total(cs)
  {
    if cs == [] {
      PaidAcrossEmpty(keys);
    } else {
      var init, c := cs[..|cs| - 1], cs[|cs| - 1];
      assert cs == init + [c];
      PaidAcrossIsTotal(keys, init);
      PaidAcrossSnoc(keys, init, c);
      PaidOfDistinct(keys, c);
    }
  }

  /** Conservation of shares: every amount is split exactly among its participants. */
  lemma {:induction false} ShareAcrossIsTotal<K>(keys: seq<K>, cs: seq<Charge<K>>)
    requires Distinct(keys) && Referenced(keys, cs)
    ensures ShareAcross(keys, cs) == Total(cs)
  {
    if cs == [] {
      ShareAcrossEmpty(keys);
    } else {
      var init, c := cs[..|cs| - 1], cs[|cs| - 1];
      assert cs == init + [c];
      assert Referenced(keys, init);
      ShareAcrossIsTotal(keys, init);
      ShareAcrossSnoc(keys, init, c);
      ShareOfCount(keys, c);
      CountInCovers(keys, c.shares.value);
      var n := |c.shares.value| as real;
      assert n * (c.amount / n) == c.amount;
    }
  }

  lemma {:induction false} PaidAcrossEmpty<K>(keys: seq<K>)
    ensures PaidAcross(keys, []) == 0.0
  {
    if keys != [] {
      PaidAcrossEmpty(keys[..|keys| - 1]);
    }
  }

  lemma {:induction false} ShareAcrossEmpty<K>(keys: seq<K>)
    ensures ShareAcross(keys, []) == 0.0
  {
    if keys != [] {
      ShareAcrossEmpty(keys[..|keys| - 1]);
    }
  }

  lemma {:induction false} NetAcrossIsDifference<K>(keys: seq<K>, cs: seq<Charge<K>>)
    ensures NetAcross(keys, cs) == PaidAcross(keys, cs) - ShareAcross(keys, cs)
  {
    if keys != [] {
      NetAcrossIsDifference(keys[..|keys| - 1], cs);
    }
  }

  /** Each rounded balance is within half a cent of the unrounded one. */
  lemma {:induction false} BalanceAcrossNearNet<K>(keys: seq<K>, cs: seq<Charge<K>>)
    ensures -(|keys| as real) * 0.005 <= BalanceAcross(keys, cs) - NetAcross(keys, cs) <= |keys| as real * 0.005
  {
    if keys != [] {
      BalanceAcrossNearNet(keys[..|keys| - 1], cs);
    }
  }

  /**
   * Zero-sum balances: for distinct people who account for every payer and
   * participant, the unrounded balances add up to exactly zero, and the
   * rounded ones to within half a cent per person.
   */
  lemma BalancesSumToZero<K>(keys: seq<K>, cs: seq<Charge<K>>)
    requires Distinct(keys) && Referenced(keys, cs)
    ensures NetAcross(keys, cs) == 0.0
    ensures -(|keys| as real) * 0.005 <= BalanceAcross(keys, cs) <= |keys| as real * 0.005
  {
    assert forall c :: c in cs ==> c.payer in keys;
    PaidAcrossIsTotal(keys, cs);
    ShareAcrossIsTotal(keys, cs);
    NetAcrossIsDifference(keys, cs);
    BalanceAcrossNearNet(keys, cs);
  }
}
