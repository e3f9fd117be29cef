/**
 * What the greedy matcher of `calculateSettlement` guarantees: the partition
 * into creditors and debtors, the cursors and the number of transfers, the
 * remaining balances, and when the remaining balances reach zero.
 */
module SettlementFacts {
  import opened Money
  import opened Calculator

  /** The sum of the balances of a list of accounts. */
  function Sum<K>(s: seq<Account<K>>): real
  {
    if s == [] then 0.0 else Sum(s[..|s| - 1]) + s[|s| - 1].balance
  }

  ghost predicate NonNegative<K>(s: seq<Account<K>>)
  {
    forall k :: 0 <= k < |s| ==> s[k].balance >= 0.0
  }

  ghost predicate AllCents<K>(s: seq<Account<K>>)
  {
    forall k :: 0 <= k < |s| ==> IsCents(s[k].balance)
  }

  ghost predicate DistinctNames<K>(s: seq<Account<K>>)
  {
    forall p, q :: 0 <= p < q < |s| ==> s[p].name != s[q].name
  }

  ghost function NamesOf<K>(s: seq<Account<K>>): set<string>
  {
    set a | a in s :: a.name
  }

  /** Both lists hold the same parties, in the same order; only balances may differ. */
  ghost predicate SameParties<K>(a: seq<Account<K>>, b: seq<Account<K>>)
  {
    |a| == |b| && forall k :: 0 <= k < |a| ==> a[k].key == b[k].key && a[k].name == b[k].name
  }

  /** No balance of `b` exceeds the balance at the same place in `a`. */
  ghost predicate NoneIncreased<K>(a: seq<Account<K>>, b: seq<Account<K>>)
  {
    |a| == |b| && forall k :: 0 <= k < |a| ==> b[k].balance <= a[k].balance
  }

  /** Every party a cursor has passed has less than a cent left. */
  ghost predicate PassedAreSettled<K>(m: Matching<K>)
  {
    (forall k :: 0 <= k < m.i && k < |m.creditors| ==> m.creditors[k].balance < CENT) &&
    (forall k :: 0 <= k < m.j && k < |m.debtors| ==> m.debtors[k].balance < CENT)
  }

  /** Every party a cursor has not passed has at least a cent left. */
  ghost predicate AheadAreOpen<K>(m: Matching<K>)
  {
    (forall k :: m.i <= k < |m.creditors| ==> m.creditors[k].balance >= CENT) &&
    (forall k :: m.j <= k < |m.debtors| ==> m.debtors[k].balance >= CENT)
  }

  /** The amounts of the transfers paid to `name`. */
  function Received(ts: seq<Transfer>, name: string): real
  {
    if ts == [] then 0.0
    else Received(ts[..|ts| - 1], name) + if ts[|ts| - 1].to == name then ts[|ts| - 1].amount else 0.0
  }

  /** The amounts of the transfers paid by `name`. */
  function Sent(ts: seq<Transfer>, name: string): real
  {
    if ts == [] then 0.0
    else Sent(ts[..|ts| - 1], name) + if ts[|ts| - 1].from == name then ts[|ts| - 1].amount else 0.0
  }

  // ---------------------------------------------------------------------------
  // Creditors and debtors
  // ---------------------------------------------------------------------------

  /** A row is a creditor exactly when its balance is above 0.01. */
  lemma {:induction false} CreditorsAreAboveDeadZone<K>(t: seq<Account<K>>)
    ensures forall a :: a in Creditors(t) <==> a in t && a.balance > CENT
  {
    if t != [] {
      var init, a := t[..|t| - 1], t[|t| - 1];
      assert t == init + [a];
      CreditorsAreAboveDeadZone(init);
    }
  }

  /** A row is a debtor, carrying the magnitude it owes, exactly when its balance is below -0.01. */
  lemma {:induction false} DebtorsAreBelowDeadZone<K>(t: seq<Account<K>>)
    ensures forall a :: a in t && a.balance < -CENT ==> Negated(a) in Debtors(t)
    ensures forall d :: d in Debtors(t) ==> Negated(d) in t && d.balance > CENT
  {
    if t != [] {
      var init, a := t[..|t| - 1], t[|t| - 1];
      assert t == init + [a];
      DebtorsAreBelowDeadZone(init);
      var ds := Debtors(t);
      assert Debtors(init) <= ds;
      forall d | d in ds
        ensures Negated(d) in t && d.balance > CENT
      {
        if d !in Debtors(init) {
          assert Negated(d) == a;
        }
      }
    }
  }

  /** The partition distributes over a split of the table: parties keep the table's order, each once. */
  lemma {:induction false} PartitionAppend<K>(a: seq<Account<K>>, b: seq<Account<K>>)
    ensures Creditors(a + b) == Creditors(a) + Creditors(b)
    ensures Debtors(a + b) == Debtors(a) + Debtors(b)
  {
    if b == [] {
      assert a + b == a;
    } else {
      var init := b[..|b| - 1];
      assert (a + b)[..|a + b| - 1] == a + init && (a + b)[|a + b| - 1] == b[|b| - 1];
      PartitionAppend(a, init);
    }
  }

  /** Creditors and debtors together are no more than the rows of the table. */
  lemma {:induction false} PartitionSize<K>(t: seq<Account<K>>)
    ensures |Creditors(t)| + |Debtors(t)| <= |t|
  {
    if t != [] {
      PartitionSize(t[..|t| - 1]);
    }
  }

  /** A table whose every balance is within the dead zone has no creditor and no debtor. */
  lemma {:induction false} SettledTableHasNoParties<K>(t: seq<Account<K>>)
    requires forall a :: a in t ==> -CENT <= a.balance <= CENT
    ensures Creditors(t) == [] && Debtors(t) == []
  {
    if t != [] {
      var init := t[..|t| - 1];
      assert forall a :: a in init ==> a in t;
      SettledTableHasNoParties(init);
      assert t[|t| - 1] in t;
    }
  }

  /** An already balanced table needs no transfer. */
  lemma SettledTableNeedsNoTransfer<K>(t: seq<Account<K>>)
    requires forall a :: a in t ==> -CENT <= a.balance <= CENT
    ensures Settle(t) == []
  {
    SettledTableHasNoParties(t);
  }

  lemma {:induction false} DistinctNamesSnoc<K>(s: seq<Account<K>>, a: Account<K>)
    requires DistinctNames(s) && a.name !in NamesOf(s)
    ensures DistinctNames(s + [a])
  {
    var s' := s + [a];
    forall p, q | 0 <= p < q < |s'|
      ensures s'[p].name != s'[q].name
    {
      if q == |s| {
        assert s[p] in s;
      }
    }
  }

  /** Every creditor and every debtor is a row of the table, by name. */
  lemma {:induction false} PartitionNamesFromTable<K>(t: seq<Account<K>>)
    ensures NamesOf(Creditors(t)) <= NamesOf(t) && NamesOf(Debtors(t)) <= NamesOf(t)
  {
    if t != [] {
      var init, a := t[..|t| - 1], t[|t| - 1];
      PartitionNamesFromTable(init);
      assert NamesOf(t) == NamesOf(init) + {a.name} by {
        assert t == init + [a];
      }
      if a.balance > CENT {
        assert Creditors(t) == Creditors(init) + [a];
        assert NamesOf(Creditors(t)) == NamesOf(Creditors(init)) + {a.name};
      } else if a.balance < -CENT {
        assert Debtors(t) == Debtors(init) + [Negated(a)];
        assert NamesOf(Debtors(t)) == NamesOf(Debtors(init)) + {a.name};
      }
    }
  }

  /** In a table with distinct names the last row's name is not among the earlier rows. */
  lemma LastNameIsNew<K>(t: seq<Account<K>>)
    requires DistinctNames(t) && t != []
    ensures DistinctNames(t[..|t| - 1])
    ensures t[|t| - 1].name !in NamesOf(t[..|t| - 1])
  {
    var init, a := t[..|t| - 1], t[|t| - 1];
    forall b | b in init
      ensures b.name != a.name
    {
      var p :| 0 <= p < |init| && init[p] == b;
      assert t[p] == b;
    }
  }

  /** Creditors and debtors of a table whose names are distinct have distinct names, and no name is on both sides. */
  lemma {:induction false} PartitionKeepsNamesApart<K>(t: seq<Account<K>>)
    requires DistinctNames(t)
    ensures DistinctNames(Creditors(t)) && DistinctNames(Debtors(t))
    ensures NamesOf(Creditors(t)) <= NamesOf(t) && NamesOf(Debtors(t)) <= NamesOf(t)
    ensures NamesOf(Creditors(t)) !! NamesOf(Debtors(t))
  {
    PartitionNamesFromTable(t);
    if t != [] {
      var init, a := t[..|t| - 1], t[|t| - 1];
      LastNameIsNew(t);
      PartitionKeepsNamesApart(init);
      PartitionNamesFromTable(init);
      assert a.name !in NamesOf(Creditors(init)) && a.name !in NamesOf(Debtors(init));
      if a.balance > CENT {
        DistinctNamesSnoc(Creditors(init), a);
        assert Creditors(t) == Creditors(init) + [a];
        assert Debtors(t) == Debtors(init);
        assert NamesOf(Creditors(t)) == NamesOf(Creditors(init)) + {a.name};
      } else if a.balance < -CENT {
        DistinctNamesSnoc(Debtors(init), Negated(a));
        assert Debtors(t) == Debtors(init) + [Negated(a)];
        assert Creditors(t) == Creditors(init);
        assert NamesOf(Debtors(t)) == NamesOf(Debtors(init)) + {a.name};
      } else {
        assert Creditors(t) == Creditors(init) && Debtors(t) == Debtors(init);
      }
    }
  }

  // ---------------------------------------------------------------------------
  // The loop, one step at a time
  // ---------------------------------------------------------------------------

  lemma {:induction false} SumUpdate<K>(s: seq<Account<K>>, k: nat, a: Account<K>)
    requires k < |s|
    ensures Sum(s[k := a]) == Sum(s) - s[k].balance + a.balance
  {
    var init := s[..|s| - 1];
    if k == |s| - 1 {
      assert s[k := a][..|s| - 1] == init;
    } else {
      SumUpdate(init, k, a);
      assert s[k := a][..|s| - 1] == init[k := a];
    }
  }

  /** Both cursors only move forward, the parties stay in place and transfers are only appended. */
  lemma {:induction false} RunKeepsParties<K>(m: Matching<K>, emitAbove: real)
    requires InRange(m)
    ensures SameParties(m.creditors, Run(m, emitAbove).creditors)
    ensures SameParties(m.debtors, Run(m, emitAbove).debtors)
    ensures m.transfers <= Run(m, emitAbove).transfers
    decreases |m.creditors| - m.i + |m.debtors| - m.j
  {
    if Active(m) {
      RunKeepsParties(Step(m, emitAbove), emitAbove);
    }
  }

  /**
   * The loop emits at most one transfer per step and advances at least one
   * cursor per step, so from a state where both cursors are in range it emits
   * at most (creditors left) + (debtors left) - 1 transfers.
   */
  lemma {:induction false} RunTransferCount<K>(m: Matching<K>, emitAbove: real)
    requires Active(m)
    ensures |Run(m, emitAbove).transfers| - |m.transfers|
            <= (|m.creditors| - m.i) + (|m.debtors| - m.j) - 1
    decreases |m.creditors| - m.i + |m.debtors| - m.j
  {
    var n := Step(m, emitAbove);
    if Active(n) {
      RunTransferCount(n, emitAbove);
    }
  }

  /** Remaining balances never go negative and never grow. */
  lemma {:induction false} RunRemainders<K>(m: Matching<K>, emitAbove: real)
    requires InRange(m) && NonNegative(m.creditors) && NonNegative(m.debtors)
    ensures NonNegative(Run(m, emitAbove).creditors) && NonNegative(Run(m, emitAbove).debtors)
    ensures NoneIncreased(m.creditors, Run(m, emitAbove).creditors)
    ensures NoneIncreased(m.debtors, Run(m, emitAbove).debtors)
    decreases |m.creditors| - m.i + |m.debtors| - m.j
  {
    if Active(m) {
      RunRemainders(Step(m, emitAbove), emitAbove);
    }
  }

  /** Each step takes the same amount from a creditor and a debtor, so credit minus debt is unchanged. */
  lemma {:induction false} RunConserves<K>(m: Matching<K>, emitAbove: real)
    requires InRange(m)
    ensures Sum(Run(m, emitAbove).creditors) - Sum(Run(m, emitAbove).debtors) == Sum(m.creditors) - Sum(m.debtors)
    decreases |m.creditors| - m.i + |m.debtors| - m.j
  {
    if Active(m) {
      var n := Step(m, emitAbove);
      var c, d := m.creditors[m.i], m.debtors[m.j];
      var amount := Min(c.balance, d.balance);
      var c', d' := c.(balance := c.balance - amount), d.(balance := d.balance - amount);
      assert n.creditors == m.creditors[m.i := c'] && n.debtors == m.debtors[m.j := d'];
      SumUpdate(m.creditors, m.i, c');
      SumUpdate(m.debtors, m.j, d');
      RunConserves(n, emitAbove);
      assert Run(m, emitAbove) == Run(n, emitAbove);
    }
  }

  /** Balances that are whole numbers of cents stay so. */
  lemma {:induction false} RunKeepsCents<K>(m: Matching<K>, emitAbove: real)
    requires InRange(m) && AllCents(m.creditors) && AllCents(m.debtors)
    ensures AllCents(Run(m, emitAbove).creditors) && AllCents(Run(m, emitAbove).debtors)
    decreases |m.creditors| - m.i + |m.debtors| - m.j
  {
    if Active(m) {
      var c, d := m.creditors[m.i], m.debtors[m.j];
      var amount := Min(c.balance, d.balance);
      CentsSub(c.balance, amount);
      CentsSub(d.balance, amount);
      RunKeepsCents(Step(m, emitAbove), emitAbove);
    }
  }

  /** A cursor passes a party only once it has less than a cent left. */
  lemma {:induction false} RunPassesSettledOnly<K>(m: Matching<K>, emitAbove: real)
    requires InRange(m) && PassedAreSettled(m)
    ensures PassedAreSettled(Run(m, emitAbove))
    decreases |m.creditors| - m.i + |m.debtors| - m.j
  {
    if Active(m) {
      RunPassesSettledOnly(Step(m, emitAbove), emitAbove);
    }
  }

  /**
   * Every transfer the loop appends goes from a debtor to a creditor, and its
   * amount is the rounding of a move above the threshold; with the program's
   * threshold no transfer is below one cent.
   */
  lemma {:induction false} RunTransfersWellFormed<K>(m: Matching<K>, emitAbove: real)
    requires InRange(m)
    ensures m.transfers <= Run(m, emitAbove).transfers
    ensures forall t :: t in Run(m, emitAbove).transfers[|m.transfers|..] ==>
              t.from in NamesOf(m.debtors) && t.to in NamesOf(m.creditors) && Round2(emitAbove) <= t.amount
    decreases |m.creditors| - m.i + |m.debtors| - m.j
  {
    if Active(m) {
      var n := Step(m, emitAbove);
      var c, d := m.creditors[m.i], m.debtors[m.j];
      var amount := Min(c.balance, d.balance);
      RunTransfersWellFormed(n, emitAbove);
      RunKeepsParties(n, emitAbove);
      assert c.name in NamesOf(m.creditors) && d.name in NamesOf(m.debtors);
      assert NamesOf(n.creditors) == NamesOf(m.creditors) by {
        assert forall a :: a in n.creditors ==> a.name in NamesOf(m.creditors) by {
          forall a | a in n.creditors
            ensures a.name in NamesOf(m.creditors)
          {
            var p :| 0 <= p < |n.creditors| && n.creditors[p] == a;
            assert m.creditors[p] in m.creditors;
          }
        }
        assert forall a :: a in m.creditors ==> a.name in NamesOf(n.creditors) by {
          forall a | a in m.creditors
            ensures a.name in NamesOf(n.creditors)
          {
            var p :| 0 <= p < |m.creditors| && m.creditors[p] == a;
            assert n.creditors[p] in n.creditors;
          }
        }
      }
      assert NamesOf(n.debtors) == NamesOf(m.debtors) by {
        assert forall a :: a in n.debtors ==> a.name in NamesOf(m.debtors) by {
          forall a | a in n.debtors
            ensures a.name in NamesOf(m.debtors)
          {
            var p :| 0 <= p < |n.debtors| && n.debtors[p] == a;
            assert m.debtors[p] in m.debtors;
          }
        }
        assert forall a :: a in m.debtors ==> a.name in NamesOf(n.debtors) by {
          forall a | a in m.debtors
            ensures a.name in NamesOf(n.debtors)
          {
            var p :| 0 <= p < |m.debtors| && m.debtors[p] == a;
            assert n.debtors[p] in n.debtors;
          }
        }
      }
      if amount > emitAbove {
        Round2Monotone(emitAbove, amount);
      }
      var r := Run(n, emitAbove);
      forall t | t in r.transfers[|m.transfers|..]
        ensures t.from in NamesOf(m.debtors) && t.to in NamesOf(m.creditors) && Round2(emitAbove) <= t.amount
      {
        var p :| |m.transfers| <= p < |r.transfers| && r.transfers[p] == t;
        if p >= |n.transfers| {
          assert t in r.transfers[|n.transfers|..];
        } else {
          assert n.transfers[p] == t;
        }
      }
    }
  }

  // ---------------------------------------------------------------------------
  // Where the loop ends
  // ---------------------------------------------------------------------------

  lemma {:induction false} SumOfZeros<K>(s: seq<Account<K>>)
    requires forall k :: 0 <= k < |s| ==> s[k].balance == 0.0
    ensures Sum(s) == 0.0
  {
    if s != [] {
      SumOfZeros(s[..|s| - 1]);
    }
  }

  lemma {:induction false} ZeroSumOfNonNegatives<K>(s: seq<Account<K>>)
    requires NonNegative(s) && Sum(s) == 0.0
    ensures forall k :: 0 <= k < |s| ==> s[k].balance == 0.0
  {
    if s != [] {
      var init := s[..|s| - 1];
      SumNonNegative(init);
      ZeroSumOfNonNegatives(init);
    }
  }

  lemma {:induction false} SumNonNegative<K>(s: seq<Account<K>>)
    requires NonNegative(s)
    ensures Sum(s) >= 0.0
  {
    if s != [] {
      SumNonNegative(s[..|s| - 1]);
    }
  }

  /** A list whose parties all hold a non-negative whole number of cents below one cent holds only zeros. */
  lemma SettledCentsAreZero<K>(s: seq<Account<K>>)
    requires NonNegative(s) && AllCents(s)
    requires forall k :: 0 <= k < |s| ==> s[k].balance < CENT
    ensures forall k :: 0 <= k < |s| ==> s[k].balance == 0.0
    ensures Sum(s) == 0.0
  {
    forall k | 0 <= k < |s|
      ensures s[k].balance == 0.0
    {
      CentsBelowCentIsZero(s[k].balance);
    }
    SumOfZeros(s);
  }

  /**
   * Residual balances reach zero: when the balances are whole numbers of
   * cents and total credit equals total debt, the loop leaves every creditor
   * and every debtor with nothing remaining (whatever it emits).
   */
  lemma ResidualsVanishWhenBalanced<K>(creditors: seq<Account<K>>, debtors: seq<Account<K>>, emitAbove: real)
    requires NonNegative(creditors) && NonNegative(debtors)
    requires AllCents(creditors) && AllCents(debtors)
    requires Sum(creditors) == Sum(debtors)
    ensures forall k :: 0 <= k < |creditors| ==> Run(Matching(creditors, debtors, 0, 0, []), emitAbove).creditors[k].balance == 0.0
    ensures forall k :: 0 <= k < |debtors| ==> Run(Matching(creditors, debtors, 0, 0, []), emitAbove).debtors[k].balance == 0.0
  {
    var m := Matching(creditors, debtors, 0, 0, []);
    var r := Run(m, emitAbove);
    RunRemainders(m, emitAbove);
    RunKeepsCents(m, emitAbove);
    RunPassesSettledOnly(m, emitAbove);
    RunConserves(m, emitAbove);
    if r.i == |creditors| {
      SettledCentsAreZero(r.creditors);
      ZeroSumOfNonNegatives(r.debtors);
    } else {
      SettledCentsAreZero(r.debtors);
      ZeroSumOfNonNegatives(r.creditors);
    }
  }

  // ---------------------------------------------------------------------------
  // Settling when every move is emitted
  // ---------------------------------------------------------------------------

  /**
   * What each party started with is what it has left plus what it received
   * (a creditor) or sent (a debtor).
   */
  ghost predicate Ledger<K>(creditors: seq<Account<K>>, debtors: seq<Account<K>>, m: Matching<K>)
  {
    |creditors| == |m.creditors| && |debtors| == |m.debtors| &&
    (forall k :: 0 <= k < |creditors| ==>
       creditors[k].balance == m.creditors[k].balance + Received(m.transfers, m.creditors[k].name)) &&
    (forall k :: 0 <= k < |debtors| ==>
       debtors[k].balance == m.debtors[k].balance + Sent(m.transfers, m.debtors[k].name))
  }

  lemma ReceivedSnoc(ts: seq<Transfer>, t: Transfer, name: string)
    ensures Received(ts + [t], name) == Received(ts, name) + if t.to == name then t.amount else 0.0
    ensures Sent(ts + [t], name) == Sent(ts, name) + if t.from == name then t.amount else 0.0
  {
    assert (ts + [t])[..|ts|] == ts;
  }

  /** With every move emitted and whole-cent balances, each transfer carries exactly the amount moved. */
  lemma {:induction false} RunKeepsLedger<K>(creditors: seq<Account<K>>, debtors: seq<Account<K>>, m: Matching<K>)
    requires InRange(m) && AllCents(m.creditors) && AllCents(m.debtors) && AheadAreOpen(m)
    requires DistinctNames(m.creditors) && DistinctNames(m.debtors)
    requires Ledger(creditors, debtors, m)
    ensures Ledger(creditors, debtors, Run(m, 0.0))
    decreases |m.creditors| - m.i + |m.debtors| - m.j
  {
    if Active(m) {
      var n := Step(m, 0.0);
      var c, d := m.creditors[m.i], m.debtors[m.j];
      var amount := Min(c.balance, d.balance);
      assert amount >= CENT;
      Round2OfCents(amount);
      var t := Transfer(d.name, c.name, amount);
      assert n.transfers == m.transfers + [t];
      CentsSub(c.balance, amount);
      CentsSub(d.balance, amount);
      forall k | 0 <= k < |creditors|
        ensures creditors[k].balance == n.creditors[k].balance + Received(n.transfers, n.creditors[k].name)
      {
        ReceivedSnoc(m.transfers, t, m.creditors[k].name);
      }
      forall k | 0 <= k < |debtors|
        ensures debtors[k].balance == n.debtors[k].balance + Sent(n.transfers, n.debtors[k].name)
      {
        ReceivedSnoc(m.transfers, t, m.debtors[k].name);
      }
      RunKeepsLedger(creditors, debtors, n);
    }
  }

  lemma {:induction false} NoTransferToName(ts: seq<Transfer>, name: string)
    requires forall t :: t in ts ==> t.to != name
    ensures Received(ts, name) == 0.0
  {
    if ts != [] {
      NoTransferToName(ts[..|ts| - 1], name);
      assert ts[|ts| - 1] in ts;
    }
  }

  lemma {:induction false} NoTransferFromName(ts: seq<Transfer>, name: string)
    requires forall t :: t in ts ==> t.from != name
    ensures Sent(ts, name) == 0.0
  {
    if ts != [] {
      NoTransferFromName(ts[..|ts| - 1], name);
      assert ts[|ts| - 1] in ts;
    }
  }

  lemma CentsNegate(x: real)
    requires IsCents(x)
    ensures IsCents(-x)
  {
    assert IsCents(0.0);
    CentsSub(0.0, x);
  }

  /**
   * With every move emitted, lists of distinct parties each owed or owing a
   * whole number of cents above one cent, and total credit equal to total
   * debt: each creditor receives exactly its balance, each debtor sends
   * exactly its balance, and every transfer runs from a debtor to a creditor.
   */
  lemma FullEmissionAccounts<K>(cs: seq<Account<K>>, ds: seq<Account<K>>)
    requires DistinctNames(cs) && DistinctNames(ds)
    requires AllCents(cs) && AllCents(ds)
    requires forall k :: 0 <= k < |cs| ==> cs[k].balance > CENT
    requires forall k :: 0 <= k < |ds| ==> ds[k].balance > CENT
    requires Sum(cs) == Sum(ds)
    ensures forall k :: 0 <= k < |cs| ==>
              cs[k].balance == Received(Run(Matching(cs, ds, 0, 0, []), 0.0).transfers, cs[k].name)
    ensures forall k :: 0 <= k < |ds| ==>
              ds[k].balance == Sent(Run(Matching(cs, ds, 0, 0, []), 0.0).transfers, ds[k].name)
    ensures forall tr :: tr in Run(Matching(cs, ds, 0, 0, []), 0.0).transfers ==>
              tr.from in NamesOf(ds) && tr.to in NamesOf(cs)
  {
    var m := Matching(cs, ds, 0, 0, []);
    var r := Run(m, 0.0);
    ResidualsVanishWhenBalanced(cs, ds, 0.0);
    RunKeepsParties(m, 0.0);
    RunTransfersWellFormed(m, 0.0);
    assert r.transfers[0..] == r.transfers;
    RunKeepsLedger(cs, ds, m);
  }

  /** The balances of a table's creditors and debtors are above one cent, and whole cents when the table's are. */
  lemma {:induction false} PartiesAreOpen<K>(t: seq<Account<K>>)
    requires AllCents(t)
    ensures AllCents(Creditors(t)) && AllCents(Debtors(t))
    ensures forall k :: 0 <= k < |Creditors(t)| ==> Creditors(t)[k].balance > CENT
    ensures forall k :: 0 <= k < |Debtors(t)| ==> Debtors(t)[k].balance > CENT
  {
    if t != [] {
      var a := t[|t| - 1];
      PartiesAreOpen(t[..|t| - 1]);
      CentsNegate(a.balance);
    }
  }

  /** A name whose rows all lie in the dead zone is neither a creditor's nor a debtor's name. */
  lemma {:induction false} DeadZoneIsNoParty<K>(t: seq<Account<K>>, name: string)
    requires forall k :: 0 <= k < |t| && t[k].name == name ==> -CENT <= t[k].balance <= CENT
    ensures name !in NamesOf(Creditors(t)) && name !in NamesOf(Debtors(t))
  {
    if t != [] {
      var init, a := t[..|t| - 1], t[|t| - 1];
      DeadZoneIsNoParty(init, name);
      if a.balance > CENT {
        assert NamesOf(Creditors(t)) == NamesOf(Creditors(init)) + {a.name};
      } else if a.balance < -CENT {
        assert NamesOf(Debtors(t)) == NamesOf(Debtors(init)) + {a.name};
      }
    }
  }

  /** Each row above the dead zone is among the creditors. */
  lemma {:induction false} RowAboveIsCreditor<K>(t: seq<Account<K>>, p: nat)
    requires p < |t| && t[p].balance > CENT
    ensures t[p] in Creditors(t)
  {
    if p < |t| - 1 {
      RowAboveIsCreditor(t[..|t| - 1], p);
    }
  }

  /** Each row below the dead zone is among the debtors, with the magnitude it owes. */
  lemma {:induction false} RowBelowIsDebtor<K>(t: seq<Account<K>>, p: nat)
    requires p < |t| && t[p].balance < -CENT
    ensures Negated(t[p]) in Debtors(t)
  {
    if p < |t| - 1 {
      RowBelowIsDebtor(t[..|t| - 1], p);
    }
  }

  /** One row after transfers that pay each creditor and collect from each debtor exactly its balance. */
  lemma RowSettles<K>(t: seq<Account<K>>, p: nat, ts: seq<Transfer>)
    requires DistinctNames(t) && p < |t|
    requires NamesOf(Creditors(t)) !! NamesOf(Debtors(t))
    requires forall k :: 0 <= k < |Creditors(t)| ==> Creditors(t)[k].balance == Received(ts, Creditors(t)[k].name)
    requires forall k :: 0 <= k < |Debtors(t)| ==> Debtors(t)[k].balance == Sent(ts, Debtors(t)[k].name)
    requires forall tr :: tr in ts ==> tr.from in NamesOf(Debtors(t)) && tr.to in NamesOf(Creditors(t))
    ensures t[p].balance + Sent(ts, t[p].name) - Received(ts, t[p].name)
            == if -CENT <= t[p].balance <= CENT then t[p].balance else 0.0
  {
    var cs, ds, a := Creditors(t), Debtors(t), t[p];
    if a.balance > CENT {
      RowAboveIsCreditor(t, p);
      var k :| 0 <= k < |cs| && cs[k] == a;
      assert a.name in NamesOf(cs);
      NoTransferFromName(ts, a.name);
    } else if a.balance < -CENT {
      RowBelowIsDebtor(t, p);
      var k :| 0 <= k < |ds| && ds[k] == Negated(a);
      assert a.name in NamesOf(ds);
      NoTransferToName(ts, a.name);
    } else {
      DeadZoneIsNoParty(t, a.name);
      NoTransferFromName(ts, a.name);
      NoTransferToName(ts, a.name);
    }
  }

  /**
   * The matcher with every move emitted settles a balanced table: if names
   * are distinct, balances are whole numbers of cents and total credit equals
   * total debt, then applying the transfers (the debtor's balance plus what it
   * sent, the creditor's minus what it received) leaves every creditor and
   * debtor at exactly zero and every row in the dead zone as it was.
   */
  lemma FullEmissionSettles<K>(t: seq<Account<K>>)
    requires DistinctNames(t) && AllCents(t)
    requires Sum(Creditors(t)) == Sum(Debtors(t))
    ensures forall p :: 0 <= p < |t| ==>
              var ts := Run(Matching(Creditors(t), Debtors(t), 0, 0, []), 0.0).transfers;
              t[p].balance + Sent(ts, t[p].name) - Received(ts, t[p].name)
              == if -CENT <= t[p].balance <= CENT then t[p].balance else 0.0
  {
    var cs, ds := Creditors(t), Debtors(t);
    var ts := Run(Matching(cs, ds, 0, 0, []), 0.0).transfers;
    PartitionKeepsNamesApart(t);
    PartiesAreOpen(t);
    FullEmissionAccounts(cs, ds);
    forall p | 0 <= p < |t|
      ensures t[p].balance + Sent(ts, t[p].name) - Received(ts, t[p].name)
              == if -CENT <= t[p].balance <= CENT then t[p].balance else 0.0
    {
      RowSettles(t, p, ts);
    }
  }

  // ---------------------------------------------------------------------------
  // The program's settlement
  // ---------------------------------------------------------------------------

  /**
   * The transfers of `calculateSettlement` for a table: none when there is no
   * creditor or no debtor, otherwise at most creditors + debtors - 1, each
   * from a debtor to a creditor and none below one cent.
   */
  lemma SettleBounds<K>(t: seq<Account<K>>)
    ensures Creditors(t) == [] || Debtors(t) == [] ==> Settle(t) == []
    ensures Creditors(t) != [] && Debtors(t) != [] ==> |Settle(t)| <= |Creditors(t)| + |Debtors(t)| - 1
    ensures forall tr :: tr in Settle(t) ==>
              tr.from in NamesOf(Debtors(t)) && tr.to in NamesOf(Creditors(t)) && CENT <= tr.amount
  {
    var m := Matching(Creditors(t), Debtors(t), 0, 0, []);
    if Active(m) {
      RunTransferCount(m, CENT);
    }
    RunTransfersWellFormed(m, CENT);
    assert Round2(CENT) == CENT;
    assert Settle(t)[0..] == Settle(t);
  }
}
