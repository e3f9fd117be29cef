/**
 * The test-data generator and validation report of
 * `tests/generate-test-data.js`: its name-keyed copy of the calculator, the
 * zero-sum and post-settlement checks of the report, and what the generator
 * guarantees about the people and expenses it produces.
 */
module TestData {
  import opened Money
  import opened Records
  import opened Calculator
  import opened SummaryFacts
  import opened SettlementFacts
  import opened TableFacts

  datatype TestPerson = TestPerson(name: string)

  datatype TestExpense = TestExpense(amount: real, description: string, date: string, payerName: string, participantNames: seq<string>)

  function Names(persons: seq<TestPerson>): (names: seq<string>)
    ensures |names| == |persons|
    ensures forall k :: 0 <= k < |persons| ==> names[k] == persons[k].name
  {
    if persons == [] then [] else Names(persons[..|persons| - 1]) + [persons[|persons| - 1].name]
  }

  /** How the name-keyed calculator reads an expense: payer and participants by name. */
  function ChargesByName(es: seq<TestExpense>): (cs: seq<Charge<string>>)
    ensures |cs| == |es|
    ensures forall k :: 0 <= k < |es| ==>
              cs[k] == Charge(es[k].amount, es[k].payerName, Some(es[k].participantNames))
  {
    if es == [] then []
    else
      var e := es[|es| - 1];
      ChargesByName(es[..|es| - 1]) + [Charge(e.amount, e.payerName, Some(e.participantNames))]
  }

  // ---------------------------------------------------------------------------
  // Name-keyed settlement
  // ---------------------------------------------------------------------------

  /** The elements of `s` in order of first occurrence, each once. */
  function Dedup<T(==)>(s: seq<T>): seq<T>
  {
    if s == [] then []
    else
      var d := Dedup(s[..|s| - 1]);
      if s[|s| - 1] in d then d else d + [s[|s| - 1]]
  }

  lemma {:induction false} DedupFacts<T>(s: seq<T>)
    ensures Distinct(Dedup(s))
    ensures forall x :: x in Dedup(s) <==> x in s
  {
    if s != [] {
      var init, x := s[..|s| - 1], s[|s| - 1];
      assert s == init + [x];
      DedupFacts(init);
    }
  }

  /** A list without repetitions is its own first-occurrence list. */
  lemma {:induction false} DedupOfDistinct<T>(s: seq<T>)
    requires Distinct(s)
    ensures Dedup(s) == s
  {
    if s != [] {
      var init, x := s[..|s| - 1], s[|s| - 1];
      assert Distinct(init);
      DedupOfDistinct(init);
      assert x !in init by {
        forall p | 0 <= p < |init|
          ensures init[p] != x
        {
          assert s[p] == init[p];
        }
      }
    }
  }

  /** The first-occurrence list of a prefix is a prefix of the first-occurrence list. */
  lemma {:induction false} DedupPrefix<T>(s: seq<T>, k: nat)
    requires k <= |s|
    ensures Dedup(s[..k]) <= Dedup(s)
    decreases |s| - k
  {
    if k < |s| {
      var init := s[..|s| - 1];
      assert init[..k] == s[..k];
      DedupPrefix(init, k);
    } else {
      assert s[..k] == s;
    }
  }

  /** The balances table of the name-keyed `calculateSettlement`: `balances[person.name] = summary.balance`. */
  ghost function TableByName(persons: seq<TestPerson>, cs: seq<Charge<string>>): seq<Account<string>>
  {
    if persons == [] then []
    else
      var p := persons[|persons| - 1];
      UpsertByName(TableByName(persons[..|persons| - 1], cs), Account(p.name, p.name, Summary(p.name, cs).balance))
  }

  /** One row per name, keyed and labelled by the name, with that name's summary balance. */
  ghost function RowsFor(names: seq<string>, cs: seq<Charge<string>>): (t: seq<Account<string>>)
    ensures |t| == |names|
    ensures forall k :: 0 <= k < |names| ==> t[k] == Account(names[k], names[k], Summary(names[k], cs).balance)
  {
    if names == [] then []
    else
      var n := names[|names| - 1];
      RowsFor(names[..|names| - 1], cs) + [Account(n, n, Summary(n, cs).balance)]
  }

  /** Writing the row of a name already in the table leaves the table as it is. */
  lemma RowsForUpsertKnown(d: seq<string>, cs: seq<Charge<string>>, n: string)
    requires Distinct(d) && n in d
    ensures UpsertByName(RowsFor(d, cs), Account(n, n, Summary(n, cs).balance)) == RowsFor(d, cs)
  {
    var before, row := RowsFor(d, cs), Account(n, n, Summary(n, cs).balance);
    var q :| 0 <= q < |d| && d[q] == n;
    forall k | 0 <= k < q
      ensures before[k].key != row.key
    {
    }
    UpsertByNameOverwrites(before, row, q);
    assert before[q := row] == before;
  }

  /** Writing the row of a new name appends it. */
  lemma RowsForUpsertNew(d: seq<string>, cs: seq<Charge<string>>, n: string)
    requires n !in d
    ensures UpsertByName(RowsFor(d, cs), Account(n, n, Summary(n, cs).balance)) == RowsFor(d + [n], cs)
  {
    var before, row := RowsFor(d, cs), Account(n, n, Summary(n, cs).balance);
    forall k | 0 <= k < |before|
      ensures before[k].key != row.key
    {
      assert before[k].key == d[k];
    }
    UpsertByNameAppendsNewKey(before, row);
    assert (d + [n])[..|d|] == d;
  }

  /**
   * The name-keyed table has one row per distinct name, in order of first
   * appearance; people with equal names collapse into one row.
   */
  lemma {:induction false} TableByNameRows(persons: seq<TestPerson>, cs: seq<Charge<string>>)
    ensures TableByName(persons, cs) == RowsFor(Dedup(Names(persons)), cs)
  {
    if persons != [] {
      var init, p := persons[..|persons| - 1], persons[|persons| - 1];
      TableByNameRows(init, cs);
      assert Names(persons)[..|persons| - 1] == Names(init);
      var d := Dedup(Names(init));
      DedupFacts(Names(init));
      if p.name in d {
        assert Dedup(Names(persons)) == d;
        RowsForUpsertKnown(d, cs, p.name);
      } else {
        assert Dedup(Names(persons)) == d + [p.name];
        RowsForUpsertNew(d, cs, p.name);
      }
    }
  }

  /** The transfers the name-keyed `calculateSettlement(persons, expenses)` returns. */
  ghost function SettlementByName(persons: seq<TestPerson>, expenses: seq<TestExpense>): seq<Transfer>
  {
    Settle(TableByName(persons, ChargesByName(expenses)))
  }

  /** The name-keyed `calculateSettlement`: the same summary, partition and loop over a name-keyed table. */
  method CalculateSettlementByName(persons: seq<TestPerson>, expenses: seq<TestExpense>) returns (settlements: seq<Transfer>)
    ensures settlements == SettlementByName(persons, expenses)
  {
    var cs := ChargesByName(expenses);
    var balances: seq<Account<string>> := [];
    for k := 0 to |persons|
      invariant balances == TableByName(persons[..k], cs)
    {
      assert persons[..k + 1][..k] == persons[..k];
      var person := persons[k];
      var summary := CalculatePersonSummary(person.name, cs);
      balances := UpsertByName(balances, Account(person.name, person.name, summary.balance));
    }
    assert persons[..|persons|] == persons;
    var creditors, debtors := Partition(balances);
    settlements := MatchGreedy(creditors, debtors);
  }

  /** Every transfer of the name-keyed settlement runs between two of the people's names. */
  lemma SettlementNamesArePersons(persons: seq<TestPerson>, expenses: seq<TestExpense>)
    ensures forall t :: t in SettlementByName(persons, expenses) ==> t.from in Names(persons) && t.to in Names(persons)
  {
    var cs := ChargesByName(expenses);
    var d := Dedup(Names(persons));
    var t := TableByName(persons, cs);
    TableByNameRows(persons, cs);
    DedupFacts(Names(persons));
    assert DistinctNames(t);
    PartitionKeepsNamesApart(t);
    SettleBounds(t);
    forall a | a in t
      ensures a.name in Names(persons)
    {
      var k :| 0 <= k < |t| && t[k] == a;
      assert d[k] in d;
    }
  }

  // ---------------------------------------------------------------------------
  // The validation report's checks
  // ---------------------------------------------------------------------------

  /** The zero-sum check: the `reduce` of everybody's rounded balance, passed when its magnitude is below one cent. */
  method ZeroSumCheck(persons: seq<TestPerson>, expenses: seq<TestExpense>) returns (totalBalance: real, passed: bool)
    ensures totalBalance == BalanceAcross(Names(persons), ChargesByName(expenses))
    ensures passed <==> Abs(totalBalance) < CENT
  {
    var cs := ChargesByName(expenses);
    totalBalance := 0.0;
    for k := 0 to |persons|
      invariant totalBalance == BalanceAcross(Names(persons[..k]), cs)
    {
      var summary := CalculatePersonSummary(persons[k].name, cs);
      assert Names(persons[..k + 1])[..k] == Names(persons[..k]);
      totalBalance := totalBalance + summary.balance;
    }
    assert persons[..|persons|] == persons;
    passed := Abs(totalBalance) < CENT;
  }

  /**
   * `balancesAfterSettlement[item.from] += item.amount` and
   * `balancesAfterSettlement[item.to] -= item.amount` for every transfer:
   * each name ends with its balance plus what it sent minus what it received.
   */
  method ApplyTransfers(balances: map<string, real>, settlements: seq<Transfer>) returns (after: map<string, real>)
    requires forall t :: t in settlements ==> t.from in balances && t.to in balances
    ensures after.Keys == balances.Keys
    ensures forall n :: n in balances ==> after[n] == balances[n] + Sent(settlements, n) - Received(settlements, n)
  {
    after := balances;
    for k := 0 to |settlements|
      invariant after.Keys == balances.Keys
      invariant forall n :: n in balances ==>
                  after[n] == balances[n] + Sent(settlements[..k], n) - Received(settlements[..k], n)
    {
      var item := settlements[k];
      assert settlements[..k + 1] == settlements[..k] + [item];
      assert item in settlements;
      forall n | n in balances
        ensures Sent(settlements[..k + 1], n) == Sent(settlements[..k], n) + if item.from == n then item.amount else 0.0
        ensures Received(settlements[..k + 1], n) == Received(settlements[..k], n) + if item.to == n then item.amount else 0.0
      {
        ReceivedSnoc(settlements[..k], item, n);
      }
      after := after[item.from := after[item.from] + item.amount];
      after := after[item.to := after[item.to] - item.amount];
    }
    assert settlements[..|settlements|] == settlements;
  }

  /** `balancesAfterSettlement[person.name] = summary.balance` for every person: each name's summary balance. */
  method BalancesByName(persons: seq<TestPerson>, cs: seq<Charge<string>>) returns (balances: map<string, real>)
    ensures balances.Keys == set k | 0 <= k < |persons| :: persons[k].name
    ensures forall n :: n in balances ==> balances[n] == Summary(n, cs).balance
  {
    balances := map[];
    for k := 0 to |persons|
      invariant balances.Keys == set q | 0 <= q < k :: persons[q].name
      invariant forall n :: n in balances ==> balances[n] == Summary(n, cs).balance
    {
      var summary := CalculatePersonSummary(persons[k].name, cs);
      balances := balances[persons[k].name := summary.balance];
      assert balances.Keys == set q | 0 <= q < k + 1 :: persons[q].name by {
        forall n | n in balances.Keys
          ensures n in set q | 0 <= q < k + 1 :: persons[q].name
        {
          if n != persons[k].name {
            var q :| 0 <= q < k && persons[q].name == n;
          }
        }
      }
    }
  }

  /** A name's balance after applying the name-keyed settlement's transfers. */
  ghost function PostBalance(persons: seq<TestPerson>, expenses: seq<TestExpense>, name: string): real
  {
    var ts := SettlementByName(persons, expenses);
    Summary(name, ChargesByName(expenses)).balance + Sent(ts, name) - Received(ts, name)
  }

  /** The report's settlement verdict: the largest magnitude left after the transfers is below one cent. */
  ghost predicate SettlementCheckPasses(persons: seq<TestPerson>, expenses: seq<TestExpense>)
  {
    forall k :: 0 <= k < |persons| ==> Abs(PostBalance(persons, expenses, persons[k].name)) < CENT
  }

  /**
   * The post-settlement check of the validation report: one entry per name
   * holding its balance after every transfer is applied, and the verdict.
   */
  method SettlementCheck(persons: seq<TestPerson>, expenses: seq<TestExpense>) returns (after: map<string, real>, passed: bool)
    ensures after.Keys == set k | 0 <= k < |persons| :: persons[k].name
    ensures forall n :: n in after ==> after[n] == PostBalance(persons, expenses, n)
    ensures passed <==> SettlementCheckPasses(persons, expenses)
  {
    var cs := ChargesByName(expenses);
    var settlement := CalculateSettlementByName(persons, expenses);
    var balances := BalancesByName(persons, cs);
    SettlementNamesArePersons(persons, expenses);
    forall t | t in settlement
      ensures t.from in balances && t.to in balances
    {
      var p :| 0 <= p < |persons| && Names(persons)[p] == t.from;
      var q :| 0 <= q < |persons| && Names(persons)[q] == t.to;
      assert persons[p].name == t.from && persons[q].name == t.to;
    }
    after := ApplyTransfers(balances, settlement);
    forall k | 0 <= k < |persons|
      ensures Names(persons)[k] in after
    {
    }
    passed := AllBelowCent(Names(persons), after);
  }

  /** `Math.max(...values.map(Math.abs)) < 0.01`: every listed entry is below one cent in magnitude. */
  method AllBelowCent(names: seq<string>, after: map<string, real>) returns (passed: bool)
    requires forall k :: 0 <= k < |names| ==> names[k] in after
    ensures passed <==> forall k :: 0 <= k < |names| ==> Abs(after[names[k]]) < CENT
  {
    passed := true;
    for k := 0 to |names|
      invariant passed <==> forall q :: 0 <= q < k ==> Abs(after[names[q]]) < CENT
    {
      if Abs(after[names[k]]) >= CENT {
        passed := false;
      }
    }
  }

  // ---------------------------------------------------------------------------
  // The generator
  // ---------------------------------------------------------------------------

  /** `expenseDescriptions`, the descriptions the generator picks from. */
  const DESCRIPTIONS: seq<string> := [
    "午餐费用", "晚餐费用", "早餐费用", "下午茶", "咖啡费用",
    "打车费", "地铁费", "停车费", "加油费", "过路费",
    "电影票", "KTV费用", "游戏厅", "桌游费", "密室逃脱",
    "购物费用", "超市采购", "日用品", "零食费用", "饮料费用",
    "住宿费", "景点门票", "导游费", "纪念品", "旅游保险"
  ]

  /** `Math.floor(r * n)` for a `Math.random()` value `r`: an index below `n`. */
  function FloorIndex(r: real, n: nat): (k: nat)
    requires 0.0 <= r < 1.0 && n > 0
    ensures k < n
    ensures k as real <= r * n as real < k as real + 1.0
  {
    var x := r * n as real;
    assert n as real - x == (1.0 - r) * n as real;
    assert (1.0 - r) * n as real > 0.0;
    x.Floor
  }

  predicate IsPermutation(order: seq<nat>, n: nat)
  {
    |order| == n && (forall k :: 0 <= k < n ==> order[k] < n) && Distinct(order)
  }

  /**
   * The random draws behind one expense: the `Math.random()` values for the
   * amount, description, payer and participant count, the generated date,
   * and the order into which the random comparator sorts the people.
   */
  datatype ExpenseDraw = ExpenseDraw(amount: real, description: real, date: string, payer: real, count: real, order: seq<nat>)

  ghost predicate ValidDraw(d: ExpenseDraw, n: nat)
  {
    0.0 <= d.amount < 1.0 && 0.0 <= d.description < 1.0 && 0.0 <= d.payer < 1.0 && 0.0 <= d.count < 1.0 &&
    IsPermutation(d.order, n)
  }

  /** What the generator promises of an expense over these names. */
  ghost predicate WellFormedExpense(names: seq<string>, e: TestExpense)
  {
    e.amount >= 10.0 && e.payerName in names &&
    1 <= |e.participantNames| <= |names| && e.payerName in e.participantNames &&
    Distinct(e.participantNames) && forall n :: n in e.participantNames ==> n in names
  }

  /** What the generator promises of its output: distinct names, and well-formed expenses over them. */
  ghost predicate WellFormed(persons: seq<TestPerson>, expenses: seq<TestExpense>)
  {
    Distinct(Names(persons)) && forall e :: e in expenses ==> WellFormedExpense(Names(persons), e)
  }

  /**
   * The people of `generateTestData`: the `do … while (usedNames.has(name))`
   * inside the `for`, drawing names from `draws` (what `generateRandomName`
   * returns, in order) and skipping used ones until there are `personCount`
   * people. The people are the first distinct draws, so their names are
   * pairwise distinct.
   */
  method GeneratePersons(personCount: nat, draws: seq<string>) returns (persons: seq<TestPerson>, usedNames: set<string>)
    ensures |persons| == if personCount <= |Dedup(draws)| then personCount else |Dedup(draws)|
    ensures Names(persons) == Dedup(draws)[..|persons|]
    ensures Distinct(Names(persons))
    ensures forall n :: n in usedNames <==> n in Names(persons)
  {
    persons, usedNames := [], {};
    var k := 0;
    while |persons| < personCount && k < |draws|
      invariant 0 <= k <= |draws| && |persons| <= personCount
      invariant Names(persons) == Dedup(draws[..k])
      invariant forall n :: n in usedNames <==> n in Names(persons)
      decreases |draws| - k
    {
      var name := draws[k];
      assert draws[..k + 1][..k] == draws[..k];
      if name !in usedNames {
        usedNames := usedNames + {name};
        assert Names(persons + [TestPerson(name)])[..|persons|] == Names(persons);
        persons := persons + [TestPerson(name)];
      }
      k := k + 1;
    }
    DedupPrefix(draws, k);
    DedupFacts(draws[..k]);
    if k == |draws| {
      assert draws[..k] == draws;
    }
  }

  /** The names in the order a permutation lists them. */
  function Shuffled(names: seq<string>, order: seq<nat>): (shuffled: seq<string>)
    requires IsPermutation(order, |names|)
    ensures |shuffled| == |names|
    ensures forall k :: 0 <= k < |names| ==> shuffled[k] == names[order[k]]
  {
    seq(|names|, k requires 0 <= k < |names| => names[order[k]])
  }

  /** Distinct names listed through a permutation stay distinct, and are the same names. */
  lemma ShuffledFacts(names: seq<string>, order: seq<nat>)
    requires IsPermutation(order, |names|)
    ensures forall n :: n in Shuffled(names, order) ==> n in names
    ensures Distinct(names) ==> Distinct(Shuffled(names, order))
  {
    var sh := Shuffled(names, order);
    if Distinct(names) {
      forall p, q | 0 <= p < q < |sh|
        ensures sh[p] != sh[q]
      {
        var a, b := order[p], order[q];
        assert a != b;
        if a < b {
          assert names[a] != names[b];
        } else {
          assert names[b] != names[a];
        }
      }
    }
  }

  /**
   * One expense of `generateTestData`: amount, description, date and payer
   * from the draws; the first `participantCount` people of the shuffled list,
   * with the first replaced by the payer when the payer is not among them.
   * It has between 1 and n participants, the payer among them.
   */
  method GenerateExpense(persons: seq<TestPerson>, d: ExpenseDraw) returns (e: TestExpense)
    requires |persons| > 0 && ValidDraw(d, |persons|)
    ensures e.amount == Round2(d.amount * 500.0 + 10.0) && e.amount >= 10.0
    ensures e.description in DESCRIPTIONS && e.date == d.date
    ensures e.payerName in Names(persons)
    ensures 1 <= |e.participantNames| <= |persons|
    ensures e.payerName in e.participantNames
    ensures forall n :: n in e.participantNames ==> n in Names(persons)
    ensures Distinct(Names(persons)) ==> Distinct(e.participantNames)
  {
    var names := Names(persons);
    var amount := Round2(d.amount * 500.0 + 10.0);
    Round2Monotone(10.0, d.amount * 500.0 + 10.0);
    Round2OfCents(10.0);
    var description := DESCRIPTIONS[FloorIndex(d.description, |DESCRIPTIONS|)];
    var payerName := persons[FloorIndex(d.payer, |persons|)].name;
    var participantCount := FloorIndex(d.count, |persons|) + 1;
    var shuffled := Shuffled(names, d.order);
    ShuffledFacts(names, d.order);
    var participants := shuffled[..participantCount];
    assert forall n :: n in participants ==> n in shuffled;
    if payerName !in participants {
      participants := participants[0 := payerName];
      assert participants[0] == payerName;
      if Distinct(names) {
        forall p, q | 0 <= p < q < |participants|
          ensures participants[p] != participants[q]
        {
          if p != 0 {
            assert participants[p] == shuffled[p] && participants[q] == shuffled[q];
          }
        }
      }
    }
    e := TestExpense(amount, description, d.date, payerName, participants);
  }

  /**
   * `generateTestData`: 3 to 10 people with distinct names, then 10 to 100
   * expenses, each well formed over those people.
   */
  method GenerateTestData(personDraw: real, expenseDraw: real, nameDraws: seq<string>, expenseDraws: seq<ExpenseDraw>)
    returns (persons: seq<TestPerson>, expenses: seq<TestExpense>)
    requires 0.0 <= personDraw < 1.0 && 0.0 <= expenseDraw < 1.0
    requires |Dedup(nameDraws)| >= FloorIndex(personDraw, 8) + 3
    requires |expenseDraws| >= FloorIndex(expenseDraw, 91) + 10
    requires forall k :: 0 <= k < |expenseDraws| ==> ValidDraw(expenseDraws[k], FloorIndex(personDraw, 8) + 3)
    ensures |persons| == FloorIndex(personDraw, 8) + 3 && 3 <= |persons| <= 10
    ensures |expenses| == FloorIndex(expenseDraw, 91) + 10 && 10 <= |expenses| <= 100
    ensures WellFormed(persons, expenses)
  {
    var personCount := FloorIndex(personDraw, 8) + 3;
    var expenseCount := FloorIndex(expenseDraw, 91) + 10;
    var usedNames;
    persons, usedNames := GeneratePersons(personCount, nameDraws);
    expenses := [];
    for i := 0 to expenseCount
      invariant |expenses| == i
      invariant forall e :: e in expenses ==> WellFormedExpense(Names(persons), e)
    {
      var e := GenerateExpense(persons, expenseDraws[i]);
      expenses := expenses + [e];
    }
  }

  /** Generated data is what the conservation of balances needs: every payer and participant is one of the people. */
  lemma WellFormedIsReferenced(persons: seq<TestPerson>, expenses: seq<TestExpense>)
    requires WellFormed(persons, expenses)
    ensures Referenced(Names(persons), ChargesByName(expenses))
  {
    var cs := ChargesByName(expenses);
    forall c | c in cs
      ensures c.payer in Names(persons) && c.shares.Some? && |c.shares.value| > 0 && Distinct(c.shares.value)
      ensures forall k :: k in c.shares.value ==> k in Names(persons)
    {
      var k :| 0 <= k < |cs| && cs[k] == c;
      assert expenses[k] in expenses;
    }
  }

  // ---------------------------------------------------------------------------
  // Where the report's checks disagree with the calculator
  // ---------------------------------------------------------------------------

  /**
   * The zero-sum check with the tolerance rounding allows: each of the n
   * rounded balances is within half a cent of its exact value, and the exact
   * values add up to zero.
   */
  ghost predicate ZeroSumWithinRounding(persons: seq<TestPerson>, expenses: seq<TestExpense>)
  {
    Abs(BalanceAcross(Names(persons), ChargesByName(expenses))) <= |persons| as real * 0.005
  }

  /** Generated data always passes the zero-sum check with the rounding tolerance. */
  lemma GeneratedBalancesSumWithinRounding(persons: seq<TestPerson>, expenses: seq<TestExpense>)
    requires WellFormed(persons, expenses)
    ensures NetAcross(Names(persons), ChargesByName(expenses)) == 0.0
    ensures ZeroSumWithinRounding(persons, expenses)
  {
    WellFormedIsReferenced(persons, expenses);
    BalancesSumToZero(Names(persons), ChargesByName(expenses));
  }

  /** Paid and shared amounts over two expenses are the sums of their parts. */
  lemma SumsOverTwo<K>(k: K, cs: seq<Charge<K>>)
    requires |cs| == 2
    ensures PaidSum(k, cs) == PaidPart(k, cs[0]) + PaidPart(k, cs[1])
    ensures ShareSum(k, cs) == SharePart(k, cs[0]) + SharePart(k, cs[1])
  {
    var first := cs[..1];
    assert first[..0] == [] && first[0] == cs[0];
    assert PaidSum(k, first) == PaidPart(k, cs[0]) && ShareSum(k, first) == SharePart(k, cs[0]);
    assert cs[..|cs| - 1] == first;
  }

  /** The balance of someone who pays 10.00 for three and takes part in nothing else. */
  lemma SplitPayerBalance<K>(k: K, cs: seq<Charge<K>>)
    requires |cs| == 2 && PaidPart(k, cs[0]) + PaidPart(k, cs[1]) == 10.0
    requires SharePart(k, cs[0]) + SharePart(k, cs[1]) == 10.0 / 3.0
    ensures Summary(k, cs).balance == 6.67
  {
    SumsOverTwo(k, cs);
    Round2Unique(10.0 - 10.0 / 3.0, 6.67);
  }

  /** The balance of someone who owes a third of 10.00 and pays nothing. */
  lemma SplitSharerBalance<K>(k: K, cs: seq<Charge<K>>)
    requires |cs| == 2 && PaidPart(k, cs[0]) + PaidPart(k, cs[1]) == 0.0
    requires SharePart(k, cs[0]) + SharePart(k, cs[1]) == 10.0 / 3.0
    ensures Summary(k, cs).balance == -3.33
  {
    SumsOverTwo(k, cs);
    Round2Unique(0.0 - 10.0 / 3.0, -3.33);
  }

  /**
   * The rounded balances of two separate 10.00 expenses, each split three
   * ways: each payer gets +6.67, each other participant -3.33.
   */
  lemma TwoThreeWaySplitsBalances<K>(x: K, y: K, z: K, u: K, v: K, w: K, cs: seq<Charge<K>>)
    requires Distinct([x, y, z, u, v, w])
    requires cs == [Charge(10.0, x, Some([x, y, z])), Charge(10.0, u, Some([u, v, w]))]
    ensures Summary(x, cs).balance == 6.67 && Summary(y, cs).balance == -3.33 && Summary(z, cs).balance == -3.33
    ensures Summary(u, cs).balance == 6.67 && Summary(v, cs).balance == -3.33 && Summary(w, cs).balance == -3.33
  {
    var ks := [x, y, z, u, v, w];
    assert ks[0] != ks[3] && ks[0] != ks[4] && ks[0] != ks[5];
    assert ks[1] != ks[3] && ks[1] != ks[4] && ks[1] != ks[5];
    assert ks[2] != ks[3] && ks[2] != ks[4] && ks[2] != ks[5];
    assert ks[0] != ks[1] && ks[0] != ks[2] && ks[3] != ks[4] && ks[3] != ks[5];
    SplitPayerBalance(x, cs);
    SplitSharerBalance(y, cs);
    SplitSharerBalance(z, cs);
    SplitPayerBalance(u, cs);
    SplitSharerBalance(v, cs);
    SplitSharerBalance(w, cs);
  }

  /** The sum of the balances grows by one key's balance at a time. */
  lemma BalanceAcrossSnoc<K>(keys: seq<K>, k: K, cs: seq<Charge<K>>)
    ensures BalanceAcross(keys + [k], cs) == BalanceAcross(keys, cs) + Summary(k, cs).balance
  {
    assert (keys + [k])[..|keys|] == keys;
  }

  /** The sum of six people's balances, one at a time. */
  lemma BalanceAcrossSix<K>(x: K, y: K, z: K, u: K, v: K, w: K, cs: seq<Charge<K>>)
    ensures BalanceAcross([x, y, z, u, v, w], cs) ==
              Summary(x, cs).balance + Summary(y, cs).balance + Summary(z, cs).balance +
              Summary(u, cs).balance + Summary(v, cs).balance + Summary(w, cs).balance
  {
    var none: seq<K> := [];
    BalanceAcrossSnoc(none, x, cs);
    BalanceAcrossSnoc([x], y, cs);
    BalanceAcrossSnoc([x, y], z, cs);
    BalanceAcrossSnoc([x, y, z], u, cs);
    BalanceAcrossSnoc([x, y, z, u], v, cs);
    BalanceAcrossSnoc([x, y, z, u, v], w, cs);
    assert none + [x] == [x] && [x] + [y] == [x, y] && [x, y] + [z] == [x, y, z];
    assert [x, y, z] + [u] == [x, y, z, u] && [x, y, z, u] + [v] == [x, y, z, u, v];
    assert [x, y, z, u, v] + [w] == [x, y, z, u, v, w];
  }

  const SplitPersons: seq<TestPerson> :=
    [TestPerson("A"), TestPerson("B"), TestPerson("C"), TestPerson("D"), TestPerson("E"), TestPerson("F")]

  const SplitExpenses: seq<TestExpense> :=
    [TestExpense(10.0, "午餐费用", "2024-01-01", "A", ["A", "B", "C"]),
     TestExpense(10.0, "晚餐费用", "2024-01-02", "D", ["D", "E", "F"])]

  /** The example of `ZeroSumCheckRejectsTwoSplits` has the form the generator promises. */
  lemma SplitWellFormed()
    ensures WellFormed(SplitPersons, SplitExpenses)
  {
    var names := ["A", "B", "C", "D", "E", "F"];
    assert Names(SplitPersons) == names;
    forall e | e in SplitExpenses
      ensures WellFormedExpense(names, e)
    {
      assert e == SplitExpenses[0] || e == SplitExpenses[1];
    }
  }

  /**
   * The zero-sum check as written fails on well-formed data: two separate
   * 10.00 expenses, each paid by one of six people and shared with two
   * others, round to balances +6.67, -3.33, -3.33 twice over, whose sum is
   * 0.02, not below 0.01.
   */
  lemma ZeroSumCheckRejectsTwoSplits()
    ensures WellFormed(SplitPersons, SplitExpenses)
    ensures BalanceAcross(Names(SplitPersons), ChargesByName(SplitExpenses)) == 0.02
    ensures !(Abs(BalanceAcross(Names(SplitPersons), ChargesByName(SplitExpenses))) < CENT)
  {
    SplitWellFormed();
    var cs := ChargesByName(SplitExpenses);
    assert cs == [Charge(10.0, "A", Some(["A", "B", "C"])), Charge(10.0, "D", Some(["D", "E", "F"]))];
    assert Names(SplitPersons) == ["A", "B", "C", "D", "E", "F"];
    TwoThreeWaySplitsBalances("A", "B", "C", "D", "E", "F", cs);
    BalanceAcrossSix("A", "B", "C", "D", "E", "F", cs);
  }

  /** The matcher recording every move, the threshold under which every deducted amount is paid. */
  ghost function FullSettlementByName(persons: seq<TestPerson>, expenses: seq<TestExpense>): seq<Transfer>
  {
    var t := TableByName(persons, ChargesByName(expenses));
    Run(Matching(Creditors(t), Debtors(t), 0, 0, []), 0.0).transfers
  }

  /** A name's balance after applying the transfers of `FullSettlementByName`. */
  ghost function FullPostBalance(persons: seq<TestPerson>, expenses: seq<TestExpense>, name: string): real
  {
    var ts := FullSettlementByName(persons, expenses);
    Summary(name, ChargesByName(expenses)).balance + Sent(ts, name) - Received(ts, name)
  }

  /** The post-settlement check with the calculator's own tolerance: nobody is left owing or owed more than one cent. */
  ghost predicate CorrectedSettlementCheckPasses(persons: seq<TestPerson>, expenses: seq<TestExpense>)
  {
    forall k :: 0 <= k < |persons| ==> Abs(FullPostBalance(persons, expenses, persons[k].name)) <= CENT
  }

  /**
   * When total credit equals total debt, recording every move settles every
   * creditor and debtor exactly, and leaves only dead-zone balances, so the
   * check with the calculator's tolerance passes.
   */
  lemma FullEmissionPassesCorrectedCheck(persons: seq<TestPerson>, expenses: seq<TestExpense>)
    requires var t := TableByName(persons, ChargesByName(expenses)); Sum(Creditors(t)) == Sum(Debtors(t))
    ensures CorrectedSettlementCheckPasses(persons, expenses)
    ensures forall k :: 0 <= k < |persons| && Abs(Summary(persons[k].name, ChargesByName(expenses)).balance) > CENT ==>
              FullPostBalance(persons, expenses, persons[k].name) == 0.0
  {
    var cs := ChargesByName(expenses);
    var t := TableByName(persons, cs);
    NameTableWellFormed(persons, cs);
    FullEmissionSettles(t);
    forall k | 0 <= k < |persons|
      ensures Abs(FullPostBalance(persons, expenses, persons[k].name)) <= CENT
      ensures Abs(Summary(persons[k].name, cs).balance) > CENT ==> FullPostBalance(persons, expenses, persons[k].name) == 0.0
    {
      var j := NameTableRow(persons, cs, k);
    }
  }

  /** The name-keyed table has distinct names and whole-cent balances. */
  lemma NameTableWellFormed(persons: seq<TestPerson>, cs: seq<Charge<string>>)
    ensures DistinctNames(TableByName(persons, cs)) && AllCents(TableByName(persons, cs))
  {
    TableByNameRows(persons, cs);
    DedupFacts(Names(persons));
  }

  /** Each person's name has its row in the name-keyed table. */
  lemma NameTableRow(persons: seq<TestPerson>, cs: seq<Charge<string>>, k: nat) returns (j: nat)
    requires k < |persons|
    ensures j < |TableByName(persons, cs)|
    ensures TableByName(persons, cs)[j] == Account(persons[k].name, persons[k].name, Summary(persons[k].name, cs).balance)
  {
    var d := Dedup(Names(persons));
    TableByNameRows(persons, cs);
    DedupFacts(Names(persons));
    assert Names(persons)[k] in Names(persons);
    j :| 0 <= j < |d| && d[j] == persons[k].name;
  }

  /** Appending an expense adds its parts to a person's sums. */
  lemma SumsSnoc(key: string, cs: seq<Charge<string>>, c: Charge<string>)
    ensures PaidSum(key, cs + [c]) == PaidSum(key, cs) + PaidPart(key, c)
    ensures ShareSum(key, cs + [c]) == ShareSum(key, cs) + SharePart(key, c)
  {
    assert (cs + [c])[..|cs|] == cs;
  }

  /** Appending a row adds it to the creditors or debtors it belongs to. */
  lemma PartitionSnoc<K>(t: seq<Account<K>>, a: Account<K>)
    ensures Creditors(t + [a]) == Creditors(t) + if a.balance > CENT then [a] else []
    ensures Debtors(t + [a]) == Debtors(t) + if a.balance < -CENT then [Negated(a)] else []
  {
    assert (t + [a])[..|t|] == t;
  }

  lemma SumSnoc(t: seq<Account<string>>, a: Account<string>)
    ensures Sum(t + [a]) == Sum(t) + a.balance
  {
    assert (t + [a])[..|t|] == t;
  }

  /** A person's unrounded sums over the five expenses of the example, expense by expense. */
  lemma ResidueExampleSums(key: string, cs: seq<Charge<string>>)
    requires |cs| == 5
    ensures PaidSum(key, cs) == PaidPart(key, cs[0]) + PaidPart(key, cs[1]) + PaidPart(key, cs[2]) + PaidPart(key, cs[3]) + PaidPart(key, cs[4])
    ensures ShareSum(key, cs) == SharePart(key, cs[0]) + SharePart(key, cs[1]) + SharePart(key, cs[2]) + SharePart(key, cs[3]) + SharePart(key, cs[4])
  {
    var e: seq<Charge<string>> := [];
    SumsSnoc(key, e, cs[0]);
    SumsSnoc(key, cs[..1], cs[1]);
    SumsSnoc(key, cs[..2], cs[2]);
    SumsSnoc(key, cs[..3], cs[3]);
    SumsSnoc(key, cs[..4], cs[4]);
    assert e + [cs[0]] == cs[..1] && cs[..1] + [cs[1]] == cs[..2] && cs[..2] + [cs[2]] == cs[..3];
    assert cs[..3] + [cs[3]] == cs[..4] && cs[..4] + [cs[4]] == cs;
  }

  /** One person's balance in the example of `SuppressedCentsLeaveResidue`. */
  lemma ResidueExampleBalance(key: string, cs: seq<Charge<string>>, paid: real, share: real)
    requires cs == [Charge(0.03, "Z", Some(["B"])), Charge(0.01, "A", Some(["B"])), Charge(0.03, "A", Some(["C"])),
                    Charge(0.01, "A", Some(["D"])), Charge(0.02, "E", Some(["D"]))]
    requires paid == PaidPart(key, cs[0]) + PaidPart(key, cs[1]) + PaidPart(key, cs[2]) + PaidPart(key, cs[3]) + PaidPart(key, cs[4])
    requires share == SharePart(key, cs[0]) + SharePart(key, cs[1]) + SharePart(key, cs[2]) + SharePart(key, cs[3]) + SharePart(key, cs[4])
    requires IsCents(paid - share)
    ensures Summary(key, cs).balance == paid - share
  {
    ResidueExampleSums(key, cs);
    Round2OfCents(paid - share);
  }

  /** The balances of the example in `SuppressedCentsLeaveResidue`. */
  lemma ResidueExampleBalances(cs: seq<Charge<string>>)
    requires cs == [Charge(0.03, "Z", Some(["B"])), Charge(0.01, "A", Some(["B"])), Charge(0.03, "A", Some(["C"])),
                    Charge(0.01, "A", Some(["D"])), Charge(0.02, "E", Some(["D"]))]
    ensures Summary("Z", cs).balance == 0.03 && Summary("A", cs).balance == 0.05 && Summary("E", cs).balance == 0.02
    ensures Summary("B", cs).balance == -0.04 && Summary("C", cs).balance == -0.03 && Summary("D", cs).balance == -0.03
  {
    ResidueExampleBalance("Z", cs, 0.03, 0.0);
    ResidueExampleBalance("A", cs, 0.05, 0.0);
    ResidueExampleBalance("E", cs, 0.02, 0.0);
    ResidueExampleBalance("B", cs, 0.0, 0.04);
    ResidueExampleBalance("C", cs, 0.0, 0.03);
    ResidueExampleBalance("D", cs, 0.0, 0.03);
  }

  /** The creditors and debtors of the example's table. */
  lemma ResidueExamplePartition(t: seq<Account<string>>)
    requires t == [Account("Z", "Z", 0.03), Account("A", "A", 0.05), Account("E", "E", 0.02),
                   Account("B", "B", -0.04), Account("C", "C", -0.03), Account("D", "D", -0.03)]
    ensures Creditors(t) == [Account("Z", "Z", 0.03), Account("A", "A", 0.05), Account("E", "E", 0.02)]
    ensures Debtors(t) == [Account("B", "B", 0.04), Account("C", "C", 0.03), Account("D", "D", 0.03)]
  {
    CreditorsThenDebtors(t, 3);
    var ds := Debtors(t);
    assert ds[0] == Negated(t[3]) && ds[1] == Negated(t[4]) && ds[2] == Negated(t[5]);
  }

  /** A table whose first `k` rows are above the dead zone and whose others are below it splits at `k`. */
  lemma {:induction false} CreditorsThenDebtors<K>(t: seq<Account<K>>, k: nat)
    requires k <= |t|
    requires forall i :: 0 <= i < k ==> t[i].balance > CENT
    requires forall i :: k <= i < |t| ==> t[i].balance < -CENT
    ensures Creditors(t) == t[..k]
    ensures |Debtors(t)| == |t| - k
    ensures forall i :: 0 <= i < |t| - k ==> Debtors(t)[i] == Negated(t[k + i])
  {
    if t != [] {
      var init, a := t[..|t| - 1], t[|t| - 1];
      if k == |t| {
        CreditorsThenDebtors(init, k - 1);
        assert init[..k - 1] + [a] == t[..k];
      } else {
        CreditorsThenDebtors(init, k);
        assert init[..k] == t[..k];
        forall i | 0 <= i < |t| - k ensures Debtors(t)[i] == Negated(t[k + i]) {
          if i < |t| - 1 - k {
            assert Debtors(t)[i] == Debtors(init)[i];
          }
        }
      }
    }
  }

  /** Three parties' total. */
  lemma SumOfThree(s: seq<Account<string>>)
    requires |s| == 3
    ensures Sum(s) == s[0].balance + s[1].balance + s[2].balance
  {
    assert s[..1][..0] == [];
    assert Sum(s[..1]) == s[0].balance;
    assert s[..2][..1] == s[..1];
    assert Sum(s[..2]) == s[0].balance + s[1].balance;
    assert s[..2] == s[..|s| - 1];
  }

  /** The greedy loop on the example's creditors and debtors, step by step. */
  lemma ResidueExampleRun(cs: seq<Account<string>>, ds: seq<Account<string>>)
    requires cs == [Account("Z", "Z", 0.03), Account("A", "A", 0.05), Account("E", "E", 0.02)]
    requires ds == [Account("B", "B", 0.04), Account("C", "C", 0.03), Account("D", "D", 0.03)]
    ensures Run(Matching(cs, ds, 0, 0, []), CENT).transfers
            == [Transfer("B", "Z", 0.03), Transfer("C", "A", 0.03), Transfer("D", "E", 0.02)]
  {
    var z0, b0 := Account("Z", "Z", 0.0), Account("B", "B", 0.0);
    var t1 := Transfer("B", "Z", 0.03);
    Round2OfCents(0.03);
    var m0 := Matching(cs, ds, 0, 0, []);
    var m1 := Matching([z0, cs[1], cs[2]], [Account("B", "B", 0.01), ds[1], ds[2]], 1, 0, [t1]);
    var m2 := Matching([z0, Account("A", "A", 0.04), cs[2]], [b0, ds[1], ds[2]], 1, 1, [t1]);
    assert Step(m0, CENT) == m1;
    assert Step(m1, CENT) == m2;
    ResidueExampleRunTail(m2);
    assert Run(m1, CENT) == Run(m2, CENT);
  }

  /** The last three iterations of the example's loop: C pays A three cents, A's last cent and D's last two. */
  lemma ResidueExampleRunTail(m2: Matching<string>)
    requires m2 == Matching([Account("Z", "Z", 0.0), Account("A", "A", 0.04), Account("E", "E", 0.02)],
                            [Account("B", "B", 0.0), Account("C", "C", 0.03), Account("D", "D", 0.03)],
                            1, 1, [Transfer("B", "Z", 0.03)])
    ensures Run(m2, CENT).transfers == [Transfer("B", "Z", 0.03), Transfer("C", "A", 0.03), Transfer("D", "E", 0.02)]
  {
    var z0, a0, e0 := Account("Z", "Z", 0.0), Account("A", "A", 0.0), Account("E", "E", 0.0);
    var b0, c0, d0 := Account("B", "B", 0.0), Account("C", "C", 0.0), Account("D", "D", 0.0);
    var t1, t2, t3 := Transfer("B", "Z", 0.03), Transfer("C", "A", 0.03), Transfer("D", "E", 0.02);
    Round2OfCents(0.03);
    Round2OfCents(0.02);
    var m3 := Matching([z0, Account("A", "A", 0.01), m2.creditors[2]], [b0, c0, m2.debtors[2]], 1, 2, [t1, t2]);
    var m4 := Matching([z0, a0, m2.creditors[2]], [b0, c0, Account("D", "D", 0.02)], 2, 2, [t1, t2]);
    var m5 := Matching([z0, a0, e0], [b0, c0, d0], 3, 3, [t1, t2, t3]);
    assert Step(m2, CENT) == m3;
    assert Step(m3, CENT) == m4;
    assert Step(m4, CENT) == m5;
    assert Run(m4, CENT) == m5;
    assert Run(m3, CENT) == m5;
  }

  /** The people of the example in `SuppressedCentsLeaveResidue`. */
  const ResiduePersons: seq<TestPerson> :=
    [TestPerson("Z"), TestPerson("A"), TestPerson("E"), TestPerson("B"), TestPerson("C"), TestPerson("D")]

  /** The expenses of the example in `SuppressedCentsLeaveResidue`. */
  const ResidueExpenses: seq<TestExpense> :=
    [TestExpense(0.03, "午餐费用", "2024-01-01", "Z", ["B"]),
     TestExpense(0.01, "午餐费用", "2024-01-01", "A", ["B"]),
     TestExpense(0.03, "午餐费用", "2024-01-01", "A", ["C"]),
     TestExpense(0.01, "午餐费用", "2024-01-01", "A", ["D"]),
     TestExpense(0.02, "午餐费用", "2024-01-01", "E", ["D"])]

  /** The example's expenses as the calculator sees them. */
  lemma ResidueExampleCharges()
    ensures ChargesByName(ResidueExpenses)
            == [Charge(0.03, "Z", Some(["B"])), Charge(0.01, "A", Some(["B"])), Charge(0.03, "A", Some(["C"])),
                Charge(0.01, "A", Some(["D"])), Charge(0.02, "E", Some(["D"]))]
  {
  }

  /** The example's table, one row per (distinct) name. */
  lemma ResidueExampleRows()
    ensures TableByName(ResiduePersons, ChargesByName(ResidueExpenses))
            == RowsFor(["Z", "A", "E", "B", "C", "D"], ChargesByName(ResidueExpenses))
  {
    var names := ["Z", "A", "E", "B", "C", "D"];
    assert Names(ResiduePersons) == names;
    DedupOfDistinct(names);
    TableByNameRows(ResiduePersons, ChargesByName(ResidueExpenses));
  }

  /** The name-keyed table of the example. */
  lemma ResidueExampleTable()
    ensures TableByName(ResiduePersons, ChargesByName(ResidueExpenses))
            == [Account("Z", "Z", 0.03), Account("A", "A", 0.05), Account("E", "E", 0.02),
                Account("B", "B", -0.04), Account("C", "C", -0.03), Account("D", "D", -0.03)]
    ensures Summary("A", ChargesByName(ResidueExpenses)).balance == 0.05
  {
    ResidueExampleCharges();
    ResidueExampleBalances(ChargesByName(ResidueExpenses));
    ResidueExampleRows();
  }

  /** The example's settlement as written: total credit equals total debt, three transfers. */
  lemma ResidueExampleSettlement()
    ensures var t := TableByName(ResiduePersons, ChargesByName(ResidueExpenses));
            Sum(Creditors(t)) == Sum(Debtors(t)) == 0.10
    ensures SettlementByName(ResiduePersons, ResidueExpenses)
            == [Transfer("B", "Z", 0.03), Transfer("C", "A", 0.03), Transfer("D", "E", 0.02)]
  {
    var t := TableByName(ResiduePersons, ChargesByName(ResidueExpenses));
    ResidueExampleTable();
    ResidueExamplePartition(t);
    SumOfThree(Creditors(t));
    SumOfThree(Debtors(t));
    ResidueExampleRun(Creditors(t), Debtors(t));
  }

  /** What the example's transfers move to and from A. */
  lemma ResidueExampleLedger()
    ensures var ts := [Transfer("B", "Z", 0.03), Transfer("C", "A", 0.03), Transfer("D", "E", 0.02)];
            Received(ts, "A") == 0.03 && Sent(ts, "A") == 0.0
  {
    var t1, t2, t3 := Transfer("B", "Z", 0.03), Transfer("C", "A", 0.03), Transfer("D", "E", 0.02);
    var e: seq<Transfer> := [];
    assert [t1][..0] == e && [t1, t2][..1] == [t1] && [t1, t2, t3][..2] == [t1, t2];
    assert Received(e, "A") == 0.0 && Sent(e, "A") == 0.0;
    assert t1.from != "A" && t1.to != "A";
    assert Received([t1], "A") == 0.0 && Sent([t1], "A") == 0.0;
    assert Received([t1, t2], "A") == 0.03 && Sent([t1, t2], "A") == 0.0;
  }

  /**
   * As written, the loop deducts a move of exactly one cent from both
   * parties without recording it. Here total credit equals total debt (0.10),
   * yet after the three recorded transfers A is still owed 0.02: it was
   * debited twice by unrecorded one-cent moves. The report's check fails, and
   * A's residue exceeds even the calculator's own one-cent tolerance. This
   * holds in exact arithmetic; money here is exact, not a double.
   */
  lemma SuppressedCentsLeaveResidue()
    ensures var t := TableByName(ResiduePersons, ChargesByName(ResidueExpenses));
            Sum(Creditors(t)) == Sum(Debtors(t))
    ensures PostBalance(ResiduePersons, ResidueExpenses, "A") == 0.02
    ensures !SettlementCheckPasses(ResiduePersons, ResidueExpenses)
  {
    ResidueExampleSettlement();
    ResidueExampleTable();
    ResidueExampleLedger();
    assert ResiduePersons[1].name == "A";
  }

  /** The people of the example in `DeadZoneFailsSettlementCheck`. */
  const DeadZonePersons: seq<TestPerson> := [TestPerson("A"), TestPerson("B")]

  /** The expenses of the example in `DeadZoneFailsSettlementCheck`. */
  const DeadZoneExpenses: seq<TestExpense> :=
    [TestExpense(10.02, "午餐费用", "2024-01-01", "A", ["A", "B"]),
     TestExpense(10.0, "晚餐费用", "2024-01-01", "B", ["A", "B"])]

  /** One person's balance in the dead-zone example, from the parts of the two expenses. */
  lemma DeadZoneExampleBalance(key: string, paid: real, share: real)
    requires var cs := ChargesByName(DeadZoneExpenses);
             paid == PaidPart(key, cs[0]) + PaidPart(key, cs[1]) && share == SharePart(key, cs[0]) + SharePart(key, cs[1])
    requires IsCents(paid - share)
    ensures Summary(key, ChargesByName(DeadZoneExpenses)).balance == paid - share
  {
    var cs := ChargesByName(DeadZoneExpenses);
    var e: seq<Charge<string>> := [];
    SumsSnoc(key, e, cs[0]);
    SumsSnoc(key, [cs[0]], cs[1]);
    assert e + [cs[0]] == [cs[0]] && [cs[0]] + [cs[1]] == cs;
    Round2OfCents(paid - share);
  }

  /** The balances of the dead-zone example: one cent each way. */
  lemma DeadZoneExampleBalances()
    ensures Summary("A", ChargesByName(DeadZoneExpenses)).balance == 0.01
    ensures Summary("B", ChargesByName(DeadZoneExpenses)).balance == -0.01
  {
    var cs := ChargesByName(DeadZoneExpenses);
    assert cs == [Charge(10.02, "A", Some(["A", "B"])), Charge(10.0, "B", Some(["A", "B"]))];
    assert SharePart("A", cs[0]) == 5.01 && SharePart("A", cs[1]) == 5.0;
    assert SharePart("B", cs[0]) == 5.01 && SharePart("B", cs[1]) == 5.0;
    DeadZoneExampleBalance("A", 10.02, 10.01);
    DeadZoneExampleBalance("B", 10.0, 10.01);
  }

  /** The dead-zone example's table has no creditors and no debtors. */
  lemma DeadZoneExampleTable()
    ensures var t := TableByName(DeadZonePersons, ChargesByName(DeadZoneExpenses));
            t == [Account("A", "A", 0.01), Account("B", "B", -0.01)] && Creditors(t) == [] && Debtors(t) == []
  {
    var cs := ChargesByName(DeadZoneExpenses);
    var names := ["A", "B"];
    assert Names(DeadZonePersons) == names;
    DeadZoneExampleBalances();
    DedupOfDistinct(names);
    TableByNameRows(DeadZonePersons, cs);
    var t := TableByName(DeadZonePersons, cs);
    assert t == [Account("A", "A", 0.01), Account("B", "B", -0.01)];
    var none: seq<Account<string>> := [];
    PartitionSnoc(none, t[0]);
    PartitionSnoc([t[0]], t[1]);
    assert none + [t[0]] == [t[0]] && [t[0]] + [t[1]] == t;
  }

  /**
   * As written, the report's check demands less than one cent while the
   * calculator treats balances of exactly one cent as settled: A and B end
   * at +0.01 and -0.01, no transfer is made, and the check fails on data of
   * the form the generator promises.
   */
  lemma DeadZoneFailsSettlementCheck()
    ensures WellFormed(DeadZonePersons, DeadZoneExpenses)
    ensures SettlementByName(DeadZonePersons, DeadZoneExpenses) == []
    ensures !SettlementCheckPasses(DeadZonePersons, DeadZoneExpenses)
    ensures CorrectedSettlementCheckPasses(DeadZonePersons, DeadZoneExpenses)
  {
    DeadZoneWellFormed();
    DeadZoneSettlement();
    FullEmissionPassesCorrectedCheck(DeadZonePersons, DeadZoneExpenses);
    DeadZoneResidue();
    assert DeadZonePersons[0].name == "A";
  }

  lemma DeadZoneWellFormed()
    ensures WellFormed(DeadZonePersons, DeadZoneExpenses)
  {
    assert Names(DeadZonePersons) == ["A", "B"];
  }

  /** No transfer is made in the dead-zone example, and credit equals debt (both are empty). */
  lemma DeadZoneSettlement()
    ensures var t := TableByName(DeadZonePersons, ChargesByName(DeadZoneExpenses));
            SettlementByName(DeadZonePersons, DeadZoneExpenses) == [] && Sum(Creditors(t)) == Sum(Debtors(t))
  {
    DeadZoneExampleTable();
  }

  /** With no transfer, A keeps its cent. */
  lemma DeadZoneResidue()
    ensures PostBalance(DeadZonePersons, DeadZoneExpenses, "A") == 0.01
  {
    DeadZoneSettlement();
    DeadZoneExampleBalances();
  }
}
