/**
 * The settlement engine of `src/utils/calculator.js`, written once for any key
 * type: the application keys people by integer id, the test-data generator by
 * name. Each expense is seen through its `Charge`: who paid, how much, and who
 * shares it.
 */
module Calculator {
  import opened Money
  import opened Records

  /** The part of an expense the calculator reads. `shares` is `None` when the expense has no participants field. */
  datatype Charge<K> = Charge(amount: real, payer: K, shares: Option<seq<K>>)

  datatype PersonSummary = PersonSummary(totalPaid: real, totalShould: real, balance: real)

  /** A row of the balances table, and a creditor or debtor record: key, display name, balance. */
  datatype Account<K> = Account(key: K, name: string, balance: real)

  /** One settlement line: `from` (a debtor's name) pays `to` (a creditor's name). */
  datatype Transfer = Transfer(from: string, to: string, amount: real)

  // ---------------------------------------------------------------------------
  // Person summary
  // ---------------------------------------------------------------------------

  /** What one expense adds to `totalPaid` of the person with this key. */
  function PaidPart<K(==)>(key: K, c: Charge<K>): real
  {
    if c.payer == key then c.amount else 0.0
  }

  /** What one expense adds to `totalShould`: an equal share, if the person is among the participants. */
  function SharePart<K(==)>(key: K, c: Charge<K>): real
  {
    match c.shares
    case Some(ps) => if key in ps then c.amount / |ps| as real else 0.0
    case None => 0.0
  }

  /** The unrounded `totalPaid` after the `forEach` has visited `cs`. */
  function PaidSum<K(==)>(key: K, cs: seq<Charge<K>>): real
  {
    if cs == [] then 0.0 else PaidSum(key, cs[..|cs| - 1]) + PaidPart(key, cs[|cs| - 1])
  }

  /** The unrounded `totalShould` after the `forEach` has visited `cs`. */
  function ShareSum<K(==)>(key: K, cs: seq<Charge<K>>): real
  {
    if cs == [] then 0.0 else ShareSum(key, cs[..|cs| - 1]) + SharePart(key, cs[|cs| - 1])
  }

  /** The summary of the person with this key: each figure rounded once, after accumulation. */
  function Summary<K(==)>(key: K, cs: seq<Charge<K>>): PersonSummary
  {
    var paid, should := PaidSum(key, cs), ShareSum(key, cs);
    PersonSummary(Round2(paid), Round2(should), Round2(paid - should))
  }

  /** `calculatePersonSummary`: accumulate over the expenses, then round. */
  method CalculatePersonSummary<K(==)>(key: K, cs: seq<Charge<K>>) returns (s: PersonSummary)
    ensures s == Summary(key, cs)
  {
    var totalPaid, totalShould := 0.0, 0.0;
    for k := 0 to |cs|
      invariant totalPaid == PaidSum(key, cs[..k])
      invariant totalShould == ShareSum(key, cs[..k])
    {
      assert cs[..k + 1][..k] == cs[..k];
      var c := cs[k];
      if c.payer == key {
        totalPaid := totalPaid + c.amount;
      }
      if c.shares.Some? && key in c.shares.value {
        totalShould := totalShould + c.amount / |c.shares.value| as real;
      }
    }
    assert cs[..|cs|] == cs;
    s := PersonSummary(Round2(totalPaid), Round2(totalShould), Round2(totalPaid - totalShould));
  }

  // ---------------------------------------------------------------------------
  // Balances table
  // ---------------------------------------------------------------------------

  /**
   * `balances[id] = ...` on an object keyed by integer ids: an existing key is
   * overwritten in place; `Object.entries` lists integer keys in ascending
   * order, so the table is kept sorted by key. JavaScript does so only for
   * array-index keys and would list a negative id in insertion order; the
   * application hands out ids from 1 upwards (`App.AppState.Valid`), where
   * the two agree.
   */
  function UpsertById(t: seq<Account<int>>, a: Account<int>): seq<Account<int>>
  {
    if t == [] then [a]
    else if t[0].key == a.key then [a] + t[1..]
    else if a.key < t[0].key then [a] + t
    else [t[0]] + UpsertById(t[1..], a)
  }

  /**
   * `balances[name] = ...` on an object keyed by strings: an existing key is
   * overwritten in place, a new key goes last (insertion order). JavaScript
   * lists index-like strings such as "7" first, in numeric order; the names
   * the generator draws are never index-like, so the two agree there.
   */
  function UpsertByName<K(==)>(t: seq<Account<K>>, a: Account<K>): seq<Account<K>>
  {
    if t == [] then [a]
    else if t[0].key == a.key then [a] + t[1..]
    else [t[0]] + UpsertByName(t[1..], a)
  }

  function ChargeOf(e: Expense): Charge<int>
  {
    Charge(e.amount, e.payerId, Some(e.participants))
  }

  function ChargesOf(es: seq<Expense>): (cs: seq<Charge<int>>)
    ensures |cs| == |es|
    ensures forall k :: 0 <= k < |es| ==> cs[k] == ChargeOf(es[k])
  {
    if es == [] then [] else ChargesOf(es[..|es| - 1]) + [ChargeOf(es[|es| - 1])]
  }

  /** The balances table of `calculateSettlement` after the `forEach` has visited `persons`. */
  function TableById(persons: seq<Person>, cs: seq<Charge<int>>): seq<Account<int>>
  {
    if persons == [] then []
    else
      var p := persons[|persons| - 1];
      UpsertById(TableById(persons[..|persons| - 1], cs), Account(p.id, p.name, Summary(p.id, cs).balance))
  }

  // ---------------------------------------------------------------------------
  // Creditors and debtors
  // ---------------------------------------------------------------------------

  /** The table rows whose balance is above the dead zone, in table order. */
  function Creditors<K>(t: seq<Account<K>>): seq<Account<K>>
  {
    if t == [] then []
    else
      var a := t[|t| - 1];
      Creditors(t[..|t| - 1]) + if a.balance > CENT then [a] else []
  }

  /** The same party with the sign of its balance flipped: a debtor record carries what it owes. */
  function Negated<K>(a: Account<K>): Account<K>
  {
    Account(a.key, a.name, -a.balance)
  }

  /** The table rows whose balance is below the dead zone, in table order, each carrying the magnitude it owes. */
  function Debtors<K>(t: seq<Account<K>>): seq<Account<K>>
  {
    if t == [] then []
    else
      var a := t[|t| - 1];
      Debtors(t[..|t| - 1]) + if a.balance < -CENT then [Negated(a)] else []
  }

  /** The `Object.entries(balances).forEach` that fills `creditors` and `debtors`. */
  method Partition<K>(t: seq<Account<K>>) returns (creditors: seq<Account<K>>, debtors: seq<Account<K>>)
    ensures creditors == Creditors(t) && debtors == Debtors(t)
  {
    creditors, debtors := [], [];
    for k := 0 to |t|
      invariant creditors == Creditors(t[..k]) && debtors == Debtors(t[..k])
    {
      assert t[..k + 1][..k] == t[..k];
      var a := t[k];
      if a.balance > CENT {
        creditors := creditors + [a];
      } else if a.balance < -CENT {
        debtors := debtors + [Negated(a)];
      }
    }
    assert t[..|t|] == t;
  }

  // ---------------------------------------------------------------------------
  // The greedy two-cursor matcher
  // ---------------------------------------------------------------------------

  /** The state of the `while` loop: both lists with their remaining balances, the cursors and the transfers so far. */
  datatype Matching<K> = Matching(creditors: seq<Account<K>>, debtors: seq<Account<K>>, i: nat, j: nat, transfers: seq<Transfer>)

  ghost predicate InRange<K>(m: Matching<K>)
  {
    m.i <= |m.creditors| && m.j <= |m.debtors|
  }

  /** The loop condition `i < creditors.length && j < debtors.length`. */
  ghost predicate Active<K>(m: Matching<K>)
  {
    m.i < |m.creditors| && m.j < |m.debtors|
  }

  /**
   * One iteration of the loop: move the smaller remaining balance, record it
   * as a transfer when it exceeds `emitAbove`, and advance every cursor whose
   * party has less than a cent left. The program records moves above one cent
   * (`emitAbove == CENT`). At least one cursor advances.
   */
  ghost function Step<K>(m: Matching<K>, emitAbove: real): (n: Matching<K>)
    requires Active(m)
    ensures InRange(n) && |n.creditors| == |m.creditors| && |n.debtors| == |m.debtors|
    ensures m.i <= n.i <= m.i + 1 && m.j <= n.j <= m.j + 1 && m.i + m.j < n.i + n.j
  {
    var c, d := m.creditors[m.i], m.debtors[m.j];
    var amount := Min(c.balance, d.balance);
    var c', d' := c.(balance := c.balance - amount), d.(balance := d.balance - amount);
    Matching(
      m.creditors[m.i := c'],
      m.debtors[m.j := d'],
      if c'.balance < CENT then m.i + 1 else m.i,
      if d'.balance < CENT then m.j + 1 else m.j,
      if amount > emitAbove then m.transfers + [Transfer(d.name, c.name, Round2(amount))] else m.transfers)
  }

  /** The loop run to the end: it stops exactly when one of the lists is exhausted. */
  ghost function Run<K>(m: Matching<K>, emitAbove: real): (r: Matching<K>)
    requires InRange(m)
    ensures InRange(r) && !Active(r)
    ensures |r.creditors| == |m.creditors| && |r.debtors| == |m.debtors|
    ensures m.i <= r.i && m.j <= r.j
    decreases |m.creditors| - m.i + |m.debtors| - m.j
  {
    if Active(m) then Run(Step(m, emitAbove), emitAbove) else m
  }

  /** The transfers `calculateSettlement` returns for a balances table. */
  ghost function Settle<K>(t: seq<Account<K>>): seq<Transfer>
  {
    Run(Matching(Creditors(t), Debtors(t), 0, 0, []), CENT).transfers
  }

  /** One pass of the loop body on the two arrays: the state it leaves is one `Step` further. */
  method MatchOnce<K>(cr: array<Account<K>>, dr: array<Account<K>>, i: nat, j: nat, settlements: seq<Transfer>)
      returns (i': nat, j': nat, settlements': seq<Transfer>)
    requires cr != dr && i < cr.Length && j < dr.Length
    modifies cr, dr
    ensures Matching(cr[..], dr[..], i', j', settlements') == Step(Matching(old(cr[..]), old(dr[..]), i, j, settlements), CENT)
  {
    var creditor, debtor := cr[i], dr[j];
    var amount := Min(creditor.balance, debtor.balance);
    settlements' := settlements;
    if amount > CENT {
      settlements' := settlements' + [Transfer(debtor.name, creditor.name, Round2(amount))];
    }
    cr[i] := creditor.(balance := creditor.balance - amount);
    dr[j] := debtor.(balance := debtor.balance - amount);
    i', j' := i, j;
    if cr[i].balance < CENT {
      i' := i + 1;
    }
    if dr[j].balance < CENT {
      j' := j + 1;
    }
  }

  /** The matcher as the program runs it: the records' balances are decreased in place. */
  method MatchGreedy<K>(creditors: seq<Account<K>>, debtors: seq<Account<K>>) returns (settlements: seq<Transfer>)
    ensures settlements == Run(Matching(creditors, debtors, 0, 0, []), CENT).transfers
  {
    var cr := new Account<K>[|creditors|](k requires 0 <= k < |creditors| => creditors[k]);
    var dr := new Account<K>[|debtors|](k requires 0 <= k < |debtors| => debtors[k]);
    assert cr[..] == creditors && dr[..] == debtors;
    settlements := [];
    var i, j := 0, 0;
    while i < cr.Length && j < dr.Length
      invariant 0 <= i <= cr.Length && 0 <= j <= dr.Length
      invariant Run(Matching(cr[..], dr[..], i, j, settlements), CENT)
             == Run(Matching(creditors, debtors, 0, 0, []), CENT)
      decreases cr.Length - i + dr.Length - j
    {
      ghost var before := Matching(cr[..], dr[..], i, j, settlements);
      assert Run(before, CENT) == Run(Step(before, CENT), CENT);
      i, j, settlements := MatchOnce(cr, dr, i, j, settlements);
    }
  }

  /** The transfers `calculateSettlement(persons, expenses)` returns. */
  ghost function SettlementById(persons: seq<Person>, expenses: seq<Expense>): seq<Transfer>
  {
    Settle(TableById(persons, ChargesOf(expenses)))
  }

  /** `calculateSettlement` over people keyed by id. */
  method CalculateSettlement(persons: seq<Person>, expenses: seq<Expense>) returns (settlements: seq<Transfer>)
    ensures settlements == SettlementById(persons, expenses)
  {
    var cs := ChargesOf(expenses);
    var balances: seq<Account<int>> := [];
    for k := 0 to |persons|
      invariant balances == TableById(persons[..k], cs)
    {
      assert persons[..k + 1][..k] == persons[..k];
      var person := persons[k];
      var summary := CalculatePersonSummary(person.id, cs);
      balances := UpsertById(balances, Account(person.id, person.name, summary.balance));
    }
    assert persons[..|persons|] == persons;
    var creditors, debtors := Partition(balances);
    settlements := MatchGreedy(creditors, debtors);
  }
}
