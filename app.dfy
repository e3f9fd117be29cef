/**
 * The application's state: the list of people, the list of expenses and the
 * next person id, with the operations the screens call and the spreadsheet
 * import that resolves names to ids.
 */
module App {
  import opened Records
  import opened Calculator
  import opened TableFacts
  import ExcelImport

  /** The fields the expense forms hand over: all but the id and the timestamp. */
  datatype ExpenseDraft = ExpenseDraft(
    amount: real,
    description: string,
    payerId: int,
    participants: seq<int>,
    date: string,
    time: string)

  /** The expense refers only to people in the list. */
  ghost predicate Resolves(persons: seq<Person>, e: Expense)
  {
    e.payerId in Ids(persons) && forall k :: 0 <= k < |e.participants| ==> e.participants[k] in Ids(persons)
  }

  ghost predicate AllResolve(persons: seq<Person>, expenses: seq<Expense>)
  {
    forall k :: 0 <= k < |expenses| ==> Resolves(persons, expenses[k])
  }

  /** An expense that resolves against some people resolves against more. */
  lemma ResolvesInMore(persons: seq<Person>, more: seq<Person>, e: Expense)
    requires Resolves(persons, e)
    ensures Resolves(persons + more, e)
  {
    assert Ids(persons) <= Ids(persons + more) by {
      forall x | x in Ids(persons) ensures x in Ids(persons + more) {
        var p :| p in persons && p.id == x;
        assert p in persons + more;
      }
    }
  }

  // ---------------------------------------------------------------------------
  // People
  // ---------------------------------------------------------------------------

  /** `persons.map(person => person.id === id ? { ...person, name } : person)` */
  function Renamed(persons: seq<Person>, id: int, name: string): (r: seq<Person>)
    ensures |r| == |persons|
    ensures forall k :: 0 <= k < |r| ==> r[k].id == persons[k].id
    ensures forall k :: 0 <= k < |r| ==> r[k].name == if persons[k].id == id then name else persons[k].name
  {
    if persons == [] then []
    else
      var p := persons[|persons| - 1];
      Renamed(persons[..|persons| - 1], id, name) + [if p.id == id then Person(p.id, name) else p]
  }

  /** Renaming keeps every id where it was, so the set of ids is unchanged. */
  lemma RenamedKeepsIds(persons: seq<Person>, id: int, name: string)
    ensures Ids(Renamed(persons, id, name)) == Ids(persons)
  {
    var r := Renamed(persons, id, name);
    forall x | x in Ids(persons) ensures x in Ids(r) {
      var p :| p in persons && p.id == x;
      var k :| 0 <= k < |persons| && persons[k] == p;
      assert r[k] in r;
    }
    forall x | x in Ids(r) ensures x in Ids(persons) {
      var p :| p in r && p.id == x;
      var k :| 0 <= k < |r| && r[k] == p;
      assert persons[k] in persons;
    }
  }

  /** `persons.filter(person => person.id !== id)` */
  function WithoutPerson(persons: seq<Person>, id: int): (r: seq<Person>)
    ensures |r| <= |persons|
    ensures forall p :: p in r <==> p in persons && p.id != id
  {
    if persons == [] then []
    else
      var p := persons[|persons| - 1];
      WithoutPerson(persons[..|persons| - 1], id) + if p.id != id then [p] else []
  }

  /** Removing people keeps the remaining ids increasing. */
  lemma {:induction false} WithoutPersonKeepsOrder(persons: seq<Person>, id: int)
    requires IncreasingIds(persons)
    ensures IncreasingIds(WithoutPerson(persons, id))
  {
    if persons != [] {
      var init, p := persons[..|persons| - 1], persons[|persons| - 1];
      WithoutPersonKeepsOrder(init, id);
      var r := WithoutPerson(init, id);
      forall k | 0 <= k < |r| ensures r[k].id < p.id {
        assert r[k] in r;
        var q :| 0 <= q < |init| && init[q] == r[k];
      }
    }
  }

  /** `expenses.filter(expense => expense.payerId !== id && !expense.participants.includes(id))` */
  function WithoutPersonsExpenses(expenses: seq<Expense>, id: int): (r: seq<Expense>)
    ensures |r| <= |expenses|
    ensures forall e :: e in r <==> e in expenses && e.payerId != id && id !in e.participants
  {
    if expenses == [] then []
    else
      var e := expenses[|expenses| - 1];
      WithoutPersonsExpenses(expenses[..|expenses| - 1], id) + if e.payerId != id && id !in e.participants then [e] else []
  }

  /**
   * The filter distributes over a split of the list: the kept expenses keep
   * their relative order and each appears as often as in the input. With the
   * membership contract on one-element lists this pins the result.
   */
  lemma {:induction false} WithoutPersonsExpensesAppend(a: seq<Expense>, b: seq<Expense>, id: int)
    ensures WithoutPersonsExpenses(a + b, id) == WithoutPersonsExpenses(a, id) + WithoutPersonsExpenses(b, id)
  {
    if b == [] {
      assert a + b == a;
    } else {
      var init := b[..|b| - 1];
      assert (a + b)[..|a + b| - 1] == a + init && (a + b)[|a + b| - 1] == b[|b| - 1];
      WithoutPersonsExpensesAppend(a, init, id);
    }
  }

  /**
   * Deleting a person together with every expense that names them leaves
   * every remaining expense referring only to remaining people.
   */
  lemma DeleteKeepsReferences(persons: seq<Person>, expenses: seq<Expense>, id: int)
    requires AllResolve(persons, expenses)
    ensures AllResolve(WithoutPerson(persons, id), WithoutPersonsExpenses(expenses, id))
  {
    var ps, es := WithoutPerson(persons, id), WithoutPersonsExpenses(expenses, id);
    forall k | 0 <= k < |es| ensures Resolves(ps, es[k]) {
      var e := es[k];
      assert e in es;
      var q :| 0 <= q < |expenses| && expenses[q] == e;
      assert Resolves(persons, e);
      var payer :| payer in persons && payer.id == e.payerId;
      assert payer in ps;
      forall j | 0 <= j < |e.participants| ensures e.participants[j] in Ids(ps) {
        var x := e.participants[j];
        assert x in Ids(persons);
        var p :| p in persons && p.id == x;
        assert x != id by { assert x in e.participants; }
        assert p in ps;
      }
    }
  }

  // ---------------------------------------------------------------------------
  // Expenses
  // ---------------------------------------------------------------------------

  /** `{ ...expense, ...updatedExpense }`: the form's fields win; id and timestamp stay. */
  function Patched(e: Expense, d: ExpenseDraft): (r: Expense)
    ensures r.id == e.id && r.timestamp == e.timestamp
    ensures r.amount == d.amount && r.payerId == d.payerId && r.participants == d.participants
    ensures r.description == d.description && r.date == d.date && r.time == d.time
  {
    Expense(e.id, d.amount, d.description, d.payerId, d.participants, d.date, d.time, e.timestamp)
  }

  /** `expenses.map(expense => expense.id === id ? { ...expense, ...updatedExpense } : expense)` */
  function PatchedAll(expenses: seq<Expense>, id: ExpenseId, d: ExpenseDraft): (r: seq<Expense>)
    ensures |r| == |expenses|
    ensures forall k :: 0 <= k < |r| ==> r[k] == if expenses[k].id == id then Patched(expenses[k], d) else expenses[k]
  {
    if expenses == [] then []
    else
      var e := expenses[|expenses| - 1];
      PatchedAll(expenses[..|expenses| - 1], id, d) + [if e.id == id then Patched(e, d) else e]
  }

  /** `expenses.filter(expense => expense.id !== id)` */
  function WithoutExpense(expenses: seq<Expense>, id: ExpenseId): (r: seq<Expense>)
    ensures |r| <= |expenses|
    ensures forall e :: e in r <==> e in expenses && e.id != id
  {
    if expenses == [] then []
    else
      var e := expenses[|expenses| - 1];
      WithoutExpense(expenses[..|expenses| - 1], id) + if e.id != id then [e] else []
  }

  /** Deleting an expense keeps the others in their order: the filter distributes over a split of the list. */
  lemma {:induction false} WithoutExpenseAppend(a: seq<Expense>, b: seq<Expense>, id: ExpenseId)
    ensures WithoutExpense(a + b, id) == WithoutExpense(a, id) + WithoutExpense(b, id)
  {
    if b == [] {
      assert a + b == a;
    } else {
      var init := b[..|b| - 1];
      assert (a + b)[..|a + b| - 1] == a + init && (a + b)[|a + b| - 1] == b[|b| - 1];
      WithoutExpenseAppend(a, init, id);
    }
  }

  // ---------------------------------------------------------------------------
  // Import
  // ---------------------------------------------------------------------------

  /** `Math.max(...persons.map(p => p.id), 0)` */
  function MaxId(persons: seq<Person>): (m: int)
    ensures m >= 0
    ensures forall k :: 0 <= k < |persons| ==> persons[k].id <= m
    ensures m == 0 || exists k :: 0 <= k < |persons| && persons[k].id == m
  {
    if persons == [] then 0
    else
      var m := MaxId(persons[..|persons| - 1]);
      var p := persons[|persons| - 1];
      if p.id > m then p.id else m
  }

  /** `data.persons.map((person, index) => ({ id: maxId + index + 1, name: person.name }))` */
  function NewPersons(imported: seq<ExcelImport.ImportedPerson>, maxId: int): (r: seq<Person>)
    ensures |r| == |imported|
    ensures forall k :: 0 <= k < |r| ==> r[k] == Person(maxId + k + 1, imported[k].name)
  {
    if imported == [] then []
    else NewPersons(imported[..|imported| - 1], maxId) + [Person(maxId + |imported|, imported[|imported| - 1].name)]
  }

  /** `persons.find(p => p.name === name)`: the first person with that name. */
  function FindByName(persons: seq<Person>, name: string): (r: Option<Person>)
    ensures r.None? <==> forall k :: 0 <= k < |persons| ==> persons[k].name != name
    ensures r.Some? ==> exists k :: 0 <= k < |persons| && persons[k] == r.value && r.value.name == name &&
                                    forall j :: 0 <= j < k ==> persons[j].name != name
  {
    if persons == [] then None
    else if persons[0].name == name then Some(persons[0])
    else
      var r := FindByName(persons[1..], name);
      assert r.Some? ==> exists k :: 1 <= k < |persons| && persons[k] == r.value && r.value.name == name &&
                                     forall j :: 0 <= j < k ==> persons[j].name != name by {
        if r.Some? {
          var k :| 0 <= k < |persons| - 1 && persons[1..][k] == r.value && r.value.name == name &&
                   forall j :: 0 <= j < k ==> persons[1..][j].name != name;
          forall j | 0 <= j < k + 1 ensures persons[j].name != name {
            if j > 0 { assert persons[j] == persons[1..][j - 1]; }
          }
        }
      }
      r
  }

  /**
   * Name lookup over the people already there followed by the imported
   * ones: a name held by someone already there resolves to them, so an
   * imported namesake never receives the expense.
   */
  lemma {:induction false} FindByNamePrefersEarlier(persons: seq<Person>, more: seq<Person>, name: string)
    ensures FindByName(persons, name).Some? ==> FindByName(persons + more, name) == FindByName(persons, name)
    ensures FindByName(persons, name).None? ==> FindByName(persons + more, name) == FindByName(more, name)
  {
    if persons == [] {
      assert persons + more == more;
    } else {
      FindByNamePrefersEarlier(persons[1..], more, name);
      assert (persons + more)[0] == persons[0] && (persons + more)[1..] == persons[1..] + more;
    }
  }

  /** The participant loop: the ids of the names that resolve, in the order of the names. */
  function ResolveNames(persons: seq<Person>, names: seq<string>): (ids: seq<int>)
    ensures |ids| <= |names|
    ensures forall k :: 0 <= k < |ids| ==> ids[k] in Ids(persons)
  {
    if names == [] then []
    else
      var q := FindByName(persons, names[|names| - 1]);
      assert q.Some? ==> q.value.id in Ids(persons) by {
        if q.Some? {
          var k :| 0 <= k < |persons| && persons[k] == q.value;
          assert persons[k] in persons;
        }
      }
      ResolveNames(persons, names[..|names| - 1]) + if q.Some? then [q.value.id] else []
  }

  /**
   * Resolving two runs of names gives the ids of each, in order: one id per
   * name that resolves, so a name listed twice contributes its id twice.
   */
  lemma {:induction false} ResolveNamesAppend(persons: seq<Person>, a: seq<string>, b: seq<string>)
    ensures ResolveNames(persons, a + b) == ResolveNames(persons, a) + ResolveNames(persons, b)
  {
    if b == [] {
      assert a + b == a;
    } else {
      var init := b[..|b| - 1];
      assert (a + b)[..|a + b| - 1] == a + init && (a + b)[|a + b| - 1] == b[|b| - 1];
      ResolveNamesAppend(persons, a, init);
    }
  }

  /** The name's first holder has this id. */
  predicate ResolvesTo(persons: seq<Person>, name: string, id: int)
  {
    FindByName(persons, name).Some? && FindByName(persons, name).value.id == id
  }

  /** An id is among the participants iff it belongs to the first person holding one of the names. */
  lemma {:induction false} ResolveNamesMembers(persons: seq<Person>, names: seq<string>, id: int)
    ensures id in ResolveNames(persons, names) <==> exists k :: 0 <= k < |names| && ResolvesTo(persons, names[k], id)
  {
    if names != [] {
      var init, last := names[..|names| - 1], names[|names| - 1];
      ResolveNamesMembers(persons, init, id);
      var q := FindByName(persons, last);
      var head := if q.Some? then [q.value.id] else [];
      assert ResolveNames(persons, names) == ResolveNames(persons, init) + head;
      assert id in ResolveNames(persons, names) <==> id in ResolveNames(persons, init) || id in head;
      assert id in head <==> ResolvesTo(persons, last, id);
      if exists k :: 0 <= k < |names| && ResolvesTo(persons, names[k], id) {
        var k :| 0 <= k < |names| && ResolvesTo(persons, names[k], id);
        if k < |init| { assert init[k] == names[k]; }
      }
      if exists k :: 0 <= k < |init| && ResolvesTo(persons, init[k], id) {
        var k :| 0 <= k < |init| && ResolvesTo(persons, init[k], id);
        assert names[k] == init[k];
      }
    }
  }

  /**
   * One imported expense: skipped when the payer's name resolves to nobody
   * or none of the participant names resolves; otherwise it refers to the
   * first person with each name and is stamped at noon of its date.
   */
  function ResolveExpense(persons: seq<Person>, e: ExcelImport.ImportedExpense, id: ExpenseId, stamp: string -> string): (r: Option<Expense>)
    ensures r.None? <==> FindByName(persons, e.payerName).None? || ResolveNames(persons, e.participantNames) == []
    ensures r.Some? ==> Resolves(persons, r.value)
    ensures r.Some? ==> r.value.payerId == FindByName(persons, e.payerName).value.id
    ensures r.Some? ==> r.value.amount == e.amount && r.value.description == e.description && r.value.date == e.date
    ensures r.Some? ==> r.value.time == "12:00:00"
    ensures r.Some? ==> r.value.id == id && r.value.timestamp == stamp(e.date)
    ensures r.Some? ==> r.value.participants == ResolveNames(persons, e.participantNames)
  {
    var payer := FindByName(persons, e.payerName);
    var ids := ResolveNames(persons, e.participantNames);
    if payer.None? || ids == [] then None
    else
      assert payer.value.id in Ids(persons) by {
        var k :| 0 <= k < |persons| && persons[k] == payer.value;
        assert persons[k] in persons;
      }
      Some(Expense(id, e.amount, e.description, payer.value.id, ids, e.date, "12:00:00", stamp(e.date)))
  }

  /** The valid imported expenses in input order; the k-th input row's id is `expenseId(k)`. */
  function ResolveAll(persons: seq<Person>, es: seq<ExcelImport.ImportedExpense>, expenseId: nat -> ExpenseId, stamp: string -> string): (r: seq<Expense>)
    ensures |r| <= |es|
    ensures AllResolve(persons, r)
  {
    if es == [] then []
    else
      var n := |es| - 1;
      var o := ResolveExpense(persons, es[n], expenseId(n), stamp);
      ResolveAll(persons, es[..n], expenseId, stamp) + if o.Some? then [o.value] else []
  }

  /** Each imported expense comes from the input expense at some position, resolved with that position's id. */
  lemma {:induction false} ResolveAllSource(persons: seq<Person>, es: seq<ExcelImport.ImportedExpense>, expenseId: nat -> ExpenseId,
                                           stamp: string -> string, x: Expense) returns (k: nat)
    requires x in ResolveAll(persons, es, expenseId, stamp)
    ensures k < |es| && ResolveExpense(persons, es[k], expenseId(k), stamp) == Some(x)
  {
    var n := |es| - 1;
    var init := es[..n];
    var o := ResolveExpense(persons, es[n], expenseId(n), stamp);
    if o.Some? && x == o.value {
      k := n;
    } else {
      assert x in ResolveAll(persons, init, expenseId, stamp);
      k := ResolveAllSource(persons, init, expenseId, stamp, x);
      assert init[k] == es[k];
    }
  }

  /** Every input expense that resolves is imported. */
  lemma {:induction false} ResolveAllHas(persons: seq<Person>, es: seq<ExcelImport.ImportedExpense>, expenseId: nat -> ExpenseId,
                                        stamp: string -> string, k: nat)
    requires k < |es| && ResolveExpense(persons, es[k], expenseId(k), stamp).Some?
    ensures ResolveExpense(persons, es[k], expenseId(k), stamp).value in ResolveAll(persons, es, expenseId, stamp)
  {
    var n := |es| - 1;
    if k < n {
      var init := es[..n];
      assert init[k] == es[k];
      ResolveAllHas(persons, init, expenseId, stamp, k);
    }
  }

  /** An expense is imported iff some input expense, resolved with its position's id, gives it. */
  lemma ResolveAllMembers(persons: seq<Person>, es: seq<ExcelImport.ImportedExpense>, expenseId: nat -> ExpenseId,
                          stamp: string -> string, x: Expense)
    ensures x in ResolveAll(persons, es, expenseId, stamp) <==>
              exists k :: 0 <= k < |es| && ResolveExpense(persons, es[k], expenseId(k), stamp) == Some(x)
  {
    if x in ResolveAll(persons, es, expenseId, stamp) {
      var k := ResolveAllSource(persons, es, expenseId, stamp, x);
    }
    if exists k :: 0 <= k < |es| && ResolveExpense(persons, es[k], expenseId(k), stamp) == Some(x) {
      var k :| 0 <= k < |es| && ResolveExpense(persons, es[k], expenseId(k), stamp) == Some(x);
      ResolveAllHas(persons, es, expenseId, stamp, k);
    }
  }

  /** The imported expenses keep input order: those of the first n input rows come first. */
  lemma {:induction false} ResolveAllPrefix(persons: seq<Person>, es: seq<ExcelImport.ImportedExpense>, expenseId: nat -> ExpenseId,
                                           stamp: string -> string, n: nat)
    requires n <= |es|
    ensures ResolveAll(persons, es[..n], expenseId, stamp) <= ResolveAll(persons, es, expenseId, stamp)
  {
    if n == |es| {
      assert es[..n] == es;
    } else {
      var init := es[..|es| - 1];
      assert init[..n] == es[..n];
      ResolveAllPrefix(persons, init, expenseId, stamp, n);
    }
  }

  /** The people an import adds, if any: ids counting up from above the largest id. */
  function ImportedPersons(persons: seq<Person>, data: ExcelImport.ImportResult): seq<Person>
  {
    if data.persons.Some? && |data.persons.value| > 0 then NewPersons(data.persons.value, MaxId(persons)) else []
  }

  /** The people an import adds get consecutive ids above every id already in use. */
  lemma ImportedIdsAreFresh(persons: seq<Person>, data: ExcelImport.ImportResult)
    ensures forall k :: 0 <= k < |ImportedPersons(persons, data)| ==>
              ImportedPersons(persons, data)[k].id == MaxId(persons) + k + 1
    ensures forall j, k :: 0 <= j < |persons| && 0 <= k < |ImportedPersons(persons, data)| ==>
              persons[j].id < ImportedPersons(persons, data)[k].id
  {
  }

  // ---------------------------------------------------------------------------
  // The state
  // ---------------------------------------------------------------------------

  /** The participant loop of the import: looks each name up and collects the ids found. */
  method ResolveParticipants(persons: seq<Person>, names: seq<string>) returns (participantIds: seq<int>)
    ensures participantIds == ResolveNames(persons, names)
  {
    participantIds := [];
    for j := 0 to |names|
      invariant participantIds == ResolveNames(persons, names[..j])
    {
      assert names[..j + 1][..j] == names[..j];
      var participant := FindByName(persons, names[j]);
      if participant.Some? {
        participantIds := participantIds + [participant.value.id];
      }
    }
    assert names[..|names|] == names;
  }

  /** The expense loop of the import: resolves each imported expense and collects the valid ones. */
  method ResolveImported(persons: seq<Person>, es: seq<ExcelImport.ImportedExpense>, expenseId: nat -> ExpenseId, stamp: string -> string)
    returns (valid: seq<Expense>)
    ensures valid == ResolveAll(persons, es, expenseId, stamp)
  {
    valid := [];
    for i := 0 to |es|
      invariant valid == ResolveAll(persons, es[..i], expenseId, stamp)
    {
      assert es[..i + 1][..i] == es[..i];
      var payer := FindByName(persons, es[i].payerName);
      if payer.None? {
        continue;
      }
      var participantIds := ResolveParticipants(persons, es[i].participantNames);
      if |participantIds| == 0 {
        continue;
      }
      valid := valid + [Expense(expenseId(i), es[i].amount, es[i].description, payer.value.id, participantIds,
                                es[i].date, "12:00:00", stamp(es[i].date))];
    }
    assert es[..|es|] == es;
  }

  class AppState {
    var persons: seq<Person>
    var expenses: seq<Expense>
    var nextPersonId: int

    /** Ids are positive, increase along the list and stay below the next id to hand out. */
    ghost predicate Valid()
      reads this
    {
      IncreasingIds(persons) && nextPersonId >= 1 &&
      forall k :: 0 <= k < |persons| ==> 1 <= persons[k].id < nextPersonId
    }

    /** Every expense refers only to people in the list. */
    ghost predicate Consistent()
      reads this
    {
      AllResolve(persons, expenses)
    }

    /** The empty lists and the first id, 1. */
    constructor()
      ensures persons == [] && expenses == [] && nextPersonId == 1
      ensures Valid() && Consistent()
    {
      persons := [];
      expenses := [];
      nextPersonId := 1;
    }

    /** `addPerson`: the next id, and the given name or else the generated one. */
    method AddPerson(name: string, generated: string)
      requires Valid()
      modifies this
      ensures persons == old(persons) + [Person(old(nextPersonId), if name != "" then name else generated)]
      ensures nextPersonId == old(nextPersonId) + 1 && expenses == old(expenses)
      ensures Valid()
      ensures old(Consistent()) ==> Consistent()
    {
      var p := Person(nextPersonId, if name != "" then name else generated);
      ghost var before := persons;
      persons := persons + [p];
      nextPersonId := nextPersonId + 1;
      forall k | 0 <= k < |expenses| && Resolves(before, expenses[k]) ensures Resolves(persons, expenses[k]) {
        ResolvesInMore(before, [p], expenses[k]);
      }
    }

    /** `updatePerson`: every person with the id takes the new name. */
    method UpdatePerson(id: int, name: string)
      requires Valid()
      modifies this
      ensures persons == Renamed(old(persons), id, name)
      ensures expenses == old(expenses) && nextPersonId == old(nextPersonId)
      ensures Valid()
      ensures old(Consistent()) ==> Consistent()
    {
      RenamedKeepsIds(persons, id, name);
      persons := Renamed(persons, id, name);
    }

    /** `deletePerson`: the person goes, and so does every expense they paid or share. */
    method DeletePerson(id: int)
      requires Valid()
      modifies this
      ensures persons == WithoutPerson(old(persons), id)
      ensures expenses == WithoutPersonsExpenses(old(expenses), id)
      ensures nextPersonId == old(nextPersonId)
      ensures forall e :: e in expenses ==> e.payerId != id && id !in e.participants
      ensures Valid()
      ensures old(Consistent()) ==> Consistent()
    {
      WithoutPersonKeepsOrder(persons, id);
      if Consistent() {
        DeleteKeepsReferences(persons, expenses, id);
      }
      ghost var before := persons;
      persons := WithoutPerson(persons, id);
      forall k | 0 <= k < |persons| ensures 1 <= persons[k].id < nextPersonId {
        assert persons[k] in persons;
        var q :| 0 <= q < |before| && before[q] == persons[k];
      }
      expenses := WithoutPersonsExpenses(expenses, id);
    }

    /**
     * `addExpense`: the form's fields with the clock reading `now` as id; the
     * timestamp is computed from the date and time outside the model.
     */
    method AddExpense(d: ExpenseDraft, now: ExpenseId, timestamp: string)
      modifies this
      ensures expenses == old(expenses) + [Expense(now, d.amount, d.description, d.payerId, d.participants, d.date, d.time, timestamp)]
      ensures persons == old(persons) && nextPersonId == old(nextPersonId)
      ensures old(Consistent()) && d.payerId in Ids(persons) && (forall k :: 0 <= k < |d.participants| ==> d.participants[k] in Ids(persons))
              ==> Consistent()
    {
      expenses := expenses + [Expense(now, d.amount, d.description, d.payerId, d.participants, d.date, d.time, timestamp)];
    }

    /** `updateExpense`: every expense with the id takes the form's fields. */
    method UpdateExpense(id: ExpenseId, d: ExpenseDraft)
      modifies this
      ensures expenses == PatchedAll(old(expenses), id, d)
      ensures persons == old(persons) && nextPersonId == old(nextPersonId)
      ensures old(Consistent()) && d.payerId in Ids(persons) && (forall k :: 0 <= k < |d.participants| ==> d.participants[k] in Ids(persons))
              ==> Consistent()
    {
      expenses := PatchedAll(expenses, id, d);
    }

    /** `deleteExpense`: every expense with the id goes. */
    method DeleteExpense(id: ExpenseId)
      modifies this
      ensures expenses == WithoutExpense(old(expenses), id)
      ensures persons == old(persons) && nextPersonId == old(nextPersonId)
      ensures old(Consistent()) ==> Consistent()
    {
      ghost var before := expenses;
      expenses := WithoutExpense(expenses, id);
      forall k | 0 <= k < |expenses| ensures expenses[k] in before {
        assert expenses[k] in expenses;
      }
    }

    /**
     * `handleExcelImport`: imported people are appended with new ids and
     * the next id moves past them; imported expenses whose names resolve
     * against the people already there and the new ones are appended after
     * the existing expenses; nothing already there changes.
     */
    method ImportData(data: ExcelImport.ImportResult, expenseId: nat -> ExpenseId, stamp: string -> string)
      requires Valid()
      modifies this
      ensures persons == old(persons) + ImportedPersons(old(persons), data)
      ensures nextPersonId == if ImportedPersons(old(persons), data) == [] then old(nextPersonId)
                              else MaxId(old(persons)) + |ImportedPersons(old(persons), data)| + 1
      ensures expenses == old(expenses) + if data.expenses.Some? then ResolveAll(persons, data.expenses.value, expenseId, stamp) else []
      ensures Valid()
      ensures old(Consistent()) ==> Consistent()
    {
      var imported := persons;
      ghost var before := persons;
      if data.persons.Some? && |data.persons.value| > 0 {
        var maxId := MaxId(persons);
        var added := NewPersons(data.persons.value, maxId);
        imported := persons + added;
        persons := imported;
        nextPersonId := maxId + |added| + 1;
        forall p, q | 0 <= p < q < |persons| ensures persons[p].id < persons[q].id {
          if q >= |before| && p < |before| {
            assert persons[q] == added[q - |before|];
          }
        }
      }
      assert persons == before + ImportedPersons(before, data);
      ghost var oldExpenses := expenses;
      if data.expenses.Some? && |data.expenses.value| > 0 {
        var valid := ResolveImported(imported, data.expenses.value, expenseId, stamp);
        if |valid| > 0 {
          expenses := expenses + valid;
        }
      }
      assert expenses == oldExpenses + if data.expenses.Some? then ResolveAll(persons, data.expenses.value, expenseId, stamp) else [];
      forall k | 0 <= k < |oldExpenses| && Resolves(before, oldExpenses[k]) ensures Resolves(persons, oldExpenses[k]) {
        ResolvesInMore(before, ImportedPersons(before, data), oldExpenses[k]);
      }
    }

    /** The settlement shown on screen: `calculateSettlement(persons, expenses)`. */
    method Settlement() returns (settlements: seq<Transfer>)
      ensures settlements == SettlementById(persons, expenses)
    {
      settlements := CalculateSettlement(persons, expenses);
    }
  }

  /**
   * In a valid state the calculator's balances table lists the people in the
   * order they were added, each under their own id and current name.
   */
  lemma ValidStateTable(persons: seq<Person>, expenses: seq<Expense>)
    requires IncreasingIds(persons)
    ensures |TableById(persons, ChargesOf(expenses))| == |persons|
    ensures forall k :: 0 <= k < |persons| ==>
              TableById(persons, ChargesOf(expenses))[k] ==
              Account(persons[k].id, persons[k].name, Summary(persons[k].id, ChargesOf(expenses)).balance)
  {
    TableFollowsIncreasingIds(persons, ChargesOf(expenses));
  }
}
