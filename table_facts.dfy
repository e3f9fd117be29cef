/**
 * The balances table that `calculateSettlement` builds as a JavaScript object:
 * keyed by integer ids it lists its rows in ascending id order, one per id,
 * with the last person seen for an id; keyed by names it lists them in
 * first-insertion order.
 */
module TableFacts {
  import opened Records
  import opened Calculator

  ghost predicate StrictlyIncreasingKeys(t: seq<Account<int>>)
  {
    forall p, q :: 0 <= p < q < |t| ==> t[p].key < t[q].key
  }

  ghost function KeysOf<K>(t: seq<Account<K>>): set<K>
  {
    set a | a in t :: a.key
  }

  ghost function Ids(persons: seq<Person>): set<int>
  {
    set p | p in persons :: p.id
  }

  /** The name of the last person in the list with this id. */
  ghost function LastName(persons: seq<Person>, id: int): (name: string)
    requires id in Ids(persons)
    ensures exists q :: 0 <= q < |persons| && persons[q].id == id && persons[q].name == name
    ensures forall q :: 0 <= q < |persons| && persons[q].id == id ==>
              (forall r :: q < r < |persons| ==> persons[r].id != id) ==> persons[q].name == name
  {
    var p := persons[|persons| - 1];
    if p.id == id then p.name
    else
      assert id in Ids(persons[..|persons| - 1]) by {
        var q :| q in persons && q.id == id;
        var k :| 0 <= k < |persons| && persons[k] == q;
        assert persons[..|persons| - 1][k] == q;
      }
      LastName(persons[..|persons| - 1], id)
  }

  /** Every row of an id-keyed table after a write is the written row or a row from before. */
  lemma {:induction false} UpsertByIdRows(t: seq<Account<int>>, a: Account<int>)
    ensures a in UpsertById(t, a)
    ensures forall x :: x in UpsertById(t, a) ==> x == a || x in t
    ensures KeysOf(UpsertById(t, a)) == KeysOf(t) + {a.key}
  {
    if t != [] && t[0].key != a.key && a.key >= t[0].key {
      UpsertByIdRows(t[1..], a);
      assert t == [t[0]] + t[1..];
      assert KeysOf(t) == {t[0].key} + KeysOf(t[1..]);
      assert KeysOf(UpsertById(t, a)) == {t[0].key} + KeysOf(UpsertById(t[1..], a));
    } else if t != [] && t[0].key == a.key {
      assert t == [t[0]] + t[1..];
      assert KeysOf(t) == {t[0].key} + KeysOf(t[1..]);
      assert KeysOf(UpsertById(t, a)) == {a.key} + KeysOf(t[1..]);
    } else if t != [] {
      assert KeysOf(UpsertById(t, a)) == {a.key} + KeysOf(t);
    }
  }

  /** Writing a row into an id-keyed table keeps it sorted with one row per key. */
  lemma {:induction false} UpsertByIdKeepsOrder(t: seq<Account<int>>, a: Account<int>)
    requires StrictlyIncreasingKeys(t)
    ensures StrictlyIncreasingKeys(UpsertById(t, a))
  {
    if t != [] && t[0].key != a.key && a.key >= t[0].key {
      var rest := t[1..];
      var r' := UpsertById(rest, a);
      UpsertByIdKeepsOrder(rest, a);
      UpsertByIdRows(rest, a);
      forall k | 0 <= k < |r'|
        ensures t[0].key < r'[k].key
      {
        assert r'[k] in r';
        if r'[k] != a {
          var q :| 0 <= q < |rest| && rest[q] == r'[k];
          assert t[q + 1] == r'[k];
        }
      }
    }
  }

  /** A row whose key is above every key of an id-keyed table goes last. */
  lemma {:induction false} UpsertByIdAboveAppends(t: seq<Account<int>>, a: Account<int>)
    requires forall k :: 0 <= k < |t| ==> t[k].key < a.key
    ensures UpsertById(t, a) == t + [a]
  {
    if t != [] {
      UpsertByIdAboveAppends(t[1..], a);
      assert t == [t[0]] + t[1..];
    }
  }

  /** In a sorted table the row with a given key is the only one. */
  lemma SortedRowByKey(t: seq<Account<int>>, a: Account<int>, k: nat)
    requires StrictlyIncreasingKeys(t) && a in t && k < |t| && t[k].key == a.key
    ensures t[k] == a
  {
    var q :| 0 <= q < |t| && t[q] == a;
    assert q == k;
  }

  /** The id-keyed table is sorted by id, one row per id, and holds exactly the people's ids. */
  lemma {:induction false} TableByIdKeys(persons: seq<Person>, cs: seq<Charge<int>>)
    ensures StrictlyIncreasingKeys(TableById(persons, cs))
    ensures KeysOf(TableById(persons, cs)) == Ids(persons)
  {
    if persons != [] {
      var init, p := persons[..|persons| - 1], persons[|persons| - 1];
      assert persons == init + [p];
      TableByIdKeys(init, cs);
      var row := Account(p.id, p.name, Summary(p.id, cs).balance);
      UpsertByIdKeepsOrder(TableById(init, cs), row);
      UpsertByIdRows(TableById(init, cs), row);
      assert Ids(persons) == Ids(init) + {p.id};
    }
  }

  /**
   * Each row of the id-keyed table carries the name of the last person with
   * that id and that id's summary balance.
   */
  lemma {:induction false} TableByIdRows(persons: seq<Person>, cs: seq<Charge<int>>)
    ensures forall k :: 0 <= k < |TableById(persons, cs)| ==>
              var a := TableById(persons, cs)[k];
              a.key in Ids(persons) && a.name == LastName(persons, a.key) && a.balance == Summary(a.key, cs).balance
  {
    if persons != [] {
      var init, p := persons[..|persons| - 1], persons[|persons| - 1];
      assert persons == init + [p];
      TableByIdRows(init, cs);
      TableByIdKeys(persons, cs);
      var row := Account(p.id, p.name, Summary(p.id, cs).balance);
      var before := TableById(init, cs);
      var t := TableById(persons, cs);
      assert t == UpsertById(before, row);
      UpsertByIdRows(before, row);
      assert Ids(persons) == Ids(init) + {p.id};
      forall k | 0 <= k < |t|
        ensures t[k].key in Ids(persons) && t[k].name == LastName(persons, t[k].key)
                && t[k].balance == Summary(t[k].key, cs).balance
      {
        TableByIdRow(persons, cs, k);
      }
    }
  }

  /** One row of `TableByIdRows`, from the rows of the table before the last person. */
  lemma TableByIdRow(persons: seq<Person>, cs: seq<Charge<int>>, k: nat)
    requires persons != [] && k < |TableById(persons, cs)|
    requires StrictlyIncreasingKeys(TableById(persons, cs))
    requires var init := persons[..|persons| - 1];
             forall q :: 0 <= q < |TableById(init, cs)| ==>
               var a := TableById(init, cs)[q];
               a.key in Ids(init) && a.name == LastName(init, a.key) && a.balance == Summary(a.key, cs).balance
    ensures var a := TableById(persons, cs)[k];
            a.key in Ids(persons) && a.name == LastName(persons, a.key) && a.balance == Summary(a.key, cs).balance
  {
    var init, p := persons[..|persons| - 1], persons[|persons| - 1];
    var row := Account(p.id, p.name, Summary(p.id, cs).balance);
    var before := TableById(init, cs);
    var t := TableById(persons, cs);
    assert t == UpsertById(before, row);
    UpsertByIdRows(before, row);
    assert t[k] in t;
    if t[k].key == p.id {
      SortedRowByKey(t, row, k);
      assert p in persons;
    } else {
      assert t[k] in before;
      var q :| 0 <= q < |before| && before[q] == t[k];
      var x :| x in init && x.id == t[k].key;
      assert x in persons;
      assert LastName(persons, t[k].key) == LastName(init, t[k].key);
    }
  }

  ghost predicate IncreasingIds(persons: seq<Person>)
  {
    forall p, q :: 0 <= p < q < |persons| ==> persons[p].id < persons[q].id
  }

  /**
   * When ids increase along the list, as the application keeps them, the
   * table lists the people in their own order, each with their own name.
   */
  lemma {:induction false} TableFollowsIncreasingIds(persons: seq<Person>, cs: seq<Charge<int>>)
    requires IncreasingIds(persons)
    ensures |TableById(persons, cs)| == |persons|
    ensures forall k :: 0 <= k < |persons| ==>
              TableById(persons, cs)[k] == Account(persons[k].id, persons[k].name, Summary(persons[k].id, cs).balance)
  {
    if persons != [] {
      var init, p := persons[..|persons| - 1], persons[|persons| - 1];
      TableFollowsIncreasingIds(init, cs);
      UpsertByIdAboveAppends(TableById(init, cs), Account(p.id, p.name, Summary(p.id, cs).balance));
    }
  }

  /**
   * Creditors and debtors come out of a table in ascending id order, as
   * `Object.entries` lists the integer keys; no party's id exceeds the last row's.
   */
  lemma {:induction false} PartitionKeepsKeyOrder(t: seq<Account<int>>)
    requires StrictlyIncreasingKeys(t)
    ensures StrictlyIncreasingKeys(Creditors(t)) && StrictlyIncreasingKeys(Debtors(t))
    ensures t != [] ==> forall p :: 0 <= p < |Creditors(t)| ==> Creditors(t)[p].key <= t[|t| - 1].key
    ensures t != [] ==> forall p :: 0 <= p < |Debtors(t)| ==> Debtors(t)[p].key <= t[|t| - 1].key
  {
    if t != [] {
      var init, a := t[..|t| - 1], t[|t| - 1];
      PartitionKeepsKeyOrder(init);
      if init != [] {
        assert init[|init| - 1].key < a.key;
      }
    }
  }

  /** The settlement visits creditors and debtors in ascending id order, whatever the order of the people. */
  lemma PartiesInIdOrder(persons: seq<Person>, cs: seq<Charge<int>>)
    ensures StrictlyIncreasingKeys(Creditors(TableById(persons, cs)))
    ensures StrictlyIncreasingKeys(Debtors(TableById(persons, cs)))
  {
    TableByIdKeys(persons, cs);
    PartitionKeepsKeyOrder(TableById(persons, cs));
  }

  ghost predicate DistinctKeys<K>(t: seq<Account<K>>)
  {
    forall p, q :: 0 <= p < q < |t| ==> t[p].key != t[q].key
  }

  /** Writing a new key into a name-keyed table appends the row. */
  lemma {:induction false} UpsertByNameAppendsNewKey<K>(t: seq<Account<K>>, a: Account<K>)
    requires forall k :: 0 <= k < |t| ==> t[k].key != a.key
    ensures UpsertByName(t, a) == t + [a]
  {
    if t != [] {
      UpsertByNameAppendsNewKey(t[1..], a);
      assert t == [t[0]] + t[1..];
    }
  }

  /** Writing an existing key into a name-keyed table overwrites its first row in place. */
  lemma {:induction false} UpsertByNameOverwrites<K>(t: seq<Account<K>>, a: Account<K>, p: nat)
    requires p < |t| && t[p].key == a.key
    requires forall k :: 0 <= k < p ==> t[k].key != a.key
    ensures UpsertByName(t, a) == t[p := a]
  {
    if p > 0 {
      UpsertByNameOverwrites(t[1..], a, p - 1);
      assert t[p := a] == [t[0]] + t[1..][p - 1 := a];
    }
  }
}
