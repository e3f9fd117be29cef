/**
 * The part of the spreadsheet import that turns sheet rows into people and
 * expenses: header fallbacks with JavaScript's `||`, the participant cell
 * split on commas and trimmed, and the filters that drop incomplete rows.
 * Reading the file and the workbook is not modelled; a workbook is given as
 * its sheets' rows.
 */
module ExcelImport {
  import opened Records

  /** A cell value as the sheet reader hands it over: text or a number. */
  datatype Cell = Text(text: string) | Num(num: real)

  /** One sheet row: header to cell; a header with an empty cell is absent. */
  type Row = map<string, Cell>

  /** The sheets of a workbook by name. */
  type Workbook = map<string, seq<Row>>

  /** JavaScript truthiness of a cell: a non-empty string or a non-zero number. */
  predicate Truthy(c: Cell)
  {
    match c
    case Text(s) => s != ""
    case Num(r) => r != 0.0
  }

  /** The row has a truthy cell under this header. */
  predicate Filled(row: Row, key: string)
  {
    key in row && Truthy(row[key])
  }

  // ---------------------------------------------------------------------------
  // Header fallbacks
  // ---------------------------------------------------------------------------

  /**
   * `row[k0] || row[k1] || ...`: the cell under the first header that holds a
   * truthy value, or None when every one is missing or falsy.
   */
  function Pick(row: Row, keys: seq<string>): (c: Option<Cell>)
    ensures c.None? <==> forall k :: 0 <= k < |keys| ==> !Filled(row, keys[k])
    ensures c.Some? ==> exists k :: 0 <= k < |keys| && Filled(row, keys[k]) && row[keys[k]] == c.value &&
                                    forall j :: 0 <= j < k ==> !Filled(row, keys[j])
  {
    if keys == [] then None
    else if Filled(row, keys[0]) then Some(row[keys[0]])
    else
      var c := Pick(row, keys[1..]);
      assert c.Some? ==> exists k :: 1 <= k < |keys| && Filled(row, keys[k]) && row[keys[k]] == c.value &&
                                     forall j :: 0 <= j < k ==> !Filled(row, keys[j]) by {
        if c.Some? {
          var k :| 0 <= k < |keys| - 1 && Filled(row, keys[1..][k]) && row[keys[1..][k]] == c.value &&
                   forall j :: 0 <= j < k ==> !Filled(row, keys[1..][j]);
          assert keys[k + 1] == keys[1..][k];
          forall j | 0 <= j < k + 1 ensures !Filled(row, keys[j]) {
            if j > 0 { assert keys[j] == keys[1..][j - 1]; }
          }
        }
      }
      c
  }

  /**
   * The text of a picked cell, or `fallback` when none was picked. A number
   * under a text header stays a number in the program; `render` stands for
   * how the model names it as text.
   */
  function TextOr(c: Option<Cell>, render: real -> string, fallback: string): string
  {
    match c
    case None => fallback
    case Some(Text(s)) => s
    case Some(Num(r)) => render(r)
  }

  // ---------------------------------------------------------------------------
  // Trimming
  // ---------------------------------------------------------------------------

  /** The characters `String.prototype.trim` removes: white space and line terminators. */
  predicate IsSpace(c: char)
  {
    c == '\t' || c == '\n' || c == '\U{000B}' || c == '\U{000C}' || c == '\r' || c == ' ' ||
    c == '\U{00A0}' || c == '\U{1680}' || ('\U{2000}' <= c <= '\U{200A}') ||
    c == '\U{2028}' || c == '\U{2029}' || c == '\U{202F}' || c == '\U{205F}' ||
    c == '\U{3000}' || c == '\U{FEFF}'
  }

  predicate IsTrimmed(s: string)
  {
    s == [] || (!IsSpace(s[0]) && !IsSpace(s[|s| - 1]))
  }

  /** Drops the leading white space: what remains is a suffix that starts with a non-space. */
  function TrimStart(s: string): (r: string)
    ensures |r| <= |s| && r == s[|s| - |r|..]
    ensures forall k :: 0 <= k < |s| - |r| ==> IsSpace(s[k])
    ensures r == [] || !IsSpace(r[0])
  {
    if s != [] && IsSpace(s[0]) then TrimStart(s[1..]) else s
  }

  /** Drops the trailing white space: what remains is a prefix that ends with a non-space. */
  function TrimEnd(s: string): (r: string)
    ensures |r| <= |s| && r == s[..|r|]
    ensures forall k :: |r| <= k < |s| ==> IsSpace(s[k])
    ensures r == [] || !IsSpace(r[|r| - 1])
  {
    if s != [] && IsSpace(s[|s| - 1]) then TrimEnd(s[..|s| - 1]) else s
  }

  /** `s.trim()`. */
  function Trim(s: string): (r: string)
    ensures IsTrimmed(r)
  {
    var t := TrimStart(s);
    var r := TrimEnd(t);
    assert r != [] ==> r[0] == t[0];
    r
  }

  /**
   * Trim removes only white space from the two ends: the result sits inside
   * the input with nothing but white space around it.
   */
  lemma TrimIsSlice(s: string) returns (i: nat, j: nat)
    ensures i <= j <= |s| && Trim(s) == s[i..j]
    ensures forall k :: 0 <= k < i ==> IsSpace(s[k])
    ensures forall k :: j <= k < |s| ==> IsSpace(s[k])
  {
    var t := TrimStart(s);
    var r := TrimEnd(t);
    assert Trim(s) == r;
    i := |s| - |t|;
    j := i + |r|;
    assert t == s[i..];
    assert r == t[..|r|];
    assert r == s[i..j];
    assert forall k :: 0 <= k < i ==> IsSpace(s[k]);
    assert forall k :: j <= k < |s| ==> IsSpace(s[k]) by {
      forall k | j <= k < |s| ensures IsSpace(s[k]) {
        assert s[k] == t[k - i];
      }
    }
  }

  /** A string with no white space at either end is its own trim, so trimming twice is trimming once. */
  lemma TrimOfTrimmed(s: string)
    requires IsTrimmed(s)
    ensures Trim(s) == s
  {
  }

  // ---------------------------------------------------------------------------
  // Comma lists
  // ---------------------------------------------------------------------------

  /** `s.split(',')`: the pieces between commas, at least one, none holding a comma. */
  function Split(s: string): (pieces: seq<string>)
    ensures |pieces| >= 1
    ensures forall k :: 0 <= k < |pieces| ==> ',' !in pieces[k]
  {
    if s == [] then [""]
    else
      var rest := Split(s[1..]);
      if s[0] == ',' then [""] + rest
      else [[s[0]] + rest[0]] + rest[1..]
  }

  /** `pieces.join(',')`. */
  function Join(pieces: seq<string>): string
  {
    if pieces == [] then ""
    else if |pieces| == 1 then pieces[0]
    else pieces[0] + "," + Join(pieces[1..])
  }

  /** Joining the pieces with commas gives back the string that was split. */
  lemma {:induction false} JoinSplit(s: string)
    ensures Join(Split(s)) == s
  {
    if s != [] {
      JoinSplit(s[1..]);
      var rest := Split(s[1..]);
      if s[0] == ',' {
        assert s == [','] + s[1..];
      } else if |rest| == 1 {
        assert s == [s[0]] + s[1..];
      } else {
        assert Join(rest) == rest[0] + "," + Join(rest[1..]);
        assert s == [s[0]] + s[1..];
      }
    }
  }

  /** Splitting comma-free pieces joined with commas gives back the pieces. */
  lemma {:induction false} SplitJoin(pieces: seq<string>)
    requires |pieces| >= 1
    requires forall k :: 0 <= k < |pieces| ==> ',' !in pieces[k]
    ensures Split(Join(pieces)) == pieces
  {
    if |pieces| == 1 {
      SplitCommaFree(pieces[0]);
    } else {
      SplitJoin(pieces[1..]);
      SplitAfterPrefix(pieces[0], Join(pieces[1..]));
      assert pieces[0] + "," + Join(pieces[1..]) == pieces[0] + ([','] + Join(pieces[1..]));
      assert pieces == [pieces[0]] + pieces[1..];
    }
  }

  /** A comma-free string is a single piece. */
  lemma {:induction false} SplitCommaFree(s: string)
    requires ',' !in s
    ensures Split(s) == [s]
  {
    if s != [] {
      assert s[0] != ',' by { assert s[0] in s; }
      assert ',' !in s[1..] by {
        forall k | 0 <= k < |s| - 1 ensures s[1..][k] != ',' { assert s[1..][k] == s[k + 1]; }
      }
      SplitCommaFree(s[1..]);
      assert s == [s[0]] + s[1..];
    }
  }

  /** A comma-free prefix followed by a comma becomes the first piece. */
  lemma {:induction false} SplitAfterPrefix(p: string, tail: string)
    requires ',' !in p
    ensures Split(p + ([','] + tail)) == [p] + Split(tail)
  {
    if p == [] {
      assert p + ([','] + tail) == [','] + tail;
      assert ([','] + tail)[1..] == tail;
    } else {
      assert ',' !in p[1..] by {
        forall k | 0 <= k < |p| - 1 ensures p[1..][k] != ',' { assert p[1..][k] == p[k + 1]; }
      }
      assert p[0] != ',' by { assert p[0] in p; }
      SplitAfterPrefix(p[1..], tail);
      assert (p + ([','] + tail))[1..] == p[1..] + ([','] + tail);
      assert [p[0]] + p[1..] == p;
    }
  }

  /** A name as the exporter writes it and the importer reads it back: non-empty, trimmed, comma-free. */
  predicate IsListName(n: string)
  {
    n != "" && IsTrimmed(n) && ',' !in n
  }

  /** `.map(name => name.trim())`. */
  function TrimAll(pieces: seq<string>): (ts: seq<string>)
    ensures |ts| == |pieces|
    ensures forall k :: 0 <= k < |pieces| ==> ts[k] == Trim(pieces[k])
  {
    seq(|pieces|, k requires 0 <= k < |pieces| => Trim(pieces[k]))
  }

  /** `.filter(name => name)`: the non-empty strings, in order. */
  function NonEmpty(ts: seq<string>): (names: seq<string>)
    ensures |names| <= |ts|
    ensures forall k :: 0 <= k < |names| ==> names[k] != ""
  {
    if ts == [] then []
    else (if ts[0] == "" then [] else [ts[0]]) + NonEmpty(ts[1..])
  }

  /** Where each kept string came from: the filter keeps order, so `j >= k`. */
  lemma {:induction false} NonEmptySource(ts: seq<string>, k: nat) returns (j: nat)
    requires k < |NonEmpty(ts)|
    ensures k <= j < |ts| && ts[j] == NonEmpty(ts)[k]
  {
    var head := if ts[0] == "" then [] else [ts[0]];
    var rest := NonEmpty(ts[1..]);
    assert NonEmpty(ts) == head + rest;
    if k < |head| {
      j := 0;
    } else {
      var j' := NonEmptySource(ts[1..], k - |head|);
      j := j' + 1;
      assert NonEmpty(ts)[k] == rest[k - |head|];
    }
  }

  /** The filter keeps exactly the non-empty strings. */
  lemma {:induction false} NonEmptyMembers(ts: seq<string>, n: string)
    ensures n in NonEmpty(ts) <==> n != "" && n in ts
  {
    if ts != [] {
      NonEmptyMembers(ts[1..], n);
      assert ts == [ts[0]] + ts[1..];
    }
  }

  /**
   * The filter distributes over concatenation: the non-empty strings keep
   * their order and each occurrence is kept, duplicates included.
   */
  lemma {:induction false} NonEmptyAppend(a: seq<string>, b: seq<string>)
    ensures NonEmpty(a + b) == NonEmpty(a) + NonEmpty(b)
  {
    if a == [] {
      assert a + b == b;
    } else {
      var x, a' := a[0], a[1..];
      var head := if x == "" then [] else [x];
      NonEmptyAppend(a', b);
      assert (a + b)[0] == x && (a + b)[1..] == a' + b;
      calc {
        NonEmpty(a + b);
        head + NonEmpty(a' + b);
        head + (NonEmpty(a') + NonEmpty(b));
        (head + NonEmpty(a')) + NonEmpty(b);
        NonEmpty(a) + NonEmpty(b);
      }
    }
  }

  /** A list with no empty string passes the filter unchanged. */
  lemma {:induction false} NonEmptyOfFilled(ts: seq<string>)
    requires forall k :: 0 <= k < |ts| ==> ts[k] != ""
    ensures NonEmpty(ts) == ts
  {
    if ts != [] {
      NonEmptyOfFilled(ts[1..]);
      assert ts == [ts[0]] + ts[1..];
    }
  }

  /** `.map(name => name.trim()).filter(name => name)`. */
  function TrimNonEmpty(pieces: seq<string>): (names: seq<string>)
    ensures |names| <= |pieces|
    ensures forall k :: 0 <= k < |names| ==> names[k] != "" && IsTrimmed(names[k])
  {
    var ts := TrimAll(pieces);
    var names := NonEmpty(ts);
    assert forall k :: 0 <= k < |names| ==> IsTrimmed(names[k]) by {
      forall k | 0 <= k < |names| ensures IsTrimmed(names[k]) {
        var j := NonEmptySource(ts, k);
      }
    }
    names
  }

  /** Trimming two runs of pieces trims each. */
  lemma TrimAllAppend(a: seq<string>, b: seq<string>)
    ensures TrimAll(a + b) == TrimAll(a) + TrimAll(b)
  {
    var l, ta, tb := TrimAll(a + b), TrimAll(a), TrimAll(b);
    assert |l| == |ta + tb|;
    forall k | 0 <= k < |l| ensures l[k] == (ta + tb)[k] {
      if k < |a| {
        var x := a[k];
        assert (a + b)[k] == x;
        assert l[k] == Trim(x) && ta[k] == Trim(x);
      } else {
        var x := b[k - |a|];
        assert (a + b)[k] == x;
        assert l[k] == Trim(x) && tb[k - |a|] == Trim(x);
      }
    }
    assert l == ta + tb;
  }

  /** Reading the names of two runs of pieces gives the names of each, in order, duplicates kept. */
  lemma TrimNonEmptyAppend(a: seq<string>, b: seq<string>)
    ensures TrimNonEmpty(a + b) == TrimNonEmpty(a) + TrimNonEmpty(b)
  {
    TrimAllAppend(a, b);
    NonEmptyAppend(TrimAll(a), TrimAll(b));
    assert TrimNonEmpty(a + b) == NonEmpty(TrimAll(a + b));
    assert TrimNonEmpty(a) == NonEmpty(TrimAll(a)) && TrimNonEmpty(b) == NonEmpty(TrimAll(b));
  }

  /** Trimming a comma-free string leaves it comma-free. */
  lemma TrimKeepsCommaFree(s: string)
    requires ',' !in s
    ensures ',' !in Trim(s)
  {
    var i, j := TrimIsSlice(s);
    forall k | 0 <= k < j - i ensures Trim(s)[k] != ',' {
      assert Trim(s)[k] == s[i + k];
    }
  }

  /** The names read from comma-free pieces are list names. */
  lemma TrimNonEmptyNames(pieces: seq<string>)
    requires forall k :: 0 <= k < |pieces| ==> ',' !in pieces[k]
    ensures forall k :: 0 <= k < |TrimNonEmpty(pieces)| ==> IsListName(TrimNonEmpty(pieces)[k])
  {
    var ts := TrimAll(pieces);
    var names := NonEmpty(ts);
    forall k | 0 <= k < |names| ensures IsListName(names[k]) {
      var j := NonEmptySource(ts, k);
      TrimKeepsCommaFree(pieces[j]);
    }
  }

  /** A name is read from the cell iff it is the non-empty trim of one of the comma-separated pieces. */
  lemma TrimNonEmptyMembers(pieces: seq<string>, n: string)
    ensures n in TrimNonEmpty(pieces) <==> n != "" && exists k :: 0 <= k < |pieces| && Trim(pieces[k]) == n
  {
    var ts := TrimAll(pieces);
    NonEmptyMembers(ts, n);
    if n in ts {
      var k :| 0 <= k < |ts| && ts[k] == n;
      assert Trim(pieces[k]) == n;
    }
    if exists k :: 0 <= k < |pieces| && Trim(pieces[k]) == n {
      var k :| 0 <= k < |pieces| && Trim(pieces[k]) == n;
      assert ts[k] == n;
    }
  }

  /** Pieces that already are list names survive trimming and filtering unchanged. */
  lemma TrimNonEmptyOfNames(names: seq<string>)
    requires forall k :: 0 <= k < |names| ==> IsListName(names[k])
    ensures TrimNonEmpty(names) == names
  {
    var ts := TrimAll(names);
    forall k | 0 <= k < |names| ensures ts[k] == names[k] {
      TrimOfTrimmed(names[k]);
    }
    assert ts == names;
    NonEmptyOfFilled(names);
  }

  /** The names in a participant cell's text. */
  function SplitNames(s: string): (names: seq<string>)
    ensures forall k :: 0 <= k < |names| ==> IsListName(names[k])
  {
    TrimNonEmptyNames(Split(s));
    TrimNonEmpty(Split(s))
  }

  /**
   * The text before the first comma gives the first names read, then the
   * rest follows in order: a name written twice is read twice.
   */
  lemma SplitNamesAfterPrefix(p: string, tail: string)
    requires ',' !in p
    ensures SplitNames(p + ([','] + tail)) == TrimNonEmpty([p]) + SplitNames(tail)
  {
    SplitAfterPrefix(p, tail);
    TrimNonEmptyAppend([p], Split(tail));
  }

  /**
   * Participant names written as the exporter writes them, joined with
   * commas, are read back as the same names in the same order.
   */
  lemma SplitNamesOfJoin(names: seq<string>)
    requires |names| >= 1
    requires forall k :: 0 <= k < |names| ==> IsListName(names[k])
    ensures SplitNames(Join(names)) == names
  {
    SplitJoin(names);
    TrimNonEmptyOfNames(names);
  }

  // ---------------------------------------------------------------------------
  // Rows
  // ---------------------------------------------------------------------------

  const NameKeys: seq<string> := ["姓名", "name"]
  const AmountKeys: seq<string> := ["金额", "amount"]
  const DescriptionKeys: seq<string> := ["说明", "description"]
  const PayerKeys: seq<string> := ["支付人", "payer"]
  const ParticipantKeys: seq<string> := ["分摊人", "participants"]
  const DateKeys: seq<string> := ["日期", "date"]

  const PersonSheet: string := "人员表"
  const ExpenseSheet: string := "费用表"

  datatype ImportedPerson = ImportedPerson(name: string)

  datatype ImportedExpense = ImportedExpense(
    amount: real,
    description: string,
    payerName: string,
    participantNames: seq<string>,
    date: string)

  /** `{ name: row['姓名'] || row['name'] || '' }`, kept by the filter iff a name cell was truthy. */
  function NormalizePersons(rows: seq<Row>, render: real -> string): (persons: seq<ImportedPerson>)
    ensures |persons| <= |rows|
  {
    if rows == [] then []
    else
      var c := Pick(rows[0], NameKeys);
      (if c.Some? then [ImportedPerson(TextOr(c, render, ""))] else []) + NormalizePersons(rows[1..], render)
  }

  /** The people read from consecutive runs of rows follow each other: the filter keeps row order. */
  lemma {:induction false} NormalizePersonsAppend(a: seq<Row>, b: seq<Row>, render: real -> string)
    ensures NormalizePersons(a + b, render) == NormalizePersons(a, render) + NormalizePersons(b, render)
  {
    if a != [] {
      NormalizePersonsAppend(a[1..], b, render);
      assert (a + b)[0] == a[0] && (a + b)[1..] == a[1..] + b;
    } else {
      assert a + b == b;
    }
  }

  /** A person is read iff some row has a truthy name cell whose text is that person's name. */
  lemma {:induction false} NormalizePersonsMembers(rows: seq<Row>, render: real -> string, p: ImportedPerson)
    ensures p in NormalizePersons(rows, render) <==>
              exists k :: 0 <= k < |rows| && Pick(rows[k], NameKeys).Some? && p.name == TextOr(Pick(rows[k], NameKeys), render, "")
  {
    if rows != [] {
      NormalizePersonsMembers(rows[1..], render, p);
      if exists k :: 0 <= k < |rows| && Pick(rows[k], NameKeys).Some? && p.name == TextOr(Pick(rows[k], NameKeys), render, "") {
        var k :| 0 <= k < |rows| && Pick(rows[k], NameKeys).Some? && p.name == TextOr(Pick(rows[k], NameKeys), render, "");
        if k > 0 { assert rows[1..][k - 1] == rows[k]; }
      }
      if p in NormalizePersons(rows[1..], render) {
        var k :| 0 <= k < |rows| - 1 && Pick(rows[1..][k], NameKeys).Some? && p.name == TextOr(Pick(rows[1..][k], NameKeys), render, "");
        assert rows[k + 1] == rows[1..][k];
      }
    }
  }

  /** What becomes of one expense row: the map throws, the filter drops it, or it is kept. */
  datatype RowOutcome = Throws | Dropped | Kept(expense: ImportedExpense)

  /**
   * `parseFloat(row['金额'] || row['amount'] || 0)`, with None for NaN: a
   * number is taken as it is, text goes through `parse`, and no truthy cell
   * parses the number 0.
   */
  function Amount(row: Row, parse: string -> Option<real>): Option<real>
  {
    match Pick(row, AmountKeys)
    case None => Some(0.0)
    case Some(Num(r)) => Some(r)
    case Some(Text(s)) => parse(s)
  }

  predicate IsNumber(c: Option<Cell>)
  {
    c.Some? && c.value.Num?
  }

  /** `participantsStr ? participantsStr.split(',')... : []` for a picked text cell. */
  function CellNames(c: Option<Cell>): seq<string>
  {
    match c
    case Some(Text(s)) => SplitNames(s)
    case _ => []
  }

  /**
   * One row of the expense sheet. A number in the participant column makes
   * `split` throw, which aborts the whole import; otherwise the row is kept
   * iff its amount is a positive number, its description cell is truthy and
   * at least one participant name is left after trimming. A missing date
   * becomes `today`.
   */
  function ExpenseRow(row: Row, parse: string -> Option<real>, render: real -> string, today: string): (o: RowOutcome)
    ensures o.Throws? <==> IsNumber(Pick(row, ParticipantKeys))
    ensures o.Kept? ==> o.expense.amount > 0.0 && Amount(row, parse) == Some(o.expense.amount)
    ensures o.Kept? ==> Pick(row, DescriptionKeys).Some? && o.expense.participantNames != []
    ensures o.Kept? ==> forall k :: 0 <= k < |o.expense.participantNames| ==> IsListName(o.expense.participantNames[k])
    ensures o.Kept? ==> Pick(row, ParticipantKeys).Some? && Pick(row, ParticipantKeys).value.Text? &&
                        o.expense.participantNames == SplitNames(Pick(row, ParticipantKeys).value.text)
    ensures o.Kept? ==> o.expense.description == TextOr(Pick(row, DescriptionKeys), render, "") &&
                        o.expense.payerName == TextOr(Pick(row, PayerKeys), render, "")
    ensures o.Kept? ==> o.expense.date == TextOr(Pick(row, DateKeys), render, today) &&
                        (Pick(row, DateKeys).None? ==> o.expense.date == today)
    ensures o.Dropped? ==> Amount(row, parse).None? || Amount(row, parse).value <= 0.0 || Pick(row, DescriptionKeys).None? ||
                           CellNames(Pick(row, ParticipantKeys)) == []
  {
    var participants := Pick(row, ParticipantKeys);
    if IsNumber(participants) then Throws
    else
      var names := CellNames(participants);
      var amount := Amount(row, parse);
      var description := Pick(row, DescriptionKeys);
      if amount.Some? && amount.value > 0.0 && description.Some? && names != [] then
        Kept(ImportedExpense(amount.value, TextOr(description, render, ""), TextOr(Pick(row, PayerKeys), render, ""),
                             names, TextOr(Pick(row, DateKeys), render, today)))
      else Dropped
  }

  /** Some row of the expense sheet has a number in its participant column. */
  predicate SomeRowThrows(rows: seq<Row>, parse: string -> Option<real>, render: real -> string, today: string)
  {
    exists k :: 0 <= k < |rows| && ExpenseRow(rows[k], parse, render, today).Throws?
  }

  /** `expenseData.map(...)`: the outcome of every row, in row order. */
  function Outcomes(rows: seq<Row>, parse: string -> Option<real>, render: real -> string, today: string): (os: seq<RowOutcome>)
    ensures |os| == |rows|
    ensures forall k :: 0 <= k < |rows| ==> os[k] == ExpenseRow(rows[k], parse, render, today)
  {
    if rows == [] then [] else [ExpenseRow(rows[0], parse, render, today)] + Outcomes(rows[1..], parse, render, today)
  }

  /** `.filter(...)` over the outcomes: the kept expenses, in order. */
  function KeptOf(os: seq<RowOutcome>): (es: seq<ImportedExpense>)
    ensures |es| <= |os|
    ensures forall e :: e in es <==> Kept(e) in os
  {
    if os == [] then [] else (if os[0].Kept? then [os[0].expense] else []) + KeptOf(os[1..])
  }

  lemma {:induction false} KeptOfAppend(a: seq<RowOutcome>, b: seq<RowOutcome>)
    ensures KeptOf(a + b) == KeptOf(a) + KeptOf(b)
  {
    if a != [] {
      KeptOfAppend(a[1..], b);
      assert (a + b)[0] == a[0] && (a + b)[1..] == a[1..] + b;
    } else {
      assert a + b == b;
    }
  }

  /** The kept expenses of the rows, in row order. */
  function KeptExpenses(rows: seq<Row>, parse: string -> Option<real>, render: real -> string, today: string): (es: seq<ImportedExpense>)
    ensures |es| <= |rows|
    ensures forall k :: 0 <= k < |es| ==> es[k].amount > 0.0 && es[k].participantNames != []
  {
    var os := Outcomes(rows, parse, render, today);
    var es := KeptOf(os);
    assert forall k :: 0 <= k < |es| ==> es[k].amount > 0.0 && es[k].participantNames != [] by {
      forall k | 0 <= k < |es| ensures es[k].amount > 0.0 && es[k].participantNames != [] {
        assert es[k] in es;
        var j :| 0 <= j < |os| && os[j] == Kept(es[k]);
      }
    }
    es
  }

  /** The expense sheet: the map aborts if any row throws, the filter keeps the complete rows. */
  function NormalizeExpenses(rows: seq<Row>, parse: string -> Option<real>, render: real -> string, today: string): (r: Option<seq<ImportedExpense>>)
    ensures r.None? <==> SomeRowThrows(rows, parse, render, today)
  {
    if SomeRowThrows(rows, parse, render, today) then None else Some(KeptExpenses(rows, parse, render, today))
  }

  /** An expense is read iff some row is kept as that expense. */
  lemma KeptExpensesMembers(rows: seq<Row>, parse: string -> Option<real>, render: real -> string, today: string, e: ImportedExpense)
    ensures e in KeptExpenses(rows, parse, render, today) <==>
              exists k :: 0 <= k < |rows| && ExpenseRow(rows[k], parse, render, today) == Kept(e)
  {
    var os := Outcomes(rows, parse, render, today);
    if Kept(e) in os {
      var k :| 0 <= k < |os| && os[k] == Kept(e);
    }
  }

  /** The expenses read from consecutive runs of rows follow each other. */
  lemma KeptExpensesAppend(a: seq<Row>, b: seq<Row>, parse: string -> Option<real>, render: real -> string, today: string)
    ensures KeptExpenses(a + b, parse, render, today) == KeptExpenses(a, parse, render, today) + KeptExpenses(b, parse, render, today)
  {
    var oa, ob := Outcomes(a, parse, render, today), Outcomes(b, parse, render, today);
    var o := Outcomes(a + b, parse, render, today);
    assert o == oa + ob by {
      forall k | 0 <= k < |a + b| ensures o[k] == (oa + ob)[k] {
        if k < |a| {
          assert (a + b)[k] == a[k];
        } else {
          assert (a + b)[k] == b[k - |a|];
        }
      }
    }
    KeptOfAppend(oa, ob);
  }

  // ---------------------------------------------------------------------------
  // The workbook
  // ---------------------------------------------------------------------------

  /** `result`: each list is present only when its sheet is. */
  datatype ImportResult = ImportResult(persons: Option<seq<ImportedPerson>>, expenses: Option<seq<ImportedExpense>>)

  /**
   * The rows of both sheets into the object handed to the application, or
   * None when the expense sheet makes the import throw; the error is then
   * reported and nothing is handed over.
   */
  function ReadWorkbook(wb: Workbook, parse: string -> Option<real>, render: real -> string, today: string): (r: Option<ImportResult>)
    ensures r.None? <==> ExpenseSheet in wb && SomeRowThrows(wb[ExpenseSheet], parse, render, today)
    ensures r.Some? ==> (r.value.persons.Some? <==> PersonSheet in wb)
    ensures r.Some? ==> (r.value.expenses.Some? <==> ExpenseSheet in wb)
    ensures r.Some? && PersonSheet in wb ==> r.value.persons.value == NormalizePersons(wb[PersonSheet], render)
    ensures r.Some? && ExpenseSheet in wb ==> r.value.expenses.value == KeptExpenses(wb[ExpenseSheet], parse, render, today)
  {
    var persons := if PersonSheet in wb then Some(NormalizePersons(wb[PersonSheet], render)) else None;
    if ExpenseSheet in wb then
      match NormalizeExpenses(wb[ExpenseSheet], parse, render, today)
      case None => None
      case Some(es) => Some(ImportResult(persons, Some(es)))
    else Some(ImportResult(persons, None))
  }
}
