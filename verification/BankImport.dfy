/**
 Importing bank statements: row validation with collected errors, and the two insertion
 loops, one on ON CONFLICT and one on a pre-check, that must do the same.
 */
module BankImport {
  import opened Core

  datatype Row = Row(date: int, amount: int, currency: string, description: string, externalId: Option<string>)

  /** `if key`: an absent or empty identifier does not count as one. */
  predicate Keyed(r: Row) { r.externalId.Some? && r.externalId.value != "" }

  function KeyOf(r: Row): set<string> { if Keyed(r) then {r.externalId.value} else {} }

  function KeysOf(rows: seq<Row>): set<string> {
    if rows == [] then {} else KeysOf(rows[..|rows| - 1]) + KeyOf(rows[|rows| - 1])
  }

  /** Whether the `n`-th row of a file enters a table that holds `taken`: rows without a key always do, a
      key only with its first row, and only when the table lacks it. */
  predicate Enters(rows: seq<Row>, n: nat, taken: set<string>)
    requires n < |rows|
  {
    Keyed(rows[n]) ==> rows[n].externalId.value !in taken && rows[n].externalId.value !in KeysOf(rows[..n])
  }

  /** The rows of a file that enter, in file order. */
  function NewRows(rows: seq<Row>, taken: set<string>): seq<Row> {
    if rows == [] then []
    else NewRows(rows[..|rows| - 1], taken) + if Enters(rows, |rows| - 1, taken) then [rows[|rows| - 1]] else []
  }

  function Part(rows: seq<Row>, keyed: bool): seq<Row> {
    if rows == [] then []
    else Part(rows[..|rows| - 1], keyed) + if Keyed(rows[|rows| - 1]) == keyed then [rows[|rows| - 1]] else []
  }

  /** No two keyed rows share their key. */
  ghost predicate UniqueKeys(table: seq<Row>) {
    forall i, j :: 0 <= i < j < |table| && Keyed(table[i]) && Keyed(table[j]) ==>
        table[i].externalId != table[j].externalId
  }

  ghost predicate NoEmptyKeys(rows: seq<Row>) {
    forall i :: 0 <= i < |rows| ==> rows[i].externalId != Some("")
  }

  /** The partial unique index, `external_id IS NOT NULL`: an empty identifier is not NULL. */
  ghost predicate IndexHolds(table: seq<Row>) {
    forall i, j :: 0 <= i < j < |table| && table[i].externalId.Some? ==> table[i].externalId != table[j].externalId
  }

  lemma {:induction false} KeysOfHasKey(rows: seq<Row>, i: nat)
    requires i < |rows|
    ensures KeyOf(rows[i]) <= KeysOf(rows)
  {
    if i < |rows| - 1 { KeysOfHasKey(rows[..|rows| - 1], i); }
  }

  lemma KeysOfSnoc(rows: seq<Row>, r: Row)
    ensures KeysOf(rows + [r]) == KeysOf(rows) + KeyOf(r)
  {
    assert (rows + [r])[..|rows|] == rows;
  }

  lemma {:induction false} KeysOfConcat(xs: seq<Row>, ys: seq<Row>)
    ensures KeysOf(xs + ys) == KeysOf(xs) + KeysOf(ys)
  {
    if ys == [] {
      assert xs + ys == xs;
    } else {
      KeysOfConcat(xs, ys[..|ys| - 1]);
      assert (xs + ys)[..|xs + ys| - 1] == xs + ys[..|ys| - 1];
    }
  }

  /** The new rows hold exactly the keys of the file that the table lacks. */
  lemma {:induction false} NewRowsHoldNewKeys(rows: seq<Row>, taken: set<string>)
    ensures KeysOf(NewRows(rows, taken)) == KeysOf(rows) - taken
    ensures |NewRows(rows, taken)| <= |rows|
  {
    if rows != [] {
      var n := |rows| - 1;
      NewRowsHoldNewKeys(rows[..n], taken);
      if Enters(rows, n, taken) {
        KeysOfSnoc(NewRows(rows[..n], taken), rows[n]);
      } else {
        assert NewRows(rows, taken) == NewRows(rows[..n], taken);
      }
    }
  }

  lemma UniqueSnoc(table: seq<Row>, r: Row)
    requires UniqueKeys(table) && KeyOf(r) !! KeysOf(table)
    ensures UniqueKeys(table + [r])
  {
    forall i | 0 <= i < |table| && Keyed(table[i]) && Keyed(r) ensures table[i].externalId != r.externalId {
      KeysOfHasKey(table, i);
    }
  }

  lemma {:induction false} ImportKeepsUnique(table: seq<Row>, rows: seq<Row>)
    requires UniqueKeys(table)
    ensures UniqueKeys(table + NewRows(rows, KeysOf(table)))
  {
    if rows == [] {
      assert table + [] == table;
    } else {
      var n := |rows| - 1;
      ImportKeepsUnique(table, rows[..n]);
      var before := NewRows(rows[..n], KeysOf(table));
      NewRowsHoldNewKeys(rows[..n], KeysOf(table));
      KeysOfConcat(table, before);
      if Enters(rows, n, KeysOf(table)) {
        UniqueSnoc(table + before, rows[n]);
        assert table + NewRows(rows, KeysOf(table)) == table + before + [rows[n]];
      } else {
        assert NewRows(rows, KeysOf(table)) == before;
      }
    }
  }

  lemma {:induction false} OnlyUnkeyedEnter(rows: seq<Row>, taken: set<string>)
    requires KeysOf(rows) <= taken
    ensures NewRows(rows, taken) == Part(rows, false)
  {
    if rows != [] {
      OnlyUnkeyedEnter(rows[..|rows| - 1], taken);
    }
  }

  lemma {:induction false} PartConcat(xs: seq<Row>, ys: seq<Row>, keyed: bool)
    ensures Part(xs + ys, keyed) == Part(xs, keyed) + Part(ys, keyed)
  {
    if ys == [] {
      assert xs + ys == xs;
    } else {
      var n := |ys| - 1;
      PartConcat(xs, ys[..n], keyed);
      PartSnoc(xs + ys[..n], ys[n], keyed);
      assert xs + ys == xs + ys[..n] + [ys[n]];
    }
  }

  /** A row is in the part its key puts it in, and rows that come one after the other stay in that order. */
  lemma PartRowByRow(xs: seq<Row>, r: Row, ys: seq<Row>, keyed: bool)
    ensures var identified := r.externalId.Some? && r.externalId.value != "";
            Part(xs + [r] + ys, keyed)
            == Part(xs, keyed) + (if identified == keyed then [r] else []) + Part(ys, keyed)
  {
    PartConcat(xs + [r], ys, keyed);
    PartSnoc(xs, r, keyed);
  }

  /** The two parts are a rearrangement, and the keyed one holds every key. */
  lemma {:induction false} PartsMakeTheWhole(rows: seq<Row>)
    ensures multiset(Part(rows, true)) + multiset(Part(rows, false)) == multiset(rows)
  {
    if rows != [] {
      var before, last := rows[..|rows| - 1], rows[|rows| - 1];
      PartsMakeTheWhole(before);
      assert rows == before + [last];
      assert multiset(rows) == multiset(before) + multiset([last]);
      if Keyed(last) {
        assert Part(rows, true) == Part(before, true) + [last];
        assert Part(rows, false) == Part(before, false);
      } else {
        assert Part(rows, false) == Part(before, false) + [last];
        assert Part(rows, true) == Part(before, true);
      }
    }
  }

  lemma {:induction false} PartKeys(rows: seq<Row>)
    ensures KeysOf(Part(rows, true)) == KeysOf(rows)
  {
    if rows != [] {
      var before, last := rows[..|rows| - 1], rows[|rows| - 1];
      PartKeys(before);
      if Keyed(last) {
        KeysOfSnoc(Part(before, true), last);
      } else {
        assert Part(rows, true) == Part(before, true);
      }
    }
  }

  /** Keeping uniqueness is insensitive to the order in which an import adds its rows. */
  lemma {:induction false} PartsKeepUnique(table: seq<Row>, rows: seq<Row>)
    requires UniqueKeys(table + rows)
    ensures UniqueKeys(table + Part(rows, true))
    ensures UniqueKeys(table + Part(rows, true) + Part(rows, false))
  {
    KeyedPartKeepsUnique(table, rows);
    UnkeyedPart(rows);
  }

  lemma {:induction false} UnkeyedPart(rows: seq<Row>)
    ensures forall i :: 0 <= i < |Part(rows, false)| ==> !Keyed(Part(rows, false)[i])
  {
    if rows != [] { UnkeyedPart(rows[..|rows| - 1]); }
  }

  lemma {:induction false} KeyedPartKeepsUnique(table: seq<Row>, rows: seq<Row>)
    requires UniqueKeys(table + rows)
    ensures UniqueKeys(table + Part(rows, true))
  {
    if rows == [] {
      assert table + Part(rows, true) == table + rows;
    } else {
      var before, last := rows[..|rows| - 1], rows[|rows| - 1];
      UniquePrefix(table + before, table + rows);
      KeyedPartKeepsUnique(table, before);
      if Keyed(last) {
        LastKeyIsNew(table + before, last, table + rows);
        PartKeys(before);
        KeysOfConcat(table, before);
        KeysOfConcat(table, Part(before, true));
        UniqueSnoc(table + Part(before, true), last);
        assert table + Part(rows, true) == table + Part(before, true) + [last];
      } else {
        assert Part(rows, true) == Part(before, true);
      }
    }
  }

  lemma UniquePrefix(xs: seq<Row>, ys: seq<Row>)
    requires xs <= ys && UniqueKeys(ys)
    ensures UniqueKeys(xs)
  {
    forall i, j | 0 <= i < j < |xs| && Keyed(xs[i]) && Keyed(xs[j]) ensures xs[i].externalId != xs[j].externalId {
      assert xs[i] == ys[i] && xs[j] == ys[j];
    }
  }

  lemma {:induction false} HasKeyAt(rows: seq<Row>, key: string) returns (i: nat)
    requires key in KeysOf(rows)
    ensures i < |rows| && Keyed(rows[i]) && rows[i].externalId.value == key
  {
    i := |rows| - 1;
    if key !in KeyOf(rows[i]) { i := HasKeyAt(rows[..i], key); }
  }

  /** A key of the table is the identifier of one of its rows. */
  lemma IdentifiesARow(rows: seq<Row>, key: string)
    requires key != ""
    ensures key in KeysOf(rows) <==> exists i :: 0 <= i < |rows| && rows[i].externalId == Some(key)
  {
    if key in KeysOf(rows) {
      var i := HasKeyAt(rows, key);
      assert rows[i].externalId == Some(key);
    }
    if i :| 0 <= i < |rows| && rows[i].externalId == Some(key) { KeysOfHasKey(rows, i); }
  }

  lemma LastKeyIsNew(xs: seq<Row>, r: Row, ys: seq<Row>)
    requires ys == xs + [r] && UniqueKeys(ys) && Keyed(r)
    ensures KeyOf(r) !! KeysOf(xs)
  {
    forall key | key in KeysOf(xs) ensures key != r.externalId.value {
      var i := HasKeyAt(xs, key);
      assert ys[i] == xs[i] && ys[|xs|] == r;
    }
  }

  // ---------------------------------------------------------------- validation

  /** `blank_to_none`. */
  function BlankToNone(cell: Option<string>): Option<string> {
    if cell.Some? && AllSpace(cell.value) then None else cell
  }

  type Cells = seq<Option<string>>

  predicate Blank(cells: Cells) {
    forall i :: 0 <= i < |cells| ==> cells[i].None? || AllSpace(cells[i].value)
  }

  /** What the row schema does beyond the identifier, and where the header puts the identifier. */
  datatype Validator = Validator(others: Cells -> Result<Row, string>, idCell: Cells -> Option<string>) {
    function check(cells: Cells): Result<Row, string> {
      match others(cells)
      case Ok(row) => Ok(row.(externalId := BlankToNone(idCell(cells))))
      case Err(reason) => Err(reason)
    }
  }

  datatype RowError = RowError(line: nat, reason: string)

  function ParsedRows(lines: seq<Cells>, v: Validator): seq<Row> {
    if lines == [] then []
    else
      var last := lines[|lines| - 1];
      ParsedRows(lines[..|lines| - 1], v) + if !Blank(last) && v.check(last).Ok? then [v.check(last).value] else []
  }

  /** Each failing row with its 1-based number, blank lines counted. */
  function RowErrors(lines: seq<Cells>, v: Validator): seq<RowError> {
    if lines == [] then []
    else
      var last := lines[|lines| - 1];
      RowErrors(lines[..|lines| - 1], v)
      + if !Blank(last) && v.check(last).Err? then [RowError(|lines|, v.check(last).error)] else []
  }

  function Received(lines: seq<Cells>): nat {
    if lines == [] then 0 else Received(lines[..|lines| - 1]) + if Blank(lines[|lines| - 1]) then 0 else 1
  }

  lemma {:induction false} ParsedKeysAreNotEmpty(lines: seq<Cells>, v: Validator)
    ensures NoEmptyKeys(ParsedRows(lines, v))
  {
    if lines != [] { ParsedKeysAreNotEmpty(lines[..|lines| - 1], v); }
  }

  /** What both insertion loops must do with a file. */
  ghost predicate Imported(before: seq<Row>, after: seq<Row>, rows: seq<Row>, inserted: nat, skipped: nat) {
    var entering := NewRows(rows, KeysOf(before));
    && multiset(after) == multiset(before) + multiset(entering)
    && inserted == |entering| && skipped == |rows| - |entering|
  }

  // ---------------------------------------------------------------- line by line

  /** A cell with something to see in it. */
  predicate Visible(cell: Option<string>) {
    cell.Some? && exists i :: 0 <= i < |cell.value| && !IsSpace(cell.value[i])
  }

  predicate HasContent(cells: Cells) { exists i :: 0 <= i < |cells| && Visible(cells[i]) }

  /** A line that counts and that the rest of the row schema accepts. */
  predicate ValidLine(v: Validator, cells: Cells) { HasContent(cells) && v.others(cells).Ok? }

  /** The row a valid line stands for: its identifier is the one in its cell, and none if the cell is absent or
      blank. */
  ghost predicate StandsFor(v: Validator, cells: Cells, row: Row) {
    && v.others(cells).Ok?
    && row == v.others(cells).value.(externalId := row.externalId)
    && (forall id :: row.externalId == Some(id) <==> v.idCell(cells) == Some(id) && Visible(Some(id)))
  }

  ghost predicate InOrder(ns: seq<nat>) { forall j, k :: 0 <= j < k < |ns| ==> ns[j] < ns[k] }

  /** The rows of a file are those of these of its lines, one after the other. */
  ghost predicate RowsOf(v: Validator, lines: seq<Cells>, ns: seq<nat>, rows: seq<Row>) {
    && InOrder(ns) && |ns| == |rows|
    && forall k :: 0 <= k < |ns| ==> ns[k] < |lines| && StandsFor(v, lines[ns[k]], rows[k])
  }

  lemma BlankLines(v: Validator, cells: Cells)
    ensures Blank(cells) <==> !HasContent(cells)
    ensures v.check(cells).Ok? <==> v.others(cells).Ok?
    ensures v.check(cells).Err? ==> v.check(cells).error == v.others(cells).error
    ensures v.check(cells).Ok? ==> StandsFor(v, cells, v.check(cells).value)
  {
  }

  lemma RowsOfLonger(v: Validator, lines: seq<Cells>, more: seq<Cells>, ns: seq<nat>, rows: seq<Row>)
    requires RowsOf(v, lines, ns, rows) && lines <= more
    ensures RowsOf(v, more, ns, rows)
  {
    forall k | 0 <= k < |ns| ensures ns[k] < |more| && StandsFor(v, more[ns[k]], rows[k]) {
      assert more[ns[k]] == lines[ns[k]];
    }
  }

  lemma OneMoreRow(v: Validator, lines: seq<Cells>, ns: seq<nat>, rows: seq<Row>, n: nat, row: Row)
    requires n < |lines| && RowsOf(v, lines[..n], ns, rows) && StandsFor(v, lines[n], row)
    ensures RowsOf(v, lines, ns + [n], rows + [row])
  {
    RowsOfLonger(v, lines[..n], lines, ns, rows);
  }

  lemma LastParsed(lines: seq<Cells>, v: Validator)
    requires lines != []
    ensures var n := |lines| - 1;
            ParsedRows(lines, v) == ParsedRows(lines[..n], v)
              + if ValidLine(v, lines[n]) then [v.check(lines[n]).value] else []
    ensures ValidLine(v, lines[|lines| - 1]) ==> StandsFor(v, lines[|lines| - 1], v.check(lines[|lines| - 1]).value)
  {
    BlankLines(v, lines[|lines| - 1]);
  }

  /** The parsed rows are those of the valid lines. */
  lemma {:induction false} ValidLinesAreParsed(lines: seq<Cells>, v: Validator) returns (ns: seq<nat>)
    ensures RowsOf(v, lines, ns, ParsedRows(lines, v))
    ensures forall n :: n in ns <==> 0 <= n < |lines| && ValidLine(v, lines[n])
  {
    ns := [];
    if lines != [] {
      var n := |lines| - 1;
      ns := ValidLinesAreParsed(lines[..n], v);
      LastParsed(lines, v);
      if ValidLine(v, lines[n]) {
        OneMoreRow(v, lines, ns, ParsedRows(lines[..n], v), n, v.check(lines[n]).value);
        ns := ns + [n];
      } else {
        RowsOfLonger(v, lines[..n], lines, ns, ParsedRows(lines[..n], v));
      }
    }
  }

  /** The errors of a file are about these of its lines, each with its number and the reason it was refused for. */
  ghost predicate ErrorsOf(v: Validator, lines: seq<Cells>, ns: seq<nat>, errors: seq<RowError>) {
    && InOrder(ns) && |ns| == |errors|
    && forall k :: 0 <= k < |ns| ==>
         && ns[k] < |lines| && v.others(lines[ns[k]]).Err?
         && errors[k] == RowError(ns[k] + 1, v.others(lines[ns[k]]).error)
  }

  lemma ErrorsOfLonger(v: Validator, lines: seq<Cells>, more: seq<Cells>, ns: seq<nat>, errors: seq<RowError>)
    requires ErrorsOf(v, lines, ns, errors) && lines <= more
    ensures ErrorsOf(v, more, ns, errors)
  {
    forall k | 0 <= k < |ns|
      ensures ns[k] < |more| && v.others(more[ns[k]]).Err?
              && errors[k] == RowError(ns[k] + 1, v.others(more[ns[k]]).error)
    {
      assert more[ns[k]] == lines[ns[k]];
    }
  }

  lemma OneMoreError(v: Validator, lines: seq<Cells>, ns: seq<nat>, errors: seq<RowError>, n: nat)
    requires n < |lines| && ErrorsOf(v, lines[..n], ns, errors) && v.others(lines[n]).Err?
    ensures ErrorsOf(v, lines, ns + [n], errors + [RowError(n + 1, v.others(lines[n]).error)])
  {
    ErrorsOfLonger(v, lines[..n], lines, ns, errors);
  }

  lemma LastError(lines: seq<Cells>, v: Validator)
    requires lines != []
    ensures var n := |lines| - 1;
            RowErrors(lines, v) == RowErrors(lines[..n], v)
              + if HasContent(lines[n]) && v.others(lines[n]).Err?
                then [RowError(n + 1, v.others(lines[n]).error)] else []
  {
    BlankLines(v, lines[|lines| - 1]);
  }

  /** The errors are those of the other lines that count. */
  lemma {:induction false} InvalidLinesAreReported(lines: seq<Cells>, v: Validator) returns (ns: seq<nat>)
    ensures ErrorsOf(v, lines, ns, RowErrors(lines, v))
    ensures forall n :: n in ns <==> 0 <= n < |lines| && HasContent(lines[n]) && v.others(lines[n]).Err?
  {
    ns := [];
    if lines != [] {
      var n := |lines| - 1;
      ns := InvalidLinesAreReported(lines[..n], v);
      LastError(lines, v);
      if HasContent(lines[n]) && v.others(lines[n]).Err? {
        OneMoreError(v, lines, ns, RowErrors(lines[..n], v), n);
        ns := ns + [n];
      } else {
        ErrorsOfLonger(v, lines[..n], lines, ns, RowErrors(lines[..n], v));
      }
    }
  }

  lemma {:induction false} EveryLineCountsOnce(lines: seq<Cells>, v: Validator)
    ensures Received(lines) == |ParsedRows(lines, v)| + |RowErrors(lines, v)|
  {
    if lines != [] {
      var n := |lines| - 1;
      EveryLineCountsOnce(lines[..n], v);
      BlankLines(v, lines[n]);
      LastError(lines, v);
      LastParsed(lines, v);
    }
  }

  /** One bad row does not lose the others: every non-blank row is either parsed or reported. */
  lemma NothingIsLost(lines: seq<Cells>, v: Validator)
    ensures Received(lines) == |ParsedRows(lines, v)| + |RowErrors(lines, v)|
    ensures forall i :: 0 <= i < |lines| ==>
              ((exists e :: e in RowErrors(lines, v) && e.line == i + 1) <==>
                  HasContent(lines[i]) && v.others(lines[i]).Err?)
    ensures forall e :: e in RowErrors(lines, v) ==> 1 <= e.line <= |lines|
  {
    EveryLineCountsOnce(lines, v);
    var ns := InvalidLinesAreReported(lines, v);
    var errors := RowErrors(lines, v);
    forall i | 0 <= i < |lines|
      ensures (exists e :: e in errors && e.line == i + 1) <==> HasContent(lines[i]) && v.others(lines[i]).Err?
    {
      if i in ns {
        var k :| 0 <= k < |ns| && ns[k] == i;
        assert errors[k] in errors && errors[k].line == i + 1;
      }
      if e :| e in errors && e.line == i + 1 {
        var k :| 0 <= k < |errors| && errors[k] == e;
        assert ns[k] == i && ns[k] in ns;
      }
    }
  }

  /** A line whose row enters a table: a valid line with no identifier, or with one that neither a row of the table
      nor an earlier valid line has. */
  ghost predicate LineEnters(table: seq<Row>, lines: seq<Cells>, v: Validator, n: nat)
    requires n < |lines|
  {
    var id := v.idCell(lines[n]);
    && ValidLine(v, lines[n])
    && (Visible(id) ==> !Stored(table, id.value) && !Named(v, lines[..n], id.value))
  }

  /** A row of the table has this identifier. */
  ghost predicate Stored(table: seq<Row>, id: string) {
    exists i :: 0 <= i < |table| && table[i].externalId == Some(id)
  }

  /** A valid line has this identifier. */
  ghost predicate Named(v: Validator, lines: seq<Cells>, id: string) {
    exists m :: 0 <= m < |lines| && ValidLine(v, lines[m]) && v.idCell(lines[m]) == Some(id)
  }

  lemma ParsedKey(lines: seq<Cells>, v: Validator, id: string)
    requires Visible(Some(id))
    ensures id in KeysOf(ParsedRows(lines, v)) <==> Named(v, lines, id)
  {
    var ns := ValidLinesAreParsed(lines, v);
    var rows := ParsedRows(lines, v);
    IdentifiesARow(rows, id);
    if id in KeysOf(rows) {
      var i :| 0 <= i < |rows| && rows[i].externalId == Some(id);
      assert ns[i] in ns && StandsFor(v, lines[ns[i]], rows[i]);
    }
    if m :| 0 <= m < |lines| && ValidLine(v, lines[m]) && v.idCell(lines[m]) == Some(id) {
      var k :| 0 <= k < |ns| && ns[k] == m;
      assert StandsFor(v, lines[m], rows[k]);
    }
  }

  lemma KeyedIffVisible(v: Validator, cells: Cells, row: Row)
    requires StandsFor(v, cells, row)
    ensures Keyed(row) <==> Visible(v.idCell(cells))
    ensures Keyed(row) ==> v.idCell(cells) == row.externalId
  {
    if v.idCell(cells).Some? {
      var id := v.idCell(cells).value;
      assert row.externalId == Some(id) <==> Visible(Some(id));
    }
  }

  lemma KeyedLineEnters(table: seq<Row>, lines: seq<Cells>, v: Validator, n: nat)
    requires n < |lines| && ValidLine(v, lines[n]) && Visible(v.idCell(lines[n]))
    ensures var id := v.idCell(lines[n]).value;
            LineEnters(table, lines, v, n) <==> id !in KeysOf(table) && id !in KeysOf(ParsedRows(lines[..n], v))
  {
    var id := v.idCell(lines[n]).value;
    IdentifiesARow(table, id);
    ParsedKey(lines[..n], v, id);
  }

  /** The last row of a file enters exactly when its line does. */
  lemma LastRowEnters(table: seq<Row>, lines: seq<Cells>, v: Validator)
    requires lines != [] && ValidLine(v, lines[|lines| - 1])
    ensures var rows, n := ParsedRows(lines, v), |lines| - 1;
            && rows != [] && rows == ParsedRows(lines[..n], v) + [rows[|rows| - 1]]
            && StandsFor(v, lines[n], rows[|rows| - 1])
            && (Enters(rows, |rows| - 1, KeysOf(table)) <==> LineEnters(table, lines, v, n))
  {
    LastParsed(lines, v);
    var rows, n := ParsedRows(lines, v), |lines| - 1;
    assert rows[..|rows| - 1] == ParsedRows(lines[..n], v);
    KeyedIffVisible(v, lines[n], rows[|rows| - 1]);
    if Visible(v.idCell(lines[n])) { KeyedLineEnters(table, lines, v, n); }
  }

  lemma OneRowEnters(table: seq<Row>, lines: seq<Cells>, v: Validator) returns (row: Row)
    requires lines != [] && LineEnters(table, lines, v, |lines| - 1)
    ensures StandsFor(v, lines[|lines| - 1], row)
    ensures NewRows(ParsedRows(lines, v), KeysOf(table))
            == NewRows(ParsedRows(lines[..|lines| - 1], v), KeysOf(table)) + [row]
  {
    var rows, front := ParsedRows(lines, v), ParsedRows(lines[..|lines| - 1], v);
    LastRowEnters(table, lines, v);
    row := rows[|rows| - 1];
    assert rows[..|rows| - 1] == front;
  }

  lemma NoRowEnters(table: seq<Row>, lines: seq<Cells>, v: Validator)
    requires lines != [] && !LineEnters(table, lines, v, |lines| - 1)
    ensures NewRows(ParsedRows(lines, v), KeysOf(table))
            == NewRows(ParsedRows(lines[..|lines| - 1], v), KeysOf(table))
  {
    var rows, front := ParsedRows(lines, v), ParsedRows(lines[..|lines| - 1], v);
    LastParsed(lines, v);
    if ValidLine(v, lines[|lines| - 1]) {
      LastRowEnters(table, lines, v);
      assert rows[..|rows| - 1] == front;
    } else {
      assert rows == front;
    }
  }

  /** These are the lines among the first `n` that enter, and theirs are the new rows so far. */
  ghost predicate Entering(table: seq<Row>, lines: seq<Cells>, v: Validator, n: nat, ns: seq<nat>) {
    && n <= |lines|
    && (forall m :: m in ns <==> 0 <= m < n && LineEnters(table, lines, v, m))
    && RowsOf(v, lines, ns, NewRows(ParsedRows(lines[..n], v), KeysOf(table)))
  }

  lemma EntersInFront(table: seq<Row>, lines: seq<Cells>, v: Validator, n: nat)
    requires n < |lines|
    ensures var front := lines[..n + 1];
            front[..n] == lines[..n] && front[n] == lines[n]
            && (LineEnters(table, front, v, n) <==> LineEnters(table, lines, v, n))
  {
    assert lines[..n + 1][..n] == lines[..n];
  }

  lemma LaterRow(v: Validator, lines: seq<Cells>, ns: seq<nat>, rows: seq<Row>, n: nat, row: Row)
    requires RowsOf(v, lines, ns, rows) && n < |lines| && StandsFor(v, lines[n], row) && forall m :: m in ns ==> m < n
    ensures RowsOf(v, lines, ns + [n], rows + [row])
  {
    NextInOrder(ns, n);
  }

  lemma NextLineEnters(table: seq<Row>, lines: seq<Cells>, v: Validator, n: nat, ns: seq<nat>)
    requires n < |lines| && Entering(table, lines, v, n, ns) && LineEnters(table, lines, v, n)
    ensures Entering(table, lines, v, n + 1, ns + [n])
  {
    EntersInFront(table, lines, v, n);
    var row := OneRowEnters(table, lines[..n + 1], v);
    LaterRow(v, lines, ns, NewRows(ParsedRows(lines[..n], v), KeysOf(table)), n, row);
  }

  lemma NextLineStaysOut(table: seq<Row>, lines: seq<Cells>, v: Validator, n: nat, ns: seq<nat>)
    requires n < |lines| && Entering(table, lines, v, n, ns) && !LineEnters(table, lines, v, n)
    ensures Entering(table, lines, v, n + 1, ns)
  {
    EntersInFront(table, lines, v, n);
    NoRowEnters(table, lines[..n + 1], v);
  }

  lemma {:induction false} EnteringUpTo(table: seq<Row>, lines: seq<Cells>, v: Validator, n: nat)
    returns (ns: seq<nat>)
    requires n <= |lines|
    ensures Entering(table, lines, v, n, ns)
  {
    ns := [];
    if n > 0 {
      ns := EnteringUpTo(table, lines, v, n - 1);
      if LineEnters(table, lines, v, n - 1) {
        NextLineEnters(table, lines, v, n - 1, ns);
        ns := ns + [n - 1];
      } else {
        NextLineStaysOut(table, lines, v, n - 1, ns);
      }
    }
  }

  /** The new rows of a file are those of the lines that enter. */
  lemma EnteringLines(table: seq<Row>, lines: seq<Cells>, v: Validator) returns (ns: seq<nat>)
    ensures RowsOf(v, lines, ns, NewRows(ParsedRows(lines, v), KeysOf(table)))
    ensures forall n :: n in ns <==> 0 <= n < |lines| && LineEnters(table, lines, v, n)
  {
    ns := EnteringUpTo(table, lines, v, |lines|);
    assert lines[..|lines|] == lines;
  }

  /** Importing the same file again inserts exactly the valid lines whose identifier is absent or blank, and skips all
      the other valid lines. */
  lemma ReuploadLines(before: seq<Row>, after: seq<Row>, again: seq<Row>, lines: seq<Cells>, v: Validator,
                      inserted: nat, skipped: nat, inserted2: nat, skipped2: nat)
    returns (entering: seq<nat>, kept: seq<nat>)
    requires Imported(before, after, ParsedRows(lines, v), inserted, skipped)
    requires Imported(after, again, ParsedRows(lines, v), inserted2, skipped2)
    ensures InOrder(entering) && inserted2 == |entering| && InOrder(kept) && skipped2 == |kept|
    ensures forall n :: n in entering <==>
                          0 <= n < |lines| && ValidLine(v, lines[n]) && !Visible(v.idCell(lines[n]))
    ensures forall n :: n in kept <==> 0 <= n < |lines| && ValidLine(v, lines[n]) && Visible(v.idCell(lines[n]))
    ensures exists rows :: RowsOf(v, lines, entering, rows) && multiset(again) == multiset(after) + multiset(rows)
  {
    entering := EnteringLines(after, lines, v);
    forall n | 0 <= n < |lines| && ValidLine(v, lines[n]) && Visible(v.idCell(lines[n]))
      ensures !LineEnters(after, lines, v, n)
    {
      ParsedKey(lines, v, v.idCell(lines[n]).value);
      ImportedKeysStay(before, after, ParsedRows(lines, v), inserted, skipped);
      IdentifiesARow(after, v.idCell(lines[n]).value);
    }
    var all := ValidLinesAreParsed(lines, v);
    kept := Others(all, entering);
    assert RowsOf(v, lines, entering, NewRows(ParsedRows(lines, v), KeysOf(after)));
  }

  lemma ImportedKeysStay(before: seq<Row>, after: seq<Row>, rows: seq<Row>, inserted: nat, skipped: nat)
    requires Imported(before, after, rows, inserted, skipped)
    ensures KeysOf(rows) <= KeysOf(after)
  {
    var entering := NewRows(rows, KeysOf(before));
    assert multiset(after) == multiset(before + entering);
    SameRowsSameKeys(before + entering, after);
    NewRowsHoldNewKeys(rows, KeysOf(before));
    KeysOfConcat(before, entering);
  }

  /** What ascending numbers leave of others that contain them. */
  lemma {:induction false} Others(all: seq<nat>, some: seq<nat>) returns (rest: seq<nat>)
    requires InOrder(all) && InOrder(some) && forall n :: n in some ==> n in all
    ensures InOrder(rest) && |rest| + |some| == |all|
    ensures forall n :: n in rest <==> n in all && n !in some
  {
    rest := all;
    if some != [] {
      assert some[0] in all;
      var front, last := all[..|all| - 1], all[|all| - 1];
      LastIsLargest(all, front, last);
      if last in some {
        var before, top := some[..|some| - 1], some[|some| - 1];
        LastIsLargest(some, before, top);
        assert top in some && top == last;
        rest := Others(front, before);
      } else {
        rest := Others(front, some);
        NextInOrder(rest, last);
        rest := rest + [last];
      }
    }
  }

  lemma NextInOrder(ns: seq<nat>, next: nat)
    requires InOrder(ns) && forall n :: n in ns ==> n < next
    ensures InOrder(ns + [next]) && forall n :: n in ns + [next] <==> n in ns || n == next
  {
    forall j | 0 <= j < |ns| ensures ns[j] < next { assert ns[j] in ns; }
  }

  lemma LastIsLargest(ns: seq<nat>, front: seq<nat>, last: nat)
    requires InOrder(ns) && ns == front + [last]
    ensures InOrder(front)
    ensures forall n :: n in ns <==> n in front || n == last
    ensures forall n :: n in front ==> n < last
  {
    forall j, k | 0 <= j < k < |front| ensures front[j] < front[k] {
      assert ns[j] == front[j] && ns[k] == front[k];
    }
    forall n | n in front ensures n < last {
      var j :| 0 <= j < |front| && front[j] == n;
      assert ns[j] == n && ns[|front|] == last;
    }
  }

  // ---------------------------------------------------------------- imports side by side

  /** One import on the ON CONFLICT path between two of its statements. */
  datatype Import = Import(rows: seq<Row>, pos: nat, seen: set<string>, inserted: nat, skipped: nat, pending: seq<Row>)

  function Started(rows: seq<Row>): Import { Import(rows, 0, {}, 0, 0, []) }

  /** One row of the loop, on a table other imports write too. */
  function Turn(table: seq<Row>, m: Import): (seq<Row>, Import)
    requires m.pos < |m.rows|
  {
    var row, next := m.rows[m.pos], m.(pos := m.pos + 1);
    if !Keyed(row) then (table, next.(pending := m.pending + [row], inserted := m.inserted + 1))
    else
      var key := row.externalId.value;
      if key in m.seen then (table, next.(skipped := m.skipped + 1))
      else if key in KeysOf(table) then (table, next.(seen := m.seen + {key}, skipped := m.skipped + 1))
      else (table + [row], next.(seen := m.seen + {key}, inserted := m.inserted + 1))
  }

  /** The loop's state after `n` rows with nobody else at work. */
  function Alone(table: seq<Row>, rows: seq<Row>, n: nat): (r: (seq<Row>, Import))
    requires n <= |rows|
    ensures r.1.rows == rows && r.1.pos == n
  {
    if n == 0 then (table, Started(rows)) else
      var before := Alone(table, rows, n - 1);
      Turn(before.0, before.1)
  }

  lemma PartSnoc(xs: seq<Row>, r: Row, keyed: bool)
    ensures Part(xs + [r], keyed) == Part(xs, keyed) + if Keyed(r) == keyed then [r] else []
  {
    assert (xs + [r])[..|xs|] == xs;
  }

  lemma NewRowsStep(rows: seq<Row>, n: nat, taken: set<string>)
    requires n < |rows|
    ensures NewRows(rows[..n + 1], taken)
            == NewRows(rows[..n], taken) + if Enters(rows, n, taken) then [rows[n]] else []
    ensures KeysOf(rows[..n + 1]) == KeysOf(rows[..n]) + KeyOf(rows[n])
  {
    assert rows[..n + 1][..n] == rows[..n];
  }

  /** What the loop has done after `n` rows. */
  ghost predicate Halfway(table: seq<Row>, rows: seq<Row>, n: nat, after: seq<Row>, m: Import)
    requires n <= |rows|
  {
    var entered := NewRows(rows[..n], KeysOf(table));
    && after == table + Part(entered, true) && m.pending == Part(entered, false)
    && m.seen == KeysOf(rows[..n]) && m.rows == rows && m.pos == n
    && m.inserted == |entered| && m.inserted + m.skipped == n
  }

  lemma HalfwayKeys(table: seq<Row>, rows: seq<Row>, n: nat, after: seq<Row>, m: Import)
    requires n <= |rows| && Halfway(table, rows, n, after, m)
    ensures KeysOf(after) == KeysOf(table) + KeysOf(rows[..n])
  {
    var entered := NewRows(rows[..n], KeysOf(table));
    PartKeys(entered);
    KeysOfConcat(table, Part(entered, true));
    NewRowsHoldNewKeys(rows[..n], KeysOf(table));
  }

  lemma HalfwayTurn(table: seq<Row>, rows: seq<Row>, n: nat, after: seq<Row>, m: Import)
    requires n < |rows| && Halfway(table, rows, n, after, m)
    ensures Halfway(table, rows, n + 1, Turn(after, m).0, Turn(after, m).1)
  {
    var taken, row := KeysOf(table), rows[n];
    var entered := NewRows(rows[..n], taken);
    HalfwayKeys(table, rows, n, after, m);
    NewRowsStep(rows, n, taken);
    var entered' := NewRows(rows[..n + 1], taken);
    var (after', m') := Turn(after, m);
    if Enters(rows, n, taken) {
      assert entered' == entered + [row];
      PartSnoc(entered, row, true);
      PartSnoc(entered, row, false);
    } else {
      assert entered' == entered;
    }
    assert Keyed(row) && Enters(rows, n, taken) ==> after' == after + [row];
    assert !(Keyed(row) && Enters(rows, n, taken)) ==> after' == after;
    assert after' == table + Part(entered', true);
    assert m'.pending == Part(entered', false);
    assert m'.seen == KeysOf(rows[..n + 1]);
  }

  lemma NothingDoneYet(table: seq<Row>, rows: seq<Row>)
    ensures Halfway(table, rows, 0, table, Started(rows))
  {
  }

  lemma {:induction false} AloneIsHalfway(table: seq<Row>, rows: seq<Row>, n: nat)
    requires n <= |rows|
    ensures Halfway(table, rows, n, Alone(table, rows, n).0, Alone(table, rows, n).1)
  {
    if n == 0 {
      NothingDoneYet(table, rows);
    } else {
      AloneIsHalfway(table, rows, n - 1);
      HalfwayTurn(table, rows, n - 1, Alone(table, rows, n - 1).0, Alone(table, rows, n - 1).1);
    }
  }

  /** Both orders of adding the new rows meet the specification. */
  lemma BothOrdersImport(before: seq<Row>, rows: seq<Row>)
    ensures var entering := NewRows(rows, KeysOf(before));
            && |entering| <= |rows|
            && Imported(before, before + entering, rows, |entering|, |rows| - |entering|)
            && Imported(before, before + Part(entering, true) + Part(entering, false), rows, |entering|,
                |rows| - |entering|)
  {
    NewRowsHoldNewKeys(rows, KeysOf(before));
    PartsMakeTheWhole(NewRows(rows, KeysOf(before)));
  }

  lemma SameRowsSameKeys(xs: seq<Row>, ys: seq<Row>)
    requires multiset(xs) == multiset(ys)
    ensures KeysOf(xs) <= KeysOf(ys)
  {
    forall key | key in KeysOf(xs) ensures key in KeysOf(ys) {
      var i := HasKeyAt(xs, key);
      assert xs[i] in multiset(ys);
      var j :| 0 <= j < |ys| && ys[j] == xs[i];
      KeysOfHasKey(ys, j);
    }
  }

  /** Re-uploading a file inserts exactly its rows without an identifier, whichever path took either upload. */
  lemma ReimportInsertsNothingKeyed(before: seq<Row>, after: seq<Row>, rows: seq<Row>, inserted: nat, skipped: nat)
    requires Imported(before, after, rows, inserted, skipped)
    ensures NewRows(rows, KeysOf(after)) == Part(rows, false)
  {
    ImportedKeysStay(before, after, rows, inserted, skipped);
    OnlyUnkeyedEnter(rows, KeysOf(after));
  }

  /** An import keeps the unique index whichever path it takes. */
  lemma ImportKeepsIndex(before: seq<Row>, rows: seq<Row>)
    requires IndexHolds(before) && NoEmptyKeys(before) && NoEmptyKeys(rows)
    ensures var entering := NewRows(rows, KeysOf(before));
            && NoEmptyKeys(before + entering) && IndexHolds(before + entering)
            && NoEmptyKeys(before + Part(entering, true) + Part(entering, false))
            && IndexHolds(before + Part(entering, true) + Part(entering, false))
  {
    var entering := NewRows(rows, KeysOf(before));
    NewRowsAreRows(rows, KeysOf(before));
    PartsAreRows(entering);
    NoEmptyKeysIn(before, rows, before + entering);
    NoEmptyKeysIn(before, rows, before + Part(entering, true) + Part(entering, false));
    ImportKeepsUnique(before, rows);
    PartsKeepUnique(before, entering);
  }

  lemma NoEmptyKeysIn(xs: seq<Row>, ys: seq<Row>, rows: seq<Row>)
    requires NoEmptyKeys(xs) && NoEmptyKeys(ys) && forall r :: r in rows ==> r in xs || r in ys
    ensures NoEmptyKeys(rows)
  {
    forall i | 0 <= i < |rows| ensures rows[i].externalId != Some("") {
      assert rows[i] in xs || rows[i] in ys;
    }
  }

  lemma {:induction false} NewRowsAreRows(rows: seq<Row>, taken: set<string>)
    ensures forall r :: r in NewRows(rows, taken) ==> r in rows
  {
    if rows != [] { NewRowsAreRows(rows[..|rows| - 1], taken); }
  }

  lemma {:induction false} PartsAreRows(rows: seq<Row>)
    ensures forall r :: r in Part(rows, true) || r in Part(rows, false) ==> r in rows
  {
    if rows != [] {
      PartsAreRows(rows[..|rows| - 1]);
      assert rows == rows[..|rows| - 1] + [rows[|rows| - 1]];
    }
  }

  datatype Desk = Desk(table: seq<Row>, imports: seq<Import>)

  datatype Action = Advance(i: nat) | Flush(i: nat)

  /** Imports that all commit take turns row by row: a conflicting insert waits for the other's commit, so
      each statement sees the keys inserted so far. */
  ghost predicate Step(d: Desk, a: Action, d': Desk) {
    && a.i < |d.imports|
    && var m := d.imports[a.i];
       match a
       case Advance(i) =>
         && m.pos < |m.rows|
         && d' == Desk(Turn(d.table, m).0, d.imports[i := Turn(d.table, m).1])
       case Flush(i) =>
         && m.pos == |m.rows|
         && d' == Desk(d.table + m.pending, d.imports[i := m.(pending := [])])
  }

  /** A run: every state follows from the one before by the action between them. */
  ghost predicate Run(states: seq<Desk>, actions: seq<Action>) {
    && |states| == |actions| + 1
    && forall k :: 0 <= k < |actions| ==> Step(states[k], actions[k], states[k + 1])
  }

  function Sum(imports: seq<Import>, weight: Import -> int): int {
    if imports == [] then 0 else Sum(imports[..|imports| - 1], weight) + weight(imports[|imports| - 1])
  }

  lemma {:induction false} SumUpdate(imports: seq<Import>, i: nat, m: Import, weight: Import -> int)
    requires i < |imports|
    ensures Sum(imports[i := m], weight) == Sum(imports, weight) - weight(imports[i]) + weight(m)
  {
    var n := |imports| - 1;
    if i < n {
      SumUpdate(imports[..n], i, m, weight);
      assert imports[i := m][..n] == imports[..n][i := m];
    } else {
      assert imports[i := m][..n] == imports[..n];
    }
  }

  /** The keys the imports have read so far. */
  function KeysRead(imports: seq<Import>): set<string> {
    set i, key | 0 <= i < |imports| && key in KeysOf(Read(imports[i])) :: key
  }

  function Read(m: Import): seq<Row> { if m.pos <= |m.rows| then m.rows[..m.pos] else [] }

  function UnkeyedRead(m: Import): nat { |Part(Read(m), false)| }
  function InsertedKeyed(m: Import): int { m.inserted - UnkeyedRead(m) }
  function InsertedIn(m: Import): int { m.inserted }
  function PendingIn(m: Import): int { |m.pending| }
  function UnkeyedIn(m: Import): int { |Part(m.rows, false)| }

  ghost predicate Consistent(m: Import, taken: set<string>) {
    && m.pos <= |m.rows| && m.inserted + m.skipped == m.pos
    && m.seen == KeysOf(Read(m)) && m.seen <= taken
    && forall i :: 0 <= i < |m.pending| ==> !Keyed(m.pending[i])
  }

  /** Every import agrees with the table. */
  ghost predicate AllConsistent(d: Desk) {
    forall i :: 0 <= i < |d.imports| ==> Consistent(d.imports[i], KeysOf(d.table))
  }

  ghost predicate Counted(start: seq<Row>, d: Desk) {
    && Sum(d.imports, InsertedKeyed) == |KeysOf(d.table) - KeysOf(start)|
    && Sum(d.imports, InsertedIn) == |d.table| - |start| + Sum(d.imports, PendingIn)
  }

  ghost predicate Inv(start: seq<Row>, d: Desk) {
    && start <= d.table && UniqueKeys(d.table) && AllConsistent(d) && Counted(start, d)
    && KeysOf(d.table) == KeysOf(start) + KeysRead(d.imports)
  }

  lemma ReadNext(m: Import)
    requires m.pos < |m.rows|
    ensures var next := m.(pos := m.pos + 1);
            && KeysOf(Read(next)) == KeysOf(Read(m)) + KeyOf(m.rows[m.pos])
            && UnkeyedRead(next) == UnkeyedRead(m) + if Keyed(m.rows[m.pos]) then 0 else 1
  {
    assert m.rows[..m.pos + 1] == m.rows[..m.pos] + [m.rows[m.pos]];
    KeysOfSnoc(Read(m), m.rows[m.pos]);
    PartSnoc(Read(m), m.rows[m.pos], false);
  }

  /** One row keeps the table unique and adds exactly the row's key. */
  lemma TurnKeepsUnique(table: seq<Row>, m: Import)
    requires UniqueKeys(table) && Consistent(m, KeysOf(table)) && m.pos < |m.rows|
    ensures var table' := Turn(table, m).0;
            table <= table' && UniqueKeys(table') && KeysOf(table') == KeysOf(table) + KeyOf(m.rows[m.pos])
  {
    var row := m.rows[m.pos];
    if Keyed(row) && row.externalId.value !in KeysOf(table) {
      UniqueSnoc(table, row);
      KeysOfSnoc(table, row);
    } else {
      assert KeysOf(table) == KeysOf(table) + KeyOf(row);
    }
  }

  lemma TurnKeepsConsistent(table: seq<Row>, m: Import)
    requires Consistent(m, KeysOf(table)) && m.pos < |m.rows|
    ensures var m' := Turn(table, m).1;
            && Consistent(m', KeysOf(table) + KeyOf(m.rows[m.pos])) && m'.rows == m.rows
            && KeysOf(Read(m')) == KeysOf(Read(m)) + KeyOf(m.rows[m.pos])
  {
    var row, m' := m.rows[m.pos], Turn(table, m).1;
    ReadNext(m);
    assert Read(m') == Read(m.(pos := m.pos + 1));
    assert m'.seen == m.seen + KeyOf(row);
  }

  lemma TurnShape(table: seq<Row>, m: Import)
    requires m.pos < |m.rows|
    ensures var (table', m') := Turn(table, m);
            && m'.rows == m.rows && m'.pos == m.pos + 1
            && m'.inserted - m.inserted == |table'| - |table| + |m'.pending| - |m.pending|
            && (|m'.pending| - |m.pending| == if Keyed(m.rows[m.pos]) then 0 else 1)
  {
  }

  /** It counts what it adds. */
  lemma TurnCounts(table: seq<Row>, m: Import)
    requires m.pos < |m.rows|
    ensures var (table', m') := Turn(table, m);
            InsertedKeyed(m') - InsertedKeyed(m) == |table'| - |table|
  {
    TurnShape(table, m);
    ReadNext(m);
    assert Read(Turn(table, m).1) == Read(m.(pos := m.pos + 1));
  }

  lemma TurnGrows(table: seq<Row>, m: Import)
    requires Consistent(m, KeysOf(table)) && m.pos < |m.rows|
    ensures var row := m.rows[m.pos];
            |KeyOf(row) - KeysOf(table)| == |Turn(table, m).0| - |table|
  {
    var row := m.rows[m.pos];
    if Keyed(row) && row.externalId.value !in KeysOf(table) {
      assert KeyOf(row) - KeysOf(table) == {row.externalId.value};
    } else {
      assert KeyOf(row) - KeysOf(table) == {};
    }
  }

  lemma KeysReadUpdate(imports: seq<Import>, i: nat, m: Import, more: set<string>)
    requires i < |imports| && KeysOf(Read(m)) == KeysOf(Read(imports[i])) + more
    ensures KeysRead(imports[i := m]) == KeysRead(imports) + more
  {
    var after := imports[i := m];
    forall key | key in KeysRead(after) ensures key in KeysRead(imports) + more {
      var j :| 0 <= j < |after| && key in KeysOf(Read(after[j]));
      assert j != i ==> after[j] == imports[j];
    }
    forall key | key in KeysRead(imports) + more ensures key in KeysRead(after) {
      if key in more {
        assert key in KeysOf(Read(after[i]));
      } else {
        var j :| 0 <= j < |imports| && key in KeysOf(Read(imports[j]));
        assert key in KeysOf(Read(after[j]));
      }
    }
  }

  lemma SetGrowth(taken: set<string>, keys: set<string>, more: set<string>)
    requires taken <= keys
    ensures |keys + more - taken| == |keys - taken| + |more - keys|
  {
    assert keys + more - taken == (keys - taken) + (more - keys);
  }

  lemma OthersStayConsistent(d: Desk, i: nat, m: Import, table: seq<Row>)
    requires i < |d.imports| && AllConsistent(d) && KeysOf(d.table) <= KeysOf(table) && Consistent(m, KeysOf(table))
    ensures AllConsistent(Desk(table, d.imports[i := m]))
  {
    var after := d.imports[i := m];
    forall j | 0 <= j < |after| ensures Consistent(after[j], KeysOf(table)) {
      assert j != i ==> after[j] == d.imports[j] && Consistent(d.imports[j], KeysOf(d.table));
    }
  }

  lemma RowKeepsCounted(start: seq<Row>, d: Desk, i: nat, d': Desk)
    requires Counted(start, d) && Step(d, Advance(i), d') && Consistent(d.imports[i], KeysOf(d.table))
    requires KeysOf(start) <= KeysOf(d.table) && UniqueKeys(d.table)
    ensures Counted(start, d')
  {
    var m := d.imports[i];
    var m' := Turn(d.table, m).1;
    TurnShape(d.table, m);
    TurnCounts(d.table, m);
    TurnGrows(d.table, m);
    TurnKeepsUnique(d.table, m);
    SumUpdate(d.imports, i, m', InsertedKeyed);
    SumUpdate(d.imports, i, m', InsertedIn);
    SumUpdate(d.imports, i, m', PendingIn);
    SetGrowth(KeysOf(start), KeysOf(d.table), KeyOf(m.rows[m.pos]));
  }

  lemma RowKeepsInv(start: seq<Row>, d: Desk, i: nat, d': Desk)
    requires Inv(start, d) && Step(d, Advance(i), d')
    ensures Inv(start, d')
  {
    var m := d.imports[i];
    var more, m' := KeyOf(m.rows[m.pos]), Turn(d.table, m).1;
    TurnKeepsUnique(d.table, m);
    TurnKeepsConsistent(d.table, m);
    KeysReadUpdate(d.imports, i, m', more);
    RowKeepsCounted(start, d, i, d');
    OthersStayConsistent(d, i, m', d'.table);
  }

  lemma {:induction false} UnkeyedHaveNoKeys(rows: seq<Row>)
    requires forall i :: 0 <= i < |rows| ==> !Keyed(rows[i])
    ensures KeysOf(rows) == {}
  {
    if rows != [] { UnkeyedHaveNoKeys(rows[..|rows| - 1]); }
  }

  lemma FlushKeepsTable(table: seq<Row>, pending: seq<Row>)
    requires UniqueKeys(table) && forall i :: 0 <= i < |pending| ==> !Keyed(pending[i])
    ensures UniqueKeys(table + pending) && KeysOf(table + pending) == KeysOf(table)
  {
    UnkeyedHaveNoKeys(pending);
    KeysOfConcat(table, pending);
  }

  lemma FlushKeepsCounted(start: seq<Row>, d: Desk, i: nat, d': Desk)
    requires Counted(start, d) && Step(d, Flush(i), d') && KeysOf(d'.table) == KeysOf(d.table)
    ensures Counted(start, d')
  {
    var m' := d.imports[i].(pending := []);
    SumUpdate(d.imports, i, m', InsertedKeyed);
    SumUpdate(d.imports, i, m', InsertedIn);
    SumUpdate(d.imports, i, m', PendingIn);
  }

  lemma FlushKeepsInv(start: seq<Row>, d: Desk, i: nat, d': Desk)
    requires Inv(start, d) && Step(d, Flush(i), d')
    ensures Inv(start, d')
  {
    var m := d.imports[i];
    var m' := m.(pending := []);
    assert Consistent(m, KeysOf(d.table));
    FlushKeepsTable(d.table, m.pending);
    KeysReadUpdate(d.imports, i, m', {});
    FlushKeepsCounted(start, d, i, d');
    OthersStayConsistent(d, i, m', d'.table);
  }

  /** All the imports at work on one table, none of which has read a row. */
  ghost predicate Opening(start: seq<Row>, files: seq<seq<Row>>, d: Desk) {
    && d.table == start && |d.imports| == |files|
    && forall i :: 0 <= i < |files| ==> d.imports[i] == Started(files[i])
  }

  ghost predicate Finished(d: Desk) {
    forall i :: 0 <= i < |d.imports| ==> d.imports[i].pos == |d.imports[i].rows| && d.imports[i].pending == []
  }

  lemma {:induction false} SumSplits(imports: seq<Import>)
    requires forall i :: 0 <= i < |imports| ==> imports[i].pos == |imports[i].rows|
    ensures Sum(imports, InsertedIn) == Sum(imports, InsertedKeyed) + Sum(imports, UnkeyedIn)
  {
    if imports != [] {
      var m := imports[|imports| - 1];
      SumSplits(imports[..|imports| - 1]);
      assert Read(m) == m.rows;
    }
  }

  lemma {:induction false} SumOfNothing(imports: seq<Import>, weight: Import -> int)
    requires forall i :: 0 <= i < |imports| ==> weight(imports[i]) == 0
    ensures Sum(imports, weight) == 0
  {
    if imports != [] { SumOfNothing(imports[..|imports| - 1], weight); }
  }

  lemma OpeningHasInv(start: seq<Row>, files: seq<seq<Row>>, d: Desk)
    requires Opening(start, files, d) && UniqueKeys(start)
    ensures Inv(start, d)
  {
    forall i | 0 <= i < |d.imports| ensures d.imports[i] == Started(files[i]) {}
    assert forall i :: 0 <= i < |d.imports| ==> Read(d.imports[i]) == [];
    SumOfNothing(d.imports, InsertedKeyed);
    SumOfNothing(d.imports, InsertedIn);
    SumOfNothing(d.imports, PendingIn);
    assert KeysOf(d.table) - KeysOf(start) == {};
    assert KeysRead(d.imports) == {};
  }

  ghost predicate SameFiles(d: Desk, files: seq<seq<Row>>) {
    |d.imports| == |files| && forall i :: 0 <= i < |files| ==> d.imports[i].rows == files[i]
  }

  lemma StepKeepsFiles(files: seq<seq<Row>>, d: Desk, a: Action, d': Desk)
    requires SameFiles(d, files) && Step(d, a, d')
    ensures SameFiles(d', files)
  {
  }

  lemma StepKeepsInv(start: seq<Row>, d: Desk, a: Action, d': Desk)
    requires Inv(start, d) && Step(d, a, d')
    ensures Inv(start, d')
  {
    match a
    case Advance(i) => RowKeepsInv(start, d, i, d');
    case Flush(i) => FlushKeepsInv(start, d, i, d');
  }

  lemma {:induction false} RunsKeepInv(start: seq<Row>, files: seq<seq<Row>>, states: seq<Desk>, actions: seq<Action>)
    requires Run(states, actions) && Opening(start, files, states[0]) && UniqueKeys(start)
    ensures Inv(start, states[|actions|]) && SameFiles(states[|actions|], files)
  {
    if actions == [] {
      OpeningHasInv(start, files, states[0]);
    } else {
      var n := |actions| - 1;
      RunsKeepInv(start, files, states[..n + 1], actions[..n]);
      StepKeepsFiles(files, states[n], actions[n], states[n + 1]);
      StepKeepsInv(start, states[n], actions[n], states[n + 1]);
    }
  }

  function KeysOfFiles(files: seq<seq<Row>>): set<string> {
    set i, key | 0 <= i < |files| && key in KeysOf(files[i]) :: key
  }

  function Unkeyed(files: seq<seq<Row>>): nat {
    if files == [] then 0 else Unkeyed(files[..|files| - 1]) + |Part(files[|files| - 1], false)|
  }

  lemma {:induction false} UnkeyedByImport(imports: seq<Import>, files: seq<seq<Row>>)
    requires |imports| == |files| && forall i :: 0 <= i < |files| ==> imports[i].rows == files[i]
    ensures Sum(imports, UnkeyedIn) == Unkeyed(files)
  {
    if files != [] { UnkeyedByImport(imports[..|imports| - 1], files[..|files| - 1]); }
  }

  lemma FinishedHaveReadAll(d: Desk, files: seq<seq<Row>>)
    requires SameFiles(d, files) && Finished(d)
    ensures KeysRead(d.imports) == KeysOfFiles(files)
  {
    forall i | 0 <= i < |files| ensures Read(d.imports[i]) == files[i] {}
    forall key ensures key in KeysRead(d.imports) <==> key in KeysOfFiles(files) {
      if key in KeysRead(d.imports) {
        var i :| 0 <= i < |d.imports| && key in KeysOf(Read(d.imports[i]));
        assert key in KeysOf(files[i]);
      }
      if key in KeysOfFiles(files) {
        var i :| 0 <= i < |files| && key in KeysOf(files[i]);
        assert key in KeysOf(Read(d.imports[i]));
      }
    }
  }

  /** Any number of uploads at once, in any order of their rows: every identifier ends up in the table
      once, nothing stored before is touched, every row is counted inserted or skipped, and the inserted
      counts total the new identifiers plus the rows without one, whoever won each identifier. */
  lemma ImportsSideBySide(start: seq<Row>, files: seq<seq<Row>>, states: seq<Desk>, actions: seq<Action>)
    requires Run(states, actions) && Opening(start, files, states[0]) && UniqueKeys(start)
    ensures UniqueKeys(states[|actions|].table) && start <= states[|actions|].table
    ensures Finished(states[|actions|]) ==>
              var d := states[|actions|];
              && KeysOf(d.table) == KeysOf(start) + KeysOfFiles(files)
              && |d.imports| == |files|
              && (forall i :: 0 <= i < |files| ==> d.imports[i].inserted + d.imports[i].skipped == |files[i]|)
              && Sum(d.imports, InsertedIn) == |KeysOfFiles(files) - KeysOf(start)| + Unkeyed(files)
              && |d.table| == |start| + Sum(d.imports, InsertedIn)
  {
    RunsKeepInv(start, files, states, actions);
    var d := states[|actions|];
    if Finished(d) {
      FinishedHaveReadAll(d, files);
      SumSplits(d.imports);
      SumOfNothing(d.imports, PendingIn);
      UnkeyedByImport(d.imports, files);
      assert KeysOf(start) + KeysOfFiles(files) - KeysOf(start) == KeysOfFiles(files) - KeysOf(start);
      forall i | 0 <= i < |files| ensures d.imports[i].inserted + d.imports[i].skipped == |files[i]| {
        assert Consistent(d.imports[i], KeysOf(d.table));
      }
    }
  }

  // ---------------------------------------------------------------- the code

  datatype Report = Report(received: nat, inserted: nat, skipped: nat, errors: seq<RowError>)

  class BankService {
    const postgres: bool
    const validator: Validator
    var table: seq<Row>

    constructor (postgres: bool, validator: Validator)
      ensures this.postgres == postgres && this.validator == validator && table == []
    {
      this.postgres := postgres;
      this.validator := validator;
      table := [];
    }

    /** ON CONFLICT DO NOTHING: keyed rows go straight to the table, the others at the final flush. */
    method InsertPostgres(parsed: seq<Row>) returns (inserted: nat, skipped: nat)
      requires NoEmptyKeys(parsed)
      modifies this
      ensures Imported(old(table), table, parsed, inserted, skipped)
      ensures var entering := NewRows(parsed, KeysOf(old(table)));
              table == old(table) + Part(entering, true) + Part(entering, false)
    {
      inserted, skipped := 0, 0;
      var seenInFile: set<string>, pending: seq<Row> := {}, [];
      for i := 0 to |parsed|
        invariant Alone(old(table), parsed, i) == (table, Import(parsed, i, seenInFile, inserted, skipped, pending))
      {
        var row := parsed[i];
        if Keyed(row) && row.externalId.value in seenInFile {
          skipped := skipped + 1;
          continue;
        }
        if Keyed(row) {
          seenInFile := seenInFile + {row.externalId.value};
        }
        if Keyed(row) {
          if row.externalId.value in KeysOf(table) {
            skipped := skipped + 1;
          } else {
            table := table + [row];
            inserted := inserted + 1;
          }
        } else {
          pending := pending + [row];
          inserted := inserted + 1;
        }
      }
      AloneIsHalfway(old(table), parsed, |parsed|);
      assert parsed[..|parsed|] == parsed;
      BothOrdersImport(old(table), parsed);
      table := table + pending;
    }

    /** Which of the candidates identify a row of the table, in one query. */
    method ExistingExternalIds(candidates: set<string>) returns (existing: set<string>)
      ensures forall key :: key in existing <==>
                key in candidates && exists i :: 0 <= i < |table| && table[i].externalId == Some(key)
    {
      existing := {};
      if candidates == {} {
        return;
      }
      for i := 0 to |table|
        invariant forall key :: key in existing <==>
                    key in candidates && exists j :: 0 <= j < i && table[j].externalId == Some(key)
      {
        var id := table[i].externalId;
        if id.Some? && id.value in candidates {
          existing := existing + {id.value};
        }
      }
    }

    /** The pre-check path. */
    method InsertSqliteSafe(parsed: seq<Row>) returns (inserted: nat, skipped: nat)
      requires NoEmptyKeys(parsed)
      modifies this
      ensures Imported(old(table), table, parsed, inserted, skipped)
      ensures table == old(table) + NewRows(parsed, KeysOf(old(table)))
    {
      var existing := ExistingExternalIds(KeysOf(parsed));
      assert existing == KeysOf(parsed) * KeysOf(table) by {
        forall key | key in KeysOf(parsed) ensures key in existing <==> key in KeysOf(table) {
          var i := HasKeyAt(parsed, key);
          IdentifiesARow(table, key);
        }
      }
      inserted, skipped := 0, 0;
      var seenInFile: set<string>, added: seq<Row> := {}, [];
      for i := 0 to |parsed|
        invariant table == old(table)
        invariant seenInFile == KeysOf(parsed[..i]) - existing
        invariant added == NewRows(parsed[..i], KeysOf(table)) && inserted == |added| && inserted + skipped == i
      {
        NewRowsStep(parsed, i, KeysOf(table));
        KeysOfHasKey(parsed, i);
        var row := parsed[i];
        ghost var refused := Keyed(row) && (row.externalId.value in existing || row.externalId.value in seenInFile);
        assert Enters(parsed, i, KeysOf(table)) <==> !refused;
        if Keyed(row) && (row.externalId.value in existing || row.externalId.value in seenInFile) {
          assert NewRows(parsed[..i + 1], KeysOf(table)) == added;
          skipped := skipped + 1;
          continue;
        }
        if Keyed(row) {
          seenInFile := seenInFile + {row.externalId.value};
        }
        assert NewRows(parsed[..i + 1], KeysOf(table)) == added + [row];
        added := added + [row];
        inserted := inserted + 1;
      }
      assert parsed[..|parsed|] == parsed;
      BothOrdersImport(table, parsed);
      table := table + added;
    }

    /** `import_csv`; None is a file without a header. */
    method ImportCsv(file: Option<seq<Cells>>) returns (report: Report)
      modifies this
      ensures file.None? ==> report == Report(0, 0, 0, [RowError(0, "The file has no header")]) && table == old(table)
      ensures file.Some? ==>
                && report.received == Received(file.value)
                && report.errors == RowErrors(file.value, validator)
                && Imported(old(table), table, ParsedRows(file.value, validator), report.inserted, report.skipped)
                && report.received == report.inserted + report.skipped + |report.errors|
      ensures old(IndexHolds(table) && NoEmptyKeys(table)) ==> IndexHolds(table) && NoEmptyKeys(table)
    {
      if file.None? {
        return Report(0, 0, 0, [RowError(0, "The file has no header")]);
      }
      var lines := file.value;
      var parsed: seq<Row>, errors: seq<RowError>, received := [], [], 0;
      for i := 0 to |lines|
        invariant parsed == ParsedRows(lines[..i], validator)
        invariant errors == RowErrors(lines[..i], validator)
        invariant received == Received(lines[..i])
      {
        assert lines[..i + 1][..i] == lines[..i];
        if Blank(lines[i]) {
          continue;
        }
        received := received + 1;
        match validator.check(lines[i])
        case Ok(row) => parsed := parsed + [row];
        case Err(reason) => errors := errors + [RowError(i + 1, reason)];
      }
      assert lines[..|lines|] == lines;
      NothingIsLost(lines, validator);
      ParsedKeysAreNotEmpty(lines, validator);
      if IndexHolds(table) && NoEmptyKeys(table) {
        ImportKeepsIndex(table, parsed);
      }
      var inserted, skipped;
      if postgres {
        inserted, skipped := InsertPostgres(parsed);
      } else {
        inserted, skipped := InsertSqliteSafe(parsed);
      }
      return Report(received, inserted, skipped, errors);
    }

    /** Uploading yesterday's file again. */
    method ImportTwice(lines: seq<Cells>)
      returns (first: Report, second: Report, ghost entering: seq<nat>, ghost kept: seq<nat>)
      modifies this
      ensures InOrder(entering) && second.inserted == |entering| && InOrder(kept) && second.skipped == |kept|
      ensures forall n :: n in entering <==>
                            && 0 <= n < |lines| && ValidLine(validator, lines[n])
                            && !Visible(validator.idCell(lines[n]))
      ensures forall n :: n in kept <==>
                            && 0 <= n < |lines| && ValidLine(validator, lines[n])
                            && Visible(validator.idCell(lines[n]))
      ensures second.received == first.received && second.errors == first.errors
    {
      ghost var before := table;
      first := ImportCsv(Some(lines));
      ghost var after := table;
      second := ImportCsv(Some(lines));
      entering, kept := ReuploadLines(before, after, table, lines, validator,
                                      first.inserted, first.skipped, second.inserted, second.skipped);
    }
  }
}
