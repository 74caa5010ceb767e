/**
 * `parse_ranking`: the (name, points) pairs of the ranking table of one page.
 * The HTML parser is not modelled; a page is the tree it would produce.
 */
module Extract {
  import opened Wrappers
  import opened Text

  datatype Tag = Th | Td

  /** A cell of a row; `classes` is None when the element has no class attribute. */
  datatype Cell = Cell(tag: Tag, classes: Option<set<string>>, text: string)

  datatype Row = Row(cells: seq<Cell>)

  datatype Table = Table(classes: Option<set<string>>, rows: seq<Row>)

  /** The tables of a page, in document order. */
  type Document = seq<Table>

  /** One (person, points) pair of a ranking. */
  datatype Entry = Entry(name: string, score: int)

  /** Why a page cannot be read; Python raises KeyError or ValueError in these cases. */
  datatype Error =
    | MissingClass                         // an inspected element has no class attribute
    | NoUniqueRankingTable(count: nat)     // not exactly one table of class table-ranking
    | NoUniqueNameCell(count: nat)         // a data row without exactly one user-cell
    | NotAnInteger(text: string)           // a non-blank text-right cell that int() rejects
    | TooFewScores(count: nat)             // fewer than two non-blank text-right cells

  const RankingClass := "table-ranking"
  const NameClass := "user-cell"
  const ScoreClass := "text-right"

  predicate HasClass(classes: Option<set<string>>, c: string) {
    classes.Some? && c in classes.value
  }

  // ---- selecting the table ----

  predicate TablesClassed(doc: Document) {
    forall k :: 0 <= k < |doc| ==> doc[k].classes.Some?
  }

  /** The tables whose classes contain table-ranking, in document order. */
  function RankingTables(doc: Document): seq<Table> {
    if doc == [] then []
    else (if HasClass(doc[0].classes, RankingClass) then [doc[0]] else []) + RankingTables(doc[1..])
  }

  /** The positions of the page's tables marked table-ranking. */
  function MarkedPositions(doc: Document): set<nat> {
    set k: nat | k < |doc| && HasClass(doc[k].classes, RankingClass)
  }

  lemma {:induction false} RankingTablesAppend(doc: Document, t: Table)
    ensures RankingTables(doc + [t]) == RankingTables(doc) + (if HasClass(t.classes, RankingClass) then [t] else [])
    decreases |doc|
  {
    if doc == [] {
      assert [t][1..] == [];
    } else {
      assert (doc + [t])[1..] == doc[1..] + [t];
      RankingTablesAppend(doc[1..], t);
    }
  }

  /** There are as many ranking tables as marked positions on the page, duplicates included. */
  lemma {:induction false} RankingTablesCount(doc: Document)
    ensures |RankingTables(doc)| == |MarkedPositions(doc)|
    decreases |doc|
  {
    if doc == [] {
      assert MarkedPositions(doc) == {};
    } else {
      var n := |doc| - 1;
      var init := doc[..n];
      RankingTablesCount(init);
      assert doc == init + [doc[n]];
      RankingTablesAppend(init, doc[n]);
      MarkedPositionsStep(doc);
    }
  }

  lemma MarkedPositionsStep(doc: Document)
    requires doc != []
    ensures var n := |doc| - 1;
      && n !in MarkedPositions(doc[..n])
      && MarkedPositions(doc) == MarkedPositions(doc[..n]) + (if HasClass(doc[n].classes, RankingClass) then {n} else {})
  {
    var n := |doc| - 1;
    var init := doc[..n];
    forall k: nat | k < n ensures init[k] == doc[k] { }
  }

  /** RankingTables keeps exactly the tables marked table-ranking. */
  lemma {:induction false} RankingTablesSpec(doc: Document)
    ensures forall t :: t in RankingTables(doc) <==> t in doc && HasClass(t.classes, RankingClass)
  {
    if doc != [] {
      RankingTablesSpec(doc[1..]);
      assert doc == [doc[0]] + doc[1..];
    }
  }

  /** Unpacking the ranking tables into exactly one: that table, or a failure. */
  function SelectTable(doc: Document): (r: Result<Table, Error>)
    ensures r.Success? <==> TablesClassed(doc) && |RankingTables(doc)| == 1
    ensures TablesClassed(doc) && |RankingTables(doc)| != 1 ==> r == Failure(NoUniqueRankingTable(|RankingTables(doc)|))
  {
    if !TablesClassed(doc) then Failure(MissingClass)
    else
      var tables := RankingTables(doc);
      if |tables| != 1 then Failure(NoUniqueRankingTable(|tables|)) else Success(tables[0])
  }

  /** The selected table is a table of the page, marked table-ranking, and the only one so marked. */
  lemma SelectTableUnique(doc: Document)
    requires SelectTable(doc).Success?
    ensures var t := SelectTable(doc).value;
      && t in doc && HasClass(t.classes, RankingClass)
      && forall k :: 0 <= k < |doc| && HasClass(doc[k].classes, RankingClass) ==> doc[k] == t
  {
    RankingTablesSpec(doc);
    var tables := RankingTables(doc);
    assert tables[0] in tables;
    forall k | 0 <= k < |doc| && HasClass(doc[k].classes, RankingClass)
      ensures doc[k] == tables[0]
    {
      assert doc[k] in tables;
    }
  }

  // ---- one row ----

  /** The row has a header cell. */
  predicate IsHeader(row: Row) {
    exists k :: 0 <= k < |row.cells| && row.cells[k].tag == Th
  }

  /** The data cells of a row, in row order. */
  function DataCells(cells: seq<Cell>): seq<Cell> {
    if cells == [] then []
    else (if cells[0].tag == Td then [cells[0]] else []) + DataCells(cells[1..])
  }

  predicate CellsClassed(cells: seq<Cell>) {
    forall k :: 0 <= k < |cells| ==> cells[k].classes.Some?
  }

  /** The cells of class user-cell. */
  function NameCells(cells: seq<Cell>): seq<Cell> {
    if cells == [] then []
    else (if HasClass(cells[0].classes, NameClass) then [cells[0]] else []) + NameCells(cells[1..])
  }

  /** A text-right cell whose text is not blank. */
  predicate IsScoreCell(c: Cell) {
    HasClass(c.classes, ScoreClass) && Strip(c.text) != []
  }

  /** The candidate score cells, in row order. */
  function ScoreCells(cells: seq<Cell>): seq<Cell> {
    if cells == [] then []
    else (if IsScoreCell(cells[0]) then [cells[0]] else []) + ScoreCells(cells[1..])
  }

  /**
   * Converting the candidate cells with `int()`: every cell's integer value, or the
   * first text that is not an integer.
   */
  function ScoreValues(cells: seq<Cell>): Result<seq<int>, Error> {
    if cells == [] then Success([])
    else match ParseInt(cells[0].text)
      case None => Failure(NotAnInteger(cells[0].text))
      case Some(v) =>
        match ScoreValues(cells[1..])
        case Failure(e) => Failure(e)
        case Success(vs) => Success([v] + vs)
  }

  /** The conversion fails exactly when some cell is not an integer, and otherwise converts every cell. */
  lemma {:induction false} ScoreValuesSpec(cells: seq<Cell>)
    ensures var r := ScoreValues(cells);
      && (r.Success? <==> forall k :: 0 <= k < |cells| ==> ParseInt(cells[k].text).Some?)
      && (r.Success? ==>
            && |r.value| == |cells|
            && forall k :: 0 <= k < |cells| ==> ParseInt(cells[k].text) == Some(r.value[k]))
  {
    if cells != [] {
      ScoreValuesSpec(cells[1..]);
      assert forall k :: 0 <= k < |cells| - 1 ==> cells[1..][k] == cells[k + 1];
    }
  }

  /**
   * The pair a non-header row yields: the stripped text of its one user-cell
   * and the value of its second non-blank text-right cell.
   */
  function ParseRow(row: Row): Result<Entry, Error> {
    var tds := DataCells(row.cells);
    if !CellsClassed(tds) then Failure(MissingClass)
    else
      var names := NameCells(tds);
      if |names| != 1 then Failure(NoUniqueNameCell(|names|))
      else
        match ScoreValues(ScoreCells(tds))
        case Failure(e) => Failure(e)
        case Success(points) =>
          if |points| < 2 then Failure(TooFewScores(|points|))
          else Success(Entry(Strip(names[0].text), points[1]))
  }

  /**
   * A row yields a pair exactly when every data cell has a class, exactly one
   * is a user-cell, there are at least two candidate score cells and all of
   * them (not only the second) are integers; the name is the user-cell's
   * stripped text and the score the second candidate's value.
   */
  lemma ParseRowSpec(row: Row)
    ensures var tds := DataCells(row.cells);
      var candidates := ScoreCells(tds);
      ParseRow(row).Success? <==>
        && CellsClassed(tds)
        && |NameCells(tds)| == 1
        && |candidates| >= 2
        && forall k :: 0 <= k < |candidates| ==> ParseInt(candidates[k].text).Some?
    ensures var tds := DataCells(row.cells);
      var candidates := ScoreCells(tds);
      ParseRow(row).Success? ==>
        && ParseRow(row).value.name == Strip(NameCells(tds)[0].text)
        && ParseInt(candidates[1].text) == Some(ParseRow(row).value.score)
  {
    ScoreValuesSpec(ScoreCells(DataCells(row.cells)));
  }

  // ---- the table ----

  /** The rows of a table that are not header rows, in table order. */
  function DataRows(rows: seq<Row>): seq<Row> {
    if rows == [] then []
    else (if IsHeader(rows[0]) then [] else [rows[0]]) + DataRows(rows[1..])
  }

  /**
   * Drains a sequence of per-row outcomes as the generator's consumer does:
   * all the values, or the first failure.
   */
  function Collect<T>(rs: seq<Result<T, Error>>): Result<seq<T>, Error>
  {
    if rs == [] then Success([])
    else match rs[0]
      case Failure(e) => Failure(e)
      case Success(v) =>
        match Collect(rs[1..])
        case Failure(e) => Failure(e)
        case Success(vs) => Success([v] + vs)
  }

  lemma {:induction false} CollectSpec<T>(rs: seq<Result<T, Error>>)
    ensures Collect(rs).Success? <==> forall k :: 0 <= k < |rs| ==> rs[k].Success?
    ensures Collect(rs).Success? ==>
              && |Collect(rs).value| == |rs|
              && forall k :: 0 <= k < |rs| ==> rs[k] == Success(Collect(rs).value[k])
    ensures Collect(rs).Failure? ==>
              exists k :: 0 <= k < |rs| && rs[k] == Failure(Collect(rs).error) && AllSucceed(rs[..k])
  {
    if rs != [] {
      CollectSpec(rs[1..]);
      assert forall k :: 0 <= k < |rs| - 1 ==> rs[1..][k] == rs[k + 1];
      if rs[0].Failure? {
        assert AllSucceed(rs[..0]);
      } else if Collect(rs).Failure? {
        var k :| 0 <= k < |rs| - 1 && rs[1..][k] == Failure(Collect(rs).error) && AllSucceed(rs[1..][..k]);
        assert rs[..k + 1] == [rs[0]] + rs[1..][..k];
        assert rs[k + 1] == Failure(Collect(rs).error) && AllSucceed(rs[..k + 1]);
      }
    }
  }

  predicate AllSucceed<T>(rs: seq<Result<T, Error>>) {
    forall k :: 0 <= k < |rs| ==> rs[k].Success?
  }

  /** The outcome of each non-header row, in table order. */
  function RowOutcomes(rows: seq<Row>): (r: seq<Result<Entry, Error>>)
    ensures |r| == |DataRows(rows)| && forall k :: 0 <= k < |r| ==> r[k] == ParseRow(DataRows(rows)[k])
  {
    var data := DataRows(rows);
    seq(|data|, k requires 0 <= k < |data| => ParseRow(data[k]))
  }

  /** Every outcome succeeds exactly when every non-header row yields a pair. */
  lemma OutcomesSucceed(rows: seq<Row>)
    ensures AllSucceed(RowOutcomes(rows)) <==> forall k :: 0 <= k < |DataRows(rows)| ==> ParseRow(DataRows(rows)[k]).Success?
  {
    var data, rs := DataRows(rows), RowOutcomes(rows);
    if AllSucceed(rs) {
      forall k | 0 <= k < |data| ensures ParseRow(data[k]).Success? {
        assert rs[k] == ParseRow(data[k]) && rs[k].Success?;
      }
    } else {
      var k :| 0 <= k < |rs| && !rs[k].Success?;
      assert rs[k] == ParseRow(data[k]);
      assert k < |DataRows(rows)| && !ParseRow(DataRows(rows)[k]).Success?;
    }
  }

  /** The generator's loop over the table's rows, drained: header rows are skipped. */
  function ParseRows(rows: seq<Row>): Result<seq<Entry>, Error> {
    Collect(RowOutcomes(rows))
  }

  /**
   * One pair per non-header row, in row order, exactly when every non-header
   * row yields one; otherwise the failure of the first non-header row that fails.
   */
  lemma ParseRowsSpec(rows: seq<Row>)
    ensures ParseRows(rows).Success? <==> forall k :: 0 <= k < |DataRows(rows)| ==> ParseRow(DataRows(rows)[k]).Success?
    ensures ParseRows(rows).Success? ==>
              && |ParseRows(rows).value| == |DataRows(rows)|
              && forall k :: 0 <= k < |DataRows(rows)| ==> ParseRow(DataRows(rows)[k]) == Success(ParseRows(rows).value[k])
    ensures ParseRows(rows).Failure? ==>
              exists k :: 0 <= k < |DataRows(rows)| && ParseRow(DataRows(rows)[k]) == Failure(ParseRows(rows).error)
                && forall j :: 0 <= j < k ==> ParseRow(DataRows(rows)[j]).Success?
  {
    var data, rs := DataRows(rows), RowOutcomes(rows);
    CollectSpec(rs);
    OutcomesSucceed(rows);
    var r := Collect(rs);
    if r.Success? {
      forall k | 0 <= k < |data| ensures ParseRow(data[k]) == Success(r.value[k]) {
        assert rs[k] == ParseRow(data[k]);
      }
    } else {
      var k :| 0 <= k < |rs| && rs[k] == Failure(r.error) && AllSucceed(rs[..k]);
      assert rs[k] == ParseRow(data[k]);
      forall j | 0 <= j < k ensures ParseRow(data[j]).Success? {
        assert rs[..k][j] == rs[j] == ParseRow(data[j]);
      }
    }
  }

  /** `parse_ranking(page)`, with the whole generator drained. */
  function ParseRanking(doc: Document): (r: Result<seq<Entry>, Error>)
    ensures r.Success? ==> TablesClassed(doc) && |RankingTables(doc)| == 1
    ensures TablesClassed(doc) && |RankingTables(doc)| != 1 ==> r == Failure(NoUniqueRankingTable(|RankingTables(doc)|))
    ensures TablesClassed(doc) && |RankingTables(doc)| == 1 ==> r == ParseRows(RankingTables(doc)[0].rows)
  {
    match SelectTable(doc)
    case Failure(e) => Failure(e)
    case Success(table) => ParseRows(table.rows)
  }

  // ---- worked examples ----

  function TextCell(classes: set<string>, text: string): Cell {
    Cell(Td, Some(classes), text)
  }

  /** A ranking row: position, name, points. */
  function ExampleRow(position: string, name: string, points: string): Row {
    Row([TextCell({ScoreClass}, position), TextCell({NameClass}, name), TextCell({ScoreClass}, points)])
  }

  /** A page whose ranking-table marker appears on two tables is rejected, not read from either. */
  lemma TwoRankingTablesFail()
    ensures ParseRanking([Table(Some({RankingClass}), []), Table(Some({RankingClass, "wide"}), [])])
         == Failure(NoUniqueRankingTable(2))
  {
    var doc := [Table(Some({RankingClass}), []), Table(Some({RankingClass, "wide"}), [])];
    assert doc[1..][1..] == [];
    assert RankingTables(doc[1..]) == [doc[1]];
    assert RankingTables(doc) == doc;
  }

  /** A data row with two user-cells fails the whole page instead of being skipped. */
  lemma TwoNameCellsFail()
    ensures ParseRow(Row([TextCell({NameClass}, "Ala"), TextCell({NameClass}, "Ola"),
                          TextCell({ScoreClass}, "1"), TextCell({ScoreClass}, "7")]))
         == Failure(NoUniqueNameCell(2))
  {
    var cells := [TextCell({NameClass}, "Ala"), TextCell({NameClass}, "Ola"),
                  TextCell({ScoreClass}, "1"), TextCell({ScoreClass}, "7")];
    assert DataCells(cells) == cells by {
      assert cells[1..][1..][1..][1..] == [];
      assert DataCells(cells[1..][1..][1..]) == cells[1..][1..][1..];
      assert DataCells(cells[1..][1..]) == cells[1..][1..];
      assert DataCells(cells[1..]) == cells[1..];
    }
    assert |NameCells(cells)| == 2 by {
      assert NameClass != ScoreClass by { assert NameClass[0] != ScoreClass[0]; }
      assert cells[1..][1..][1..][1..] == [];
      assert NameCells(cells[1..][1..][1..]) == [];
      assert NameCells(cells[1..][1..]) == [];
    }
    assert CellsClassed(cells);
  }

  lemma StripExample()
    ensures Strip(" Ala\n") == "Ala"
  {
    var name := "Ala";
    assert !IsSpace('A') && !IsSpace('a');
    assert |name| == 3 && name[0] == 'A' && name[2] == 'a';
    StripSplit(StrSpaces, " ", name, "\n");
    assert " " + name + "\n" == " Ala\n";
  }

  lemma IntExamples()
    ensures ParseInt("1") == Some(1) && ParseInt("42") == Some(42)
  {
    ParseShowInt(1, "", "");
    ParseShowInt(42, "", "");
    assert ShowInt(1) == "1" && ShowInt(42) == "42";
    assert "" + "1" + "" == "1" && "" + "42" + "" == "42";
  }

  lemma StripNumbers()
    ensures Strip("1") == "1" && Strip("42") == "42"
  {
    assert "" + "1" + "" == "1" && "" + "42" + "" == "42";
    StripSplit(StrSpaces, "", "1", "");
    StripSplit(StrSpaces, "", "42", "");
  }

  /** The cells of the example row, sorted into data, name and candidate score cells. */
  lemma ExampleRowCells()
    ensures var cells := ExampleRow("1", " Ala\n", "42").cells;
      && DataCells(cells) == cells
      && NameCells(cells) == [cells[1]]
      && ScoreCells(cells) == [cells[0], cells[2]]
  {
    var cells := ExampleRow("1", " Ala\n", "42").cells;
    assert cells[1..][1..][1..] == [];
    assert DataCells(cells[1..][1..]) == cells[1..][1..];
    assert DataCells(cells[1..]) == cells[1..];
    assert NameClass != ScoreClass by { assert NameClass[0] != ScoreClass[0]; }
    assert NameCells(cells[1..][1..]) == [];
    assert NameCells(cells[1..]) == [cells[1]];
    ExampleScoreCells(cells);
  }

  lemma ExampleScoreCells(cells: seq<Cell>)
    requires cells == ExampleRow("1", " Ala\n", "42").cells
    requires NameClass != ScoreClass
    ensures ScoreCells(cells) == [cells[0], cells[2]]
  {
    StripNumbers();
    assert IsScoreCell(cells[0]) && IsScoreCell(cells[2]) && !IsScoreCell(cells[1]);
    assert cells[1..][1..][1..] == [];
    assert ScoreCells(cells[1..][1..]) == [cells[2]];
    assert ScoreCells(cells[1..]) == [cells[2]];
  }

  lemma ExampleRowScores()
    ensures var cells := ExampleRow("1", " Ala\n", "42").cells;
      ScoreValues([cells[0], cells[2]]) == Success([1, 42])
  {
    var cells := ExampleRow("1", " Ala\n", "42").cells;
    var cs := [cells[0], cells[2]];
    IntExamples();
    assert cs[1..] == [cells[2]] && cs[1..][1..] == [];
    assert cells[0].text == "1" && cells[2].text == "42";
    assert ScoreValues(cs[1..][1..]) == Success([]);
    assert [42] + [] == [42] && [1] + [42] == [1, 42];
    assert ScoreValues(cs[1..]) == Success([42]);
  }

  /** The name is stripped, the position is discarded and the second number is the score. */
  lemma ExampleRowParses()
    ensures ParseRow(ExampleRow("1", " Ala\n", "42")) == Success(Entry("Ala", 42))
  {
    var cells := ExampleRow("1", " Ala\n", "42").cells;
    ExampleRowCells();
    ExampleRowScores();
    StripExample();
    assert CellsClassed(DataCells(cells));
    assert NameCells(DataCells(cells))[0].text == " Ala\n";
    assert ScoreValues(ScoreCells(DataCells(cells))) == Success([1, 42]);
  }

  function ExampleHeader(): Row {
    Row([Cell(Th, None, "#"), Cell(Th, None, "User"), Cell(Th, None, "Points")])
  }

  function ExampleTable(): Table {
    Table(Some({RankingClass}), [ExampleHeader(), ExampleRow("1", " Ala\n", "42")])
  }

  lemma ExampleTableSelected()
    ensures SelectTable([Table(Some({"menu"}), []), ExampleTable()]) == Success(ExampleTable())
  {
    var doc := [Table(Some({"menu"}), []), ExampleTable()];
    assert doc[1..][1..] == [];
    assert RankingClass != "menu" by { assert |RankingClass| != |"menu"|; }
    assert RankingTables(doc[1..]) == [ExampleTable()];
  }

  /** A header row of th cells (which carry no class) is skipped; a non-ranking table is ignored. */
  lemma HeaderSkippedAndSecondNumberTaken()
    ensures ParseRanking([Table(Some({"menu"}), []), ExampleTable()]) == Success([Entry("Ala", 42)])
  {
    ExampleTableSelected();
    ExampleTableRows();
  }

  lemma ExampleTableRows()
    ensures ParseRows(ExampleTable().rows) == Success([Entry("Ala", 42)])
  {
    var header, row := ExampleHeader(), ExampleRow("1", " Ala\n", "42");
    ExampleDataRows();
    ExampleRowParses();
    var rs := [Success(Entry("Ala", 42))];
    assert RowOutcomes([header, row]) == rs;
    assert rs[1..] == [];
    assert [Entry("Ala", 42)] + [] == [Entry("Ala", 42)];
    assert Collect(rs) == Success([Entry("Ala", 42)]);
  }

  lemma ExampleDataRows()
    ensures DataRows(ExampleTable().rows) == [ExampleRow("1", " Ala\n", "42")]
  {
    var header, row := ExampleHeader(), ExampleRow("1", " Ala\n", "42");
    assert header.cells[0].tag == Th;
    assert !IsHeader(row);
    assert [header, row][1..] == [row] && [row][1..] == [];
    assert DataRows([row]) == [row];
  }
}
