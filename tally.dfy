/**
 * The main block of talent_sorter.py (lines 59-74) on already fetched and
 * parsed pages: check that every source has a multiplier, fold each
 * source's ranking into the dictionary, then rank the names and decide
 * whether all totals are whole numbers.
 */
module TalentSorter {
  import opened Wrappers
  import opened Extract
  import opened Aggregate
  import opened Rank

  /** What the program prints, before formatting. */
  datatype Summary = Summary(scores: map<string, Record>, ranking: seq<string>, allInteger: bool)

  datatype RunError =
    | LengthMismatch(urls: nat, multipliers: nat)   // the assert on line 59
    | Malformed(source: nat, error: Error)          // parse_ranking raised on that source's page

  /** What parse_ranking gives for each page. */
  function Outcomes(pages: seq<Document>): (r: seq<Result<seq<Entry>, Error>>)
    ensures |r| == |pages| && forall j :: 0 <= j < |pages| ==> r[j] == ParseRanking(pages[j])
  {
    seq(|pages|, j requires 0 <= j < |pages| => ParseRanking(pages[j]))
  }

  /** The rows of every source, or the first source that failed, with its index. */
  function Gather<T>(outs: seq<Result<T, Error>>): (r: Result<seq<T>, RunError>)
    ensures r.Success? ==> |r.value| == |outs|
    ensures r.Failure? ==> r.error.Malformed? && r.error.source < |outs|
    decreases |outs|
  {
    if outs == [] then Success([])
    else
      var k := |outs| - 1;
      match Gather(outs[..k])
      case Failure(e) => Failure(e)
      case Success(values) =>
        match outs[k]
        case Failure(e) => Failure(Malformed(k, e))
        case Success(v) => Success(values + [v])
  }

  /** Parses every page, stopping at the first that fails. */
  function ParseAll(pages: seq<Document>): Result<seq<seq<Entry>>, RunError> {
    Gather(Outcomes(pages))
  }

  /** Gathering succeeds exactly when every outcome does, and then keeps every value in order. */
  lemma {:induction false} GatherSuccess<T>(outs: seq<Result<T, Error>>)
    ensures Gather(outs).Success? <==> AllSucceed(outs)
    ensures Gather(outs).Success? ==> forall j :: 0 <= j < |outs| ==> Gather(outs).value[j] == outs[j].value
    decreases |outs|
  {
    if outs != [] {
      var k := |outs| - 1;
      GatherSuccess(outs[..k]);
      assert forall j :: 0 <= j < k ==> outs[..k][j] == outs[j];
    }
  }

  /** A failed gather names an outcome that failed, with its error, and every earlier one succeeded. */
  lemma {:induction false} GatherFailure<T>(outs: seq<Result<T, Error>>)
    requires Gather(outs).Failure?
    ensures var k := Gather(outs).error.source;
      && outs[k] == Failure(Gather(outs).error.error)
      && AllSucceed(outs[..k])
    decreases |outs|
  {
    var k := |outs| - 1;
    var init := outs[..k];
    if Gather(init).Failure? {
      GatherFailure(init);
      var f := Gather(init).error.source;
      assert init[..f] == outs[..f];
    } else {
      GatherSuccess(init);
    }
  }

  /**
   * Parsing all pages succeeds exactly when every page parses, and then
   * gives each page's rows in page order; otherwise it names the first page
   * that fails and that page's error.
   */
  lemma ParseAllSpec(pages: seq<Document>)
    ensures ParseAll(pages).Success? <==> forall j :: 0 <= j < |pages| ==> ParseRanking(pages[j]).Success?
    ensures ParseAll(pages).Success? ==>
      && |ParseAll(pages).value| == |pages|
      && forall j :: 0 <= j < |pages| ==> ParseAll(pages).value[j] == ParseRanking(pages[j]).value
    ensures ParseAll(pages).Failure? ==>
      && ParseAll(pages).error.Malformed?
      && var k := ParseAll(pages).error.source;
      && k < |pages|
      && ParseRanking(pages[k]) == Failure(ParseAll(pages).error.error)
      && forall j :: 0 <= j < k ==> ParseRanking(pages[j]).Success?
  {
    var outs := Outcomes(pages);
    GatherSuccess(outs);
    if Gather(outs).Failure? {
      GatherFailure(outs);
      var k := Gather(outs).error.source;
      assert forall j :: 0 <= j < k ==> outs[..k][j] == outs[j];
    }
  }

  /** Extending the gathered prefix by one outcome that succeeds. */
  lemma GatherStep<T>(outs: seq<Result<T, Error>>, k: nat)
    requires k < |outs| && Gather(outs[..k]).Success? && outs[k].Success?
    ensures Gather(outs[..k + 1]) == Success(Gather(outs[..k]).value + [outs[k].value])
  {
    assert outs[..k + 1][..k] == outs[..k];
  }

  /** Once a prefix has failed, more outcomes do not change the result. */
  lemma {:induction false} GatherKeepsFailure<T>(outs: seq<Result<T, Error>>, j: nat)
    requires j <= |outs| && Gather(outs[..j]).Failure?
    ensures Gather(outs) == Gather(outs[..j])
    decreases |outs|
  {
    if j < |outs| {
      var init := outs[..|outs| - 1];
      assert init[..j] == outs[..j];
      GatherKeepsFailure(init, j);
    } else {
      assert outs[..j] == outs;
    }
  }

  /** One outcome that fails after a prefix that succeeds decides the whole gather. */
  lemma GatherStop<T>(outs: seq<Result<T, Error>>, k: nat)
    requires k < |outs| && Gather(outs[..k]).Success? && outs[k].Failure?
    ensures Gather(outs) == Failure(Malformed(k, outs[k].error))
  {
    assert outs[..k + 1][..k] == outs[..k];
    assert Gather(outs[..k + 1]) == Failure(Malformed(k, outs[k].error));
    GatherKeepsFailure(outs, k + 1);
  }

  /** The summary the program prints for a finished dictionary. */
  function Summarize(b: Board): Summary {
    Summary(b.scores, Ranking(b), AllInteger(b.scores))
  }

  /**
   * The whole run: a length mismatch or a page that does not parse ends it
   * with that error; otherwise the result summarizes the fold of all sources.
   */
  method Tally(pages: seq<Document>, multipliers: seq<real>) returns (r: Result<Summary, RunError>)
    ensures |pages| != |multipliers| ==> r == Failure(LengthMismatch(|pages|, |multipliers|))
    ensures |pages| == |multipliers| && ParseAll(pages).Failure? ==> r == Failure(ParseAll(pages).error)
    ensures |pages| == |multipliers| && ParseAll(pages).Success? ==>
      r == Success(Summarize(FoldAll(multipliers, ParseAll(pages).value)))
  {
    if |pages| != |multipliers| {
      return Failure(LengthMismatch(|pages|, |multipliers|));
    }
    var board := new Scoreboard(multipliers);
    ghost var outs := Outcomes(pages);
    var i := 0;
    while i < |pages|
      invariant 0 <= i <= |pages|
      invariant board.multipliers == multipliers && board.Valid()
      invariant Gather(outs[..i]).Success?
      invariant board.View() == FoldAll(multipliers, Gather(outs[..i]).value)
    {
      match ParseRanking(pages[i])
      case Failure(e) =>
        GatherStop(outs, i);
        return Failure(Malformed(i, e));
      case Success(rows) =>
        ghost var sources := Gather(outs[..i]).value;
        board.AddSource(i, rows);
        GatherStep(outs, i);
        assert (sources + [rows])[..i] == sources;
      i := i + 1;
    }
    assert outs[..i] == outs;
    var b := board.View();
    return Success(Summarize(b));
  }
}

module TalentSorterExamples {
  import opened Extract
  import opened Aggregate
  import opened Rank

  /** Two people with equal totals: the ranking lists them in the order they were first seen. */
  lemma TieFollowsFirstSeen()
    ensures Ranking(FoldAll([1.0, 1.0], [[Entry("Bo", 5)], [Entry("Al", 5)]])) == ["Bo", "Al"]
    ensures Ranking(FoldAll([1.0, 1.0], [[Entry("Al", 5)], [Entry("Bo", 5)]])) == ["Al", "Bo"]
  {
    Pair("Bo", "Al");
    Pair("Al", "Bo");
  }

  lemma Pair(x: string, y: string)
    requires x != y
    ensures Ranking(FoldAll([1.0, 1.0], [[Entry(x, 5)], [Entry(y, 5)]])) == [x, y]
  {
    SecondSource(x, y);
    var b := Board(map[x := Record(5.0, [5, 0]), y := Record(5.0, [0, 5])], [x, y]);
    assert Ranking(FoldAll([1.0, 1.0], [[Entry(x, 5)], [Entry(y, 5)]])) == SortDesc([x, y], b.scores);
    SortTie(x, y, b.scores);
  }

  lemma SortTie(x: string, y: string, scores: map<string, Record>)
    requires Total(scores, x) == Total(scores, y)
    ensures SortDesc([x, y], scores) == [x, y]
  {
    assert [x, y][1..] == [y];
    assert [y][1..] == [];
    assert SortDesc([y], scores) == [y];
  }

  lemma FirstSource(x: string)
    ensures FoldAll([1.0, 1.0], [[Entry(x, 5)]]) == Board(map[x := Record(5.0, [5, 0])], [x])
  {
    var sources := [[Entry(x, 5)]];
    assert sources[..0] == [];
    var rows := [Entry(x, 5)];
    assert rows[..0] == [];
    var e := Board(map[], []);
    assert FoldAll([1.0, 1.0], sources) == FoldSource(e, 2, 0, 1.0, rows);
    assert FoldSource(e, 2, 0, 1.0, rows) == FoldRow(e, 2, 0, 1.0, Entry(x, 5));
    AddFirst(x);
  }

  lemma AddFirst(x: string)
    ensures FoldRow(Board(map[], []), 2, 0, 1.0, Entry(x, 5)) == Board(map[x := Record(5.0, [5, 0])], [x])
  {
    assert Zeros(2)[..0] + [5] + Zeros(2)[1..] == [5, 0];
  }

  lemma SecondSource(x: string, y: string)
    requires x != y
    ensures FoldAll([1.0, 1.0], [[Entry(x, 5)], [Entry(y, 5)]])
      == Board(map[x := Record(5.0, [5, 0]), y := Record(5.0, [0, 5])], [x, y])
  {
    var sources := [[Entry(x, 5)], [Entry(y, 5)]];
    assert sources[..1] == [[Entry(x, 5)]];
    FirstSource(x);
    var rows := [Entry(y, 5)];
    assert rows[..0] == [];
    var b1 := Board(map[x := Record(5.0, [5, 0])], [x]);
    assert FoldAll([1.0, 1.0], sources) == FoldSource(b1, 2, 1, 1.0, rows);
    AddSecond(x, y);
  }

  lemma AddSecond(x: string, y: string)
    requires x != y
    ensures var b1 := Board(map[x := Record(5.0, [5, 0])], [x]);
      && WellFormed(b1, 2)
      && FoldSource(b1, 2, 1, 1.0, [Entry(y, 5)])
        == Board(map[x := Record(5.0, [5, 0]), y := Record(5.0, [0, 5])], [x, y])
  {
    var b1 := Board(map[x := Record(5.0, [5, 0])], [x]);
    var rows := [Entry(y, 5)];
    assert rows[..0] == [];
    assert FoldSource(b1, 2, 1, 1.0, rows) == FoldRow(b1, 2, 1, 1.0, Entry(y, 5));
    assert Zeros(2)[..1] + [5] + Zeros(2)[2..] == [0, 5];
  }
}
