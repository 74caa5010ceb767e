/**
 * The `scores` dictionary of the main block: every person's weighted total
 * and per-source breakdown, built by folding the rows of each source in turn.
 */
module Aggregate {
  import opened Wrappers
  import opened Extract

  /** A person's weighted total and the raw score taken from each source. */
  datatype Record = Record(total: real, breakdown: seq<int>)

  /**
   * The dictionary: records by name, and the names in the order their records
   * were created (a Python dict iterates in insertion order).
   */
  datatype Board = Board(scores: map<string, Record>, order: seq<string>)

  /** One slot's share of the total: its score times its source's multiplier. */
  function Weighted(score: int, m: real): real {
    score as real * m
  }

  function Zeros(n: nat): (z: seq<int>)
    ensures |z| == n && forall j :: 0 <= j < n ==> z[j] == 0
  {
    seq(n, _ => 0)
  }

  /** What the defaultdict creates for a new name: total 0 and a zero for every source. */
  function NewRecord(n: nat): Record {
    Record(0.0, Zeros(n))
  }

  predicate Distinct(s: seq<string>) {
    forall j, k :: 0 <= j < k < |s| ==> s[j] != s[k]
  }

  /** Each name is recorded once, in `order` exactly when in `scores`, and every breakdown has one slot per source. */
  ghost predicate WellFormed(b: Board, n: nat) {
    && Distinct(b.order)
    && (forall p :: p in b.scores <==> p in b.order)
    && (forall p :: p in b.scores ==> |b.scores[p].breakdown| == n)
  }

  /** Reading a person's record from the defaultdict: the record, or a fresh one. */
  function Lookup(b: Board, n: nat, p: string): (r: Record)
    requires WellFormed(b, n)
    ensures |r.breakdown| == n
  {
    if p in b.scores then b.scores[p] else NewRecord(n)
  }

  /**
   * Line 68 for one row (person, score) of source i with multiplier m: the
   * total grows by score*m and slot i of the breakdown is overwritten.
   */
  function FoldRow(b: Board, n: nat, i: nat, m: real, e: Entry): (r: Board)
    requires WellFormed(b, n) && i < n
    ensures WellFormed(r, n)
    ensures r.scores.Keys == b.scores.Keys + {e.name}
    ensures r.order == if e.name in b.scores then b.order else b.order + [e.name]
    ensures r.scores[e.name].total == Lookup(b, n, e.name).total + Weighted(e.score, m)
    ensures r.scores[e.name].breakdown[i] == e.score
    ensures forall j :: 0 <= j < n && j != i ==> r.scores[e.name].breakdown[j] == Lookup(b, n, e.name).breakdown[j]
    ensures forall p :: p in b.scores && p != e.name ==> r.scores[p] == b.scores[p]
  {
    var rec := Lookup(b, n, e.name);
    var order := if e.name in b.scores then b.order else b.order + [e.name];
    var rec' := Record(rec.total + Weighted(e.score, m), rec.breakdown[..i] + [e.score] + rec.breakdown[i + 1..]);
    Board(b.scores[e.name := rec'], order)
  }

  /** The inner loop of lines 66-68: every row of source i, in order. */
  function FoldSource(b: Board, n: nat, i: nat, m: real, rows: seq<Entry>): (r: Board)
    requires WellFormed(b, n) && i < n
    ensures WellFormed(r, n)
    decreases |rows|
  {
    if rows == [] then b
    else FoldRow(FoldSource(b, n, i, m, rows[..|rows| - 1]), n, i, m, rows[|rows| - 1])
  }

  /** The outer loop of lines 65-68 over the first |sources| sources, from an empty dictionary. */
  function FoldAll(ms: seq<real>, sources: seq<seq<Entry>>): (r: Board)
    requires |sources| <= |ms|
    ensures WellFormed(r, |ms|)
    decreases |sources|
  {
    if sources == [] then Board(map[], [])
    else
      var k := |sources| - 1;
      FoldSource(FoldAll(ms, sources[..k]), |ms|, k, ms[k], sources[k])
  }

  // ---- what a source contributes to one person ----

  /** The sum of the scores of the rows naming p. */
  function ScoreSum(rows: seq<Entry>, p: string): int {
    if rows == [] then 0
    else ScoreSum(rows[..|rows| - 1], p) + (if rows[|rows| - 1].name == p then rows[|rows| - 1].score else 0)
  }

  /** The score of the last row naming p, if any. */
  function Latest(rows: seq<Entry>, p: string): Option<int> {
    if rows == [] then None
    else if rows[|rows| - 1].name == p then Some(rows[|rows| - 1].score)
    else Latest(rows[..|rows| - 1], p)
  }

  /** The breakdown slot a source leaves for p: its last score there, or 0 when p is absent. */
  function SlotValue(rows: seq<Entry>, p: string): int {
    match Latest(rows, p)
    case None => 0
    case Some(s) => s
  }

  /** No name appears twice in one source. */
  predicate UniqueNames(rows: seq<Entry>) {
    forall j, k :: 0 <= j < k < |rows| ==> rows[j].name != rows[k].name
  }

  /** One row changes only the record of the person it names. */
  lemma FoldRowEffect(b: Board, n: nat, i: nat, m: real, e: Entry, p: string)
    requires WellFormed(b, n) && i < n
    ensures p in FoldRow(b, n, i, m, e).scores <==> p in b.scores || e.name == p
    ensures e.name != p ==> Lookup(FoldRow(b, n, i, m, e), n, p) == Lookup(b, n, p)
  {
  }

  /**
   * Folding a whole source into the dictionary changes p's record as follows:
   * the total grows by the sum of ALL of p's scores in the source times m,
   * slot i holds p's LAST score in the source (unchanged when p is absent),
   * every other slot is unchanged, and p has a record afterwards exactly
   * when it had one before or the source names p.
   */
  lemma {:induction false} FoldSourceEffect(b: Board, n: nat, i: nat, m: real, rows: seq<Entry>, p: string)
    requires WellFormed(b, n) && i < n
    ensures var after := FoldSource(b, n, i, m, rows);
      p in after.scores <==> p in b.scores || Latest(rows, p).Some?
    ensures var before, after := Lookup(b, n, p), Lookup(FoldSource(b, n, i, m, rows), n, p);
      && after.breakdown[i] == (if Latest(rows, p).Some? then Latest(rows, p).value else before.breakdown[i])
      && forall j :: 0 <= j < n && j != i ==> after.breakdown[j] == before.breakdown[j]
    decreases |rows|
  {
    if rows != [] {
      var init, e := rows[..|rows| - 1], rows[|rows| - 1];
      FoldSourceEffect(b, n, i, m, init, p);
      var mid := FoldSource(b, n, i, m, init);
      FoldRowEffect(mid, n, i, m, e, p);
    }
  }

  /** The weighted points a source gives p at multiplier m: each row naming p adds score*m. */
  function Contribution(rows: seq<Entry>, p: string, m: real): real {
    if rows == [] then 0.0
    else
      var e := rows[|rows| - 1];
      Contribution(rows[..|rows| - 1], p, m) + (if e.name == p then Weighted(e.score, m) else 0.0)
  }

  /** Folding a source adds to p's total what every row naming p contributes, repeated names included. */
  lemma {:induction false} FoldSourceTotal(b: Board, n: nat, i: nat, m: real, rows: seq<Entry>, p: string)
    requires WellFormed(b, n) && i < n
    ensures Lookup(FoldSource(b, n, i, m, rows), n, p).total == Lookup(b, n, p).total + Contribution(rows, p, m)
    decreases |rows|
  {
    if rows != [] {
      var init, e := rows[..|rows| - 1], rows[|rows| - 1];
      FoldSourceTotal(b, n, i, m, init, p);
      FoldRowEffect(FoldSource(b, n, i, m, init), n, i, m, e, p);
    }
  }

  /** A source's contribution to p is the sum of p's scores there, times the multiplier. */
  lemma {:induction false} ContributionScaled(rows: seq<Entry>, p: string, m: real)
    ensures Contribution(rows, p, m) == Weighted(ScoreSum(rows, p), m)
    decreases |rows|
  {
    if rows != [] {
      var init := rows[..|rows| - 1];
      ContributionScaled(init, p, m);
      if rows[|rows| - 1].name == p {
        Distribute(ScoreSum(init, p), rows[|rows| - 1].score, m);
      }
    }
  }

  lemma Distribute(y: int, z: int, m: real)
    ensures Weighted(y + z, m) == Weighted(y, m) + Weighted(z, m)
  {
  }

  /** A source that never names p adds nothing to p's total. */
  lemma {:induction false} AbsentAddsNothing(rows: seq<Entry>, p: string)
    requires Latest(rows, p).None?
    ensures ScoreSum(rows, p) == 0
    decreases |rows|
  {
    if rows != [] {
      AbsentAddsNothing(rows[..|rows| - 1], p);
    }
  }

  /** Without repeated names a source's contribution is the single score it gives p (0 if none). */
  lemma {:induction false} UniqueSum(rows: seq<Entry>, p: string)
    requires UniqueNames(rows)
    ensures ScoreSum(rows, p) == SlotValue(rows, p)
    decreases |rows|
  {
    if rows != [] {
      var init, e := rows[..|rows| - 1], rows[|rows| - 1];
      assert UniqueNames(init);
      if e.name == p {
        NotNamed(init, p);
        AbsentAddsNothing(init, p);
      } else {
        UniqueSum(init, p);
      }
    }
  }

  /** A source in which no row names p has no latest score for p. */
  lemma {:induction false} NotNamed(rows: seq<Entry>, p: string)
    requires forall k :: 0 <= k < |rows| ==> rows[k].name != p
    ensures Latest(rows, p).None?
    decreases |rows|
  {
    if rows != [] {
      NotNamed(rows[..|rows| - 1], p);
    }
  }

  // ---- what all sources give one person ----

  /** Some source names p. */
  predicate Named(sources: seq<seq<Entry>>, p: string) {
    exists j :: 0 <= j < |sources| && Latest(sources[j], p).Some?
  }

  /** The weighted points all sources give p: the sum over j of source j's contribution at ms[j]. */
  function WeightedScore(ms: seq<real>, sources: seq<seq<Entry>>, p: string): real
    requires |sources| <= |ms|
    decreases |sources|
  {
    if sources == [] then 0.0
    else
      var k := |sources| - 1;
      WeightedScore(ms, sources[..k], p) + Contribution(sources[k], p, ms[k])
  }

  /** After folding, p has a record exactly when some folded source names p. */
  lemma {:induction false} FoldAllMembers(ms: seq<real>, sources: seq<seq<Entry>>, p: string)
    requires |sources| <= |ms|
    ensures p in FoldAll(ms, sources).scores <==> Named(sources, p)
    decreases |sources|
  {
    if sources != [] {
      var k := |sources| - 1;
      var init := sources[..k];
      FoldAllMembers(ms, init, p);
      FoldSourceEffect(FoldAll(ms, init), |ms|, k, ms[k], sources[k], p);
      if Named(init, p) {
        var j :| 0 <= j < k && Latest(init[j], p).Some?;
        assert init[j] == sources[j];
      }
      if Named(sources, p) && !Named(init, p) {
        var j :| 0 <= j < |sources| && Latest(sources[j], p).Some?;
      }
    }
  }

  /**
   * After folding, slot j of p's breakdown is p's last score in source j,
   * or 0 when source j does not name p or has not been folded yet.
   */
  lemma {:induction false} FoldAllSlots(ms: seq<real>, sources: seq<seq<Entry>>, p: string)
    requires |sources| <= |ms|
    ensures var rec := Lookup(FoldAll(ms, sources), |ms|, p);
      forall j :: 0 <= j < |ms| ==> rec.breakdown[j] == if j < |sources| then SlotValue(sources[j], p) else 0
    decreases |sources|
  {
    if sources != [] {
      var k := |sources| - 1;
      var init := sources[..k];
      FoldAllSlots(ms, init, p);
      var mid := FoldAll(ms, init);
      FoldSourceEffect(mid, |ms|, k, ms[k], sources[k], p);
      var before, after := Lookup(mid, |ms|, p), Lookup(FoldAll(ms, sources), |ms|, p);
      assert after.breakdown[k] == SlotValue(sources[k], p);
      forall j | 0 <= j < |ms| && j != k
        ensures after.breakdown[j] == if j < |sources| then SlotValue(sources[j], p) else 0
      {
        if j < k {
          assert init[j] == sources[j];
        }
      }
    }
  }

  /** After folding, p's total is the weighted points all folded sources give p. */
  lemma {:induction false} FoldAllTotal(ms: seq<real>, sources: seq<seq<Entry>>, p: string)
    requires |sources| <= |ms|
    ensures Lookup(FoldAll(ms, sources), |ms|, p).total == WeightedScore(ms, sources, p)
    decreases |sources|
  {
    if sources != [] {
      var k := |sources| - 1;
      FoldAllTotal(ms, sources[..k], p);
      FoldSourceTotal(FoldAll(ms, sources[..k]), |ms|, k, ms[k], sources[k], p);
    }
  }

  /** Σ_j breakdown[j] * ms[j]. */
  function WSum(breakdown: seq<int>, ms: seq<real>): real
    requires |breakdown| == |ms|
    decreases |ms|
  {
    if ms == [] then 0.0
    else
      var k := |ms| - 1;
      WSum(breakdown[..k], ms[..k]) + Weighted(breakdown[k], ms[k])
  }

  lemma {:induction false} WeightedScoreIsWSum(ms: seq<real>, sources: seq<seq<Entry>>, p: string, breakdown: seq<int>)
    requires |sources| <= |ms| && |breakdown| == |sources|
    requires forall j :: 0 <= j < |sources| ==> Contribution(sources[j], p, ms[j]) == Weighted(breakdown[j], ms[j])
    ensures WeightedScore(ms, sources, p) == WSum(breakdown, ms[..|sources|])
    decreases |sources|
  {
    if sources != [] {
      var k := |sources| - 1;
      assert forall j :: 0 <= j < k ==> sources[..k][j] == sources[j] && breakdown[..k][j] == breakdown[j];
      WeightedScoreIsWSum(ms, sources[..k], p, breakdown[..k]);
      assert ms[..|sources|][..k] == ms[..k];
    }
  }

  /**
   * The invariant the breakdown is meant to keep: when no source names a
   * person twice, every total equals Σ_j breakdown[j] * multiplier[j].
   */
  lemma TotalIsWeightedSum(ms: seq<real>, sources: seq<seq<Entry>>, p: string)
    requires |sources| == |ms|
    requires forall j :: 0 <= j < |sources| ==> UniqueNames(sources[j])
    ensures var rec := Lookup(FoldAll(ms, sources), |ms|, p);
      rec.total == WSum(rec.breakdown, ms)
  {
    var bd := Lookup(FoldAll(ms, sources), |ms|, p).breakdown;
    FoldAllSlots(ms, sources, p);
    FoldAllTotal(ms, sources, p);
    assert forall j :: 0 <= j < |sources| ==> bd[j] == SlotValue(sources[j], p);
    UniqueTerms(ms, sources, p, bd);
    WeightedScoreIsWSum(ms, sources, p, bd);
    assert ms[..|sources|] == ms;
  }

  lemma UniqueTerms(ms: seq<real>, sources: seq<seq<Entry>>, p: string, bd: seq<int>)
    requires |sources| <= |ms| && |bd| == |sources|
    requires forall j :: 0 <= j < |sources| ==> UniqueNames(sources[j])
    requires forall j :: 0 <= j < |sources| ==> bd[j] == SlotValue(sources[j], p)
    ensures forall j :: 0 <= j < |sources| ==> Contribution(sources[j], p, ms[j]) == Weighted(bd[j], ms[j])
  {
    forall j | 0 <= j < |sources|
      ensures Contribution(sources[j], p, ms[j]) == Weighted(bd[j], ms[j])
    {
      UniqueTerm(sources[j], p, ms[j], bd[j]);
    }
  }

  lemma UniqueTerm(rows: seq<Entry>, p: string, m: real, slot: int)
    requires UniqueNames(rows) && slot == SlotValue(rows, p)
    ensures Contribution(rows, p, m) == Weighted(slot, m)
  {
    ContributionScaled(rows, p, m);
    UniqueSum(rows, p);
  }

  /**
   * What the code does with a repeated name, unlike the overwrite-only
   * reading: both rows count towards the total while the breakdown keeps
   * the last score, so the total is no longer the weighted breakdown.
   */
  lemma RepeatedNameCountsTwice()
    ensures var b := FoldSource(Board(map[], []), 1, 0, 1.0, [Entry("Ala", 1), Entry("Ala", 2)]);
      && b.scores["Ala"].total == 3.0
      && b.scores["Ala"].breakdown == [2]
      && b.scores["Ala"].total != WSum(b.scores["Ala"].breakdown, [1.0])
  {
    var rows := [Entry("Ala", 1), Entry("Ala", 2)];
    var b0 := Board(map[], []);
    assert rows[..1][..0] == [];
    assert FoldSource(b0, 1, 0, 1.0, []) == b0;
    var b1 := FoldSource(b0, 1, 0, 1.0, rows[..1]);
    assert b1 == FoldRow(b0, 1, 0, 1.0, Entry("Ala", 1));
    assert Lookup(b0, 1, "Ala").total == 0.0;
    assert b1.scores["Ala"].total == 1.0;
    var b2 := FoldSource(b0, 1, 0, 1.0, rows);
    assert b2 == FoldRow(b1, 1, 0, 1.0, rows[1]);
    var bd := b2.scores["Ala"].breakdown;
    assert |bd| == 1 && bd[0] == 2;
    assert bd == [2];
    assert WSum(bd, [1.0]) == WSum([], []) + Weighted(2, 1.0);
  }

  // ---- the dictionary as the program updates it ----

  /** The `scores` defaultdict of the main block, updated in place row by row. */
  class Scoreboard {
    /** The multiplier of each source; their number fixes the breakdown's length. */
    const multipliers: seq<real>
    var scores: map<string, Record>
    /** The keys in insertion order. */
    var order: seq<string>

    function View(): Board
      reads this
    {
      Board(scores, order)
    }

    ghost predicate Valid()
      reads this
    {
      WellFormed(View(), |multipliers|)
    }

    /** An empty dictionary whose new records have total 0 and one zero slot per multiplier. */
    constructor(ms: seq<real>)
      ensures Valid() && multipliers == ms
      ensures View() == Board(map[], [])
    {
      multipliers := ms;
      scores := map[];
      order := [];
    }

    /** One row of source i: read the record (creating it if new), add score*multiplier, set slot i. */
    method Add(i: nat, e: Entry)
      requires Valid() && i < |multipliers|
      modifies this
      ensures Valid()
      ensures View() == FoldRow(old(View()), |multipliers|, i, multipliers[i], e)
    {
      ghost var before := View();
      var rec: Record;
      if e.name in scores {
        rec := scores[e.name];
      } else {
        rec := NewRecord(|multipliers|);
        order := order + [e.name];
      }
      var detailed := rec.breakdown[..i] + [e.score] + rec.breakdown[i + 1..];
      scores := scores[e.name := Record(rec.total + Weighted(e.score, multipliers[i]), detailed)];
      assert rec == Lookup(before, |multipliers|, e.name);
      assert View() == FoldRow(before, |multipliers|, i, multipliers[i], e);
    }

    /** The inner loop: every row of source i, in order. */
    method AddSource(i: nat, rows: seq<Entry>)
      requires Valid() && i < |multipliers|
      modifies this
      ensures Valid()
      ensures View() == FoldSource(old(View()), |multipliers|, i, multipliers[i], rows)
    {
      ghost var start := View();
      var k := 0;
      while k < |rows|
        invariant 0 <= k <= |rows|
        invariant Valid()
        invariant View() == FoldSource(start, |multipliers|, i, multipliers[i], rows[..k])
      {
        ghost var prefix := rows[..k + 1];
        assert prefix[..k] == rows[..k] && prefix[k] == rows[k];
        assert FoldSource(start, |multipliers|, i, multipliers[i], prefix)
          == FoldRow(FoldSource(start, |multipliers|, i, multipliers[i], rows[..k]), |multipliers|, i, multipliers[i], rows[k]);
        Add(i, rows[k]);
        k := k + 1;
      }
      assert rows[..|rows|] == rows;
    }
  }
}
