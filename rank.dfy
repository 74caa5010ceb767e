/**
 * What the main block derives from the finished dictionary: the names
 * sorted by total, highest first, and whether every total is a whole
 * number (talent_sorter.py lines 70 and 74).
 */
module Rank {
  import opened Extract
  import opened Aggregate

  /** The sort key: a name's total; 0 for a name without a record, as the defaultdict would give. */
  function Total(scores: map<string, Record>, p: string): real {
    if p in scores then scores[p].total else 0.0
  }

  /** Non-increasing by total. */
  predicate SortedDesc(s: seq<string>, scores: map<string, Record>) {
    forall j, k :: 0 <= j < k < |s| ==> Total(scores, s[j]) >= Total(scores, s[k])
  }

  /** The names of s whose total is v, in their order in s. */
  function WithTotal(s: seq<string>, scores: map<string, Record>, v: real): seq<string> {
    if s == [] then []
    else (if Total(scores, s[0]) == v then [s[0]] else []) + WithTotal(s[1..], scores, v)
  }

  /** Puts p in front of the first name whose total is not above p's. */
  function Insert(p: string, t: seq<string>, scores: map<string, Record>): seq<string> {
    if t == [] || Total(scores, p) >= Total(scores, t[0]) then [p] + t
    else [t[0]] + Insert(p, t[1..], scores)
  }

  /**
   * Python's `sorted` by total with reverse=True. Python's sort is stable, also
   * with reverse=True, so names with equal totals keep their order.
   */
  function SortDesc(s: seq<string>, scores: map<string, Record>): seq<string> {
    if s == [] then []
    else Insert(s[0], SortDesc(s[1..], scores), scores)
  }

  lemma {:induction false} InsertPermutes(p: string, t: seq<string>, scores: map<string, Record>)
    ensures multiset(Insert(p, t, scores)) == multiset(t) + multiset{p}
    decreases |t|
  {
    if !(t == [] || Total(scores, p) >= Total(scores, t[0])) {
      InsertPermutes(p, t[1..], scores);
      assert t == [t[0]] + t[1..];
    }
  }

  lemma {:induction false} InsertSorted(p: string, t: seq<string>, scores: map<string, Record>)
    requires SortedDesc(t, scores)
    ensures SortedDesc(Insert(p, t, scores), scores)
    ensures |Insert(p, t, scores)| == |t| + 1
    ensures Insert(p, t, scores)[0] == p || Insert(p, t, scores)[0] == t[0]
    decreases |t|
  {
    if !(t == [] || Total(scores, p) >= Total(scores, t[0])) {
      InsertSorted(p, t[1..], scores);
      var r := Insert(p, t[1..], scores);
      assert Insert(p, t, scores) == [t[0]] + r;
      forall k | 0 < k < |r| + 1
        ensures Total(scores, t[0]) >= Total(scores, ([t[0]] + r)[k])
      {
        assert r[0] == p || r[0] == t[1];
      }
    }
  }

  lemma {:induction false} InsertStable(p: string, t: seq<string>, scores: map<string, Record>, v: real)
    ensures WithTotal(Insert(p, t, scores), scores, v)
      == (if Total(scores, p) == v then [p] else []) + WithTotal(t, scores, v)
    decreases |t|
  {
    if t == [] || Total(scores, p) >= Total(scores, t[0]) {
      assert ([p] + t)[1..] == t;
    } else {
      var rest := Insert(p, t[1..], scores);
      InsertStable(p, t[1..], scores, v);
      assert ([t[0]] + rest)[1..] == rest;
      assert WithTotal([t[0]] + rest, scores, v)
        == (if Total(scores, t[0]) == v then [t[0]] else []) + WithTotal(rest, scores, v);
    }
  }

  /** The sort returns the same names, highest total first. */
  lemma {:induction false} SortDescSpec(s: seq<string>, scores: map<string, Record>)
    ensures multiset(SortDesc(s, scores)) == multiset(s)
    ensures SortedDesc(SortDesc(s, scores), scores)
    decreases |s|
  {
    if s != [] {
      SortDescSpec(s[1..], scores);
      InsertPermutes(s[0], SortDesc(s[1..], scores), scores);
      InsertSorted(s[0], SortDesc(s[1..], scores), scores);
      assert s == [s[0]] + s[1..];
    }
  }

  /** The sort keeps the order of names with equal totals. */
  lemma {:induction false} SortDescStable(s: seq<string>, scores: map<string, Record>, v: real)
    ensures WithTotal(SortDesc(s, scores), scores, v) == WithTotal(s, scores, v)
    decreases |s|
  {
    if s != [] {
      SortDescStable(s[1..], scores, v);
      InsertStable(s[0], SortDesc(s[1..], scores), scores, v);
    }
  }

  /** The ranking: the dictionary's keys, in insertion order, sorted by total. */
  function Ranking(b: Board): seq<string> {
    SortDesc(b.order, b.scores)
  }

  /** Every name with a record is ranked exactly once, highest total first, ties in first-seen order. */
  lemma RankingSpec(b: Board, n: nat)
    requires WellFormed(b, n)
    ensures forall p :: p in Ranking(b) <==> p in b.scores
    ensures forall p :: p in b.scores ==> multiset(Ranking(b))[p] == 1
    ensures |Ranking(b)| == |b.scores|
    ensures SortedDesc(Ranking(b), b.scores)
    ensures forall v :: WithTotal(Ranking(b), b.scores, v) == WithTotal(b.order, b.scores, v)
  {
    SortDescSpec(b.order, b.scores);
    forall v {
      SortDescStable(b.order, b.scores, v);
    }
    DistinctCounts(b.order);
    assert forall p :: p in Ranking(b) <==> p in multiset(b.order);
    KeysAreOrder(b, n);
  }

  lemma {:induction false} DistinctCounts(s: seq<string>)
    requires Distinct(s)
    ensures forall p :: p in s ==> multiset(s)[p] == 1
    decreases |s|
  {
    if s != [] {
      DistinctCounts(s[1..]);
      assert s == [s[0]] + s[1..];
      assert s[0] !in s[1..];
    }
  }

  /** A well-formed board has as many keys as its order has names. */
  lemma KeysAreOrder(b: Board, n: nat)
    requires WellFormed(b, n)
    ensures |b.scores| == |b.order|
  {
    DistinctCard(b.order);
    assert b.scores.Keys == set p | p in b.order;
  }

  lemma {:induction false} DistinctCard(s: seq<string>)
    requires Distinct(s)
    ensures |set p | p in s| == |s|
    decreases |s|
  {
    if s != [] {
      var k := |s| - 1;
      DistinctCard(s[..k]);
      assert (set p | p in s) == (set p | p in s[..k]) + {s[k]};
      assert s[k] !in s[..k];
    }
  }

  // ---- all_integer ----

  /** Python's `int()` on a float: truncation toward zero. */
  function Trunc(x: real): (t: int)
    ensures 0.0 <= x ==> 0 <= t && t as real <= x < t as real + 1.0
    ensures x < 0.0 ==> t <= 0 && t as real - 1.0 < x <= t as real
  {
    if x >= 0.0 then x.Floor else -((-x).Floor)
  }

  /** `all_integer`: every total is unchanged by `int()`. */
  predicate AllInteger(scores: map<string, Record>) {
    forall p :: p in scores ==> Trunc(scores[p].total) as real == scores[p].total
  }

  /** A whole number: its own floor. */
  predicate Whole(x: real) {
    x.Floor as real == x
  }

  /** A total survives truncation exactly when it is a whole number. */
  lemma TruncExact(x: real)
    ensures Trunc(x) as real == x <==> Whole(x)
  {
    if x < 0.0 && Whole(x) {
      assert (-x).Floor == -x.Floor;
    }
  }

  /** `all_integer` holds exactly when every total is a whole number. */
  lemma AllIntegerSpec(scores: map<string, Record>)
    ensures AllInteger(scores) <==> forall p :: p in scores ==> Whole(scores[p].total)
  {
    forall p | p in scores
      ensures Trunc(scores[p].total) as real == scores[p].total <==> Whole(scores[p].total)
    {
      TruncExact(scores[p].total);
    }
  }

  lemma WholeWeighted(score: int, m: real)
    requires Whole(m)
    ensures Whole(Weighted(score, m))
  {
    assert Weighted(score, m) == (score * m.Floor) as real;
  }

  lemma WholeSum(x: real, y: real)
    requires Whole(x) && Whole(y)
    ensures Whole(x + y)
  {
    assert x + y == (x.Floor + y.Floor) as real;
  }

  lemma {:induction false} WholeContribution(rows: seq<Entry>, p: string, m: real)
    requires Whole(m)
    ensures Whole(Contribution(rows, p, m))
    decreases |rows|
  {
    if rows != [] {
      var e := rows[|rows| - 1];
      WholeContribution(rows[..|rows| - 1], p, m);
      WholeWeighted(e.score, m);
      WholeSum(Contribution(rows[..|rows| - 1], p, m), if e.name == p then Weighted(e.score, m) else 0.0);
    }
  }

  lemma {:induction false} WholeWeightedScore(ms: seq<real>, sources: seq<seq<Entry>>, p: string)
    requires |sources| <= |ms|
    requires forall j :: 0 <= j < |ms| ==> Whole(ms[j])
    ensures Whole(WeightedScore(ms, sources, p))
    decreases |sources|
  {
    if sources != [] {
      var k := |sources| - 1;
      WholeWeightedScore(ms, sources[..k], p);
      WholeContribution(sources[k], p, ms[k]);
      WholeSum(WeightedScore(ms, sources[..k], p), Contribution(sources[k], p, ms[k]));
    }
  }

  /** With whole-number multipliers, such as the default 3 and 1, every total is whole and `all_integer` holds. */
  lemma WholeMultipliersAllInteger(ms: seq<real>, sources: seq<seq<Entry>>)
    requires |sources| <= |ms|
    requires forall j :: 0 <= j < |ms| ==> Whole(ms[j])
    ensures AllInteger(FoldAll(ms, sources).scores)
  {
    var scores := FoldAll(ms, sources).scores;
    forall p | p in scores
      ensures Whole(scores[p].total)
    {
      FoldAllTotal(ms, sources, p);
      WholeWeightedScore(ms, sources, p);
    }
    AllIntegerSpec(scores);
  }
}
