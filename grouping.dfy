/** The holiday grouper of the auto-assign run: the holidays of the year,
    in date order, are cut into maximal runs of consecutive days; each run
    is cut into consecutive pairs, and the odd day left at the end of a run
    (or a run of one day) goes to the pool of single holidays.

    Holidays are named by their position in the date-ordered list, so a
    pair is two positions and a single is one. */
module Grouping {
  import opened Types

  datatype Pair = Pair(first: nat, second: nat)

  /** The grouper's output: the pairs and the single holidays, each in scan order. */
  datatype Groups = Groups(pairs: seq<Pair>, singles: seq<nat>)

  function Concat(a: Groups, b: Groups): Groups
  {
    Groups(a.pairs + b.pairs, a.singles + b.singles)
  }

  // ---------------------------------------------------------------------
  // Reference definition: maximal runs, each cut into pairs
  // ---------------------------------------------------------------------

  /** The holiday at position k is the calendar day after the one at k - 1. */
  predicate NextDay(d: seq<Day>, k: nat)
    requires 0 < k < |d|
  {
    d[k] - d[k - 1] == 1
  }

  /** End (exclusive) of the maximal run of consecutive days that starts at
      position i: every day inside follows its predecessor by exactly one
      day, and the day at the end (if any) does not. */
  function RunEnd(d: seq<Day>, i: nat): (j: nat)
    requires i < |d|
    ensures i < j <= |d|
    ensures forall k :: i < k < j ==> NextDay(d, k)
    ensures j == |d| || !NextDay(d, j)
    decreases |d| - i
  {
    if i + 1 < |d| && d[i + 1] - d[i] == 1 then RunEnd(d, i + 1) else i + 1
  }

  /** How the run [s, e) is cut: (e - s) / 2 pairs, and the last day of
      the run as a single when the run has odd length (never the first). */
  function SplitRun(s: nat, e: nat): (g: Groups)
    requires s <= e
    ensures 2 * |g.pairs| + |g.singles| == e - s
    ensures g.singles == [] || g.singles == [e - 1]
    decreases e - s
  {
    if e - s == 0 then Groups([], [])
    else if e - s == 1 then Groups([], [s])
    else Concat(Groups([Pair(s, s + 1)], []), SplitRun(s + 2, e))
  }

  /** A run of N days gives N / 2 pairs, and a single (its last day)
      exactly when N is odd. */
  lemma {:induction false} SplitRunShape(s: nat, e: nat)
    requires s <= e
    ensures |SplitRun(s, e).pairs| == (e - s) / 2
    ensures SplitRun(s, e).singles == if (e - s) % 2 == 1 then [e - 1] else []
    decreases e - s
  {
    if e - s >= 2 {
      SplitRunShape(s + 2, e);
    }
  }

  /** The grouping of the holidays from position i on: run after run. */
  function GroupFrom(d: seq<Day>, i: nat): Groups
    decreases |d| - i
  {
    if i >= |d| then Groups([], [])
    else
      var j := RunEnd(d, i);
      Concat(SplitRun(i, j), GroupFrom(d, j))
  }

  /** The grouping of a whole list of holiday dates. */
  function Group(d: seq<Day>): Groups
  {
    GroupFrom(d, 0)
  }

  lemma ConcatAssoc(a: Groups, b: Groups, c: Groups)
    ensures Concat(Concat(a, b), c) == Concat(a, Concat(b, c))
  {
    assert (a.pairs + b.pairs) + c.pairs == a.pairs + (b.pairs + c.pairs);
    assert (a.singles + b.singles) + c.singles == a.singles + (b.singles + c.singles);
  }

  /** Where the run from s ends, the grouping continues with the next run. */
  lemma CloseRun(d: seq<Day>, s: nat, e: nat)
    requires s < e <= |d| && RunEnd(d, s) == e
    ensures GroupFrom(d, s) == Concat(SplitRun(s, e), GroupFrom(d, e))
  {
  }

  // ---------------------------------------------------------------------
  // The grouper as the source runs it: one scan with a current run
  // ---------------------------------------------------------------------

  /** Closes the current run [start, end): appends its pairs while at
      least two days remain, then appends what remains (zero or one day)
      to the singles. */
  method Flush(start: nat, end: nat, done: Groups) returns (g: Groups)
    requires start < end
    ensures g == Concat(done, SplitRun(start, end))
  {
    var s := start;
    var pairs := done.pairs;
    while end - s >= 2
      invariant start <= s <= end
      invariant Concat(Groups(pairs, done.singles), SplitRun(s, end)) == Concat(done, SplitRun(start, end))
    {
      ConcatAssoc(Groups(pairs, done.singles), Groups([Pair(s, s + 1)], []), SplitRun(s + 2, end));
      pairs := pairs + [Pair(s, s + 1)];
      s := s + 2;
    }
    g := Groups(pairs, done.singles + if s < end then [s] else []);
  }

  /** One scan over the date-ordered holidays; the current run is the
      positions [start, i), empty only before the first holiday. */
  method GroupHolidays(d: seq<Day>) returns (g: Groups)
    ensures g == Group(d)
  {
    g := Groups([], []);
    var start := 0;
    var i := 0;
    while i < |d|
      invariant 0 <= start <= i <= |d|
      invariant start == i ==> i == 0
      invariant start < i ==> RunEnd(d, start) >= i
      invariant Group(d) == Concat(g, GroupFrom(d, start))
    {
      if start < i && !NextDay(d, i) {
        CloseRun(d, start, i);
        ConcatAssoc(g, SplitRun(start, i), GroupFrom(d, i));
        g := Flush(start, i, g);
        start := i;
      }
      i := i + 1;
    }
    if start < |d| {
      CloseRun(d, start, |d|);
      ConcatAssoc(g, SplitRun(start, |d|), GroupFrom(d, |d|));
      g := Flush(start, |d|, g);
    }
  }

  // ---------------------------------------------------------------------
  // Properties of the grouping
  // ---------------------------------------------------------------------

  /** The positions of a grouping in assignment order: both days of every
      pair, then the singles. */
  function Flat(ps: seq<Pair>): (r: seq<nat>)
    ensures |r| == 2 * |ps|
  {
    if ps == [] then [] else [ps[0].first, ps[0].second] + Flat(ps[1..])
  }

  function Slots(g: Groups): seq<nat>
  {
    Flat(g.pairs) + g.singles
  }

  lemma {:induction false} FlatAt(ps: seq<Pair>, k: nat)
    requires k < |ps|
    ensures Flat(ps)[2 * k] == ps[k].first && Flat(ps)[2 * k + 1] == ps[k].second
  {
    if k > 0 {
      FlatAt(ps[1..], k - 1);
    }
  }

  lemma {:induction false} FlatAppend(a: seq<Pair>, b: seq<Pair>)
    ensures Flat(a + b) == Flat(a) + Flat(b)
  {
    if a == [] {
      assert a + b == b;
    } else {
      assert (a + b)[1..] == a[1..] + b;
      FlatAppend(a[1..], b);
    }
  }

  /** Every slot of g holds a position below n, no position is in two
      slots, and every position below n is in some slot. */
  predicate Partition(g: Groups, n: nat)
  {
    var s := Slots(g);
    && |s| == n
    && (forall p :: 0 <= p < |s| ==> s[p] < n)
    && (forall p, q :: 0 <= p < q < |s| ==> s[p] != s[q])
    && (forall i :: 0 <= i < n ==> i in s)
  }

  lemma SlotsConcat(a: Groups, b: Groups)
    ensures multiset(Slots(Concat(a, b))) == multiset(Slots(a)) + multiset(Slots(b))
  {
    FlatAppend(a.pairs, b.pairs);
  }

  lemma SplitRunSlots(s: nat, e: nat)
    requires s + 2 <= e
    ensures Slots(SplitRun(s, e)) == [s, s + 1] + Slots(SplitRun(s + 2, e))
  {
    var rest := SplitRun(s + 2, e);
    assert SplitRun(s, e).pairs == [Pair(s, s + 1)] + rest.pairs;
    assert Flat([Pair(s, s + 1)] + rest.pairs) == [s, s + 1] + Flat(rest.pairs);
  }

  /** A run [s, e) contributes each of its positions exactly once. */
  lemma {:induction false} SplitRunCount(s: nat, e: nat, x: int)
    requires s <= e
    ensures multiset(Slots(SplitRun(s, e)))[x] == if s <= x < e then 1 else 0
    decreases e - s
  {
    if e - s >= 2 {
      SplitRunCount(s + 2, e, x);
      SplitRunSlots(s, e);
      assert multiset([s, s + 1] + Slots(SplitRun(s + 2, e))) == multiset([s, s + 1]) + multiset(Slots(SplitRun(s + 2, e)));
      assert multiset([s, s + 1])[x] == if s <= x < s + 2 then 1 else 0;
    } else if e - s == 1 {
      assert Slots(SplitRun(s, e)) == [s];
    } else {
      assert Slots(SplitRun(s, e)) == [];
    }
  }

  /** The grouping from i on holds every position in [i, |d|) exactly once
      and nothing else. */
  lemma {:induction false} GroupFromCount(d: seq<Day>, i: nat, x: int)
    ensures multiset(Slots(GroupFrom(d, i)))[x] == if i <= x < |d| then 1 else 0
    decreases |d| - i
  {
    if i < |d| {
      var j := RunEnd(d, i);
      SplitRunCount(i, j, x);
      GroupFromCount(d, j, x);
      SlotsConcat(SplitRun(i, j), GroupFrom(d, j));
    }
  }

  lemma TwiceInSeq(s: seq<nat>, p: nat, q: nat)
    requires 0 <= p < q < |s| && s[p] == s[q]
    ensures multiset(s)[s[p]] >= 2
  {
    assert s == s[..q] + s[q..];
    assert s[p] in s[..q];
    assert s[q] in s[q..];
    assert multiset(s) == multiset(s[..q]) + multiset(s[q..]);
  }

  /** The grouping from i on has one slot per holiday from i on. */
  lemma {:induction false} GroupFromLength(d: seq<Day>, i: nat)
    requires i <= |d|
    ensures |Slots(GroupFrom(d, i))| == |d| - i
    decreases |d| - i
  {
    if i < |d| {
      GroupFromLength(d, RunEnd(d, i));
    }
  }

  /** Grouping loses and duplicates no holiday: every holiday is in exactly
      one slot, as one day of one pair or as one single. */
  lemma GroupIsPartition(d: seq<Day>)
    ensures Partition(Group(d), |d|)
  {
    var s := Slots(Group(d));
    GroupFromLength(d, 0);
    forall p | 0 <= p < |s| ensures s[p] < |d| {
      GroupFromCount(d, 0, s[p]);
    }
    forall p, q | 0 <= p < q < |s| ensures s[p] != s[q] {
      if s[p] == s[q] {
        TwiceInSeq(s, p, q);
        GroupFromCount(d, 0, s[p]);
      }
    }
    forall i | 0 <= i < |d| ensures i in s {
      GroupFromCount(d, 0, i);
    }
  }

  /** The k-th pair of a run holds its days 2k and 2k + 1. */
  lemma {:induction false} SplitRunPairs(s: nat, e: nat, k: nat)
    requires s <= e && k < |SplitRun(s, e).pairs|
    ensures SplitRun(s, e).pairs[k] == Pair(s + 2 * k, s + 2 * k + 1)
    decreases e - s
  {
    var rest := SplitRun(s + 2, e);
    assert SplitRun(s, e).pairs == [Pair(s, s + 1)] + rest.pairs;
    if k > 0 {
      assert SplitRun(s, e).pairs[k] == rest.pairs[k - 1];
      SplitRunPairs(s + 2, e, k - 1);
    }
  }

  /** The two days of a pair are neighbouring holidays whose dates are
      exactly one day apart. */
  lemma {:induction false} PairsAreNextDays(d: seq<Day>, i: nat)
    ensures forall p :: p in GroupFrom(d, i).pairs ==>
              i <= p.first && p.second == p.first + 1 < |d| && NextDay(d, p.second)
    decreases |d| - i
  {
    if i < |d| {
      var j := RunEnd(d, i);
      var run := SplitRun(i, j).pairs;
      PairsAreNextDays(d, j);
      forall p | p in run ensures i <= p.first && p.second == p.first + 1 < j && NextDay(d, p.second) {
        var k :| 0 <= k < |run| && run[k] == p;
        SplitRunPairs(i, j, k);
      }
    }
  }

  /** A single holiday is the last day of its run: the holiday after it,
      if any, is not the next calendar day. */
  lemma {:induction false} SinglesEndRuns(d: seq<Day>, i: nat)
    ensures forall x :: x in GroupFrom(d, i).singles ==>
              i <= x < |d| && (x + 1 == |d| || !NextDay(d, x + 1))
    decreases |d| - i
  {
    if i < |d| {
      SinglesEndRuns(d, RunEnd(d, i));
    }
  }

  /** Each pair ends before the next one begins. */
  predicate PairsOrdered(ps: seq<Pair>)
  {
    forall k, l :: 0 <= k < l < |ps| ==> ps[k].second < ps[l].first
  }

  predicate Increasing(s: seq<nat>)
  {
    forall k, l :: 0 <= k < l < |s| ==> s[k] < s[l]
  }

  /** The pairs of one run are in date order and end before the run does. */
  lemma SplitRunOrdered(s: nat, e: nat)
    requires s <= e
    ensures PairsOrdered(SplitRun(s, e).pairs)
    ensures forall p :: p in SplitRun(s, e).pairs ==> p.second < e
  {
    var run := SplitRun(s, e).pairs;
    forall k, l | 0 <= k < l < |run| ensures run[k].second < run[l].first {
      SplitRunPairs(s, e, k);
      SplitRunPairs(s, e, l);
    }
    forall p | p in run ensures p.second < e {
      var k :| 0 <= k < |run| && run[k] == p;
      SplitRunPairs(s, e, k);
    }
  }

  lemma OrderedAppend(a: seq<Pair>, b: seq<Pair>, j: nat)
    requires PairsOrdered(a) && PairsOrdered(b)
    requires forall p :: p in a ==> p.second < j
    requires forall p :: p in b ==> j <= p.first
    ensures PairsOrdered(a + b)
  {
    var ps := a + b;
    forall k, l | 0 <= k < l < |ps| ensures ps[k].second < ps[l].first {
      if l < |a| {
        assert ps[k] == a[k] && ps[l] == a[l];
      } else if k < |a| {
        assert ps[k] == a[k] && ps[l] == b[l - |a|];
        assert ps[k] in a && ps[l] in b;
      } else {
        assert ps[k] == b[k - |a|] && ps[l] == b[l - |a|];
      }
    }
  }

  /** Pairs come out in date order. */
  lemma {:induction false} PairsInOrder(d: seq<Day>, i: nat)
    ensures PairsOrdered(GroupFrom(d, i).pairs)
    decreases |d| - i
  {
    if i < |d| {
      var j := RunEnd(d, i);
      PairsInOrder(d, j);
      PairsAreNextDays(d, j);
      SplitRunOrdered(i, j);
      OrderedAppend(SplitRun(i, j).pairs, GroupFrom(d, j).pairs, j);
    }
  }

  /** Singles come out in date order. */
  lemma {:induction false} SinglesInOrder(d: seq<Day>, i: nat)
    ensures Increasing(GroupFrom(d, i).singles)
    decreases |d| - i
  {
    if i < |d| {
      var j := RunEnd(d, i);
      var run := SplitRun(i, j).singles;
      var rest := GroupFrom(d, j).singles;
      var ss := GroupFrom(d, i).singles;
      assert ss == run + rest;
      SinglesInOrder(d, j);
      SinglesEndRuns(d, j);
      forall k, l | 0 <= k < l < |ss| ensures ss[k] < ss[l] {
        var m := |run|;
        if k < m {
          assert ss[k] == j - 1;
          assert ss[l] == rest[l - m] && ss[l] in rest;
        } else {
          assert ss[k] == rest[k - m] && ss[l] == rest[l - m];
        }
      }
    }
  }
}
