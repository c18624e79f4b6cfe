/** The fairness figures of the reports: the weight each employee gets from
    their day count, and the order employees are reported in (most days
    first, ties in their original order). */
module Fairness {
  import opened Types

  /** n / d rounded to the nearest integer, a tie going to the even one
      (the rounding rule of the reports). */
  function RoundHalfEven(n: int, d: int): (r: int)
    requires d > 0
    ensures -d <= 2 * (n - r * d) <= d
    ensures 2 * (n - r * d) == d || 2 * (n - r * d) == -d ==> r % 2 == 0
  {
    var q, m := n / d, n % d;
    assert n == q * d + m;
    assert (q + 1) * d == q * d + d;
    if 2 * m < d then q
    else if 2 * m > d then q + 1
    else if q % 2 == 0 then q
    else q + 1
  }

  lemma MulStep(k: int, d: int)
    requires d > 0
    ensures k >= 1 ==> k * d >= d
    ensures k <= -1 ==> k * d <= -d
  {
    if k >= 1 {
      assert k * d == (k - 1) * d + d;
      assert (k - 1) * d >= 0;
    } else if k <= -1 {
      assert k * d == (k + 1) * d - d;
      assert (k + 1) * d <= 0;
    }
  }

  lemma Distrib(a: int, b: int, d: int)
    ensures (a + b) * d == a * d + b * d
  {
  }

  /** The only multiples of d within d of 0 are -d, 0 and d. */
  lemma SmallMultiple(k: int, d: int)
    requires d > 0 && -d <= k * d <= d
    ensures -1 <= k <= 1
  {
    MulStep(k - 1, d);
    MulStep(k + 1, d);
    Distrib(k, -1, d);
    Distrib(k, 1, d);
  }

  /** The rounding is the only integer within half a step of n / d that
      breaks ties towards even. */
  lemma RoundUnique(n: int, d: int, r': int)
    requires d > 0
    requires -d <= 2 * (n - r' * d) <= d
    requires 2 * (n - r' * d) == d || 2 * (n - r' * d) == -d ==> r' % 2 == 0
    ensures r' == RoundHalfEven(n, d)
  {
    var r := RoundHalfEven(n, d);
    var k := r' - r;
    Distrib(r, k, d);
    SmallMultiple(k, d);
  }

  /** Rounding never reverses the order of two quotients. */
  lemma RoundMonotone(n1: int, n2: int, d: int)
    requires d > 0 && n1 <= n2
    ensures RoundHalfEven(n1, d) <= RoundHalfEven(n2, d)
  {
    var r1, r2 := RoundHalfEven(n1, d), RoundHalfEven(n2, d);
    var k := r1 - r2;
    Distrib(r2, k, d);
    Distrib(k - 1, 1, d);
    MulStep(k, d);
    MulStep(k - 1, d);
  }

  /** A whole number of steps rounds to itself. */
  lemma RoundExact(k: int, d: int)
    requires d > 0
    ensures RoundHalfEven(k * d, d) == k
  {
    RoundUnique(k * d, d, k);
  }

  /** The weight of the auto-assign report: the distance below the
      busiest employee, scaled so that the range of counts maps onto 0..3;
      0 for everyone when all counts are equal. */
  function LiveWeight(maxDays: int, minDays: int, days: int): (w: int)
    requires minDays <= maxDays
    ensures maxDays == minDays ==> w == 0
    ensures days == maxDays ==> w == 0
  {
    if maxDays - minDays == 0 then 0
    else
      RoundExact(0, maxDays - minDays);
      RoundHalfEven(3 * (maxDays - days), maxDays - minDays)
  }

  /** Weights stay in 0..3, the busiest employee gets 0 and, when counts
      differ, the least busy gets 3. */
  lemma LiveWeightBounds(maxDays: int, minDays: int, days: int)
    requires minDays <= days <= maxDays
    ensures 0 <= LiveWeight(maxDays, minDays, days) <= 3
    ensures days == maxDays ==> LiveWeight(maxDays, minDays, days) == 0
    ensures days == minDays && minDays < maxDays ==> LiveWeight(maxDays, minDays, days) == 3
  {
    var d := maxDays - minDays;
    if d > 0 {
      RoundExact(0, d);
      RoundExact(3, d);
      assert 0 * d == 0 && 3 * d == 3 * (maxDays - minDays);
      RoundMonotone(0, 3 * (maxDays - days), d);
      RoundMonotone(3 * (maxDays - days), 3 * d, d);
    }
  }

  /** More days never means a larger weight. */
  lemma LiveWeightMonotone(maxDays: int, minDays: int, days1: int, days2: int)
    requires minDays <= maxDays && days1 <= days2
    ensures LiveWeight(maxDays, minDays, days1) >= LiveWeight(maxDays, minDays, days2)
  {
    if maxDays - minDays > 0 {
      RoundMonotone(3 * (maxDays - days2), 3 * (maxDays - days1), maxDays - minDays);
    }
  }

  /** The weight of the statistics report: half the distance below the
      busiest employee, rounded half to even. */
  function StatsWeight(maxDays: int, days: int): (w: int)
    ensures -1 <= (maxDays - days) - 2 * w <= 1
    ensures (maxDays - days) % 2 == 1 ==> w % 2 == 0
  {
    RoundHalfEven(maxDays - days, 2)
  }

  /** The statistics weight is never negative, and it is 0 exactly for the
      employees at most one day below the busiest (half a day rounds to 0). */
  lemma StatsWeightZero(maxDays: int, days: int)
    requires days <= maxDays
    ensures StatsWeight(maxDays, days) >= 0
    ensures StatsWeight(maxDays, days) == 0 <==> maxDays - days <= 1
  {
    RoundExact(0, 2);
    RoundMonotone(0, maxDays - days, 2);
    if maxDays - days <= 1 {
      RoundUnique(maxDays - days, 2, 0);
    } else {
      RoundExact(1, 2);
      RoundMonotone(2, maxDays - days, 2);
    }
  }

  /** Ties go to the even neighbour: 2.5 days' distance gives weight 2. */
  lemma StatsWeightTie()
    ensures StatsWeight(5, 0) == 2 && StatsWeight(3, 0) == 2 && StatsWeight(1, 0) == 0
  {
    RoundUnique(5, 2, 2);
    RoundUnique(3, 2, 2);
    RoundUnique(1, 2, 0);
  }

  /** The largest count among the employees, 0 when there are none. */
  function MaxLoad(es: seq<Employee>, counts: map<EmpId, nat>): (m: nat)
    ensures forall i :: 0 <= i < |es| ==> Load(counts, es[i].id) <= m
    ensures es == [] ==> m == 0
    ensures es != [] ==> exists i :: 0 <= i < |es| && Load(counts, es[i].id) == m
  {
    if es == [] then 0
    else
      var rest := MaxLoad(es[1..], counts);
      if Load(counts, es[0].id) >= rest then Load(counts, es[0].id) else rest
  }

  /** Most days first. */
  predicate ByLoad(s: seq<Employee>, counts: map<EmpId, nat>)
  {
    forall i, j :: 0 <= i < j < |s| ==> Load(counts, s[i].id) >= Load(counts, s[j].id)
  }

  lemma ByLoadTail(s: seq<Employee>, counts: map<EmpId, nat>)
    requires s != [] && ByLoad(s, counts)
    ensures ByLoad(s[1..], counts)
  {
    forall i, j | 0 <= i < j < |s[1..]| ensures Load(counts, s[1..][i].id) >= Load(counts, s[1..][j].id) {
      assert s[1..][i] == s[i + 1] && s[1..][j] == s[j + 1];
    }
  }

  lemma ByLoadCons(y: Employee, s: seq<Employee>, counts: map<EmpId, nat>)
    requires ByLoad(s, counts) && (s != [] ==> Load(counts, y.id) >= Load(counts, s[0].id))
    ensures ByLoad([y] + s, counts)
  {
    var t := [y] + s;
    forall i, j | 0 <= i < j < |t| ensures Load(counts, t[i].id) >= Load(counts, t[j].id) {
      if i == 0 {
        assert t[j] == s[j - 1];
        if j > 1 {
          assert Load(counts, s[0].id) >= Load(counts, s[j - 1].id);
        }
      } else {
        assert t[i] == s[i - 1] && t[j] == s[j - 1];
      }
    }
  }

  /** x placed in front of the first employee with no more days than x. */
  function Insert(x: Employee, s: seq<Employee>, counts: map<EmpId, nat>): (r: seq<Employee>)
    requires ByLoad(s, counts)
    ensures ByLoad(r, counts)
    ensures multiset(r) == multiset(s) + multiset{x}
    ensures r[0] == x || (s != [] && r[0] == s[0])
  {
    if s == [] || Load(counts, s[0].id) <= Load(counts, x.id) then
      ByLoadCons(x, s, counts);
      [x] + s
    else
      ByLoadTail(s, counts);
      var rest := Insert(x, s[1..], counts);
      assert s == [s[0]] + s[1..];
      ByLoadCons(s[0], rest, counts);
      [s[0]] + rest
  }

  /** The employees ordered by descending count, employees with equal
      counts keeping their relative order (a stable sort). */
  function SortByLoad(es: seq<Employee>, counts: map<EmpId, nat>): (r: seq<Employee>)
    ensures ByLoad(r, counts)
    ensures multiset(r) == multiset(es)
    ensures |r| == |es|
  {
    if es == [] then []
    else
      assert es == [es[0]] + es[1..];
      Insert(es[0], SortByLoad(es[1..], counts), counts)
  }

  /** The employees of s whose count is v, in their order in s. */
  function WithLoad(s: seq<Employee>, counts: map<EmpId, nat>, v: nat): seq<Employee>
  {
    if s == [] then []
    else (if Load(counts, s[0].id) == v then [s[0]] else []) + WithLoad(s[1..], counts, v)
  }

  lemma {:induction false} InsertStable(x: Employee, s: seq<Employee>, counts: map<EmpId, nat>, v: nat)
    requires ByLoad(s, counts)
    ensures WithLoad(Insert(x, s, counts), counts, v)
         == (if Load(counts, x.id) == v then [x] else []) + WithLoad(s, counts, v)
  {
    if s == [] || Load(counts, s[0].id) <= Load(counts, x.id) {
      assert ([x] + s)[1..] == s;
    } else {
      assert ByLoad(s[1..], counts) by {
        forall i, j | 0 <= i < j < |s[1..]| ensures Load(counts, s[1..][i].id) >= Load(counts, s[1..][j].id) {
          assert s[1..][i] == s[i + 1] && s[1..][j] == s[j + 1];
        }
      }
      var rest := Insert(x, s[1..], counts);
      InsertStable(x, s[1..], counts, v);
      assert ([s[0]] + rest)[1..] == rest;
      if Load(counts, x.id) == v {
        // x sorts after s[0], so s[0]'s count is above v and it is left out.
        assert Load(counts, s[0].id) != v;
      }
    }
  }

  /** Sorting keeps employees with equal counts in their original order:
      for every count, the employees having it appear in the sorted list
      exactly as in the input. */
  lemma {:induction false} SortStable(es: seq<Employee>, counts: map<EmpId, nat>, v: nat)
    ensures WithLoad(SortByLoad(es, counts), counts, v) == WithLoad(es, counts, v)
  {
    if es != [] {
      SortStable(es[1..], counts, v);
      InsertStable(es[0], SortByLoad(es[1..], counts), counts, v);
    }
  }
}
