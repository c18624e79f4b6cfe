/** The assignment statistics of a year, recomputed from the stored
    holidays: per employee the days held, the days credited as continuous
    and the days credited as single, and a weight from the day count.

    Runs are found by date adjacency alone, whoever holds the days: a run
    of two or more assigned days credits its whole length, as continuous
    days, to the employee holding its first day; a run of one day credits
    one single day to its holder. */
module Stats {
  import opened Types
  import opened Grouping
  import opened Fairness

  /** A holiday counts only when it names an employee; the id 0 counts as
      no employee. */
  predicate IsAssigned(h: Holiday): (b: bool)
    ensures h.employee == None ==> !b
    ensures h.employee == Some(0) ==> !b
    ensures h.employee.Some? && h.employee.value != 0 ==> b
  {
    h.employee.Some? && h.employee.value != 0
  }

  /** The assigned holidays among the first i, in their order. */
  function AssignedUpTo(hs: seq<Holiday>, i: nat): (r: seq<Holiday>)
    requires i <= |hs|
    ensures |r| <= i
    ensures forall k :: 0 <= k < |r| ==> IsAssigned(r[k])
  {
    if i == 0 then []
    else AssignedUpTo(hs, i - 1) + (if IsAssigned(hs[i - 1]) then [hs[i - 1]] else [])
  }

  /** The assigned holidays, in their order. */
  function AssignedOnly(hs: seq<Holiday>): seq<Holiday>
  {
    AssignedUpTo(hs, |hs|)
  }

  /** Scanning further only appends assigned holidays. */
  lemma {:induction false} AssignedGrows(hs: seq<Holiday>, i: nat, j: nat)
    requires i <= j <= |hs|
    ensures |AssignedUpTo(hs, i)| <= |AssignedUpTo(hs, j)|
    ensures AssignedUpTo(hs, i) == AssignedUpTo(hs, j)[..|AssignedUpTo(hs, i)|]
    decreases j
  {
    if i < j {
      AssignedGrows(hs, i, j - 1);
      var p := AssignedUpTo(hs, j - 1);
      assert (p + (if IsAssigned(hs[j - 1]) then [hs[j - 1]] else []))[..|p|] == p;
    }
  }

  /** A stored assignment naming an employee that is not on the list. */
  predicate Unknown(h: Holiday, known: set<EmpId>)
  {
    IsAssigned(h) && h.employee.value !in known
  }

  /** The first holiday at or after i whose employee is not on the list. */
  function FirstUnknown(hs: seq<Holiday>, known: set<EmpId>, i: nat): (r: Option<nat>)
    requires i <= |hs|
    ensures r.None? ==> forall k :: i <= k < |hs| ==> !Unknown(hs[k], known)
    ensures r.Some? ==> i <= r.value < |hs| && Unknown(hs[r.value], known)
    ensures r.Some? ==> forall k :: i <= k < r.value ==> !Unknown(hs[k], known)
    decreases |hs| - i
  {
    if i == |hs| then None
    else if Unknown(hs[i], known) then Some(i)
    else FirstUnknown(hs, known, i + 1)
  }

  /** The number of assigned holidays among the first i that name e. */
  function Held(hs: seq<Holiday>, i: nat, e: EmpId): nat
    requires i <= |hs|
  {
    if i == 0 then 0
    else Held(hs, i - 1, e) + (if IsAssigned(hs[i - 1]) && hs[i - 1].employee == Some(e) then 1 else 0)
  }

  /** The continuous days credited to e by the runs of the assigned
      holidays a from position i on: the length of every run of two or more
      days whose first day e holds. */
  function ContFrom(a: seq<Holiday>, i: nat, e: EmpId): nat
    requires i <= |a|
    decreases |a| - i
  {
    if i == |a| then 0
    else
      var j := RunEnd(Dates(a), i);
      (if j - i >= 2 && a[i].employee == Some(e) then j - i else 0) + ContFrom(a, j, e)
  }

  /** The single days credited to e by the runs of a from position i on:
      one for every run of one day that e holds. */
  function SingleFrom(a: seq<Holiday>, i: nat, e: EmpId): nat
    requires i <= |a|
    decreases |a| - i
  {
    if i == |a| then 0
    else
      var j := RunEnd(Dates(a), i);
      (if j - i == 1 && a[i].employee == Some(e) then 1 else 0) + SingleFrom(a, j, e)
  }

  /** The three per-employee tallies of the statistics. */
  datatype Tallies = Tallies(total: map<EmpId, nat>, continuous: map<EmpId, nat>, single: map<EmpId, nat>)

  /** The tallies the statistics stand for: for each employee on the list,
      the assigned days they hold and the days their runs credit them. */
  function TalliesOf(hs: seq<Holiday>, es: seq<Employee>): Tallies
  {
    var a := AssignedOnly(hs);
    Tallies(map e | e in IdSet(es) :: Held(hs, |hs|, e),
            map e | e in IdSet(es) :: ContFrom(a, 0, e),
            map e | e in IdSet(es) :: SingleFrom(a, 0, e))
  }

  /** The credits c are exactly those of the runs of a that end at or
      before position s (s being the start of a run): for every listed
      employee, c plus the credits from s on make up all of their credits. */
  predicate Settled(a: seq<Holiday>, s: nat, c: Credits, known: set<EmpId>)
  {
    && s <= |a| && c.continuous.Keys == known && c.single.Keys == known
    && (forall e :: e in known ==> c.continuous[e] + ContFrom(a, s, e) == ContFrom(a, 0, e))
    && (forall e :: e in known ==> c.single[e] + SingleFrom(a, s, e) == SingleFrom(a, 0, e))
  }

  /** Closing the run [s, n): the first step of the credits from s. */
  lemma CloseStep(a: seq<Holiday>, s: nat, n: nat, e: EmpId)
    requires s < n <= |a| && RunEnd(Dates(a), s) == n
    ensures ContFrom(a, s, e) == (if n - s >= 2 && a[s].employee == Some(e) then n - s else 0) + ContFrom(a, n, e)
    ensures SingleFrom(a, s, e) == (if n - s == 1 && a[s].employee == Some(e) then 1 else 0) + SingleFrom(a, n, e)
  {
  }

  // ---------------------------------------------------------------------
  // The pass, step by step: the state after the first i holidays
  // ---------------------------------------------------------------------

  /** No holiday before position i names an employee missing from the list. */
  predicate AllKnown(hs: seq<Holiday>, known: set<EmpId>, i: nat)
    requires i <= |hs|
  {
    forall k :: 0 <= k < i ==> !Unknown(hs[k], known)
  }

  /** An assigned holiday extends the open group when the group is empty
      or the holiday falls on the day after the group's last one. */
  predicate Joins(cur: seq<Holiday>, h: Holiday): (b: bool)
    ensures cur == [] ==> b
    ensures cur != [] ==> (b <==> h.date == cur[|cur| - 1].date + 1)
  {
    cur == [] || h.date - cur[|cur| - 1].date == 1
  }

  /** The open group after the first i holidays. */
  function OpenGroup(hs: seq<Holiday>, i: nat): (cur: seq<Holiday>)
    requires i <= |hs|
    ensures forall k :: 0 <= k < |cur| ==> IsAssigned(cur[k])
  {
    if i == 0 then []
    else
      var cur := OpenGroup(hs, i - 1);
      var h := hs[i - 1];
      if !IsAssigned(h) then cur
      else if Joins(cur, h) then cur + [h]
      else [h]
  }

  /** The held-day tally after the first i holidays. */
  function TotalAfter(hs: seq<Holiday>, es: seq<Employee>, i: nat): map<EmpId, nat>
    requires i <= |hs|
  {
    if i == 0 then Zeros(es)
    else
      var t := TotalAfter(hs, es, i - 1);
      var h := hs[i - 1];
      if IsAssigned(h) then t[h.employee.value := Load(t, h.employee.value) + 1] else t
  }

  /** The continuous and single tallies. */
  datatype Credits = Credits(continuous: map<EmpId, nat>, single: map<EmpId, nat>)

  /** Credits a closed group: its whole length as continuous days of its
      first holder when it has two days or more, otherwise one single day
      of its only holder. */
  function Close(cur: seq<Holiday>, c: Credits): (r: Credits)
    requires cur != [] && cur[0].employee.Some?
    ensures var first := cur[0].employee.value;
      && (|cur| >= 2 ==> Load(r.continuous, first) == Load(c.continuous, first) + |cur| && r.single == c.single)
      && (|cur| == 1 ==> Load(r.single, first) == Load(c.single, first) + 1 && r.continuous == c.continuous)
      && (forall e :: e != first ==> Load(r.continuous, e) == Load(c.continuous, e) && Load(r.single, e) == Load(c.single, e))
  {
    var first := cur[0].employee.value;
    if |cur| >= 2 then c.(continuous := c.continuous[first := Load(c.continuous, first) + |cur|])
    else c.(single := c.single[first := Load(c.single, first) + 1])
  }

  /** The credits after the first i holidays: groups closed so far. */
  function CreditsAfter(hs: seq<Holiday>, es: seq<Employee>, i: nat): Credits
    requires i <= |hs|
  {
    if i == 0 then Credits(Zeros(es), Zeros(es))
    else
      var c := CreditsAfter(hs, es, i - 1);
      var cur := OpenGroup(hs, i - 1);
      var h := hs[i - 1];
      if IsAssigned(h) && !Joins(cur, h) then Close(cur, c) else c
  }

  /** The credits once the last open group is closed too. */
  function Finish(hs: seq<Holiday>, es: seq<Employee>): Credits
  {
    var cur := OpenGroup(hs, |hs|);
    if cur == [] then CreditsAfter(hs, es, |hs|) else Close(cur, CreditsAfter(hs, es, |hs|))
  }

  /** Where the open group after the first i holidays starts, as a
      position among the assigned holidays. */
  function GroupStart(hs: seq<Holiday>, i: nat): nat
    requires i <= |hs|
  {
    if i == 0 then 0
    else if IsAssigned(hs[i - 1]) && !Joins(OpenGroup(hs, i - 1), hs[i - 1]) then |AssignedUpTo(hs, i - 1)|
    else GroupStart(hs, i - 1)
  }

  /** The holiday at position i, when assigned, is the next assigned one. */
  lemma NextAssigned(hs: seq<Holiday>, i: nat)
    requires i < |hs| && IsAssigned(hs[i])
    ensures var a, n := AssignedOnly(hs), |AssignedUpTo(hs, i)|;
      n < |a| && a[n] == hs[i]
  {
    var a, n := AssignedOnly(hs), |AssignedUpTo(hs, i)|;
    AssignedGrows(hs, i + 1, |hs|);
    assert |AssignedUpTo(hs, i + 1)| == n + 1;
    assert a[..n + 1] == a[..n] + [hs[i]];
    assert a[n] == a[..n + 1][n];
  }

  lemma SliceOne(a: seq<Holiday>, s: nat, n: nat)
    requires n == s + 1 <= |a|
    ensures a[s..n] == [a[s]]
  {
  }

  lemma SliceExtend(a: seq<Holiday>, s: nat, n0: nat, n: nat)
    requires s <= n0 && n == n0 + 1 <= |a|
    ensures a[s..n] == a[s..n0] + [a[n0]]
  {
  }

  /** The open group is the assigned holidays seen so far from its start
      on, and it is empty only before the first of them. */
  lemma {:induction false} OpenGroupTail(hs: seq<Holiday>, i: nat)
    requires i <= |hs|
    ensures var a, s, n := AssignedOnly(hs), GroupStart(hs, i), |AssignedUpTo(hs, i)|;
      s <= n <= |a| && OpenGroup(hs, i) == a[s..n] && (n > 0 ==> s < n)
  {
    AssignedGrows(hs, i, |hs|);
    if i > 0 {
      OpenGroupTail(hs, i - 1);
      var a, s0, n0, cur0 := AssignedOnly(hs), GroupStart(hs, i - 1), |AssignedUpTo(hs, i - 1)|, OpenGroup(hs, i - 1);
      var h, n := hs[i - 1], |AssignedUpTo(hs, i)|;
      if IsAssigned(h) {
        NextAssigned(hs, i - 1);
        assert n == n0 + 1;
        if Joins(cur0, h) {
          SliceExtend(a, s0, n0, n);
        } else {
          SliceOne(a, n0, n);
        }
      } else {
        assert AssignedUpTo(hs, i) == AssignedUpTo(hs, i - 1) + [];
      }
    }
  }

  /** A new group of one holiday lies within the run that starts at it. */
  lemma GroupStarts(a: seq<Holiday>, s: nat, n: nat)
    requires n == s + 1 <= |a|
    ensures RunEnd(Dates(a), s) >= n
  {
  }

  /** The group a[s..n0] grows by a[n0] when a[n0] falls on the next day:
      it then stays within the run it started. */
  lemma GroupExtends(a: seq<Holiday>, s: nat, n0: nat, n: nat, cur: seq<Holiday>)
    requires s < n0 && n == n0 + 1 <= |a|
    requires RunEnd(Dates(a), s) >= n0
    requires cur == a[s..n0] && Joins(cur, a[n0])
    ensures RunEnd(Dates(a), s) >= n
  {
    var d := Dates(a);
    assert cur[|cur| - 1] == a[n0 - 1];
    assert NextDay(d, n0);
  }


  /** All of the open group lies within one run of consecutive days. */
  lemma {:induction false} OpenGroupRun(hs: seq<Holiday>, i: nat)
    requires i <= |hs|
    ensures var a, s, n := AssignedOnly(hs), GroupStart(hs, i), |AssignedUpTo(hs, i)|;
      s < n <= |a| ==> RunEnd(Dates(a), s) >= n
  {
    if i > 0 {
      OpenGroupRun(hs, i - 1);
      OpenGroupTail(hs, i - 1);
      var a, s0, n0, cur0 := AssignedOnly(hs), GroupStart(hs, i - 1), |AssignedUpTo(hs, i - 1)|, OpenGroup(hs, i - 1);
      var h, n := hs[i - 1], |AssignedUpTo(hs, i)|;
      if IsAssigned(h) {
        NextAssigned(hs, i - 1);
        assert n == n0 + 1;
        if !Joins(cur0, h) {
          GroupStarts(a, n0, n);
        } else if cur0 == [] {
          GroupStarts(a, s0, n);
        } else {
          GroupExtends(a, s0, n0, n, cur0);
        }
      } else {
        assert AssignedUpTo(hs, i) == AssignedUpTo(hs, i - 1) + [];
      }
    }
  }

  /** A run that reaches position n, where the days stop being
      consecutive, ends there. */
  lemma RunStops(a: seq<Holiday>, s: nat, n: nat, cur: seq<Holiday>)
    requires s < n < |a| && RunEnd(Dates(a), s) >= n
    requires cur == a[s..n] && !Joins(cur, a[n])
    ensures RunEnd(Dates(a), s) == n
  {
    var d := Dates(a);
    assert cur[|cur| - 1] == a[n - 1];
    assert !NextDay(d, n);
  }


  /** An assigned holiday that does not join the open group closes it: the
      group then ends exactly where its run ends. */
  lemma CloseAt(hs: seq<Holiday>, i: nat)
    requires i < |hs| && IsAssigned(hs[i]) && !Joins(OpenGroup(hs, i), hs[i])
    ensures var a, s, n := AssignedOnly(hs), GroupStart(hs, i), |AssignedUpTo(hs, i)|;
      && s < n < |a| && a[n] == hs[i] && OpenGroup(hs, i) == a[s..n]
      && RunEnd(Dates(a), s) == n
  {
    var a, s, n := AssignedOnly(hs), GroupStart(hs, i), |AssignedUpTo(hs, i)|;
    var cur := OpenGroup(hs, i);
    OpenGroupTail(hs, i);
    NextAssigned(hs, i);
    OpenGroupRun(hs, i);
    RunStops(a, s, n, cur);
  }

  /** Every holiday of the open group names a listed employee. */
  lemma {:induction false} OpenGroupKnown(hs: seq<Holiday>, known: set<EmpId>, i: nat)
    requires i <= |hs| && AllKnown(hs, known, i)
    ensures forall k :: 0 <= k < |OpenGroup(hs, i)| ==> OpenGroup(hs, i)[k].employee.value in known
  {
    if i > 0 {
      OpenGroupKnown(hs, known, i - 1);
    }
  }

  /** The held-day tally counts, for every listed employee, the assigned
      holidays seen so far that name them. */
  lemma {:induction false} TotalAfterHeld(hs: seq<Holiday>, es: seq<Employee>, i: nat)
    requires i <= |hs| && AllKnown(hs, IdSet(es), i)
    ensures TotalAfter(hs, es, i).Keys == IdSet(es)
    ensures forall e :: e in IdSet(es) ==> TotalAfter(hs, es, i)[e] == Held(hs, i, e)
  {
    if i > 0 {
      TotalAfterHeld(hs, es, i - 1);
      assert !Unknown(hs[i - 1], IdSet(es));
    }
  }

  /** Closing a group whose first holder is listed keeps the tallies'
      employees. */
  lemma CloseKeys(cur: seq<Holiday>, c: Credits, known: set<EmpId>)
    requires cur != [] && cur[0].employee.Some? && cur[0].employee.value in known
    requires c.continuous.Keys == known && c.single.Keys == known
    ensures Close(cur, c).continuous.Keys == known && Close(cur, c).single.Keys == known
  {
  }

  /** Closing the group a[s..n], a whole run, moves the settled boundary
      from s to n. */
  lemma CloseRunCredits(a: seq<Holiday>, s: nat, n: nat, c: Credits, known: set<EmpId>)
    requires s < n <= |a| && RunEnd(Dates(a), s) == n
    requires a[s].employee.Some? && a[s].employee.value in known
    requires Settled(a, s, c, known)
    ensures Settled(a, n, Close(a[s..n], c), known)
  {
    var cur := a[s..n];
    assert cur[0] == a[s] && |cur| == n - s;
    CloseKeys(cur, c, known);
    forall e | e in known
      ensures Close(cur, c).continuous[e] + ContFrom(a, n, e) == ContFrom(a, 0, e)
      ensures Close(cur, c).single[e] + SingleFrom(a, n, e) == SingleFrom(a, 0, e)
    {
      CloseStep(a, s, n, e);
    }
  }

  /** A holiday that leaves the open group's start in place leaves the
      credits as they were. */
  lemma CreditsKeep(hs: seq<Holiday>, es: seq<Employee>, i: nat)
    requires 0 < i <= |hs| && !(IsAssigned(hs[i - 1]) && !Joins(OpenGroup(hs, i - 1), hs[i - 1]))
    ensures CreditsAfter(hs, es, i) == CreditsAfter(hs, es, i - 1)
    ensures GroupStart(hs, i) == GroupStart(hs, i - 1)
  {
  }

  /** A holiday that closes the open group settles the group's run. */
  lemma CreditsClose(hs: seq<Holiday>, es: seq<Employee>, i: nat)
    requires 0 < i <= |hs| && AllKnown(hs, IdSet(es), i - 1)
    requires IsAssigned(hs[i - 1]) && !Joins(OpenGroup(hs, i - 1), hs[i - 1])
    requires Settled(AssignedOnly(hs), GroupStart(hs, i - 1), CreditsAfter(hs, es, i - 1), IdSet(es))
    ensures Settled(AssignedOnly(hs), GroupStart(hs, i), CreditsAfter(hs, es, i), IdSet(es))
  {
    var a, cur0, c0 := AssignedOnly(hs), OpenGroup(hs, i - 1), CreditsAfter(hs, es, i - 1);
    var s0, n0 := GroupStart(hs, i - 1), |AssignedUpTo(hs, i - 1)|;
    CloseAt(hs, i - 1);
    OpenGroupKnown(hs, IdSet(es), i - 1);
    assert cur0[0] == a[s0];
    CloseRunCredits(a, s0, n0, c0, IdSet(es));
    assert CreditsAfter(hs, es, i) == Close(a[s0..n0], c0);
    assert GroupStart(hs, i) == n0;
  }

  /** The credits after the first i holidays are settled up to the start of
      the open group. */
  lemma {:induction false} CreditsAfterRuns(hs: seq<Holiday>, es: seq<Employee>, i: nat)
    requires i <= |hs| && AllKnown(hs, IdSet(es), i)
    ensures Settled(AssignedOnly(hs), GroupStart(hs, i), CreditsAfter(hs, es, i), IdSet(es))
  {
    if i == 0 {
      OpenGroupTail(hs, 0);
    } else {
      CreditsAfterRuns(hs, es, i - 1);
      if IsAssigned(hs[i - 1]) && !Joins(OpenGroup(hs, i - 1), hs[i - 1]) {
        CreditsClose(hs, es, i);
      } else {
        CreditsKeep(hs, es, i);
      }
    }
  }

  /** With distinct ids, the held days add up to the assigned holidays seen
      so far, and the credits to those in closed groups. */
  lemma {:induction false} SumsAfter(hs: seq<Holiday>, es: seq<Employee>, i: nat)
    requires i <= |hs| && AllKnown(hs, IdSet(es), i) && DistinctIds(es)
    ensures Sum(Ids(es), TotalAfter(hs, es, i)) == |AssignedUpTo(hs, i)|
    ensures var c := CreditsAfter(hs, es, i);
      Sum(Ids(es), c.continuous) + Sum(Ids(es), c.single) + |OpenGroup(hs, i)| == |AssignedUpTo(hs, i)|
  {
    assert Distinct(Ids(es));
    if i == 0 {
      ZeroSum(Ids(es), Zeros(es));
    } else {
      SumsAfter(hs, es, i - 1);
      var h := hs[i - 1];
      if IsAssigned(h) {
        InIds(es, h.employee.value);
        SumBump(Ids(es), TotalAfter(hs, es, i - 1), h.employee.value, 1);
        var cur0 := OpenGroup(hs, i - 1);
        if !Joins(cur0, h) {
          OpenGroupKnown(hs, IdSet(es), i - 1);
          CloseSums(es, cur0, CreditsAfter(hs, es, i - 1));
        }
      }
    }
  }

  /** Closing a group adds its length to the credits' sum. */
  lemma CloseSums(es: seq<Employee>, cur: seq<Holiday>, c: Credits)
    requires DistinctIds(es) && cur != [] && cur[0].employee.Some? && cur[0].employee.value in IdSet(es)
    ensures Sum(Ids(es), Close(cur, c).continuous) + Sum(Ids(es), Close(cur, c).single)
         == Sum(Ids(es), c.continuous) + Sum(Ids(es), c.single) + |cur|
  {
    assert Distinct(Ids(es));
    InIds(es, cur[0].employee.value);
    if |cur| >= 2 {
      SumBump(Ids(es), c.continuous, cur[0].employee.value, |cur|);
    } else {
      SumBump(Ids(es), c.single, cur[0].employee.value, 1);
    }
  }

  /** Settled at the end of the holidays, the credits are all of them. */
  lemma SettledAll(a: seq<Holiday>, c: Credits, known: set<EmpId>)
    requires Settled(a, |a|, c, known)
    ensures c.continuous == map e | e in known :: ContFrom(a, 0, e)
    ensures c.single == map e | e in known :: SingleFrom(a, 0, e)
  {
  }

  /** Closing the open group at the end of the pass settles every run. */
  lemma FinishSettled(hs: seq<Holiday>, es: seq<Employee>)
    requires AllKnown(hs, IdSet(es), |hs|)
    ensures Settled(AssignedOnly(hs), |AssignedOnly(hs)|, Finish(hs, es), IdSet(es))
  {
    var a, cur, s := AssignedOnly(hs), OpenGroup(hs, |hs|), GroupStart(hs, |hs|);
    var c := CreditsAfter(hs, es, |hs|);
    CreditsAfterRuns(hs, es, |hs|);
    OpenGroupTail(hs, |hs|);
    if cur != [] {
      OpenGroupRun(hs, |hs|);
      OpenGroupKnown(hs, IdSet(es), |hs|);
      assert cur[0] == a[s];
      CloseRunCredits(a, s, |a|, c, IdSet(es));
      assert Finish(hs, es) == Close(a[s..|a|], c);
    } else {
      assert Finish(hs, es) == c;
    }
  }

  /** The credits at the end of the pass, the open group closed, are those
      of TalliesOf. */
  lemma FinishCredits(hs: seq<Holiday>, es: seq<Employee>)
    requires AllKnown(hs, IdSet(es), |hs|)
    ensures Finish(hs, es).continuous == TalliesOf(hs, es).continuous
    ensures Finish(hs, es).single == TalliesOf(hs, es).single
  {
    FinishSettled(hs, es);
    SettledAll(AssignedOnly(hs), Finish(hs, es), IdSet(es));
  }

  /** The pass computes the tallies of TalliesOf. */
  lemma PassMeaning(hs: seq<Holiday>, es: seq<Employee>)
    requires AllKnown(hs, IdSet(es), |hs|)
    ensures TalliesOf(hs, es) == Tallies(TotalAfter(hs, es, |hs|), Finish(hs, es).continuous, Finish(hs, es).single)
  {
    TotalAfterHeld(hs, es, |hs|);
    FinishCredits(hs, es);
  }

  /** Summed over the employees (ids distinct), the held days and the
      credited days both add up to the number of assigned holidays. */
  lemma StatsConserve(hs: seq<Holiday>, es: seq<Employee>)
    requires AllKnown(hs, IdSet(es), |hs|) && DistinctIds(es)
    ensures Sum(Ids(es), TalliesOf(hs, es).total) == |AssignedOnly(hs)|
    ensures Sum(Ids(es), TalliesOf(hs, es).continuous) + Sum(Ids(es), TalliesOf(hs, es).single) == |AssignedOnly(hs)|
  {
    PassMeaning(hs, es);
    SumsAfter(hs, es, |hs|);
    var cur := OpenGroup(hs, |hs|);
    if cur != [] {
      OpenGroupKnown(hs, IdSet(es), |hs|);
      CloseSums(es, cur, CreditsAfter(hs, es, |hs|));
    }
  }

  /** While only listed employees were seen, the tallies have exactly the
      listed employees as keys and the open group starts with one of them. */
  lemma PassKeys(hs: seq<Holiday>, es: seq<Employee>, i: nat)
    requires i <= |hs| && AllKnown(hs, IdSet(es), i)
    ensures TotalAfter(hs, es, i).Keys == IdSet(es)
    ensures CreditsAfter(hs, es, i).continuous.Keys == IdSet(es)
    ensures CreditsAfter(hs, es, i).single.Keys == IdSet(es)
    ensures OpenGroup(hs, i) != [] ==> OpenGroup(hs, i)[0].employee.value in IdSet(es)
  {
    TotalAfterHeld(hs, es, i);
    CreditsAfterRuns(hs, es, i);
    OpenGroupKnown(hs, IdSet(es), i);
  }

  /** An unlisted employee at i, after only listed ones, is the first. */
  lemma {:induction false} FirstUnknownAt(hs: seq<Holiday>, known: set<EmpId>, j: nat, i: nat)
    requires j <= i < |hs| && AllKnown(hs, known, i) && Unknown(hs[i], known)
    ensures FirstUnknown(hs, known, j) == Some(i)
    decreases i - j
  {
    if j < i {
      FirstUnknownAt(hs, known, j + 1, i);
    }
  }

  /** Closes the group cur, as the pass does before starting a new group
      and at the end: a group of two or more days credits its length, as
      continuous days, to the employee of its first day; otherwise each of
      its days (there is one) credits a single day to its employee. */
  method CloseGroup(cur: seq<Holiday>, cont: map<EmpId, nat>, single: map<EmpId, nat>)
    returns (cont': map<EmpId, nat>, single': map<EmpId, nat>)
    requires cur != [] && cur[0].employee.Some?
    requires cur[0].employee.value in cont && cur[0].employee.value in single
    ensures Credits(cont', single') == Close(cur, Credits(cont, single))
  {
    cont', single' := cont, single;
    if |cur| >= 2 {
      var first := cur[0].employee.value;
      cont' := cont'[first := cont'[first] + |cur|];
    } else {
      var k := 0;
      while k < |cur|
        invariant 0 <= k <= |cur| == 1
        invariant single' == if k == 0 then single else single[cur[0].employee.value := single[cur[0].employee.value] + 1]
      {
        var id := cur[k].employee.value;
        single' := single'[id := single'[id] + 1];
        k := k + 1;
      }
    }
  }

  /** The statistics pass over the year's holidays, in date order. Fails on
      the first assigned holiday whose employee is not on the list;
      otherwise its tallies are those of TalliesOf. */
  method CountStats(hs: seq<Holiday>, employees: seq<Employee>) returns (res: Result<Tallies>)
    ensures res.Err? <==> FirstUnknown(hs, IdSet(employees), 0).Some?
    ensures res.Err? ==> res.error == UnknownEmployee(hs[FirstUnknown(hs, IdSet(employees), 0).value].employee.value)
    ensures res.Ok? ==> res.value == TalliesOf(hs, employees)
  {
    var known := IdSet(employees);
    var total: map<EmpId, nat>, cont: map<EmpId, nat>, single: map<EmpId, nat>
      := Zeros(employees), Zeros(employees), Zeros(employees);
    var cur: seq<Holiday> := [];
    var i := 0;
    while i < |hs|
      invariant i <= |hs| && AllKnown(hs, known, i)
      invariant cur == OpenGroup(hs, i)
      invariant total == TotalAfter(hs, employees, i)
      invariant Credits(cont, single) == CreditsAfter(hs, employees, i)
    {
      PassKeys(hs, employees, i);
      var h := hs[i];
      if h.employee.Some? && h.employee.value != 0 {
        var id := h.employee.value;
        if id !in total {
          FirstUnknownAt(hs, known, 0, i);
          res := Err(UnknownEmployee(id));
          return;
        }
        total := total[id := total[id] + 1];
        if cur == [] || h.date - cur[|cur| - 1].date == 1 {
          cur := cur + [h];
        } else {
          cont, single := CloseGroup(cur, cont, single);
          cur := [h];
        }
      }
      i := i + 1;
    }
    PassKeys(hs, employees, i);
    if cur != [] {
      cont, single := CloseGroup(cur, cont, single);
    }
    assert Credits(cont, single) == Finish(hs, employees);
    PassMeaning(hs, employees);
    res := Ok(Tallies(total, cont, single));
  }

  /** The statistics report: every employee, most days first (ties in the
      order of the employee list), with their tallies and the weight
      half the distance below the busiest employee. */
  function StatsReport(es: seq<Employee>, t: Tallies): (rep: Report)
    ensures |rep.results| == |es| && rep.order == Names(RowEmployees(rep.results))
  {
    var sorted := SortByLoad(es, t.total);
    var maxDays := MaxLoad(es, t.total);
    var rows := seq(|sorted|, i requires 0 <= i < |sorted| =>
      var e := sorted[i];
      Row(e.id, e.name, Load(t.total, e.id), Load(t.continuous, e.id), Load(t.single, e.id),
          StatsWeight(maxDays, Load(t.total, e.id))));
    assert RowEmployees(rows) == sorted;
    Report(Names(sorted), rows)
  }

  /** The rows of the statistics report: one per employee of the list,
      in descending order of total days; every weight is at least 0, and it
      is 0 exactly for the employees at most one day below the busiest. */
  lemma StatsReportShape(es: seq<Employee>, t: Tallies)
    ensures var rows := StatsReport(es, t).results;
      && multiset(RowEmployees(rows)) == multiset(es)
      && (forall i, j :: 0 <= i < j < |rows| ==> rows[i].totalDays >= rows[j].totalDays)
      && (forall i :: 0 <= i < |rows| ==> rows[i].totalDays == Load(t.total, rows[i].id))
      && (forall i :: 0 <= i < |rows| ==> rows[i].weight >= 0)
      && (forall i :: 0 <= i < |rows| ==>
            (rows[i].weight == 0 <==> MaxLoad(es, t.total) - rows[i].totalDays <= 1))
  {
    var sorted := SortByLoad(es, t.total);
    var rows := StatsReport(es, t).results;
    var maxDays := MaxLoad(es, t.total);
    assert RowEmployees(rows) == sorted;
    forall i | 0 <= i < |rows|
      ensures rows[i].weight >= 0
      ensures rows[i].weight == 0 <==> maxDays - rows[i].totalDays <= 1
    {
      assert sorted[i] in multiset(es);
      var k :| 0 <= k < |es| && es[k] == sorted[i];
      StatsWeightZero(maxDays, Load(t.total, sorted[i].id));
    }
  }

  /** Employees with equal totals keep their order of the employee list. */
  lemma StatsReportStable(es: seq<Employee>, t: Tallies, v: nat)
    ensures WithLoad(RowEmployees(StatsReport(es, t).results), t.total, v) == WithLoad(es, t.total, v)
  {
    assert RowEmployees(StatsReport(es, t).results) == SortByLoad(es, t.total);
    SortStable(es, t.total, v);
  }

  /** With no employees the report is empty (the busiest count is then 0). */
  lemma StatsReportEmpty(t: Tallies)
    ensures StatsReport([], t) == Report([], [])
    ensures MaxLoad([], t.total) == 0
  {
  }

  /** The statistics endpoint: the tallies of the year's holidays and their
      report, or the failure of the pass. */
  method AssignmentStats(hs: seq<Holiday>, employees: seq<Employee>) returns (res: Result<Report>)
    ensures res.Err? <==> FirstUnknown(hs, IdSet(employees), 0).Some?
    ensures res.Err? ==> res.error == UnknownEmployee(hs[FirstUnknown(hs, IdSet(employees), 0).value].employee.value)
    ensures res.Ok? ==> res.value == StatsReport(employees, TalliesOf(hs, employees))
  {
    var t := CountStats(hs, employees);
    if t.Err? {
      res := Err(t.error);
    } else {
      res := Ok(StatsReport(employees, t.value));
    }
  }

  /** Runs are found by adjacency alone: when one employee's day is followed
      by another employee's next day, the whole run is continuous days of
      the first, and the second holds a day that is credited to nobody as
      theirs (continuous plus single differs from total). */
  lemma MixedRunCreditsFirst()
    ensures var hs := [Holiday(10, Some(1)), Holiday(11, Some(2))];
      var t := TalliesOf(hs, [Employee(1, "A"), Employee(2, "B")]);
      && Load(t.total, 1) == 1 && Load(t.continuous, 1) == 2 && Load(t.single, 1) == 0
      && Load(t.total, 2) == 1 && Load(t.continuous, 2) == 0 && Load(t.single, 2) == 0
  {
    var hs := [Holiday(10, Some(1)), Holiday(11, Some(2))];
    var a := AssignedOnly(hs);
    assert AssignedUpTo(hs, 1) == [hs[0]];
    assert a == hs;
    var d := Dates(a);
    assert d == [10, 11];
    assert RunEnd(d, 1) == 2;
    assert RunEnd(d, 0) == 2;
    var es := [Employee(1, "A"), Employee(2, "B")];
    assert es[0].id == 1 && es[1].id == 2;
    assert 1 in IdSet(es) && 2 in IdSet(es);
    assert Held(hs, 2, 1) == 1 && Held(hs, 2, 2) == 1;
  }
}
