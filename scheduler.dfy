/** The auto-assign run as a whole: refuse when there is nobody to assign
    to or nothing to assign, group the year's holidays, hand them out,
    commit (or roll back when the store refuses), and report. */
module Scheduler {
  import opened Types
  import opened Grouping
  import opened Rotation
  import opened Fairness

  /** Days an employee holds through pairs: two for every pair whose first
      day carries the employee. */
  function PairDaysOf(hs: seq<Holiday>, pairs: seq<Pair>, id: EmpId): (r: nat)
    ensures r % 2 == 0 && r <= 2 * |pairs|
    ensures r == 0 <==> forall k :: 0 <= k < |pairs| ==> !(pairs[k].first < |hs| && hs[pairs[k].first].employee == Some(id))
  {
    if pairs == [] then 0
    else
      var last := pairs[|pairs| - 1];
      PairDaysOf(hs, pairs[..|pairs| - 1], id)
        + if last.first < |hs| && hs[last.first].employee == Some(id) then 2 else 0
  }

  /** Single holidays an employee holds. */
  function SingleDaysOf(hs: seq<Holiday>, singles: seq<nat>, id: EmpId): (r: nat)
    ensures r <= |singles|
    ensures r == 0 <==> forall k :: 0 <= k < |singles| ==> !(singles[k] < |hs| && hs[singles[k]].employee == Some(id))
  {
    if singles == [] then 0
    else
      var last := singles[|singles| - 1];
      SingleDaysOf(hs, singles[..|singles| - 1], id)
        + if last < |hs| && hs[last].employee == Some(id) then 1 else 0
  }

  /** The report of an auto-assign run: the shuffled order, then one row per
      employee, most days first, with their total, their days in pairs,
      their single days and their weight. */
  function LiveReport(rotation: seq<Employee>, counts: map<EmpId, nat>, hs: seq<Holiday>, g: Groups): (rep: Report)
    requires |rotation| > 0
    ensures rep.order == Names(rotation) && |rep.results| == |rotation|
  {
    var sorted := SortByLoad(rotation, counts);
    var maxDays := Load(counts, sorted[0].id);
    var minDays := Load(counts, sorted[|sorted| - 1].id);
    var rows := seq(|sorted|, i requires 0 <= i < |sorted| =>
      var e := sorted[i];
      Row(e.id, e.name, Load(counts, e.id), PairDaysOf(hs, g.pairs, e.id), SingleDaysOf(hs, g.singles, e.id),
          LiveWeight(maxDays, minDays, Load(counts, e.id))));
    Report(Names(rotation), rows)
  }

  /** The rows of the report: one per employee of the rotation, in
      descending order of total days, weights between 0 (the busiest) and 3
      (the least busy, when totals differ). */
  lemma LiveReportShape(rotation: seq<Employee>, counts: map<EmpId, nat>, hs: seq<Holiday>, g: Groups)
    requires |rotation| > 0
    ensures var rows := LiveReport(rotation, counts, hs, g).results;
      && multiset(RowEmployees(rows)) == multiset(rotation)
      && (forall i, j :: 0 <= i < j < |rows| ==> rows[i].totalDays >= rows[j].totalDays)
      && (forall i :: 0 <= i < |rows| ==> 0 <= rows[i].weight <= 3)
      && rows[0].weight == 0
      && (rows[0].totalDays > rows[|rows| - 1].totalDays ==> rows[|rows| - 1].weight == 3)
  {
    var sorted := SortByLoad(rotation, counts);
    var rows := LiveReport(rotation, counts, hs, g).results;
    var maxDays := Load(counts, sorted[0].id);
    var minDays := Load(counts, sorted[|sorted| - 1].id);
    assert RowEmployees(rows) == sorted;
    forall i | 0 <= i < |rows| ensures 0 <= rows[i].weight <= 3 {
      LiveWeightBounds(maxDays, minDays, Load(counts, sorted[i].id));
    }
    LiveWeightBounds(maxDays, minDays, maxDays);
    LiveWeightBounds(maxDays, minDays, minDays);
  }

  /** Employees with equal totals keep their order of the rotation. */
  lemma LiveReportStable(rotation: seq<Employee>, counts: map<EmpId, nat>, hs: seq<Holiday>, g: Groups, v: nat)
    requires |rotation| > 0
    ensures WithLoad(RowEmployees(LiveReport(rotation, counts, hs, g).results), counts, v) == WithLoad(rotation, counts, v)
  {
    assert RowEmployees(LiveReport(rotation, counts, hs, g).results) == SortByLoad(rotation, counts);
    SortStable(rotation, counts, v);
  }

  /** After the run, the days an employee holds through pairs are twice
      their rotation turns. */
  lemma {:induction false} PairDaysAssigned(orig: seq<Holiday>, r: Roster, g: Groups, n: nat, id: EmpId)
    requires Ready(r, g) && Partition(g, |orig|) && n <= |g.pairs|
    ensures PairDaysOf(Assignment(orig, r, g), g.pairs[..n], id) == 2 * PairTurns(r, n, id)
  {
    if n > 0 {
      AssignmentOwners(orig, r, g);
      assert g.pairs[..n][..n - 1] == g.pairs[..n - 1];
      PairDaysAssigned(orig, r, g, n - 1, id);
    }
  }

  /** After the run, the single days an employee holds are their draws. */
  lemma {:induction false} SingleDaysAssigned(orig: seq<Holiday>, r: Roster, g: Groups, n: nat, id: EmpId)
    requires Ready(r, g) && Partition(g, |orig|) && n <= |g.singles|
    ensures SingleDaysOf(Assignment(orig, r, g), g.singles[..n], id) == SingleDraws(r, n, id)
  {
    if n > 0 {
      AssignmentOwners(orig, r, g);
      assert g.singles[..n][..n - 1] == g.singles[..n - 1];
      SingleDaysAssigned(orig, r, g, n - 1, id);
    }
  }

  /** In the report of a run, every employee's total is their days in pairs
      plus their single days, and those are twice their rotation turns and
      their draws. */
  lemma LiveReportAddsUp(orig: seq<Holiday>, r: Roster, g: Groups, i: nat)
    requires Ready(r, g) && Partition(g, |orig|)
    requires i < |r.rotation|
    ensures var row := LiveReport(r.rotation, Counts(r, g), Assignment(orig, r, g), g).results[i];
      && row.continuousDays == 2 * PairTurns(r, |g.pairs|, row.id)
      && row.singleDays == SingleDraws(r, |g.singles|, row.id)
      && row.totalDays == row.continuousDays + row.singleDays
  {
    var hs, counts := Assignment(orig, r, g), Counts(r, g);
    var sorted := SortByLoad(r.rotation, counts);
    var id := sorted[i].id;
    assert sorted[i] in multiset(r.employees);
    var k :| 0 <= k < |r.employees| && r.employees[k] == sorted[i];
    assert Ids(r.employees)[k] == id;
    CountsAreTurns(r, g, id);
    PairDaysAssigned(orig, r, g, |g.pairs|, id);
    SingleDaysAssigned(orig, r, g, |g.singles|, id);
    assert g.pairs[..|g.pairs|] == g.pairs && g.singles[..|g.singles|] == g.singles;
  }

  /** The auto-assign run over the year's holidays (in date order), with
      the random choices of the run given in `r` and the store's answer to
      the commit given in `commitOk`. Every failure leaves the holidays as
      they were. */
  method AutoAssign(a: array<Holiday>, r: Roster, commitOk: bool) returns (res: Result<Report>)
    requires |r.rotation| == |r.employees| && DistinctIds(r.employees)
    requires multiset(r.rotation) == multiset(r.employees)
    requires |r.draws| >= a.Length
    modifies a
    ensures |r.employees| == 0 ==> res == Err(NoEmployees)
    ensures |r.employees| > 0 && a.Length == 0 ==> res == Err(NoHolidays)
    ensures |r.employees| > 0 && a.Length > 0 && !commitOk ==> res == Err(CommitFailed)
    ensures res.Err? ==> a[..] == old(a[..])
    ensures |r.employees| > 0 && a.Length > 0 && commitOk ==>
              var g := Group(Dates(old(a[..])));
              && Ready(r, g) && Partition(g, a.Length)
              && a[..] == Assignment(old(a[..]), r, g)
              && res == Ok(LiveReport(r.rotation, Counts(r, g), a[..], g))
  {
    if |r.employees| == 0 {
      return Err(NoEmployees);
    }
    if a.Length == 0 {
      return Err(NoHolidays);
    }
    var saved := a[..];
    var g := GroupHolidays(Dates(a[..]));
    GroupIsPartition(Dates(a[..]));
    assert |g.singles| <= |Slots(g)|;
    var counts := AssignGroups(a, g, r);
    if !commitOk {
      forall i | 0 <= i < a.Length {
        a[i] := saved[i];
      }
      return Err(CommitFailed);
    }
    res := Ok(LiveReport(r.rotation, counts, a[..], g));
  }
}
