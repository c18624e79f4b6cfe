/** Shared data shapes of the holiday scheduler: employees, holiday rows,
    the per-employee report rows and the error outcomes. */
module Types {

  datatype Option<T> = None | Some(value: T)

  /** The ways a run can fail; every one of them leaves the stored holidays as they were. */
  datatype Error =
    | NoEmployees               // no employee to hand holidays to
    | NoHolidays                // nothing to assign in the requested year
    | CommitFailed              // the store refused the batch of assignments
    | UnknownEmployee(id: int)  // a stored assignment names an id that is not on the employee list

  datatype Result<T> = Ok(value: T) | Err(error: Error)

  type EmpId = int

  /** A calendar date as a day number: the scheduler only ever looks at
      the number of days between two dates. */
  type Day = int

  datatype Employee = Employee(id: EmpId, name: string)

  /** A holiday row: its date and the employee it is assigned to, if any. */
  datatype Holiday = Holiday(date: Day, employee: Option<EmpId>)

  /** One line of a report. */
  datatype Row = Row(id: EmpId, name: string, totalDays: nat, continuousDays: nat, singleDays: nat, weight: int)

  /** A report: the employee names in report order, and one row per employee. */
  datatype Report = Report(order: seq<string>, results: seq<Row>)

  function Ids(es: seq<Employee>): (r: seq<EmpId>)
    ensures |r| == |es| && forall i :: 0 <= i < |es| ==> r[i] == es[i].id
  {
    seq(|es|, i requires 0 <= i < |es| => es[i].id)
  }

  function Names(es: seq<Employee>): (r: seq<string>)
    ensures |r| == |es| && forall i :: 0 <= i < |es| ==> r[i] == es[i].name
  {
    seq(|es|, i requires 0 <= i < |es| => es[i].name)
  }

  function Dates(hs: seq<Holiday>): (r: seq<Day>)
    ensures |r| == |hs| && forall i :: 0 <= i < |hs| ==> r[i] == hs[i].date
  {
    seq(|hs|, i requires 0 <= i < |hs| => hs[i].date)
  }

  /** The set of ids of a list of employees. */
  function IdSet(es: seq<Employee>): (r: set<EmpId>)
    ensures forall i :: 0 <= i < |es| ==> es[i].id in r
  {
    set i | 0 <= i < |es| :: es[i].id
  }

  /** Every employee of the list, with a count of 0. */
  function Zeros(es: seq<Employee>): (t: map<EmpId, nat>)
    ensures t.Keys == IdSet(es)
  {
    map e | e in IdSet(es) :: 0
  }

  /** An id of the set is one of the listed ids. */
  lemma InIds(es: seq<Employee>, x: EmpId)
    requires x in IdSet(es)
    ensures x in Ids(es)
  {
    var i :| 0 <= i < |es| && es[i].id == x;
    assert Ids(es)[i] == x;
  }

  /** The employee each report row is about. */
  function RowEmployees(rows: seq<Row>): (r: seq<Employee>)
    ensures |r| == |rows| && forall i :: 0 <= i < |rows| ==> r[i] == Employee(rows[i].id, rows[i].name)
  {
    seq(|rows|, i requires 0 <= i < |rows| => Employee(rows[i].id, rows[i].name))
  }

  /** Employee ids are primary keys: no two employees share one. */
  predicate DistinctIds(es: seq<Employee>)
  {
    forall i, j :: 0 <= i < j < |es| ==> es[i].id != es[j].id
  }

  predicate Distinct(s: seq<EmpId>)
  {
    forall i, j :: 0 <= i < j < |s| ==> s[i] != s[j]
  }

  /** The day count an id has in a tally; an id the tally does not know has none. */
  function Load(counts: map<EmpId, nat>, id: EmpId): nat
  {
    if id in counts then counts[id] else 0
  }

  /** Sum of the tally over a list of ids. */
  function Sum(ids: seq<EmpId>, counts: map<EmpId, nat>): nat
  {
    if ids == [] then 0 else Load(counts, ids[0]) + Sum(ids[1..], counts)
  }

  /** Adding v to the entry of one listed id adds v to the sum, when ids are distinct. */
  lemma {:induction false} SumBump(ids: seq<EmpId>, counts: map<EmpId, nat>, x: EmpId, v: nat)
    requires Distinct(ids) && x in ids
    ensures Sum(ids, counts[x := Load(counts, x) + v]) == Sum(ids, counts) + v
  {
    if ids[0] == x {
      SumUnbumped(ids[1..], counts, x, v);
    } else {
      assert Distinct(ids[1..]) by {
        forall i, j | 0 <= i < j < |ids[1..]| ensures ids[1..][i] != ids[1..][j] {
          assert ids[1..][i] == ids[i + 1] && ids[1..][j] == ids[j + 1];
        }
      }
      SumBump(ids[1..], counts, x, v);
    }
  }

  /** Changing the entry of an id that is not listed does not change the sum. */
  lemma {:induction false} SumUnbumped(ids: seq<EmpId>, counts: map<EmpId, nat>, x: EmpId, v: nat)
    requires x !in ids
    ensures Sum(ids, counts[x := Load(counts, x) + v]) == Sum(ids, counts)
  {
    if ids != [] {
      SumUnbumped(ids[1..], counts, x, v);
    }
  }

  /** A tally that is 0 on every listed id sums to 0. */
  lemma {:induction false} ZeroSum(ids: seq<EmpId>, counts: map<EmpId, nat>)
    requires forall e :: e in ids ==> e in counts && counts[e] == 0
    ensures Sum(ids, counts) == 0
  {
    if ids != [] {
      ZeroSum(ids[1..], counts);
    }
  }
}
