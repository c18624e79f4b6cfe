/** The rotating assigner of the auto-assign run: the k-th pair goes to the
    employee under a cursor that walks the shuffled rotation order one pair
    at a time; every single holiday goes to an employee drawn from the
    original (unshuffled) employee list, without moving the cursor. Each
    assignment overwrites the holiday's employee in place and adds one to
    that employee's count. */
module Rotation {
  import opened Types
  import opened Grouping

  /** The employees of the run and the outcome of the random choices:
      `rotation` is the shuffled employee list, and the j-th single holiday
      goes to employees[draws[j] mod |employees|]. */
  datatype Roster = Roster(employees: seq<Employee>, rotation: seq<Employee>, draws: seq<nat>)

  /** A roster the assigner can work with: at least one employee, ids
      unique, the rotation a permutation of the employee list. */
  predicate ValidRoster(r: Roster)
  {
    && |r.employees| > 0
    && |r.rotation| == |r.employees|
    && DistinctIds(r.employees)
    && multiset(r.rotation) == multiset(r.employees)
  }

  /** The groups can be handed out: enough draws for the singles. */
  predicate Ready(r: Roster, g: Groups)
  {
    ValidRoster(r) && |g.singles| <= |r.draws|
  }

  /** The cursor after one more pair: it wraps round to the start of the
      rotation, and so never leaves it. */
  function Advance(cursor: nat, e: nat): (c: nat)
    requires e > 0
    ensures c < e
  {
    (cursor + 1) % e
  }

  lemma ModSmall(x: nat, e: nat)
    requires x < e
    ensures x % e == x
  {
  }

  lemma MulZero(e: int, t: int)
    requires e > 0 && -e < e * t < e
    ensures t == 0
  {
  }

  lemma ModShift(x: nat, e: nat)
    requires e > 0
    ensures (x + e) % e == x % e
  {
    var q1, r1 := (x + e) / e, (x + e) % e;
    var q0, r0 := x / e, x % e;
    assert x + e == e * q1 + r1;
    assert x == e * q0 + r0;
    assert e * (q1 - q0 - 1) == r0 - r1;
    MulZero(e, q1 - q0 - 1);
  }

  /** Starting from 0 and advancing once per pair, the cursor is at the
      pair count modulo the rotation length: the k-th pair goes to
      rotation[k mod E]. */
  lemma {:induction false} AdvanceIsNextTurn(k: nat, e: nat)
    requires e > 0
    ensures Advance(k % e, e) == (k + 1) % e
    decreases k
  {
    if k + 1 < e {
      ModSmall(k, e);
      ModSmall(k + 1, e);
    } else if k + 1 == e {
      ModSmall(k, e);
      ModShift(0, e);
    } else {
      AdvanceIsNextTurn(k - e, e);
      ModShift(k - e, e);
      ModShift(k + 1 - e, e);
    }
  }

  /** The employee the k-th pair goes to. */
  function PairOwner(r: Roster, k: nat): EmpId
    requires |r.rotation| > 0
  {
    r.rotation[k % |r.rotation|].id
  }

  /** The employee the j-th single holiday goes to. */
  function SingleOwner(r: Roster, j: nat): EmpId
    requires |r.employees| > 0 && j < |r.draws|
  {
    r.employees[r.draws[j] % |r.employees|].id
  }

  /** The employees of the first n pairs, one entry per day: two for each pair. */
  function PairOwners(r: Roster, n: nat): (o: seq<EmpId>)
    requires |r.rotation| > 0
    ensures |o| == 2 * n
  {
    if n == 0 then [] else PairOwners(r, n - 1) + [PairOwner(r, n - 1), PairOwner(r, n - 1)]
  }

  lemma {:induction false} PairOwnersAt(r: Roster, n: nat, k: nat)
    requires |r.rotation| > 0 && k < n
    ensures PairOwners(r, n)[2 * k] == PairOwner(r, k) && PairOwners(r, n)[2 * k + 1] == PairOwner(r, k)
  {
    if k < n - 1 {
      PairOwnersAt(r, n - 1, k);
    }
  }

  /** The employee of every slot of the grouping, in slot order (see
      Grouping.Slots): the pairs' days, then the singles. */
  function SlotOwners(r: Roster, g: Groups): (o: seq<EmpId>)
    requires Ready(r, g)
    ensures |o| == |Slots(g)|
  {
    PairOwners(r, |g.pairs|) + seq(|g.singles|, j requires 0 <= j < |g.singles| => SingleOwner(r, j))
  }

  function SlotOwner(r: Roster, g: Groups, p: nat): EmpId
    requires Ready(r, g) && p < |Slots(g)|
  {
    SlotOwners(r, g)[p]
  }

  /** Every pair and every single goes to one of the run's employees. */
  lemma OwnersAreEmployees(r: Roster, g: Groups, p: nat)
    requires Ready(r, g) && p < |Slots(g)|
    ensures SlotOwner(r, g, p) in Ids(r.employees) && SlotOwner(r, g, p) in IdSet(r.employees)
  {
    if p < 2 * |g.pairs| {
      var k := p / 2;
      PairOwnersAt(r, |g.pairs|, k);
      assert SlotOwner(r, g, p) == PairOwner(r, k) by {
        if p == 2 * k {
        } else {
          assert p == 2 * k + 1;
        }
      }
      var c := k % |r.rotation|;
      assert r.rotation[c] in multiset(r.employees);
      var i :| 0 <= i < |r.employees| && r.employees[i] == r.rotation[c];
      assert Ids(r.employees)[i] == SlotOwner(r, g, p);
    } else {
      assert Ids(r.employees)[r.draws[p - 2 * |g.pairs|] % |r.employees|] == SlotOwner(r, g, p);
    }
  }

  /** Number of the first n pairs that go to employee e. */
  function PairTurns(r: Roster, n: nat, e: EmpId): nat
    requires |r.rotation| > 0
  {
    if n == 0 then 0 else PairTurns(r, n - 1, e) + if PairOwner(r, n - 1) == e then 1 else 0
  }

  /** Number of the first n single holidays that go to employee e. */
  function SingleDraws(r: Roster, n: nat, e: EmpId): nat
    requires |r.employees| > 0 && n <= |r.draws|
  {
    if n == 0 then 0 else SingleDraws(r, n - 1, e) + if SingleOwner(r, n - 1) == e then 1 else 0
  }

  /** The holidays (by position) among s that are assigned to e. */
  function OwnedAmong(hs: seq<Holiday>, s: seq<nat>, e: EmpId): set<nat>
  {
    set i | i in s && i < |hs| && hs[i].employee == Some(e)
  }

  /** The holidays (by position) assigned to e. */
  function Owned(hs: seq<Holiday>, e: EmpId): set<nat>
  {
    set i | 0 <= i < |hs| && hs[i].employee == Some(e)
  }

  /** The holidays after the first m slots have been handed out, each to
      its slot's employee (Grouping.Slots lists pairs, then singles). */
  function Applied(orig: seq<Holiday>, r: Roster, g: Groups, m: nat): (hs: seq<Holiday>)
    requires Ready(r, g) && Partition(g, |orig|) && m <= |Slots(g)|
    ensures |hs| == |orig|
  {
    if m == 0 then orig
    else
      var prev := Applied(orig, r, g, m - 1);
      var x := Slots(g)[m - 1];
      prev[x := prev[x].(employee := Some(SlotOwner(r, g, m - 1)))]
  }

  /** The per-employee counts after the first m slots: every employee of
      the run starts at 0, and each slot adds one to its employee. */
  function Tally(r: Roster, g: Groups, m: nat): map<EmpId, nat>
    requires Ready(r, g) && m <= |Slots(g)|
  {
    if m == 0 then Zeros(r.employees)
    else
      var t := Tally(r, g, m - 1);
      var e := SlotOwner(r, g, m - 1);
      t[e := Load(t, e) + 1]
  }

  /** One more slot, as the assigner performs it: its holiday gets its
      employee ... */
  lemma AppliedNext(orig: seq<Holiday>, r: Roster, g: Groups, m: nat)
    requires Ready(r, g) && Partition(g, |orig|) && m < |Slots(g)|
    ensures Slots(g)[m] < |orig|
    ensures Applied(orig, r, g, m + 1)
         == Applied(orig, r, g, m)[Slots(g)[m] := Applied(orig, r, g, m)[Slots(g)[m]].(employee := Some(SlotOwner(r, g, m)))]
  {
  }

  /** ... and that employee's count goes up by one. */
  lemma TallyNext(r: Roster, g: Groups, m: nat)
    requires Ready(r, g) && m < |Slots(g)|
    ensures Tally(r, g, m + 1) == Tally(r, g, m)[SlotOwner(r, g, m) := Load(Tally(r, g, m), SlotOwner(r, g, m)) + 1]
  {
  }

  /** The tally has exactly one entry per employee of the run. */
  lemma {:induction false} TallyKeys(r: Roster, g: Groups, m: nat)
    requires Ready(r, g) && m <= |Slots(g)|
    ensures Tally(r, g, m).Keys == IdSet(r.employees)
  {
    if m > 0 {
      TallyKeys(r, g, m - 1);
      OwnersAreEmployees(r, g, m - 1);
    }
  }

  /** The outcome of the whole assigner. */
  function Assignment(orig: seq<Holiday>, r: Roster, g: Groups): seq<Holiday>
    requires Ready(r, g) && Partition(g, |orig|)
  {
    Applied(orig, r, g, |Slots(g)|)
  }

  function Counts(r: Roster, g: Groups): map<EmpId, nat>
    requires Ready(r, g)
  {
    Tally(r, g, |Slots(g)|)
  }

  /** Handing out slots never moves a holiday to another date. */
  lemma {:induction false} AppliedDates(orig: seq<Holiday>, r: Roster, g: Groups, m: nat)
    requires Ready(r, g) && Partition(g, |orig|) && m <= |Slots(g)|
    ensures forall i :: 0 <= i < |orig| ==> Applied(orig, r, g, m)[i].date == orig[i].date
  {
    if m > 0 {
      AppliedDates(orig, r, g, m - 1);
    }
  }

  /** After m slots, each of the first m slots' holidays carries its
      slot's employee: a later slot never overwrites an earlier one. */
  lemma {:induction false} AppliedOwners(orig: seq<Holiday>, r: Roster, g: Groups, m: nat)
    requires Ready(r, g) && Partition(g, |orig|) && m <= |Slots(g)|
    ensures forall p :: 0 <= p < m ==> Applied(orig, r, g, m)[Slots(g)[p]].employee == Some(SlotOwner(r, g, p))
  {
    if m > 0 {
      AppliedOwners(orig, r, g, m - 1);
      var s := Slots(g);
      forall p | 0 <= p < m
        ensures Applied(orig, r, g, m)[s[p]].employee == Some(SlotOwner(r, g, p))
      {
        if p < m - 1 {
          assert s[p] != s[m - 1];
        }
      }
    }
  }

  /** A holiday none of the first m slots names is as it was. */
  lemma {:induction false} AppliedElsewhere(orig: seq<Holiday>, r: Roster, g: Groups, m: nat, i: nat)
    requires Ready(r, g) && Partition(g, |orig|) && m <= |Slots(g)|
    requires i < |orig| && i !in Slots(g)[..m]
    ensures Applied(orig, r, g, m)[i] == orig[i]
  {
    if m > 0 {
      assert Slots(g)[..m] == Slots(g)[..m - 1] + [Slots(g)[m - 1]];
      AppliedElsewhere(orig, r, g, m - 1, i);
    }
  }

  lemma GiveCount(hs: seq<Holiday>, s: seq<nat>, x: nat, e0: EmpId, e: EmpId)
    requires x < |hs| && x !in s
    ensures var hs' := hs[x := hs[x].(employee := Some(e0))];
      |OwnedAmong(hs', s + [x], e)| == |OwnedAmong(hs, s, e)| + if e == e0 then 1 else 0
  {
    var hs' := hs[x := hs[x].(employee := Some(e0))];
    var before := OwnedAmong(hs, s, e);
    if e == e0 {
      assert OwnedAmong(hs', s + [x], e) == before + {x};
      assert x !in before;
    } else {
      assert OwnedAmong(hs', s + [x], e) == before;
    }
  }

  /** Slots m = 2k and m + 1 are the k-th pair's two days, and both belong
      to the k-th pair's employee. */
  lemma PairSlots(r: Roster, g: Groups, k: nat, m: nat)
    requires Ready(r, g) && k < |g.pairs| && m == 2 * k
    ensures m + 1 < |Slots(g)|
    ensures Slots(g)[m] == g.pairs[k].first && Slots(g)[m + 1] == g.pairs[k].second
    ensures SlotOwner(r, g, m) == PairOwner(r, k) && SlotOwner(r, g, m + 1) == PairOwner(r, k)
  {
    FlatAt(g.pairs, k);
    PairOwnersAt(r, |g.pairs|, k);
  }

  /** Slot m, the j-th after the pairs, is the j-th single, and it belongs
      to the employee its draw picks. */
  lemma SingleSlot(r: Roster, g: Groups, j: nat, m: nat)
    requires Ready(r, g) && j < |g.singles| && m == 2 * |g.pairs| + j
    ensures m < |Slots(g)| && Slots(g)[m] == g.singles[j]
    ensures SlotOwner(r, g, m) == SingleOwner(r, j) == r.employees[r.draws[j] % |r.employees|].id
  {
  }

  /** The tally after m slots counts, for every employee, the holidays
      among those slots that carry that employee. */
  lemma {:induction false} TallyOwned(orig: seq<Holiday>, r: Roster, g: Groups, m: nat, e: EmpId)
    requires Ready(r, g) && Partition(g, |orig|) && m <= |Slots(g)|
    ensures Load(Tally(r, g, m), e) == |OwnedAmong(Applied(orig, r, g, m), Slots(g)[..m], e)|
  {
    var s := Slots(g);
    if m == 0 {
      assert OwnedAmong(orig, s[..0], e) == {};
    } else {
      TallyOwned(orig, r, g, m - 1, e);
      assert s[..m] == s[..m - 1] + [s[m - 1]];
      assert s[m - 1] !in s[..m - 1] by {
        forall p | 0 <= p < m - 1 ensures s[p] != s[m - 1] {
        }
      }
      GiveCount(Applied(orig, r, g, m - 1), s[..m - 1], s[m - 1], SlotOwner(r, g, m - 1), e);
    }
  }

  /** The tally after m slots sums to m over the employees. */
  lemma {:induction false} TallySum(r: Roster, g: Groups, m: nat)
    requires Ready(r, g) && m <= |Slots(g)|
    ensures Sum(Ids(r.employees), Tally(r, g, m)) == m
  {
    if m == 0 {
      ZeroSum(Ids(r.employees), Tally(r, g, 0));
    } else {
      TallySum(r, g, m - 1);
      var t, e := Tally(r, g, m - 1), SlotOwner(r, g, m - 1);
      OwnersAreEmployees(r, g, m - 1);
      assert Distinct(Ids(r.employees));
      SumBump(Ids(r.employees), t, e, 1);
    }
  }

  /** After the first k pairs (m = 2k slots), an employee's count is twice
      the number of those pairs the rotation gave them. */
  lemma {:induction false} TallyTurns(r: Roster, g: Groups, k: nat, m: nat, e: EmpId)
    requires Ready(r, g) && k <= |g.pairs| && m == 2 * k
    ensures m <= |Slots(g)| && Load(Tally(r, g, m), e) == 2 * PairTurns(r, k, e)
  {
    if k > 0 {
      TallyTurns(r, g, k - 1, m - 2, e);
      PairSlots(r, g, k - 1, m - 2);
    }
  }

  /** After all pairs and the first j singles (m slots), an employee's count
      is twice their pair turns plus the number of those singles drawn for
      them. */
  lemma {:induction false} TallyDraws(r: Roster, g: Groups, j: nat, m: nat, e: EmpId)
    requires Ready(r, g) && j <= |g.singles| && m == 2 * |g.pairs| + j
    ensures m <= |Slots(g)|
    ensures Load(Tally(r, g, m), e) == 2 * PairTurns(r, |g.pairs|, e) + SingleDraws(r, j, e)
  {
    if j == 0 {
      TallyTurns(r, g, |g.pairs|, m, e);
    } else {
      TallyDraws(r, g, j - 1, m - 1, e);
      SingleSlot(r, g, j - 1, m - 1);
    }
  }

  /** What the assigner promises about the holidays: every pair's two days
      go to that pair's rotation employee, every single to its drawn
      employee, and no date moves. */
  lemma AssignmentOwners(orig: seq<Holiday>, r: Roster, g: Groups)
    requires Ready(r, g) && Partition(g, |orig|)
    ensures |Assignment(orig, r, g)| == |orig|
    ensures forall i :: 0 <= i < |orig| ==> Assignment(orig, r, g)[i].date == orig[i].date
    ensures forall k :: 0 <= k < |g.pairs| ==>
              g.pairs[k].first < |orig| && g.pairs[k].second < |orig| &&
              Assignment(orig, r, g)[g.pairs[k].first].employee == Some(PairOwner(r, k)) &&
              Assignment(orig, r, g)[g.pairs[k].second].employee == Some(PairOwner(r, k))
    ensures forall j :: 0 <= j < |g.singles| ==>
              g.singles[j] < |orig| && Assignment(orig, r, g)[g.singles[j]].employee == Some(SingleOwner(r, j))
  {
    var s := Slots(g);
    AppliedDates(orig, r, g, |s|);
    AppliedOwners(orig, r, g, |s|);
    forall k | 0 <= k < |g.pairs|
      ensures g.pairs[k].first < |orig| && g.pairs[k].second < |orig|
      ensures Assignment(orig, r, g)[g.pairs[k].first].employee == Some(PairOwner(r, k))
      ensures Assignment(orig, r, g)[g.pairs[k].second].employee == Some(PairOwner(r, k))
    {
      PairSlots(r, g, k, 2 * k);
    }
    forall j | 0 <= j < |g.singles|
      ensures g.singles[j] < |orig| && Assignment(orig, r, g)[g.singles[j]].employee == Some(SingleOwner(r, j))
    {
      SingleSlot(r, g, j, 2 * |g.pairs| + j);
    }
  }

  /** Every holiday ends up assigned to one of the run's employees. */
  lemma AssignmentComplete(orig: seq<Holiday>, r: Roster, g: Groups, i: nat)
    requires Ready(r, g) && Partition(g, |orig|) && i < |orig|
    ensures Assignment(orig, r, g)[i].employee.Some?
    ensures Assignment(orig, r, g)[i].employee.value in IdSet(r.employees)
  {
    var s := Slots(g);
    assert i in s;
    var p :| 0 <= p < |s| && s[p] == i;
    AppliedOwners(orig, r, g, |s|);
    OwnersAreEmployees(r, g, p);
  }

  /** What the assigner promises about the counts: one entry per employee,
      equal to the number of holidays that employee now holds. */
  lemma CountsAreOwned(orig: seq<Holiday>, r: Roster, g: Groups, e: EmpId)
    requires Ready(r, g) && Partition(g, |orig|) && e in IdSet(r.employees)
    ensures e in Counts(r, g) && Counts(r, g)[e] == |Owned(Assignment(orig, r, g), e)|
  {
    var s := Slots(g);
    TallyKeys(r, g, |s|);
    TallyOwned(orig, r, g, |s|, e);
    assert s[..|s|] == s;
    assert OwnedAmong(Assignment(orig, r, g), s, e) == Owned(Assignment(orig, r, g), e);
  }

  /** Each employee's count is twice their pair turns plus their single
      draws. */
  lemma CountsAreTurns(r: Roster, g: Groups, e: EmpId)
    requires Ready(r, g) && e in IdSet(r.employees)
    ensures e in Counts(r, g)
    ensures Counts(r, g)[e] == 2 * PairTurns(r, |g.pairs|, e) + SingleDraws(r, |g.singles|, e)
  {
    TallyKeys(r, g, |Slots(g)|);
    TallyDraws(r, g, |g.singles|, |Slots(g)|, e);
  }

  /** Together the counts cover every holiday once. */
  lemma CountsSum(r: Roster, g: Groups, n: nat)
    requires Ready(r, g) && Partition(g, n)
    ensures Sum(Ids(r.employees), Counts(r, g)) == n
  {
    TallySum(r, g, |Slots(g)|);
  }

  /** One assignment: holiday x, the m-th slot, goes to employee id (its
      row is overwritten in place) and id's count goes up by one. */
  method Give(a: array<Holiday>, counts: map<EmpId, nat>, ghost orig: seq<Holiday>, r: Roster, g: Groups,
              ghost m: nat, x: nat, id: EmpId) returns (counts': map<EmpId, nat>)
    requires Ready(r, g) && Partition(g, |orig|) && m < |Slots(g)|
    requires x == Slots(g)[m] && id == SlotOwner(r, g, m)
    requires a[..] == Applied(orig, r, g, m) && counts == Tally(r, g, m)
    modifies a
    ensures a[..] == Applied(orig, r, g, m + 1) && counts' == Tally(r, g, m + 1)
  {
    OwnersAreEmployees(r, g, m);
    TallyKeys(r, g, m);
    AppliedNext(orig, r, g, m);
    TallyNext(r, g, m);
    a[x] := a[x].(employee := Some(id));
    counts' := counts[id := counts[id] + 1];
  }

  /** The pairs, in order: each pair's two days go to the employee under
      the cursor, and the cursor moves on by one, wrapping round to the start
      of the rotation. Each assignment adds one to the employee's count. */
  method AssignPairs(a: array<Holiday>, g: Groups, r: Roster) returns (counts: map<EmpId, nat>)
    requires Ready(r, g) && Partition(g, a.Length)
    modifies a
    ensures 2 * |g.pairs| <= |Slots(g)|
    ensures a[..] == Applied(old(a[..]), r, g, 2 * |g.pairs|)
    ensures counts == Tally(r, g, 2 * |g.pairs|)
  {
    ghost var orig := a[..];
    counts := Zeros(r.employees);
    var E := |r.rotation|;
    var cursor := 0;
    ModSmall(0, E);
    var k := 0;
    ghost var m := 0;
    while k < |g.pairs|
      invariant 0 <= k <= |g.pairs| && cursor == k % E && m == 2 * k
      invariant a[..] == Applied(orig, r, g, m) && counts == Tally(r, g, m)
    {
      var p := g.pairs[k];
      var emp := r.rotation[cursor];
      PairSlots(r, g, k, m);
      counts := Give(a, counts, orig, r, g, m, p.first, emp.id);
      m := m + 1;
      counts := Give(a, counts, orig, r, g, m, p.second, emp.id);
      m := m + 1;
      AdvanceIsNextTurn(k, E);
      cursor := Advance(cursor, E);
      k := k + 1;
    }
  }

  /** The singles, in order: each goes to the employee its draw picks out
      of the (unshuffled) employee list; the cursor is not involved. */
  method AssignSingles(a: array<Holiday>, g: Groups, r: Roster, ghost orig: seq<Holiday>, afterPairs: map<EmpId, nat>)
    returns (counts: map<EmpId, nat>)
    requires Ready(r, g) && Partition(g, |orig|) && 2 * |g.pairs| <= |Slots(g)|
    requires a[..] == Applied(orig, r, g, 2 * |g.pairs|) && afterPairs == Tally(r, g, 2 * |g.pairs|)
    modifies a
    ensures a[..] == Assignment(orig, r, g)
    ensures counts == Counts(r, g)
  {
    counts := afterPairs;
    var j := 0;
    ghost var m := 2 * |g.pairs|;
    while j < |g.singles|
      invariant 0 <= j <= |g.singles| && m == 2 * |g.pairs| + j
      invariant a[..] == Applied(orig, r, g, m) && counts == Tally(r, g, m)
    {
      var x := g.singles[j];
      var emp := r.employees[r.draws[j] % |r.employees|];
      SingleSlot(r, g, j, m);
      counts := Give(a, counts, orig, r, g, m, x, emp.id);
      m := m + 1;
      j := j + 1;
    }
    assert m == |Slots(g)|;
  }

  /** The assigner as the source runs it: the pairs, then the singles. */
  method AssignGroups(a: array<Holiday>, g: Groups, r: Roster) returns (counts: map<EmpId, nat>)
    requires Ready(r, g) && Partition(g, a.Length)
    modifies a
    ensures a[..] == Assignment(old(a[..]), r, g)
    ensures counts == Counts(r, g)
  {
    ghost var orig := a[..];
    var afterPairs := AssignPairs(a, g, r);
    counts := AssignSingles(a, g, r, orig, afterPairs);
  }
}
