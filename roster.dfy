/**
 * The rows the faculty dashboards read from the store, and the absentee
 * computation both history views share: every roll of the class's
 * inclusive range that is not among the present rolls, in ascending order.
 */
module Roster {

  /** A `sessions` row: id, ISO date, status ('Active', 'Ended' or an off-day reason) and times. */
  datatype SessionRow = SessionRow(id: int, sessionDate: string, status: string,
                                   startTime: string, endTime: string)

  /** A `classes` row, with the class's inclusive roll range. */
  datatype ClassRow = ClassRow(id: int, subjectName: string, startRollNo: int, endRollNo: int,
                               defaultStartTime: string, defaultEndTime: string)

  /** `end_roll_no - start_roll_no + 1`. */
  function TotalStudents(c: ClassRow): int {
    c.endRollNo - c.startRollNo + 1
  }

  /** The rolls of [start, end] not in `present`, ascending (the specification of the loop). */
  function AbsentRolls(start: int, end: int, present: seq<int>): seq<int>
    decreases end - start
  {
    if start > end then []
    else AbsentRolls(start, end - 1, present) + (if end in present then [] else [end])
  }

  /** A roll is absent exactly when it is in the range and not present. */
  lemma {:induction false} AbsentMembership(start: int, end: int, present: seq<int>, x: int)
    ensures x in AbsentRolls(start, end, present) <==> start <= x <= end && x !in present
    decreases end - start
  {
    if start <= end {
      AbsentMembership(start, end - 1, present, x);
    }
  }

  /** Strictly ascending, every element in [lo, hi]. */
  predicate AscendingWithin(r: seq<int>, lo: int, hi: int) {
    (forall i :: 0 <= i < |r| ==> lo <= r[i] <= hi)
    && (forall i, j :: 0 <= i < j < |r| ==> r[i] < r[j])
  }

  /** Absentees come out in strictly ascending order, all within the range. */
  lemma {:induction false} AbsentAscending(start: int, end: int, present: seq<int>)
    ensures AscendingWithin(AbsentRolls(start, end, present), start, end)
    decreases end - start
  {
    if start <= end {
      AbsentAscending(start, end - 1, present);
      var p := AbsentRolls(start, end - 1, present);
      var r := AbsentRolls(start, end, present);
      assert r == p + (if end in present then [] else [end]);
    }
  }

  /** There are never more absentees than students. */
  lemma {:induction false} AbsentCountBound(start: int, end: int, present: seq<int>)
    ensures |AbsentRolls(start, end, present)| <= if start > end then 0 else end - start + 1
    decreases end - start
  {
    if start <= end {
      AbsentCountBound(start, end - 1, present);
    }
  }

  /** Nobody is absent exactly when every roll of the range is present. */
  lemma FullAttendanceIff(start: int, end: int, present: seq<int>)
    ensures AbsentRolls(start, end, present) == [] <==> forall x :: start <= x <= end ==> x in present
  {
    var r := AbsentRolls(start, end, present);
    if r != [] {
      AbsentMembership(start, end, present, r[0]);
    }
    forall x | start <= x <= end
      ensures r == [] ==> x in present
    {
      AbsentMembership(start, end, present, x);
    }
  }

  /**
   * The roll loop: `for (i = start; i <= end; i++) if (!presentRolls.includes(i)) absentRolls.push(i)`.
   */
  method CollectAbsentees(start: int, end: int, presentRolls: seq<int>) returns (absentRolls: seq<int>)
    ensures absentRolls == AbsentRolls(start, end, presentRolls)
  {
    absentRolls := [];
    var i := start;
    while i <= end
      invariant start <= i <= if end < start then start else end + 1
      invariant absentRolls == AbsentRolls(start, i - 1, presentRolls)
      decreases end - i
    {
      if i !in presentRolls {
        absentRolls := absentRolls + [i];
      }
      i := i + 1;
    }
  }
}
