/**
 * The legacy history view: one entry per session of a class, in the order
 * the store returns them. Non-Active sessions show their date and status;
 * Active ones show present/total and either the absentees or "Full
 * Attendance!".
 */
module HistoryOld {
  import opened JsText
  import opened Roster

  /** `recError ? 'N/A' : records.length`. */
  datatype PresentCount = Count(n: nat) | NotAvailable

  /** "Absent (n): r1, r2, ..." or "Full Attendance!". */
  datatype AbsenceLine = FullAttendance | Absent(count: nat, rolls: seq<int>)

  datatype HistoryEntry =
    | OffEntry(date: string, status: string)
    | ActiveEntry(date: string, startTime: string, endTime: string, present: PresentCount,
                  totalStudents: int, absence: AbsenceLine)

  /**
   * What the modal shows. `aborted` is set when the loop stopped part way,
   * leaving only the entries appended before it.
   */
  datatype OldHistoryContent = CouldNotLoad | NoHistoryFound | Entries(entries: seq<HistoryEntry>, aborted: bool)

  function AbsenceLineOf(absentRolls: seq<int>): AbsenceLine {
    if |absentRolls| > 0 then Absent(|absentRolls|, absentRolls) else FullAttendance
  }

  /**
   * The entry of one session. `records` maps a session id to its fetched
   * rolls; a missing id is a failed fetch, shown as 'N/A' with no roll
   * counted as present.
   */
  function EntryOf(session: SessionRow, cls: ClassRow, records: map<int, seq<int>>): HistoryEntry {
    if session.status != "Active" then OffEntry(session.sessionDate, session.status)
    else
      var present := if session.id in records then Count(|records[session.id]|) else NotAvailable;
      var rolls := if session.id in records then records[session.id] else [];
      ActiveEntry(session.sessionDate, session.startTime, session.endTime, present, TotalStudents(cls),
                  AbsenceLineOf(AbsentRolls(cls.startRollNo, cls.endRollNo, rolls)))
  }

  /**
   * What an entry says: an Active session shows end-start+1 students, 'N/A'
   * exactly when its fetch failed, and "Full Attendance!" exactly when every
   * roll of the range has a record; otherwise the count and the ascending
   * list of the rolls without one.
   */
  lemma EntrySummary(session: SessionRow, cls: ClassRow, records: map<int, seq<int>>)
    ensures var e := EntryOf(session, cls, records);
            var rolls := if session.id in records then records[session.id] else [];
            (e.OffEntry? <==> session.status != "Active")
            && (e.OffEntry? ==> e.date == session.sessionDate && e.status == session.status)
            && (e.ActiveEntry? ==>
                  e.totalStudents == cls.endRollNo - cls.startRollNo + 1
                  && (e.present == NotAvailable <==> session.id !in records)
                  && (e.absence == FullAttendance <==>
                        forall x :: cls.startRollNo <= x <= cls.endRollNo ==> x in rolls)
                  && (e.absence.Absent? ==>
                        e.absence.count == |e.absence.rolls| > 0
                        && AscendingWithin(e.absence.rolls, cls.startRollNo, cls.endRollNo)
                        && forall x :: x in e.absence.rolls <==>
                             cls.startRollNo <= x <= cls.endRollNo && x !in rolls))
  {
    var rolls := if session.id in records then records[session.id] else [];
    var s, e := cls.startRollNo, cls.endRollNo;
    FullAttendanceIff(s, e, rolls);
    AbsentAscending(s, e, rolls);
    forall x
      ensures x in AbsentRolls(s, e, rolls) <==> s <= x <= e && x !in rolls
    {
      AbsentMembership(s, e, rolls, x);
    }
  }

  /** The entries of `sessions`, one per session, in order. */
  function EntriesOf(sessions: seq<SessionRow>, cls: ClassRow, records: map<int, seq<int>>): (r: seq<HistoryEntry>)
    ensures |r| == |sessions|
  {
    if sessions == [] then []
    else EntriesOf(sessions[..|sessions| - 1], cls, records) + [EntryOf(sessions[|sessions| - 1], cls, records)]
  }

  lemma {:induction false} EntriesOfIndex(sessions: seq<SessionRow>, cls: ClassRow, records: map<int, seq<int>>, i: nat)
    requires i < |sessions|
    ensures EntriesOf(sessions, cls, records)[i] == EntryOf(sessions[i], cls, records)
  {
    if i < |sessions| - 1 {
      EntriesOfIndex(sessions[..|sessions| - 1], cls, records, i);
    }
  }

  /** An Active session whose attendance fetch failed. */
  predicate FetchFails(session: SessionRow, records: map<int, seq<int>>) {
    session.status == "Active" && session.id !in records
  }

  /** The first session whose fetch fails, if any. */
  function FirstFetchFailure(sessions: seq<SessionRow>, records: map<int, seq<int>>): (r: Option<nat>)
    ensures r.Some? ==> r.value < |sessions| && FetchFails(sessions[r.value], records)
                        && forall j :: 0 <= j < r.value ==> !FetchFails(sessions[j], records)
    ensures r.None? <==> forall j :: 0 <= j < |sessions| ==> !FetchFails(sessions[j], records)
  {
    if sessions == [] then None
    else if FetchFails(sessions[0], records) then Some(0)
    else match FirstFetchFailure(sessions[1..], records)
      case None => None
      case Some(i) => Some(i + 1)
  }

  /** The first failing session is at i when it fails and none before it does. */
  lemma FirstFetchFailureAt(sessions: seq<SessionRow>, records: map<int, seq<int>>, i: nat)
    requires i < |sessions| && FetchFails(sessions[i], records)
    requires forall j :: 0 <= j < i ==> !FetchFails(sessions[j], records)
    ensures FirstFetchFailure(sessions, records) == Some(i)
  {
    var f := FirstFetchFailure(sessions, records);
    assert f.Some?;
    assert !(f.value < i) && !(i < f.value);
  }

  /**
   * `handleViewHistoryClick` as written: after a failed attendance fetch,
   * `records` is null and `records.map` throws, so the loop ends at that
   * session and the entries before it are all that is shown.
   */
  function HistoryAsWritten(cls: ClassRow, sessions: Option<seq<SessionRow>>,
                            records: map<int, seq<int>>): OldHistoryContent {
    if sessions.None? then CouldNotLoad
    else if |sessions.value| == 0 then NoHistoryFound
    else match FirstFetchFailure(sessions.value, records)
      case None => Entries(EntriesOf(sessions.value, cls, records), false)
      case Some(f) => Entries(EntriesOf(sessions.value[..f], cls, records), true)
  }

  /** The same view with a failed fetch read as no records (as the newer dashboard does). */
  function HistoryCorrected(cls: ClassRow, sessions: Option<seq<SessionRow>>,
                            records: map<int, seq<int>>): (r: OldHistoryContent)
    ensures r == CouldNotLoad <==> sessions.None?
    ensures r == NoHistoryFound <==> sessions == Some([])
    ensures r.Entries? ==> !r.aborted && |r.entries| == |sessions.value|
  {
    if sessions.None? then CouldNotLoad
    else if |sessions.value| == 0 then NoHistoryFound
    else Entries(EntriesOf(sessions.value, cls, records), false)
  }

  /**
   * The corrected view lists every session, in order, each with its own
   * entry; non-Active sessions show only their date and status.
   */
  lemma CorrectedListsEverySession(cls: ClassRow, sessions: seq<SessionRow>, records: map<int, seq<int>>, i: nat)
    requires i < |sessions|
    ensures var r := HistoryCorrected(cls, Some(sessions), records);
            r.Entries? && r.entries[i] == EntryOf(sessions[i], cls, records)
            && (r.entries[i].OffEntry? <==> sessions[i].status != "Active")
  {
    EntriesOfIndex(sessions, cls, records, i);
  }

  /**
   * As written, a failed attendance fetch cuts the list short: the sessions
   * from that one on get no entry, and the entries shown are the corrected
   * view's first ones. Without a failed fetch both views agree.
   */
  lemma AsWrittenStopsAtFetchFailure(cls: ClassRow, sessions: seq<SessionRow>, records: map<int, seq<int>>)
    requires |sessions| > 0
    ensures var w := HistoryAsWritten(cls, Some(sessions), records);
            var c := HistoryCorrected(cls, Some(sessions), records);
            w.Entries? && w.entries <= c.entries
            && (w.aborted <==> exists j :: 0 <= j < |sessions| && FetchFails(sessions[j], records))
            && (w.aborted ==> |w.entries| < |sessions|)
            && (!w.aborted ==> w == c)
  {
    var f := FirstFetchFailure(sessions, records);
    if f.Some? {
      var w := EntriesOf(sessions[..f.value], cls, records);
      var c := EntriesOf(sessions, cls, records);
      forall i | 0 <= i < |w|
        ensures w[i] == c[i]
      {
        EntriesOfIndex(sessions[..f.value], cls, records, i);
        EntriesOfIndex(sessions, cls, records, i);
      }
    }
  }

  /**
   * The input that shows it: one Active session of a class of rolls 1..3
   * whose attendance fetch fails. The view as written shows nothing for
   * it; the corrected view shows 'N/A' and all three rolls absent.
   */
  lemma FetchFailureCounterexample()
    ensures var cls := ClassRow(1, "Maths", 1, 3, "09:00", "10:00");
            var session := SessionRow(7, "2024-01-15", "Active", "09:00", "10:00");
            HistoryAsWritten(cls, Some([session]), map[]) == Entries([], true)
            && HistoryCorrected(cls, Some([session]), map[])
               == Entries([ActiveEntry("2024-01-15", "09:00", "10:00", NotAvailable, 3, Absent(3, [1, 2, 3]))], false)
  {
    var cls := ClassRow(1, "Maths", 1, 3, "09:00", "10:00");
    var session := SessionRow(7, "2024-01-15", "Active", "09:00", "10:00");
    assert [session][..0] == [];
    assert [session][..0] == [] && [session][..1 - 1] == [];
    assert AbsentRolls(1, 3, []) == [1, 2, 3] by {
      assert AbsentRolls(1, 0, []) == [];
      assert AbsentRolls(1, 1, []) == [1];
      assert AbsentRolls(1, 2, []) == [1, 2];
    }
  }

  /**
   * The loop of `handleViewHistoryClick` as written: it stops at the first
   * Active session whose attendance fetch failed.
   */
  method ViewHistoryAsWritten(cls: ClassRow, sessions: Option<seq<SessionRow>>, records: map<int, seq<int>>)
    returns (content: OldHistoryContent)
    ensures content == HistoryAsWritten(cls, sessions, records)
  {
    if sessions.None? {
      return CouldNotLoad;
    }
    var all := sessions.value;
    if |all| == 0 {
      return NoHistoryFound;
    }
    var entries: seq<HistoryEntry> := [];
    var i := 0;
    while i < |all|
      invariant 0 <= i <= |all|
      invariant entries == EntriesOf(all[..i], cls, records)
      invariant forall j :: 0 <= j < i ==> !FetchFails(all[j], records)
    {
      var session := all[i];
      var entry: HistoryEntry;
      if session.status != "Active" {
        entry := OffEntry(session.sessionDate, session.status);
      } else {
        if session.id !in records {
          // records is null: reading records.map throws here.
          FirstFetchFailureAt(all, records, i);
          return Entries(entries, true);
        }
        var presentRolls := records[session.id];
        var absentRolls := CollectAbsentees(cls.startRollNo, cls.endRollNo, presentRolls);
        entry := ActiveEntry(session.sessionDate, session.startTime, session.endTime,
                             Count(|presentRolls|), cls.endRollNo - cls.startRollNo + 1, AbsenceLineOf(absentRolls));
      }
      assert all[..i + 1][..i] == all[..i];
      entries := entries + [entry];
      i := i + 1;
    }
    assert all[..i] == all;
    return Entries(entries, false);
  }

  /** The loop with a failed fetch read as no records: every session gets its entry. */
  method ViewHistory(cls: ClassRow, sessions: Option<seq<SessionRow>>, records: map<int, seq<int>>)
    returns (content: OldHistoryContent)
    ensures content == HistoryCorrected(cls, sessions, records)
  {
    if sessions.None? {
      return CouldNotLoad;
    }
    var all := sessions.value;
    if |all| == 0 {
      return NoHistoryFound;
    }
    var entries: seq<HistoryEntry> := [];
    var i := 0;
    while i < |all|
      invariant 0 <= i <= |all|
      invariant entries == EntriesOf(all[..i], cls, records)
    {
      var session := all[i];
      var entry: HistoryEntry;
      if session.status != "Active" {
        entry := OffEntry(session.sessionDate, session.status);
      } else {
        var fetched := session.id in records;
        var presentRolls := if fetched then records[session.id] else [];
        var absentRolls := CollectAbsentees(cls.startRollNo, cls.endRollNo, presentRolls);
        entry := ActiveEntry(session.sessionDate, session.startTime, session.endTime,
                             if fetched then Count(|presentRolls|) else NotAvailable,
                             cls.endRollNo - cls.startRollNo + 1, AbsenceLineOf(absentRolls));
      }
      assert all[..i + 1][..i] == all[..i];
      entries := entries + [entry];
      i := i + 1;
    }
    assert all[..i] == all;
    return Entries(entries, false);
  }
}
