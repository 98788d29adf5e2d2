/**
 * The faculty dashboard's attendance history: sessions filtered by an
 * inclusive date range, shown a page at a time with one summary row per
 * session; teacher overrides for absentees; and the guard on marking a day
 * off.
 */
module History {
  import opened JsText
  import opened Roster

  // ---------------------------------------------------------------------
  // String comparison and Array.prototype.filter

  /**
   * `a < b` on strings: the first differing character decides, and a proper
   * prefix comes first.
   */
  predicate StrLess(a: string, b: string)
    decreases |a|
  {
    if a == [] then b != []
    else if b == [] then false
    else if a[0] != b[0] then a[0] < b[0]
    else StrLess(a[1..], b[1..])
  }

  /** Exactly one of a < b, a == b, b < a holds, and no string is below itself. */
  lemma {:induction false} StrLessTrichotomy(a: string, b: string)
    ensures StrLess(a, b) || a == b || StrLess(b, a)
    ensures !(StrLess(a, b) && StrLess(b, a)) && !StrLess(a, a)
    decreases |a|
  {
    if a != [] && b != [] && a[0] == b[0] {
      StrLessTrichotomy(a[1..], b[1..]);
      assert a == [a[0]] + a[1..] && b == [b[0]] + b[1..];
    } else if a != [] {
      StrLessTrichotomy(a[1..], a[1..]);
    }
  }

  /** String order is transitive; with the trichotomy it is a strict total order. */
  lemma {:induction false} StrLessTransitive(a: string, b: string, c: string)
    requires StrLess(a, b) && StrLess(b, c)
    ensures StrLess(a, c)
    decreases |a|
  {
    if a != [] && a[0] == b[0] && b[0] == c[0] {
      StrLessTransitive(a[1..], b[1..], c[1..]);
    }
  }

  /** `date >= from`, which JavaScript evaluates as `!(date < from)`. */
  predicate OnOrAfter(date: string, from: string) {
    !StrLess(date, from)
  }

  /** `date <= to`, which JavaScript evaluates as `!(to < date)`. */
  predicate OnOrBefore(date: string, to: string) {
    !StrLess(to, date)
  }

  /** `s.filter(keep)`. */
  function Filter<T(!new)>(s: seq<T>, keep: T -> bool): (r: seq<T>)
    ensures |r| <= |s|
    ensures forall x :: x in r <==> x in s && keep(x)
  {
    if s == [] then []
    else (if keep(s[0]) then [s[0]] else []) + Filter(s[1..], keep)
  }

  /** Filtering keeps the original order: it distributes over concatenation. */
  lemma {:induction false} FilterConcat<T(!new)>(a: seq<T>, b: seq<T>, keep: T -> bool)
    ensures Filter(a + b, keep) == Filter(a, keep) + Filter(b, keep)
  {
    if a == [] {
      assert a + b == b;
    } else {
      assert (a + b)[0] == a[0] && (a + b)[1..] == a[1..] + b;
      FilterConcat(a[1..], b, keep);
    }
  }

  /** Two filters in a row keep what satisfies both. */
  lemma {:induction false} FilterTwice<T(!new)>(s: seq<T>, p: T -> bool, q: T -> bool, both: T -> bool)
    requires forall x :: both(x) == (p(x) && q(x))
    ensures Filter(Filter(s, p), q) == Filter(s, both)
  {
    if s != [] {
      FilterTwice(s[1..], p, q, both);
      FilterConcat(if p(s[0]) then [s[0]] else [], Filter(s[1..], p), q);
    }
  }

  // ---------------------------------------------------------------------
  // applyHistoryFilters

  /** Inside the range the two date inputs describe; an empty input does not filter. */
  predicate InDateRange(date: string, startDate: string, endDate: string) {
    (startDate == "" || OnOrAfter(date, startDate)) && (endDate == "" || OnOrBefore(date, endDate))
  }

  /** The two successive filters of `applyHistoryFilters`. */
  function FilterByDates(all: seq<SessionRow>, startDate: string, endDate: string): seq<SessionRow> {
    var afterStart := if startDate != "" then Filter(all, (s: SessionRow) => OnOrAfter(s.sessionDate, startDate))
                      else all;
    if endDate != "" then Filter(afterStart, (s: SessionRow) => OnOrBefore(s.sessionDate, endDate))
    else afterStart
  }

  /**
   * The filtered sessions are exactly the sessions inside the date range,
   * in their original order.
   */
  lemma FilterByDatesIsRangeFilter(all: seq<SessionRow>, startDate: string, endDate: string)
    ensures FilterByDates(all, startDate, endDate)
            == Filter(all, (s: SessionRow) => InDateRange(s.sessionDate, startDate, endDate))
  {
    var inRange := (s: SessionRow) => InDateRange(s.sessionDate, startDate, endDate);
    var after := (s: SessionRow) => OnOrAfter(s.sessionDate, startDate);
    var before := (s: SessionRow) => OnOrBefore(s.sessionDate, endDate);
    if startDate != "" && endDate != "" {
      FilterTwice(all, after, before, inRange);
    } else if startDate != "" {
      FilterTwice(all, after, (s: SessionRow) => true, inRange);
      FilterAll(Filter(all, after));
    } else if endDate != "" {
      FilterTwice(all, (s: SessionRow) => true, before, inRange);
      FilterAll(all);
    } else {
      FilterTwice(all, (s: SessionRow) => true, (s: SessionRow) => true, inRange);
      FilterAll(all);
      FilterAll(Filter(all, (s: SessionRow) => true));
    }
  }

  lemma {:induction false} FilterAll<T(!new)>(s: seq<T>)
    ensures Filter(s, (x: T) => true) == s
  {
    if s != [] {
      FilterAll(s[1..]);
    }
  }

  /** Both ends of the range are inclusive: a session dated on either bound is kept. */
  lemma DateBoundsInclusive(all: seq<SessionRow>, s: SessionRow, startDate: string, endDate: string)
    requires s in all && !StrLess(endDate, startDate)
    requires s.sessionDate == startDate || s.sessionDate == endDate
    ensures s in FilterByDates(all, startDate, endDate)
  {
    FilterByDatesIsRangeFilter(all, startDate, endDate);
    StrLessTrichotomy(startDate, startDate);
    StrLessTrichotomy(endDate, endDate);
    var inRange := (s: SessionRow) => InDateRange(s.sessionDate, startDate, endDate);
    assert inRange(s);
  }

  // ---------------------------------------------------------------------
  // Paging

  function Min(a: int, b: int): int {
    if a < b then a else b
  }

  /** `renderHistoryPage`: `filtered.slice((page - 1) * k, (page - 1) * k + k)`. */
  function PageOf<T>(filtered: seq<T>, currentPage: int, entriesPerPage: int): seq<T> {
    var start := (currentPage - 1) * entriesPerPage;
    Slice(filtered, start, start + entriesPerPage)
  }

  /** A page with a positive number is the window [(p-1)k, pk) clamped to the list: at most k entries. */
  lemma PageOfWindow<T>(filtered: seq<T>, p: int, k: int)
    requires p >= 1 && k >= 1
    ensures PageOf(filtered, p, k) == filtered[Min((p - 1) * k, |filtered|)..Min(p * k, |filtered|)]
    ensures |PageOf(filtered, p, k)| <= k
  {
    MulNonNegative(p - 1, k);
    assert p * k == (p - 1) * k + k;
  }

  lemma MulNonNegative(a: int, b: int)
    requires a >= 0 && b >= 0
    ensures a * b >= 0
  {
  }

  /** `Math.ceil(n / k)`: the least number of pages of k entries that hold n entries. */
  function TotalPages(n: nat, k: int): (t: nat)
    requires k >= 1
    ensures n == 0 ==> t == 0
    ensures n > 0 ==> (t - 1) * k < n <= t * k
  {
    var t := (n + k - 1) / k;
    assert t * k + (n + k - 1) % k == n + k - 1;
    assert (t - 1) * k == t * k - k;
    t
  }

  /** The entries of pages 1 to m, in order. */
  function PagesThrough<T>(filtered: seq<T>, k: int, m: nat): seq<T> {
    if m == 0 then [] else PagesThrough(filtered, k, m - 1) + PageOf(filtered, m, k)
  }

  lemma {:induction false} PagesThroughPrefix<T>(filtered: seq<T>, k: int, m: nat)
    requires k >= 1
    ensures PagesThrough(filtered, k, m) == filtered[..Min(m * k, |filtered|)]
  {
    if m > 0 {
      PagesThroughPrefix(filtered, k, m - 1);
      PageOfWindow(filtered, m, k);
      MulNonNegative(m - 1, k);
      assert m * k == (m - 1) * k + k;
      var a, b := Min((m - 1) * k, |filtered|), Min(m * k, |filtered|);
      assert filtered[..a] + filtered[a..b] == filtered[..b];
    }
  }

  /** The pages 1..ceil(n/k), read in order, are exactly the filtered list: nothing lost, nothing repeated. */
  lemma PagesPartition<T>(filtered: seq<T>, k: int)
    requires k >= 1
    ensures PagesThrough(filtered, k, TotalPages(|filtered|, k)) == filtered
  {
    PagesThroughPrefix(filtered, k, TotalPages(|filtered|, k));
    assert filtered[..|filtered|] == filtered;
  }

  /** A pagination button: its page number and whether it carries the 'active' class. */
  datatype PageButton = PageButton(page: int, active: bool)

  /**
   * No buttons for at most one page; otherwise one button per page, numbered
   * from 1, and only the current page's marked active.
   */
  predicate IsPagination(buttons: seq<PageButton>, filteredCount: nat, entriesPerPage: int, currentPage: int)
    requires entriesPerPage >= 1
  {
    var total := TotalPages(filteredCount, entriesPerPage);
    (total <= 1 ==> buttons == [])
    && (total > 1 ==>
          |buttons| == total
          && forall i :: 0 <= i < |buttons| ==>
               buttons[i].page == i + 1 && (buttons[i].active <==> buttons[i].page == currentPage))
  }

  /** `renderPagination`: the buttons for ceil(n/k) pages. */
  method RenderPagination(filteredCount: nat, entriesPerPage: int, currentPage: int)
    returns (buttons: seq<PageButton>)
    requires entriesPerPage >= 1
    ensures IsPagination(buttons, filteredCount, entriesPerPage, currentPage)
  {
    var totalPages := TotalPages(filteredCount, entriesPerPage);
    buttons := [];
    if totalPages <= 1 {
      return;
    }
    var i := 1;
    while i <= totalPages
      invariant 1 <= i <= totalPages + 1 && |buttons| == i - 1
      invariant forall j :: 0 <= j < |buttons| ==>
                  buttons[j].page == j + 1 && (buttons[j].active <==> buttons[j].page == currentPage)
    {
      buttons := buttons + [PageButton(i, i == currentPage)];
      i := i + 1;
    }
  }

  // ---------------------------------------------------------------------
  // renderHistoryTable

  /** One table row: the status alone for a non-Active session, else the attendance summary. */
  datatype HistoryRow =
    | OffRow(date: string, status: string)
    | ActiveRow(date: string, status: string, presentCount: int, totalStudents: int,
                absentRolls: seq<int>, canModify: bool)

  /** `records ? records.map(r => r.roll_no) : []`; a session missing from `records` had no data. */
  function PresentRolls(records: map<int, seq<int>>, sessionId: int): seq<int> {
    if sessionId in records then records[sessionId] else []
  }

  /** The row of one session, with the store's attendance rolls per session id. */
  function RowOf(session: SessionRow, cls: ClassRow, records: map<int, seq<int>>): HistoryRow {
    if session.status != "Active" then OffRow(session.sessionDate, session.status)
    else
      var present := PresentRolls(records, session.id);
      var absent := AbsentRolls(cls.startRollNo, cls.endRollNo, present);
      ActiveRow(session.sessionDate, session.status, |present|, TotalStudents(cls), absent, |absent| > 0)
  }

  /**
   * What a row says: an Active session shows end-start+1 students, the
   * number of records (0 without data), the ascending in-range rolls with no
   * record, and the Modify action exactly when some roll is missing.
   */
  lemma RowSummary(session: SessionRow, cls: ClassRow, records: map<int, seq<int>>)
    ensures var row := RowOf(session, cls, records);
            var present := PresentRolls(records, session.id);
            (row.OffRow? <==> session.status != "Active")
            && (row.ActiveRow? ==>
                  row.totalStudents == cls.endRollNo - cls.startRollNo + 1
                  && row.presentCount == (if session.id in records then |records[session.id]| else 0)
                  && AscendingWithin(row.absentRolls, cls.startRollNo, cls.endRollNo)
                  && (forall x :: x in row.absentRolls <==> cls.startRollNo <= x <= cls.endRollNo && x !in present)
                  && |row.absentRolls| <= (if row.totalStudents < 0 then 0 else row.totalStudents)
                  && (row.canModify <==> exists x :: cls.startRollNo <= x <= cls.endRollNo && x !in present))
  {
    var present := PresentRolls(records, session.id);
    var s, e := cls.startRollNo, cls.endRollNo;
    AbsentAscending(s, e, present);
    AbsentCountBound(s, e, present);
    FullAttendanceIff(s, e, present);
    forall x
      ensures x in AbsentRolls(s, e, present) <==> s <= x <= e && x !in present
    {
      AbsentMembership(s, e, present, x);
    }
  }

  /** One row, computing the absentees with the roll loop. */
  method BuildRow(session: SessionRow, cls: ClassRow, records: map<int, seq<int>>) returns (row: HistoryRow)
    ensures row == RowOf(session, cls, records)
  {
    if session.status != "Active" {
      return OffRow(session.sessionDate, session.status);
    }
    var totalStudents := cls.endRollNo - cls.startRollNo + 1;
    var presentRolls := PresentRolls(records, session.id);
    var absentRolls := CollectAbsentees(cls.startRollNo, cls.endRollNo, presentRolls);
    row := ActiveRow(session.sessionDate, session.status, |presentRolls|, totalStudents,
                     absentRolls, |absentRolls| > 0);
  }

  // ---------------------------------------------------------------------
  // markAbsenteesAsPresent

  const OVERRIDE_PREFIX: string := "manual_override_by_teacher_"

  /** An attendance record written by a teacher's override. */
  datatype OverrideRecord = OverrideRecord(sessionId: string, rollNo: int, deviceFingerprint: string)

  /** `manual_override_by_teacher_${Date.now()}_${rollNo}`. */
  function OverrideFingerprint(now: nat, rollNo: int): string {
    OVERRIDE_PREFIX + NatToDecimal(now) + "_" + IntToString(rollNo)
  }

  /**
   * `rollNumbers.map(...)`: one record per roll, in order. `clock(i)` is what
   * `Date.now()` returns while the i-th record is built.
   */
  function OverrideRecords(sessionId: string, rollNumbers: seq<int>, clock: nat -> nat): (r: seq<OverrideRecord>)
    ensures |r| == |rollNumbers|
    ensures forall i :: 0 <= i < |r| ==>
              r[i].sessionId == sessionId && r[i].rollNo == rollNumbers[i]
              && r[i].deviceFingerprint == OverrideFingerprint(clock(i), rollNumbers[i])
  {
    seq(|rollNumbers|, i requires 0 <= i < |rollNumbers| =>
      OverrideRecord(sessionId, rollNumbers[i], OverrideFingerprint(clock(i), rollNumbers[i])))
  }

  lemma NoUnderscoreInIntToString(n: int)
    ensures '_' !in IntToString(n)
  {
    var s := IntToString(n);
    var d := if n < 0 then NatToDecimal(-n) else NatToDecimal(n);
    assert forall k :: 0 <= k < |d| ==> IsDigit(d[k]);
    if n < 0 {
      assert s == "-" + d;
      assert forall k :: 1 <= k < |s| ==> s[k] == d[k - 1];
    }
  }

  /** The text after the fixed prefix: `${now}_${rollNo}`. */
  lemma OverrideSuffix(now: nat, rollNo: int)
    ensures OverrideFingerprint(now, rollNo)[|OVERRIDE_PREFIX|..] == Join([NatToDecimal(now), IntToString(rollNo)], '_')
  {
    var t := NatToDecimal(now) + "_" + IntToString(rollNo);
    assert OverrideFingerprint(now, rollNo) == OVERRIDE_PREFIX + t;
    assert Join([NatToDecimal(now), IntToString(rollNo)], '_') == t;
  }

  /** Splitting `${now}_${rollNo}` on '_' gives back the two parts. */
  lemma OverrideSuffixSplits(now: nat, rollNo: int)
    ensures Split(Join([NatToDecimal(now), IntToString(rollNo)], '_'), '_') == [NatToDecimal(now), IntToString(rollNo)]
  {
    NoUnderscoreInIntToString(now);
    NoUnderscoreInIntToString(rollNo);
    assert IntToString(now) == NatToDecimal(now);
    SplitJoin([NatToDecimal(now), IntToString(rollNo)], '_');
  }

  /** An override fingerprint determines both the time and the roll it was built from. */
  lemma OverrideFingerprintInjective(n1: nat, r1: int, n2: nat, r2: int)
    requires OverrideFingerprint(n1, r1) == OverrideFingerprint(n2, r2)
    ensures n1 == n2 && r1 == r2
  {
    OverrideSuffix(n1, r1);
    OverrideSuffix(n2, r2);
    OverrideSuffixSplits(n1, r1);
    OverrideSuffixSplits(n2, r2);
    NatToDecimalInjective(n1, n2);
    IntToStringInjective(r1, r2);
  }

  /**
   * Distinct rolls give distinct fingerprints within a batch, whatever the
   * clock returns (the checked absentees are distinct; see AbsentAscending).
   */
  lemma OverrideFingerprintsDistinct(sessionId: string, rollNumbers: seq<int>, clock: nat -> nat)
    requires forall i, j :: 0 <= i < j < |rollNumbers| ==> rollNumbers[i] != rollNumbers[j]
    ensures var r := OverrideRecords(sessionId, rollNumbers, clock);
            forall i, j :: 0 <= i < j < |r| ==> r[i].deviceFingerprint != r[j].deviceFingerprint
  {
    var r := OverrideRecords(sessionId, rollNumbers, clock);
    forall i, j | 0 <= i < j < |r|
      ensures r[i].deviceFingerprint != r[j].deviceFingerprint
    {
      if r[i].deviceFingerprint == r[j].deviceFingerprint {
        OverrideFingerprintInjective(clock(i), rollNumbers[i], clock(j), rollNumbers[j]);
      }
    }
  }

  /** The Mark Present button: the batch is inserted only when at least one roll is checked. */
  function ConfirmModify(sessionId: string, checkedRolls: seq<int>, clock: nat -> nat): (batch: Option<seq<OverrideRecord>>)
    ensures batch.None? <==> checkedRolls == []
    ensures batch.Some? ==> |batch.value| == |checkedRolls|
  {
    if |checkedRolls| > 0 then Some(OverrideRecords(sessionId, checkedRolls, clock)) else None
  }

  // ---------------------------------------------------------------------
  // markSessionAsOff

  /** The off-day row `markSessionAsOff` inserts. */
  datatype OffSession = OffSession(classId: string, sessionDate: string, startTime: string,
                                   endTime: string, status: string)

  /** UnknownClass: the id matches no listed class, where the source fails reading its times. */
  datatype MarkOffOutcome = MissingClassOrDate | CheckFailed | AlreadyExists | UnknownClass | InsertOff(row: OffSession)

  /** `currentClasses.find(c => c.id == classId)`, with the select's value the id in decimal. */
  function FindClass(classes: seq<ClassRow>, classId: string): (r: Option<ClassRow>)
    ensures r.Some? ==> r.value in classes && IntToString(r.value.id) == classId
    ensures r.None? <==> forall c :: c in classes ==> IntToString(c.id) != classId
  {
    if classes == [] then None
    else if IntToString(classes[0].id) == classId then Some(classes[0])
    else FindClass(classes[1..], classId)
  }

  /**
   * Both inputs are required; a failed check or any existing session for the
   * class and date refuses; otherwise the off day is inserted with the
   * class's default times and the reason as its status.
   */
  function MarkOffDecision(classId: string, date: string, reason: string, existing: Option<seq<int>>,
                           classes: seq<ClassRow>): MarkOffOutcome {
    if classId == "" || date == "" then MissingClassOrDate
    else if existing.None? then CheckFailed
    else if |existing.value| > 0 then AlreadyExists
    else match FindClass(classes, classId)
      case None => UnknownClass
      case Some(c) => InsertOff(OffSession(classId, date, c.defaultStartTime, c.defaultEndTime, reason))
  }

  /** An off day is inserted exactly when both inputs are given, the check succeeded and found nothing, and the class is listed. */
  lemma MarkOffInsertsOnlyNewDays(classId: string, date: string, reason: string, existing: Option<seq<int>>,
                                  classes: seq<ClassRow>)
    ensures var d := MarkOffDecision(classId, date, reason, existing, classes);
            d.InsertOff? <==> (classId != "" && date != "" && existing == Some([])
                               && exists c :: c in classes && IntToString(c.id) == classId)
    ensures var d := MarkOffDecision(classId, date, reason, existing, classes);
            d.InsertOff? ==>
              d.row.classId == classId && d.row.sessionDate == date && d.row.status == reason
              && (exists c :: c in classes && IntToString(c.id) == classId
                    && d.row.startTime == c.defaultStartTime && d.row.endTime == c.defaultEndTime)
  {
  }

  /** How many rows of the store are sessions of `classId` on `date`. */
  function SessionsOn(store: seq<(string, string)>, classId: string, date: string): nat {
    if store == [] then 0
    else SessionsOn(store[..|store| - 1], classId, date) + (if store[|store| - 1] == (classId, date) then 1 else 0)
  }

  /**
   * When the existence check reports the store's sessions for the class and
   * date, marking a day off never gives a class two rows for one date: it
   * inserts only where there was none, and then there is exactly one, and
   * no other class or date gains a row.
   */
  lemma MarkOffKeepsDaysUnique(classId: string, date: string, reason: string, store: seq<(string, string)>,
                               existing: Option<seq<int>>, classes: seq<ClassRow>)
    requires existing.Some? ==> |existing.value| == SessionsOn(store, classId, date)
    ensures var d := MarkOffDecision(classId, date, reason, existing, classes);
            d.InsertOff? ==>
              var after := store + [(d.row.classId, d.row.sessionDate)];
              SessionsOn(store, classId, date) == 0 && SessionsOn(after, classId, date) == 1
              && forall k :: k != (classId, date) ==> SessionsOn(after, k.0, k.1) == SessionsOn(store, k.0, k.1)
  {
    var d := MarkOffDecision(classId, date, reason, existing, classes);
    if d.InsertOff? {
      var after := store + [(d.row.classId, d.row.sessionDate)];
      assert after[..|after| - 1] == store;
    }
  }

  // ---------------------------------------------------------------------
  // The history modal

  datatype HistoryContent = LoadingHistory | HistoryLoadFailed | NoMatchingRecords | HistoryTable(rows: seq<HistoryRow>)

  /** `historyState`, the date inputs and what the modal shows. */
  class HistoryState {
    var allSessions: seq<SessionRow>
    var filteredSessions: seq<SessionRow>
    var currentPage: int
    var entriesPerPage: int
    var selectedClass: Option<ClassRow>
    var startDate: string
    var endDate: string
    var content: HistoryContent
    var pagination: seq<PageButton>

    ghost predicate Valid()
      reads this
    {
      entriesPerPage >= 1
      && filteredSessions == FilterByDates(allSessions, startDate, endDate)
      && (selectedClass.None? ==> allSessions == [])
    }

    constructor ()
      ensures Valid() && allSessions == [] && filteredSessions == [] && currentPage == 1 && entriesPerPage == 10
      ensures selectedClass == None && startDate == "" && endDate == ""
      ensures content == LoadingHistory && pagination == []
    {
      allSessions, filteredSessions := [], [];
      currentPage, entriesPerPage := 1, 10;
      selectedClass := None;
      startDate, endDate := "", "";
      content, pagination := LoadingHistory, [];
    }

    /** The rows of the current page, one per session, in order. */
    ghost predicate ShowsCurrentPage(records: map<int, seq<int>>)
      reads this
      requires Valid()
    {
      var page := PageOf(filteredSessions, currentPage, entriesPerPage);
      (page == [] ==> content == NoMatchingRecords)
      && (page != [] ==>
            selectedClass.Some? && content.HistoryTable? && |content.rows| == |page|
            && forall i :: 0 <= i < |page| ==> content.rows[i] == RowOf(page[i], selectedClass.value, records))
      && IsPagination(pagination, |filteredSessions|, entriesPerPage, currentPage)
    }

    /** `renderHistoryPage`: the current page's rows and the pagination buttons. */
    method RenderHistoryPage(records: map<int, seq<int>>)
      requires Valid()
      modifies this
      ensures Valid() && ShowsCurrentPage(records)
      ensures allSessions == old(allSessions) && filteredSessions == old(filteredSessions)
      ensures currentPage == old(currentPage) && entriesPerPage == old(entriesPerPage)
      ensures selectedClass == old(selectedClass) && startDate == old(startDate) && endDate == old(endDate)
    {
      var page := PageOf(filteredSessions, currentPage, entriesPerPage);
      if |page| == 0 {
        content := NoMatchingRecords;
      } else {
        assert |filteredSessions| > 0 && |allSessions| > 0;
        var cls := selectedClass.value;
        var rows: seq<HistoryRow> := [];
        var i := 0;
        while i < |page|
          modifies {}
          invariant 0 <= i <= |page| && |rows| == i
          invariant forall j :: 0 <= j < i ==> rows[j] == RowOf(page[j], cls, records)
        {
          var row := BuildRow(page[i], cls, records);
          rows := rows + [row];
          i := i + 1;
        }
        content := HistoryTable(rows);
      }
      pagination := RenderPagination(|filteredSessions|, entriesPerPage, currentPage);
    }

    /** `applyHistoryFilters`: filter with the current date inputs, back to page 1, render. */
    method ApplyHistoryFilters(records: map<int, seq<int>>)
      requires entriesPerPage >= 1 && (selectedClass.None? ==> allSessions == [])
      modifies this
      ensures Valid() && ShowsCurrentPage(records)
      ensures filteredSessions == FilterByDates(allSessions, startDate, endDate) && currentPage == 1
      ensures allSessions == old(allSessions) && entriesPerPage == old(entriesPerPage)
      ensures selectedClass == old(selectedClass) && startDate == old(startDate) && endDate == old(endDate)
    {
      filteredSessions := FilterByDates(allSessions, startDate, endDate);
      currentPage := 1;
      RenderHistoryPage(records);
    }

    /** A change of either date input. */
    method ChangeDateFilters(newStart: string, newEnd: string, records: map<int, seq<int>>)
      requires Valid()
      modifies this
      ensures Valid() && ShowsCurrentPage(records)
      ensures startDate == newStart && endDate == newEnd && currentPage == 1
      ensures filteredSessions == FilterByDates(allSessions, newStart, newEnd)
      ensures allSessions == old(allSessions) && entriesPerPage == old(entriesPerPage)
      ensures selectedClass == old(selectedClass)
    {
      startDate, endDate := newStart, newEnd;
      ApplyHistoryFilters(records);
    }

    /** The entries-per-page select: new page size, page 1, filters re-applied. */
    method SetEntriesPerPage(k: int, records: map<int, seq<int>>)
      requires Valid() && k >= 1
      modifies this
      ensures Valid() && ShowsCurrentPage(records)
      ensures entriesPerPage == k && currentPage == 1
      ensures filteredSessions == FilterByDates(allSessions, startDate, endDate)
      ensures allSessions == old(allSessions) && startDate == old(startDate) && endDate == old(endDate)
      ensures selectedClass == old(selectedClass)
    {
      entriesPerPage := k;
      currentPage := 1;
      ApplyHistoryFilters(records);
    }

    /** A pagination button: show that page. */
    method GoToPage(page: int, records: map<int, seq<int>>)
      requires Valid()
      modifies this
      ensures Valid() && ShowsCurrentPage(records) && currentPage == page
      ensures allSessions == old(allSessions) && filteredSessions == old(filteredSessions)
      ensures entriesPerPage == old(entriesPerPage)
      ensures selectedClass == old(selectedClass) && startDate == old(startDate) && endDate == old(endDate)
    {
      currentPage := page;
      RenderHistoryPage(records);
    }

    /**
     * `handleViewHistoryClick`: a failed load shows an error; otherwise the
     * class's sessions replace the list, the filters and page size reset,
     * and page 1 is shown.
     */
    method OpenHistory(cls: ClassRow, sessions: Option<seq<SessionRow>>, records: map<int, seq<int>>)
      requires Valid()
      modifies this
      ensures Valid() && selectedClass == Some(cls)
      ensures sessions.None? ==> content == HistoryLoadFailed && pagination == []
                                 && allSessions == old(allSessions) && filteredSessions == old(filteredSessions)
                                 && currentPage == old(currentPage) && entriesPerPage == old(entriesPerPage)
                                 && startDate == old(startDate) && endDate == old(endDate)
      ensures sessions.Some? ==>
                allSessions == sessions.value && filteredSessions == sessions.value
                && startDate == "" && endDate == ""
                && currentPage == 1 && entriesPerPage == 10 && ShowsCurrentPage(records)
    {
      hide PageOf, RowOf, IsPagination, ShowsCurrentPage;
      selectedClass := Some(cls);
      content := LoadingHistory;
      pagination := [];
      if sessions.None? {
        content := HistoryLoadFailed;
        return;
      }
      allSessions := sessions.value;
      currentPage := 1;
      startDate, endDate := "", "";
      entriesPerPage := 10;
      ApplyHistoryFilters(records);
    }
  }
}
