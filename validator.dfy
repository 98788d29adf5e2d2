/**
 * The student page: it checks a scanned QR payload or a typed manual code,
 * makes at most one attendance insert, and turns the store's answer into the
 * message the student sees.
 */
module Validator {
  import opened JsText

  /** A QR payload older than this many milliseconds is rejected. */
  const QR_WINDOW_MS: int := 20000
  /** Name of the store's unique constraint on (session, roll number). */
  const ROLL_KEY: string := "attendance_records_session_id_roll_no_key"
  /** Name of the store's unique constraint on (session, device fingerprint). */
  const DEVICE_KEY: string := "attendance_records_session_id_device_fingerprint_key"

  // ---------------------------------------------------------------------
  // QR path

  /** What `handleQrCodeData` decides before any insert. */
  datatype QrDecision = QrFormatError | QrExpired | QrInsert(sessionId: JsInt)

  /**
   * Split on '|'; anything but two non-empty parts is a format error. The age
   * is `now - parseInt(timestamp)`; NaN compares false with `>`, so an
   * unparsable timestamp is never expired. The session id is `parseInt`ed.
   */
  function CheckQrPayload(data: string, now: int): QrDecision {
    var parts := Split(data, '|');
    if |parts| != 2 || parts[0] == "" || parts[1] == "" then QrFormatError
    else
      match ParseInt(parts[1])
      case Int(t) => if now - t > QR_WINDOW_MS then QrExpired else QrInsert(ParseInt(parts[0]))
      case NaN => QrInsert(ParseInt(parts[0]))
  }

  /** Exactly one '|' with text on both sides. */
  ghost predicate WellFormedQr(data: string) {
    exists i :: 0 < i < |data| - 1 && data[i] == '|' && '|' !in data[..i] && '|' !in data[i + 1..]
  }

  /** The format check rejects exactly the payloads without one inner '|'. */
  lemma QrFormatErrorIffMalformed(data: string, now: int)
    ensures CheckQrPayload(data, now) == QrFormatError <==> !WellFormedQr(data)
  {
    var parts := Split(data, '|');
    if |parts| == 2 && parts[0] != "" && parts[1] != "" {
      JoinSplit(data, '|');
      assert data == parts[0] + "|" + parts[1];
      var i := |parts[0]|;
      assert data[..i] == parts[0] && data[i + 1..] == parts[1];
      assert data[i] == '|';
    }
    if WellFormedQr(data) {
      var i :| 0 < i < |data| - 1 && data[i] == '|' && '|' !in data[..i] && '|' !in data[i + 1..];
      assert data == Join([data[..i], data[i + 1..]], '|');
      SplitJoin([data[..i], data[i + 1..]], '|');
    }
  }

  lemma NoBarInIntToString(n: int)
    ensures '|' !in IntToString(n)
  {
    var s := IntToString(n);
    var d := if n < 0 then NatToDecimal(-n) else NatToDecimal(n);
    assert forall k :: 0 <= k < |d| ==> IsDigit(d[k]);
    if n < 0 {
      assert s == "-" + d;
      assert forall k :: 1 <= k < |s| ==> s[k] == d[k - 1];
    }
  }

  /** The parts of `a|b` when neither holds a '|'. */
  lemma SplitTwo(a: string, b: string)
    requires '|' !in a && '|' !in b
    ensures Split(a + "|" + b, '|') == [a, b]
  {
    assert Join([a, b], '|') == a + "|" + b;
    SplitJoin([a, b], '|');
  }

  /**
   * A payload `id|t` with a decimal timestamp expires exactly when it is more
   * than 20000 ms old; a future timestamp (negative age) is accepted.
   */
  lemma QrFreshness(sessionText: string, t: int, now: int)
    requires sessionText != "" && '|' !in sessionText
    ensures CheckQrPayload(sessionText + "|" + IntToString(t), now)
            == if now - t > QR_WINDOW_MS then QrExpired else QrInsert(ParseInt(sessionText))
  {
    NoBarInIntToString(t);
    SplitTwo(sessionText, IntToString(t));
    ParseIntOfIntToString(t);
  }

  /** The boundary: exactly 20000 ms old still proceeds to the insert; 20001 ms does not. */
  lemma QrWindowBoundary(sessionText: string, t: int)
    requires sessionText != "" && '|' !in sessionText
    ensures CheckQrPayload(sessionText + "|" + IntToString(t), t + 20000).QrInsert?
    ensures CheckQrPayload(sessionText + "|" + IntToString(t), t + 20001) == QrExpired
    ensures CheckQrPayload(sessionText + "|" + IntToString(t), t - 1).QrInsert?
  {
    QrFreshness(sessionText, t, t + 20000);
    QrFreshness(sessionText, t, t + 20001);
    QrFreshness(sessionText, t, t - 1);
  }

  /** A timestamp that `parseInt` reads as NaN is never expired, whatever the clock says. */
  lemma QrNaNTimestampNeverExpires(sessionText: string, stamp: string, now: int)
    requires sessionText != "" && '|' !in sessionText
    requires stamp != "" && '|' !in stamp && ParseInt(stamp) == NaN
    ensures CheckQrPayload(sessionText + "|" + stamp, now) == QrInsert(ParseInt(sessionText))
  {
    SplitTwo(sessionText, stamp);
  }

  /** A payload without a '|' is a format error. */
  lemma QrWithoutDelimiter(data: string, now: int)
    requires '|' !in data
    ensures CheckQrPayload(data, now) == QrFormatError
  {
    assert Split(data, '|') == [data];
  }

  /** Three parts, as in "a|b|c", are a format error. */
  lemma QrThreeParts(a: string, b: string, c: string, now: int)
    requires '|' !in a && '|' !in b && '|' !in c
    ensures CheckQrPayload(a + "|" + b + "|" + c, now) == QrFormatError
  {
    assert [a, b, c][1..] == [b, c] && [b, c][1..] == [c];
    assert Join([b, c], '|') == b + "|" + c;
    assert Join([a, b, c], '|') == a + "|" + b + "|" + c;
    SplitJoin([a, b, c], '|');
  }

  /** An empty session id or an empty timestamp, as in "|123" or "7|", is a format error. */
  lemma QrEmptyPart(text: string, now: int)
    requires '|' !in text
    ensures CheckQrPayload("|" + text, now) == QrFormatError
    ensures CheckQrPayload(text + "|", now) == QrFormatError
  {
    SplitTwo("", text);
    assert "" + "|" + text == "|" + text;
    SplitTwo(text, "");
    assert text + "|" + "" == text + "|";
  }

  // ---------------------------------------------------------------------
  // Manual path

  /** A row of the active-sessions lookup: id, live code and the class's roll range. */
  datatype LiveSession = LiveSession(id: int, currentManualCode: Option<string>, startRollNo: int, endRollNo: int)

  /** What `handleManualCodeSubmit` decides before any insert. */
  datatype ManualDecision = ManualBadSyntax | ManualNoActiveSession | ManualNoMatch | ManualInsert(sessionId: int)

  /** `code.length !== 6 || isNaN(code)` fails, on the trimmed input. */
  predicate ManualCodeSyntaxOk(code: string) {
    |code| == 6 && !IsNaNString(code)
  }

  /** `parseInt(loggedInRollNo)`; a missing roll is `null`, which parses as NaN. */
  function RollNumber(loggedInRollNo: Option<string>): JsInt {
    match loggedInRollNo
    case None => NaN
    case Some(r) => ParseInt(r)
  }

  /** The `find` predicate: roll inside the inclusive range and the live code equal to the input. */
  predicate Eligible(s: LiveSession, roll: JsInt, code: string) {
    roll.Int? && s.startRollNo <= roll.value && roll.value <= s.endRollNo
    && s.currentManualCode == Some(code)
  }

  /** `sessions.find(...)`, as the index of the first eligible session. */
  function FirstEligible(sessions: seq<LiveSession>, roll: JsInt, code: string): (r: Option<nat>)
    ensures r.Some? ==> r.value < |sessions| && Eligible(sessions[r.value], roll, code)
    ensures r.Some? ==> forall j :: 0 <= j < r.value ==> !Eligible(sessions[j], roll, code)
    ensures r.None? <==> forall j :: 0 <= j < |sessions| ==> !Eligible(sessions[j], roll, code)
  {
    if sessions == [] then None
    else if Eligible(sessions[0], roll, code) then Some(0)
    else match FirstEligible(sessions[1..], roll, code)
      case None => None
      case Some(i) => Some(i + 1)
  }

  /** The first eligible session is at i when it is eligible and none before it is. */
  lemma FirstEligibleAt(sessions: seq<LiveSession>, roll: JsInt, code: string, i: nat)
    requires i < |sessions| && Eligible(sessions[i], roll, code)
    requires forall j :: 0 <= j < i ==> !Eligible(sessions[j], roll, code)
    ensures FirstEligible(sessions, roll, code) == Some(i)
  {
    var f := FirstEligible(sessions, roll, code);
    assert f.Some?;
    assert !(f.value < i) && !(i < f.value);
  }

  /**
   * After the syntax check: a failed or empty lookup finds no session;
   * otherwise the first session whose range holds the roll and whose live
   * code is the typed code is the one marked.
   */
  function SessionMatch(code: string, loggedInRollNo: Option<string>,
                        lookup: Option<seq<LiveSession>>): (d: ManualDecision)
    ensures d != ManualBadSyntax
    ensures d == ManualNoActiveSession <==> lookup.None? || lookup.value == []
    ensures d == ManualNoMatch <==>
              (lookup.Some? && lookup.value != [] &&
               forall j :: 0 <= j < |lookup.value| ==> !Eligible(lookup.value[j], RollNumber(loggedInRollNo), code))
    ensures d.ManualInsert? ==>
              (lookup.Some? &&
               exists i :: 0 <= i < |lookup.value| && lookup.value[i].id == d.sessionId
                 && Eligible(lookup.value[i], RollNumber(loggedInRollNo), code)
                 && forall j :: 0 <= j < i ==> !Eligible(lookup.value[j], RollNumber(loggedInRollNo), code))
  {
    if lookup.None? || |lookup.value| == 0 then ManualNoActiveSession
    else
      match FirstEligible(lookup.value, RollNumber(loggedInRollNo), code)
      case None => ManualNoMatch
      case Some(i) => ManualInsert(lookup.value[i].id)
  }

  /** Syntax first, on the trimmed input and with no lookup; then the session match. */
  function CheckManualCode(input: string, loggedInRollNo: Option<string>,
                           lookup: Option<seq<LiveSession>>): (d: ManualDecision)
    ensures d == ManualBadSyntax <==> !ManualCodeSyntaxOk(Trim(input))
  {
    var code := Trim(input);
    if !ManualCodeSyntaxOk(code) then ManualBadSyntax
    else SessionMatch(code, loggedInRollNo, lookup)
  }

  /**
   * The roll range is inclusive at both ends: with one live session holding
   * the typed code, a logged-in roll r is accepted exactly when
   * start <= r <= end.
   */
  lemma RosterRangeInclusive(code: string, r: int, s: LiveSession)
    requires s.currentManualCode == Some(code)
    ensures SessionMatch(code, Some(IntToString(r)), Some([s]))
            == if s.startRollNo <= r <= s.endRollNo then ManualInsert(s.id) else ManualNoMatch
  {
    hide ParseInt;
    ParseIntOfIntToString(r);
    assert RollNumber(Some(IntToString(r))) == Int(r);
    assert [s][1..] == [];
  }

  /** With a class of rolls 100..150: 99 and 151 are refused, 100 and 150 accepted. */
  lemma RosterRangeExample(code: string, s: LiveSession)
    requires s.currentManualCode == Some(code) && s.startRollNo == 100 && s.endRollNo == 150
    ensures SessionMatch(code, Some(IntToString(99)), Some([s])) == ManualNoMatch
    ensures SessionMatch(code, Some(IntToString(151)), Some([s])) == ManualNoMatch
    ensures SessionMatch(code, Some(IntToString(100)), Some([s])) == ManualInsert(s.id)
    ensures SessionMatch(code, Some(IntToString(150)), Some([s])) == ManualInsert(s.id)
  {
    RosterRangeInclusive(code, 99, s);
    RosterRangeInclusive(code, 151, s);
    RosterRangeInclusive(code, 100, s);
    RosterRangeInclusive(code, 150, s);
  }

  /** Six digits always pass the local check. */
  lemma SixDigitsPassSyntax(code: string)
    requires |code| == 6 && AllDigits(code)
    ensures ManualCodeSyntaxOk(code)
  {
    DigitsAreNumeric(code);
  }

  /** The first 'e' or 'E' of `a + "e" + b`, for digit strings a and b, follows a. */
  lemma ExponentPosition(a: string, b: string)
    requires AllDigits(a) && AllDigits(b)
    ensures FirstIndexOf(a + "e" + b, 'e', 'E') == |a|
    ensures (a + "e" + b)[..|a|] == a && (a + "e" + b)[|a| + 1..] == b
  {
    var s := a + "e" + b;
    assert s[|a|] == 'e';
    assert forall j :: 0 <= j < |a| ==> IsDigit(s[j]);
  }

  /**
   * `isNaN` is not "all digits": digits, an 'e' and more digits are a
   * number. So "1e0000" passes the six-character check.
   */
  lemma ExponentFormIsNumeric(a: string, b: string)
    requires |a| > 0 && AllDigits(a) && |b| > 0 && AllDigits(b)
    ensures !IsNaNString(a + "e" + b)
  {
    var s := a + "e" + b;
    assert s[0] == a[0] && s[|s| - 1] == b[|b| - 1];
    DigitIsNotWhitespace(a[0]);
    DigitIsNotWhitespace(b[|b| - 1]);
    TrimOfSolidEnds(s);
    IsNaNOfTrimmed(s);
    ExponentPosition(a, b);
    FirstIndexOfAbsent(a, '.', '.');
    assert IsDecimalMantissa(a);
    assert IsSignedInteger(b) by { assert IsDigit(b[0]); }
    assert IsStrUnsignedDecimalLiteral(s);
    assert IsStrDecimalLiteral(s) by { assert IsDigit(s[0]); }
  }

  /** A minus sign before digits is a number too: "-12345" passes the six-character check. */
  lemma NegativeFormIsNumeric(d: string)
    requires |d| > 0 && AllDigits(d)
    ensures !IsNaNString("-" + d)
  {
    var s := "-" + d;
    assert s[|s| - 1] == d[|d| - 1];
    DigitIsNotWhitespace(d[|d| - 1]);
    TrimOfSolidEnds(s);
    IsNaNOfTrimmed(s);
    assert s[1..] == d;
    DigitsAreDecimalLiteral(d);
    assert IsDigit(d[0]);
  }

  /** "1e0000" passes the local check though it is not a digit string. */
  lemma ExponentCodePassesSyntax()
    ensures ManualCodeSyntaxOk("1e0000")
  {
    hide IsNaNString;
    ExponentFormIsNumeric("1", "0000");
    assert "1" + "e" + "0000" == "1e0000";
  }

  /** "-12345" passes the local check though it is not a digit string. */
  lemma NegativeCodePassesSyntax()
    ensures ManualCodeSyntaxOk("-12345")
  {
    hide IsNaNString;
    var d := "12345";
    NegativeFormIsNumeric(d);
    assert "-" + d == "-12345";
  }

  /** Digits, one 'a', digits: every character is a digit except the 'a'. */
  lemma LetterAmongDigits(a: string, b: string)
    requires AllDigits(a) && AllDigits(b)
    ensures var s := a + "a" + b;
            s[|a|] == 'a' && forall k :: 0 <= k < |s| && k != |a| ==> IsDigit(s[k])
  {
    var s := a + "a" + b;
    forall k | 0 <= k < |s| && k != |a|
      ensures IsDigit(s[k])
    {
      if k < |a| {
        assert s[k] == a[k];
      } else {
        assert s[k] == b[k - |a| - 1];
      }
    }
  }

  /** A letter among digits is refused locally. */
  lemma LetterFailsSyntax(a: string, b: string)
    requires |a| > 0 && AllDigits(a) && |b| > 0 && AllDigits(b)
    ensures IsNaNString(a + "a" + b)
  {
    var s := a + "a" + b;
    LetterAmongDigits(a, b);
    DigitIsNotWhitespace(s[0]);
    DigitIsNotWhitespace(s[|s| - 1]);
    TrimOfSolidEnds(s);
    IsNaNOfTrimmed(s);
    FirstIndexOfAbsent(s, 'e', 'E');
    FirstIndexOfAbsent(s, '.', '.');
    assert !IsStrDecimalLiteral(s) by {
      assert !IsStrUnsignedDecimalLiteral(s) by {
        assert s != "Infinity";
        assert !AllDigits(s);
      }
    }
    assert !IsNonDecimalIntegerLiteral(s) by {
      assert s[1] == 'a' || IsDigit(s[1]);
    }
  }

  // ---------------------------------------------------------------------
  // Insert outcome

  /** How `markAttendance` reads the insert's error. */
  datatype InsertOutcome = Inserted | AlreadyMarked | DeviceReused | InsertFailed

  /** No error is success; the roll constraint is checked before the device constraint. */
  function ClassifyInsert(error: Option<string>): InsertOutcome {
    match error
    case None => Inserted
    case Some(message) =>
      if Includes(message, ROLL_KEY) then AlreadyMarked
      else if Includes(message, DEVICE_KEY) then DeviceReused
      else InsertFailed
  }

  /** A store message naming a constraint is classified by that constraint, the roll one first. */
  lemma ClassifyConstraintMessages(prefix: string, suffix: string)
    ensures ClassifyInsert(Some(prefix + ROLL_KEY + suffix)) == AlreadyMarked
    ensures !Includes(prefix + DEVICE_KEY + suffix, ROLL_KEY)
            ==> ClassifyInsert(Some(prefix + DEVICE_KEY + suffix)) == DeviceReused
    ensures ClassifyInsert(Some(prefix + ROLL_KEY + DEVICE_KEY + suffix)) == AlreadyMarked
  {
    IncludesInfix(prefix, ROLL_KEY, suffix);
    IncludesInfix(prefix, DEVICE_KEY, suffix);
    assert prefix + ROLL_KEY + DEVICE_KEY + suffix == prefix + ROLL_KEY + (DEVICE_KEY + suffix);
    IncludesInfix(prefix, ROLL_KEY, DEVICE_KEY + suffix);
  }

  /** The tone of a result message: the `type` argument of `showResult`. */
  datatype Tone = Success | Error

  /** The `method` argument of `markAttendance` and `showResult`. */
  datatype EntryMethod = QrScan | ManualEntry

  /** `${loggedInRollNo}` in a template: a missing roll prints as "null". */
  function RollText(loggedInRollNo: Option<string>): string {
    match loggedInRollNo
    case None => "null"
    case Some(r) => r
  }

  /** The message and tone `markAttendance` shows for an outcome. */
  function OutcomeMessage(outcome: InsertOutcome, rollText: string): (m: (string, Tone))
    ensures m.1 == Success <==> outcome == Inserted || outcome == AlreadyMarked
  {
    match outcome
    case Inserted => ("Success, Roll No: " + rollText + "! You are marked present.", Success)
    case AlreadyMarked => ("You are already marked present, Roll No: " + rollText + ".", Success)
    case DeviceReused => ("This device has already been used for this session. Attempt flagged.", Error)
    case InsertFailed =>
      ("An error occurred. The session may be inactive or your roll number is invalid for this class.", Error)
  }

  /** `type === 'success' ? 'result-success' : 'result-error'`: the class `showResult` sets. */
  function ToneClass(tone: Tone): string {
    if tone == Success then "result-success" else "result-error"
  }

  /**
   * The message and tone the dashboard shows once `handleQrCodeData` is
   * done: a format or freshness refusal, or the insert's outcome for the
   * logged-in roll.
   */
  function QrResult(check: QrDecision, insertError: Option<string>, roll: Option<string>): (r: (string, Tone))
    ensures r.1 == Success <==>
              check.QrInsert? && ClassifyInsert(insertError) in {Inserted, AlreadyMarked}
    ensures !check.QrInsert? ==> r.0 != OutcomeMessage(ClassifyInsert(insertError), RollText(roll)).0
  {
    match check
    case QrFormatError => ("Invalid QR code format.", Error)
    case QrExpired => ("Expired QR code. Please scan the new one.", Error)
    case QrInsert(_) => OutcomeMessage(ClassifyInsert(insertError), RollText(roll))
  }

  // ---------------------------------------------------------------------
  // Login

  /** `rollNo && !isNaN(rollNo)` on the trimmed input. */
  predicate AcceptsRoll(input: string) {
    var rollNo := Trim(input);
    rollNo != "" && !IsNaNString(rollNo)
  }

  /** A decimal roll logs in, and the inserts carry that very roll number. */
  lemma DecimalRollLogsIn(r: nat)
    ensures AcceptsRoll(NatToDecimal(r))
    ensures RollNumber(Some(Trim(NatToDecimal(r)))) == Int(r)
  {
    var s := NatToDecimal(r);
    TrimOfDigits(s);
    DigitsAreNumeric(s);
    ParseIntOfIntToString(r);
    assert IntToString(r) == s;
  }

  /** Blank input is refused. */
  lemma BlankRollRefused(input: string)
    requires forall k :: 0 <= k < |input| ==> IsJsWhitespace(input[k])
    ensures !AcceptsRoll(input)
  {
    assert TrimStart(input) == [];
  }

  /** `parseInt` stops at the first non-digit, so the digits before it are the value. */
  lemma {:induction false} DigitPrefixStops(a: string, rest: string)
    requires AllDigits(a) && (rest == [] || !IsDigit(rest[0]))
    ensures DigitPrefix(a + rest) == a
  {
    if a != [] {
      assert (a + rest)[1..] == a[1..] + rest;
      DigitPrefixStops(a[1..], rest);
    }
  }

  /** `parseInt` of a text starting with a digit and no "0x" reads its leading digits. */
  lemma ParseIntOfDigitStart(s: string)
    requires |s| > 0 && IsDigit(s[0]) && !(|s| >= 2 && s[0] == '0' && (s[1] == 'x' || s[1] == 'X'))
    ensures ParseInt(s) == Int(DecimalValue(DigitPrefix(s)))
  {
    ParseIntUnsigned(s);
    UnsignedDecimal(s);
  }

  /** `parseInt` of digits, an 'e' and digits is the value of the digits before the 'e'. */
  lemma ParseIntOfExponentForm(a: string, b: string)
    requires |a| > 0 && AllDigits(a) && AllDigits(b)
    ensures ParseInt(a + "e" + b) == Int(DecimalValue(a))
  {
    var rest := "e" + b;
    var s := a + rest;
    assert a + "e" + b == s;
    DigitPrefixStops(a, rest);
    assert s[0] == a[0] && IsDigit(a[0]);
    assert !(s[1] == 'x' || s[1] == 'X') by {
      assert |a| == 1 ==> s[1] == 'e';
      assert |a| > 1 ==> IsDigit(s[1]);
    }
    ParseIntOfDigitStart(s);
  }

  /**
   * `!isNaN` accepts an exponent form such as "1e3", but the inserts then
   * carry `parseInt` of it, the digits before the 'e' (roll number 1).
   */
  lemma ExponentRollLogsInAsMantissa(a: string, b: string)
    requires |a| > 0 && AllDigits(a) && |b| > 0 && AllDigits(b)
    ensures AcceptsRoll(a + "e" + b)
    ensures RollNumber(Some(Trim(a + "e" + b))) == Int(DecimalValue(a))
  {
    hide IsNaNString, ParseInt, Trim;
    var s := a + "e" + b;
    ExponentFormIsNumeric(a, b);
    assert s[0] == a[0] && s[|s| - 1] == b[|b| - 1];
    DigitIsNotWhitespace(a[0]);
    DigitIsNotWhitespace(b[|b| - 1]);
    TrimOfSolidEnds(s);
    ParseIntOfExponentForm(a, b);
  }

  // ---------------------------------------------------------------------
  // The page

  /** The four views of the page; `showView` displays exactly one. */
  datatype View = LoginView | DashboardView | ScannerView | ManualCodeView

  /** One call this page makes to the backing store. */
  datatype StoreRequest =
    | ActiveSessionLookup
    | AttendanceInsert(sessionId: JsInt, rollNo: JsInt, deviceFingerprint: string)

  class StudentPage {
    /** Computed once at page load (see the Fingerprint module). */
    const deviceFingerprint: string
    var loggedInRollNo: Option<string>
    /** sessionStorage 'loggedInStudentRoll'. */
    var storedRoll: Option<string>
    /** sessionStorage 'pendingScanData': a payload that arrived before login. */
    var pendingScanData: Option<string>
    var view: View
    var attendanceResultText: string
    var attendanceResultClass: string
    var manualCodeResultText: string
    var manualCodeResultClass: string
    var loginErrorText: string
    /** Every call made to the store, in order. */
    var requests: seq<StoreRequest>

    ghost predicate Valid()
      reads this
    {
      storedRoll == loggedInRollNo
    }

    /**
     * Page load: a scan link stores its (already decoded) payload as pending;
     * a stored roll logs the student straight in.
     */
    constructor (fingerprint: string, stored: Option<string>, storedPending: Option<string>,
                 scanParam: Option<string>)
      ensures Valid()
      ensures deviceFingerprint == fingerprint && loggedInRollNo == stored
      ensures pendingScanData == (if scanParam.Some? && scanParam.value != "" then scanParam else storedPending)
      ensures view == (if stored.Some? && stored.value != "" then DashboardView else LoginView)
      ensures requests == []
    {
      deviceFingerprint := fingerprint;
      pendingScanData := if scanParam.Some? && scanParam.value != "" then scanParam else storedPending;
      loggedInRollNo := stored;
      storedRoll := stored;
      view := if stored.Some? && stored.value != "" then DashboardView else LoginView;
      attendanceResultText, attendanceResultClass := "", "";
      manualCodeResultText, manualCodeResultClass := "", "";
      loginErrorText := "";
      requests := [];
    }

    /** QR results go to the dashboard's element and show the dashboard; others to the manual-code element. */
    method ShowResult(message: string, tone: Tone, entry: EntryMethod)
      modifies this
      ensures entry == QrScan ==>
                view == DashboardView && attendanceResultText == message
                && attendanceResultClass == ToneClass(tone)
                && manualCodeResultText == old(manualCodeResultText)
                && manualCodeResultClass == old(manualCodeResultClass)
      ensures entry == ManualEntry ==>
                view == old(view) && manualCodeResultText == message
                && manualCodeResultClass == ToneClass(tone)
                && attendanceResultText == old(attendanceResultText)
                && attendanceResultClass == old(attendanceResultClass)
      ensures requests == old(requests) && loggedInRollNo == old(loggedInRollNo)
      ensures storedRoll == old(storedRoll) && pendingScanData == old(pendingScanData)
      ensures loginErrorText == old(loginErrorText)
    {
      var cls := ToneClass(tone);
      if entry == QrScan {
        view := DashboardView;
        attendanceResultText := message;
        attendanceResultClass := cls;
      } else {
        manualCodeResultText := message;
        manualCodeResultClass := cls;
      }
    }

    /** `markAttendance`: exactly one insert, then the message for its outcome. */
    method MarkAttendance(sessionId: JsInt, entry: EntryMethod, insertError: Option<string>)
      modifies this
      ensures requests == old(requests)
                          + [AttendanceInsert(sessionId, RollNumber(loggedInRollNo), deviceFingerprint)]
      ensures var (message, tone) := OutcomeMessage(ClassifyInsert(insertError), RollText(loggedInRollNo));
              if entry == QrScan then
                attendanceResultText == message && attendanceResultClass == ToneClass(tone)
                && view == DashboardView
              else
                manualCodeResultText == message && manualCodeResultClass == ToneClass(tone)
                && view == old(view)
      ensures entry == QrScan ==>
                manualCodeResultText == old(manualCodeResultText)
                && manualCodeResultClass == old(manualCodeResultClass)
      ensures entry == ManualEntry ==>
                attendanceResultText == old(attendanceResultText)
                && attendanceResultClass == old(attendanceResultClass)
      ensures loggedInRollNo == old(loggedInRollNo) && storedRoll == old(storedRoll)
      ensures pendingScanData == old(pendingScanData) && loginErrorText == old(loginErrorText)
    {
      hide OutcomeMessage, ClassifyInsert, RollNumber, RollText, ToneClass;
      requests := requests + [AttendanceInsert(sessionId, RollNumber(loggedInRollNo), deviceFingerprint)];
      var (message, tone) := OutcomeMessage(ClassifyInsert(insertError), RollText(loggedInRollNo));
      ShowResult(message, tone, entry);
    }

    /**
     * `handleQrCodeData`: a format or freshness failure shows an error and
     * makes no call; otherwise one insert, whose outcome is shown.
     */
    method HandleQrCodeData(data: string, now: int, insertError: Option<string>)
      modifies this
      ensures match CheckQrPayload(data, now)
              case QrInsert(id) =>
                requests == old(requests) + [AttendanceInsert(id, RollNumber(loggedInRollNo), deviceFingerprint)]
              case _ => requests == old(requests)
      ensures var (message, tone) := QrResult(CheckQrPayload(data, now), insertError, loggedInRollNo);
              attendanceResultText == message && attendanceResultClass == ToneClass(tone)
      ensures view == DashboardView
      ensures manualCodeResultText == old(manualCodeResultText)
              && manualCodeResultClass == old(manualCodeResultClass)
      ensures loggedInRollNo == old(loggedInRollNo) && storedRoll == old(storedRoll)
      ensures pendingScanData == old(pendingScanData) && loginErrorText == old(loginErrorText)
    {
      var parts := Split(data, '|');
      if |parts| != 2 || parts[0] == "" || parts[1] == "" {
        ShowResult("Invalid QR code format.", Error, QrScan);
        return;
      }
      var timestamp := ParseInt(parts[1]);
      if timestamp.Int? && now - timestamp.value > QR_WINDOW_MS {
        ShowResult("Expired QR code. Please scan the new one.", Error, QrScan);
        return;
      }
      MarkAttendance(ParseInt(parts[0]), QrScan, insertError);
    }

    /**
     * `handleManualCodeSubmit`: a malformed code is refused without any call;
     * otherwise the lookup and the session match follow.
     */
    method HandleManualCodeSubmit(input: string, lookup: Option<seq<LiveSession>>, insertError: Option<string>)
      modifies this
      ensures !ManualCodeSyntaxOk(Trim(input)) ==>
                requests == old(requests) && manualCodeResultText == "Please enter a valid 6-digit code."
                && manualCodeResultClass == old(manualCodeResultClass)
      ensures ManualCodeSyntaxOk(Trim(input)) ==>
                SubmittedToSessions(Trim(input), old(requests), old(manualCodeResultClass), old(loggedInRollNo),
                                    lookup, insertError)
      ensures view == old(view) && attendanceResultText == old(attendanceResultText)
              && attendanceResultClass == old(attendanceResultClass)
      ensures loggedInRollNo == old(loggedInRollNo) && storedRoll == old(storedRoll)
      ensures pendingScanData == old(pendingScanData) && loginErrorText == old(loginErrorText)
    {
      hide *;
      var code := Trim(input);
      if !ManualCodeSyntaxOk(code) {
        manualCodeResultText := "Please enter a valid 6-digit code.";
        return;
      }
      SubmitToSessions(code, lookup, insertError);
    }

    /**
     * The new requests and message after a well-formed code `code` was
     * submitted, in terms of the session match.
     */
    ghost predicate SubmittedToSessions(code: string, before: seq<StoreRequest>, classBefore: string,
                                        roll: Option<string>, lookup: Option<seq<LiveSession>>,
                                        insertError: Option<string>)
      reads this
    {
      match SessionMatch(code, roll, lookup)
      case ManualNoActiveSession =>
        requests == before + [ActiveSessionLookup]
        && manualCodeResultText == "No active attendance session found."
        && manualCodeResultClass == classBefore
      case ManualNoMatch =>
        requests == before + [ActiveSessionLookup]
        && manualCodeResultText == "Invalid code or no active session for your roll number."
        && manualCodeResultClass == classBefore
      case ManualInsert(id) =>
        var (message, tone) := OutcomeMessage(ClassifyInsert(insertError), RollText(roll));
        requests == before + [ActiveSessionLookup, AttendanceInsert(Int(id), RollNumber(roll), deviceFingerprint)]
        && manualCodeResultText == message && manualCodeResultClass == ToneClass(tone)
      case ManualBadSyntax => false
    }

    /** The part of `handleManualCodeSubmit` after the syntax check: one lookup, at most one insert. */
    method SubmitToSessions(code: string, lookup: Option<seq<LiveSession>>, insertError: Option<string>)
      modifies this
      ensures SubmittedToSessions(code, old(requests), old(manualCodeResultClass), old(loggedInRollNo),
                                  lookup, insertError)
      ensures view == old(view) && attendanceResultText == old(attendanceResultText)
              && attendanceResultClass == old(attendanceResultClass)
      ensures loggedInRollNo == old(loggedInRollNo) && storedRoll == old(storedRoll)
      ensures pendingScanData == old(pendingScanData) && loginErrorText == old(loginErrorText)
    {
      hide OutcomeMessage, ClassifyInsert, RollText, ToneClass, Eligible, FirstEligible, RollNumber;
      ghost var decision := SessionMatch(code, loggedInRollNo, lookup);
      manualCodeResultText := "";
      requests := requests + [ActiveSessionLookup];
      if lookup.None? || |lookup.value| == 0 {
        manualCodeResultText := "No active attendance session found.";
        return;
      }
      var activeSessions := lookup.value;
      var studentRollNumber := RollNumber(loggedInRollNo);
      var found := FirstEligible(activeSessions, studentRollNumber, code);
      if found.None? {
        manualCodeResultText := "Invalid code or no active session for your roll number.";
        return;
      }
      assert decision == ManualInsert(activeSessions[found.value].id);
      MarkAttendance(Int(activeSessions[found.value].id), ManualEntry, insertError);
    }

    /**
     * The login button: a trimmed, numeric roll logs in; a pending scan is
     * then removed and processed once, otherwise the dashboard is shown.
     */
    method Login(input: string, now: int, insertError: Option<string>)
      requires Valid()
      modifies this
      ensures Valid()
      ensures !AcceptsRoll(input) ==>
                loginErrorText == "Please enter a valid Roll Number." && requests == old(requests)
                && loggedInRollNo == old(loggedInRollNo) && pendingScanData == old(pendingScanData)
                && view == old(view)
                && attendanceResultText == old(attendanceResultText)
                && attendanceResultClass == old(attendanceResultClass)
      ensures AcceptsRoll(input) ==> loggedInRollNo == Some(Trim(input)) && loginErrorText == ""
      ensures AcceptsRoll(input) && old(pendingScanData).Some? && old(pendingScanData).value != "" ==>
                var check := CheckQrPayload(old(pendingScanData).value, now);
                var (message, tone) := QrResult(check, insertError, Some(Trim(input)));
                && pendingScanData == None && view == DashboardView
                && (match check
                    case QrInsert(id) =>
                      requests == old(requests) + [AttendanceInsert(id, RollNumber(Some(Trim(input))), deviceFingerprint)]
                    case _ => requests == old(requests))
                && attendanceResultText == message && attendanceResultClass == ToneClass(tone)
      ensures AcceptsRoll(input) && !(old(pendingScanData).Some? && old(pendingScanData).value != "") ==>
                pendingScanData == old(pendingScanData) && view == DashboardView && requests == old(requests)
                && attendanceResultText == old(attendanceResultText)
                && attendanceResultClass == old(attendanceResultClass)
      ensures manualCodeResultText == old(manualCodeResultText)
              && manualCodeResultClass == old(manualCodeResultClass)
    {
      hide Trim, IsNaNString, CheckQrPayload, RollNumber, QrResult, ToneClass;
      var rollNo := Trim(input);
      if rollNo != "" && !IsNaNString(rollNo) {
        loggedInRollNo := Some(rollNo);
        storedRoll := Some(rollNo);
        var pendingData := pendingScanData;
        if pendingData.Some? && pendingData.value != "" {
          pendingScanData := None;
          HandleQrCodeData(pendingData.value, now, insertError);
        } else {
          view := DashboardView;
        }
        loginErrorText := "";
      } else {
        loginErrorText := "Please enter a valid Roll Number.";
      }
    }

    /** Logout forgets the roll and shows the login view. */
    method Logout()
      modifies this
      ensures Valid()
      ensures loggedInRollNo == None && view == LoginView
      ensures requests == old(requests) && pendingScanData == old(pendingScanData)
      ensures attendanceResultText == old(attendanceResultText)
              && attendanceResultClass == old(attendanceResultClass)
      ensures manualCodeResultText == old(manualCodeResultText)
              && manualCodeResultClass == old(manualCodeResultClass)
      ensures loginErrorText == old(loginErrorText)
    {
      loggedInRollNo := None;
      storedRoll := None;
      view := LoginView;
    }

    /** A QR code was decoded from the camera: the scanner stops, then the payload is handled. */
    method OnQrDecoded(data: string, now: int, insertError: Option<string>)
      requires Valid()
      modifies this
      ensures Valid()
      ensures view == DashboardView
      ensures match CheckQrPayload(data, now)
              case QrInsert(id) =>
                requests == old(requests) + [AttendanceInsert(id, RollNumber(loggedInRollNo), deviceFingerprint)]
              case _ => requests == old(requests)
      ensures var (message, tone) := QrResult(CheckQrPayload(data, now), insertError, loggedInRollNo);
              attendanceResultText == message && attendanceResultClass == ToneClass(tone)
      ensures manualCodeResultText == old(manualCodeResultText)
              && manualCodeResultClass == old(manualCodeResultClass)
      ensures loggedInRollNo == old(loggedInRollNo) && pendingScanData == old(pendingScanData)
      ensures storedRoll == old(storedRoll) && loginErrorText == old(loginErrorText)
    {
      view := DashboardView;
      HandleQrCodeData(data, now, insertError);
    }
  }
}
