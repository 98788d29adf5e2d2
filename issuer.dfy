/**
 * The faculty's live-session page: every refresh interval it takes one
 * millisecond timestamp, publishes the manual code derived from it to the
 * session row, and shows the manual code and the QR payload. It also keeps
 * a live count of the students marked present.
 */
module Issuer {
  import opened JsText

  const DEFAULT_REFRESH_INTERVAL: int := 15

  /** `parseInt(qrSpeed) || 15`: NaN and 0 are falsy, so both give 15. */
  function RefreshInterval(qrSpeed: string): (interval: int)
    ensures interval != 0
  {
    match ParseInt(qrSpeed)
    case NaN => DEFAULT_REFRESH_INTERVAL
    case Int(n) => if n == 0 then DEFAULT_REFRESH_INTERVAL else n
  }

  /** A number typed into the speed field is the interval, unless it is 0. */
  lemma RefreshIntervalOfNumber(n: int)
    ensures RefreshInterval(IntToString(n)) == if n == 0 then DEFAULT_REFRESH_INTERVAL else n
  {
    ParseIntOfIntToString(n);
  }

  /** An empty speed, or one that does not start like a number, falls back to the default. */
  lemma RefreshIntervalFallback(qrSpeed: string)
    requires qrSpeed == "" || (!IsDigit(qrSpeed[0]) && !IsJsWhitespace(qrSpeed[0])
                               && qrSpeed[0] != '+' && qrSpeed[0] != '-')
    ensures RefreshInterval(qrSpeed) == DEFAULT_REFRESH_INTERVAL
  {
    assert qrSpeed != "" ==> TrimStart(qrSpeed) == qrSpeed;
  }

  // ---------------------------------------------------------------------
  // One issuance cycle

  /** `timestamp.toString().slice(-6)`: the last six characters of the decimal timestamp. */
  function ManualCode(t: nat): string {
    var digits := NatToDecimal(t);
    Slice(digits, -6, |digits|)
  }

  /** `${sessionId}|${timestamp}`: the text encoded in the QR code. */
  function QrPayload(sessionId: int, t: nat): string {
    IntToString(sessionId) + "|" + NatToDecimal(t)
  }

  /**
   * From 100000 ms on, the manual code is six digits whose value is the
   * timestamp modulo one million; before that it is the whole, shorter
   * timestamp.
   */
  lemma ManualCodeDigits(t: nat)
    ensures AllDigits(ManualCode(t))
    ensures |ManualCode(t)| == 6 <==> t >= 100000
    ensures t >= 100000 ==> DecimalValue(ManualCode(t)) == t % 1000000
    ensures t < 100000 ==> ManualCode(t) == NatToDecimal(t)
  {
    var digits := NatToDecimal(t);
    DecimalLength(t, 5);
    assert Pow10(5) == 100000;
    if t >= 100000 {
      assert ManualCode(t) == digits[|digits| - 6..];
      SuffixValue(digits, 6);
      DecimalRoundTrip(t);
      assert Pow10(6) == 1000000;
    }
  }

  /** The manual code is the tail of the timestamp field of the same cycle's QR payload. */
  lemma CodeAndPayloadShareTimestamp(sessionId: int, t: nat)
    ensures var payload := QrPayload(sessionId, t);
            var code := ManualCode(t);
            |code| <= |payload| && payload[|payload| - |code|..] == code
  {
    var digits := NatToDecimal(t);
    var payload := QrPayload(sessionId, t);
    assert payload[|payload| - |digits|..] == digits;
  }

  // ---------------------------------------------------------------------
  // The countdown timer

  /** One second of the interval callback: decrement, and at 0 or below reset and regenerate. */
  function TimerStep(countdown: int, interval: int): (int, bool) {
    var c := countdown - 1;
    if c <= 0 then (interval, true) else (c, false)
  }

  /** The countdown after `ticks` callbacks, starting from the interval. */
  function CountdownAfter(interval: int, ticks: nat): int {
    if ticks == 0 then interval else TimerStep(CountdownAfter(interval, ticks - 1), interval).0
  }

  /** How many regenerations `ticks` callbacks trigger. */
  function RegenerationsAfter(interval: int, ticks: nat): nat {
    if ticks == 0 then 0
    else RegenerationsAfter(interval, ticks - 1)
         + (if TimerStep(CountdownAfter(interval, ticks - 1), interval).1 then 1 else 0)
  }

  /** The number of ticks between regenerations: the interval, or 1 if it is not positive. */
  function Period(interval: int): (p: nat)
    ensures p >= 1
  {
    if interval >= 1 then interval else 1
  }

  /**
   * With interval N >= 1 the countdown after k ticks is N - k % N and codes
   * have been regenerated k / N times: exactly on every N-th tick. A
   * non-positive interval regenerates on every tick.
   */
  /** Dividing k + 1 by p: the remainder steps up by one, or wraps to 0 and the quotient steps up. */
  lemma SuccessorDivMod(k: nat, p: nat)
    requires p >= 1
    ensures k % p + 1 < p ==> (k + 1) / p == k / p && (k + 1) % p == k % p + 1
    ensures k % p + 1 >= p ==> (k + 1) / p == k / p + 1 && (k + 1) % p == 0
  {
    var q, r := k / p, k % p;
    assert k == q * p + r;
    if r + 1 < p {
      ModUnique(k + 1, q, p, r + 1);
    } else {
      assert k + 1 == (q + 1) * p;
      ModUnique(k + 1, q + 1, p, 0);
    }
  }

  /**
   * With interval N >= 1 the countdown after k ticks is N - k % N and codes
   * have been regenerated k / N times: exactly on every N-th tick. A
   * non-positive interval regenerates on every tick.
   */
  lemma {:induction false} TimerClosedForm(interval: int, ticks: nat)
    ensures RegenerationsAfter(interval, ticks) == ticks / Period(interval)
    ensures interval >= 1 ==> CountdownAfter(interval, ticks) == interval - ticks % interval
    ensures interval < 1 ==> CountdownAfter(interval, ticks) == interval
  {
    if ticks > 0 {
      var p, k := Period(interval), ticks - 1;
      TimerClosedForm(interval, k);
      SuccessorDivMod(k, p);
    }
  }

  /** The tick that regenerates is exactly every Period-th one. */
  lemma RegeneratesOnMultiples(interval: int, ticks: nat)
    requires ticks >= 1
    ensures TimerStep(CountdownAfter(interval, ticks - 1), interval).1
            <==> ticks % Period(interval) == 0
  {
    TimerClosedForm(interval, ticks - 1);
    SuccessorDivMod(ticks - 1, Period(interval));
  }

  // ---------------------------------------------------------------------
  // The page

  /** A write to `sessions.current_manual_code` for one session id. */
  datatype CodeUpdate = SetCode(sessionId: int, code: string) | ClearCode(sessionId: int)

  class SessionPage {
    const sessionId: int
    const refreshInterval: int
    /** Seconds shown until the next code. */
    var countdown: int
    /** Text of the manual-code element. */
    var manualCodeText: string
    /** The text encoded in the displayed QR code, once one was drawn. */
    var qrData: Option<string>
    /** Every update of the session's code this page has sent, in order. */
    var codeUpdates: seq<CodeUpdate>
    /** Text of the present-count element. */
    var presentCountText: string
    /** Roll numbers in the live list, top first. */
    var livePresentList: seq<int>
    var subscribed: bool
    var ended: bool
    /** Timer callbacks so far. */
    ghost var ticks: nat
    /** The timestamp of the last cycle whose update succeeded. */
    ghost var lastIssued: nat

    ghost predicate Valid()
      reads this
    {
      && countdown == CountdownAfter(refreshInterval, ticks)
      && (!ended ==> |codeUpdates| == 1 + RegenerationsAfter(refreshInterval, ticks))
      && (forall k :: 0 <= k < |codeUpdates| ==> codeUpdates[k].sessionId == sessionId)
      && (ended <==> |codeUpdates| > 0 && codeUpdates[|codeUpdates| - 1].ClearCode?)
      && (manualCodeText != "ERROR" ==>
            manualCodeText == ManualCode(lastIssued) && qrData == Some(QrPayload(sessionId, lastIssued)))
      && presentCountText == IntToString(|livePresentList|)
    }

    /**
     * Page start-up: read the interval, generate the first code pair, start
     * the timer. The present count shows 0 until the list is loaded.
     */
    constructor (id: int, qrSpeed: string, now: nat, updateOk: bool)
      ensures Valid()
      ensures sessionId == id && refreshInterval == RefreshInterval(qrSpeed)
      ensures countdown == refreshInterval && ticks == 0 && !ended && !subscribed
      ensures codeUpdates == [SetCode(id, ManualCode(now))]
      ensures updateOk ==> manualCodeText == ManualCode(now) && qrData == Some(QrPayload(id, now))
      ensures !updateOk ==> manualCodeText == "ERROR" && qrData == None
      ensures livePresentList == []
    {
      sessionId := id;
      refreshInterval := RefreshInterval(qrSpeed);
      countdown := RefreshInterval(qrSpeed);
      manualCodeText := "ERROR";
      qrData := None;
      codeUpdates := [];
      presentCountText := "0";
      livePresentList := [];
      subscribed := false;
      ended := false;
      ticks := 0;
      lastIssued := 0;
      new;
      GenerateAndDisplayCodes(now, updateOk);
    }

    /**
     * `generateAndDisplayCodes()`: one timestamp gives the code and the
     * payload; the code is written to the session row; if that write fails
     * the page shows "ERROR" and keeps the old QR code.
     */
    method GenerateAndDisplayCodes(now: nat, updateOk: bool)
      modifies this
      ensures codeUpdates == old(codeUpdates) + [SetCode(sessionId, ManualCode(now))]
      ensures updateOk ==> manualCodeText == ManualCode(now) && qrData == Some(QrPayload(sessionId, now))
                           && lastIssued == now
      ensures !updateOk ==> manualCodeText == "ERROR" && qrData == old(qrData)
                            && lastIssued == old(lastIssued)
      ensures countdown == old(countdown) && ticks == old(ticks) && ended == old(ended)
      ensures subscribed == old(subscribed)
      ensures presentCountText == old(presentCountText) && livePresentList == old(livePresentList)
    {
      hide *;
      var manualCode := ManualCode(now);
      codeUpdates := codeUpdates + [SetCode(sessionId, manualCode)];
      if !updateOk {
        manualCodeText := "ERROR";
        return;
      }
      manualCodeText := manualCode;
      qrData := Some(QrPayload(sessionId, now));
      lastIssued := now;
    }

    /** One call of the once-per-second interval callback. */
    method Tick(now: nat, updateOk: bool)
      requires Valid() && !ended
      modifies this
      ensures Valid() && !ended
      ensures ticks == old(ticks) + 1
      ensures var (c, regenerate) := TimerStep(old(countdown), refreshInterval);
              countdown == c &&
              codeUpdates == old(codeUpdates) + (if regenerate then [SetCode(sessionId, ManualCode(now))] else [])
      ensures var regenerate := TimerStep(old(countdown), refreshInterval).1;
              && (regenerate && updateOk ==>
                    manualCodeText == ManualCode(now) && qrData == Some(QrPayload(sessionId, now))
                    && lastIssued == now)
              && (regenerate && !updateOk ==>
                    manualCodeText == "ERROR" && qrData == old(qrData) && lastIssued == old(lastIssued))
              && (!regenerate ==>
                    manualCodeText == old(manualCodeText) && qrData == old(qrData) && lastIssued == old(lastIssued))
      ensures livePresentList == old(livePresentList) && subscribed == old(subscribed)
      ensures presentCountText == old(presentCountText)
    {
      hide ManualCode, QrPayload, IntToString, RefreshInterval;
      countdown := countdown - 1;
      if countdown <= 0 {
        countdown := refreshInterval;
        GenerateAndDisplayCodes(now, updateOk);
      }
      ticks := ticks + 1;
    }

    /** `updateLiveList(records)`: show the fetched rolls and their count. */
    method UpdateLiveList(rolls: seq<int>)
      requires Valid()
      modifies this
      ensures Valid()
      ensures livePresentList == rolls && presentCountText == IntToString(|rolls|)
      ensures codeUpdates == old(codeUpdates) && countdown == old(countdown) && ticks == old(ticks)
      ensures subscribed == old(subscribed) && ended == old(ended)
      ensures manualCodeText == old(manualCodeText) && qrData == old(qrData) && lastIssued == old(lastIssued)
    {
      livePresentList := rolls;
      presentCountText := IntToString(|rolls|);
    }

    /**
     * `listenForAttendance()`: fetch the records already present; on an
     * error stop there, otherwise show them and subscribe to new inserts.
     */
    method ListenForAttendance(initial: Option<seq<int>>)
      requires Valid()
      modifies this
      ensures Valid()
      ensures initial.None? ==> livePresentList == old(livePresentList) && subscribed == old(subscribed)
      ensures initial.None? ==> presentCountText == old(presentCountText)
      ensures initial.Some? ==> livePresentList == initial.value && subscribed
                                && presentCountText == IntToString(|initial.value|)
      ensures codeUpdates == old(codeUpdates) && countdown == old(countdown) && ticks == old(ticks)
      ensures ended == old(ended)
      ensures manualCodeText == old(manualCodeText) && qrData == old(qrData) && lastIssued == old(lastIssued)
    {
      if initial.None? {
        return;
      }
      UpdateLiveList(initial.value);
      subscribed := true;
    }

    /** `addRollToList(roll)`: a realtime insert prepends the roll and adds one to the count. */
    method AddRollToList(roll: int)
      requires Valid() && subscribed
      modifies this
      ensures Valid()
      ensures livePresentList == [roll] + old(livePresentList)
      ensures presentCountText == IntToString(|old(livePresentList)| + 1)
      ensures codeUpdates == old(codeUpdates) && countdown == old(countdown) && ticks == old(ticks)
      ensures subscribed && ended == old(ended)
      ensures manualCodeText == old(manualCodeText) && qrData == old(qrData) && lastIssued == old(lastIssued)
    {
      hide ParseInt, IntToString, ManualCode, QrPayload, CountdownAfter, RegenerationsAfter;
      ParseIntOfIntToString(|livePresentList|);
      var shown := ParseInt(presentCountText);
      assert shown == Int(|livePresentList|);
      livePresentList := [roll] + livePresentList;
      presentCountText := if shown.NaN? then "NaN" else IntToString(shown.value + 1);
    }

    /** Ending the session (once confirmed) clears the stored code and leaves the page. */
    method EndSession(confirmed: bool)
      requires Valid() && !ended
      modifies this
      ensures Valid()
      ensures confirmed ==> ended && !subscribed && codeUpdates == old(codeUpdates) + [ClearCode(sessionId)]
      ensures !confirmed ==> !ended && codeUpdates == old(codeUpdates) && subscribed == old(subscribed)
      ensures livePresentList == old(livePresentList) && presentCountText == old(presentCountText)
      ensures countdown == old(countdown) && ticks == old(ticks)
      ensures manualCodeText == old(manualCodeText) && qrData == old(qrData) && lastIssued == old(lastIssued)
    {
      if confirmed {
        subscribed := false;
        codeUpdates := codeUpdates + [ClearCode(sessionId)];
        ended := true;
      }
    }
  }
}
