/**
 * The credential protocol end to end: what the issuer publishes in one
 * cycle (a QR payload and a manual code, both from the same timestamp) and
 * what the validator decides when a student presents it.
 */
module Protocol {
  import opened JsText
  import opened Issuer
  import opened Validator

  /**
   * A QR payload is accepted for its own session exactly while it is at
   * most 20 seconds old; after that it is refused as expired.
   */
  lemma QrRoundTrip(sessionId: int, t: nat, now: int)
    ensures CheckQrPayload(QrPayload(sessionId, t), now)
            == if now - t > QR_WINDOW_MS then QrExpired else QrInsert(Int(sessionId))
  {
    var idText := IntToString(sessionId);
    NoBarInIntToString(sessionId);
    assert NatToDecimal(t) == IntToString(t);
    QrFreshness(idText, t, now);
    ParseIntOfIntToString(sessionId);
  }

  /** A payload scanned within the window attempts the session that issued it. */
  lemma QrScannedInTime(sessionId: int, t: nat, now: int)
    requires t <= now <= t + QR_WINDOW_MS
    ensures CheckQrPayload(QrPayload(sessionId, t), now) == QrInsert(Int(sessionId))
  {
    QrRoundTrip(sessionId, t, now);
  }

  /** The manual code is its own trim. */
  lemma ManualCodeIsTrimmed(t: nat)
    ensures Trim(ManualCode(t)) == ManualCode(t)
  {
    ManualCodeDigits(t);
    var digits := NatToDecimal(t);
    assert |ManualCode(t)| >= 1 by {
      if t >= 100000 {
        assert ManualCode(t) == digits[|digits| - 6..];
      }
    }
    TrimOfDigits(ManualCode(t));
  }

  /**
   * The issuer's manual code passes the student page's local check exactly
   * when the timestamp has at least six digits; then only the session match
   * decides.
   */
  lemma ManualCodePassesSyntaxIff(t: nat, roll: Option<string>, lookup: Option<seq<LiveSession>>)
    ensures CheckManualCode(ManualCode(t), roll, lookup)
            == if t >= 100000 then SessionMatch(ManualCode(t), roll, lookup) else ManualBadSyntax
  {
    ManualCodeDigits(t);
    ManualCodeIsTrimmed(t);
    if t >= 100000 {
      SixDigitsPassSyntax(ManualCode(t));
    }
  }

  /** Two digit strings of the same length with the same value are equal. */
  lemma {:induction false} DecimalValueInjective(a: string, b: string)
    requires AllDigits(a) && AllDigits(b) && |a| == |b|
    requires DecimalValue(a) == DecimalValue(b)
    ensures a == b
  {
    if a != [] {
      var n := |a|;
      var x := DecimalValue(a);
      ModUnique(x, DecimalValue(a[..n - 1]), 10, DigitValue(a[n - 1]));
      ModUnique(x, DecimalValue(b[..n - 1]), 10, DigitValue(b[n - 1]));
      DecimalValueInjective(a[..n - 1], b[..n - 1]);
      assert a == a[..n - 1] + [a[n - 1]];
      assert b == b[..n - 1] + [b[n - 1]];
    }
  }

  /**
   * Once timestamps have six digits, two cycles publish the same manual code
   * exactly when their timestamps agree modulo 1000000 ms: codes repeat
   * every 1000 seconds and never sooner.
   */
  lemma ManualCodesCollideIff(t1: nat, t2: nat)
    requires t1 >= 100000 && t2 >= 100000
    ensures ManualCode(t1) == ManualCode(t2) <==> t1 % 1000000 == t2 % 1000000
  {
    ManualCodeDigits(t1);
    ManualCodeDigits(t2);
    if t1 % 1000000 == t2 % 1000000 {
      DecimalValueInjective(ManualCode(t1), ManualCode(t2));
    }
  }

  /**
   * A student in the roll range of active session i who types its live code
   * is sent to the insert for session i, provided no earlier session of the
   * lookup covers the roll with the same code: `find` takes the first such
   * session, so an earlier one holding the same six digits would win.
   */
  lemma LiveCodeAccepted(t: nat, sessions: seq<LiveSession>, i: nat, r: int)
    requires t >= 100000 && i < |sessions|
    requires sessions[i].currentManualCode == Some(ManualCode(t))
    requires sessions[i].startRollNo <= r <= sessions[i].endRollNo
    requires forall j :: 0 <= j < i ==>
               !(sessions[j].currentManualCode == Some(ManualCode(t))
                 && sessions[j].startRollNo <= r <= sessions[j].endRollNo)
    ensures CheckManualCode(ManualCode(t), Some(IntToString(r)), Some(sessions)) == ManualInsert(sessions[i].id)
  {
    hide ParseInt;
    ManualCodePassesSyntaxIff(t, Some(IntToString(r)), Some(sessions));
    ParseIntOfIntToString(r);
    assert RollNumber(Some(IntToString(r))) == Int(r);
    FirstEligibleAt(sessions, Int(r), ManualCode(t), i);
  }

  /**
   * A code from an earlier cycle is refused once every active session has
   * moved on to a code from a timestamp that differs from it modulo
   * 1000000 ms. (A session still showing a colliding code would accept it.)
   */
  lemma StaleCodeRefused(tOld: nat, sessions: seq<LiveSession>, liveTimes: seq<nat>, r: int)
    requires tOld >= 100000 && sessions != [] && |liveTimes| == |sessions|
    requires forall j :: 0 <= j < |sessions| ==>
               liveTimes[j] >= 100000 && liveTimes[j] % 1000000 != tOld % 1000000
               && sessions[j].currentManualCode == Some(ManualCode(liveTimes[j]))
    ensures CheckManualCode(ManualCode(tOld), Some(IntToString(r)), Some(sessions)) == ManualNoMatch
  {
    ManualCodePassesSyntaxIff(tOld, Some(IntToString(r)), Some(sessions));
    forall j | 0 <= j < |sessions|
      ensures !Eligible(sessions[j], RollNumber(Some(IntToString(r))), ManualCode(tOld))
    {
      ManualCodesCollideIff(tOld, liveTimes[j]);
    }
  }
}
