/**
 * The temporal resolver `parse_reservation_time` (app/routes.py:160-232): reads a
 * reservation date-time and a party size out of an utterance, trying the `dateparser`
 * oracle, then the "N o'clock" pattern, then the explicit am/pm pattern, and rolling a
 * time that has already passed today forward by one day.
 */
module ReservationTime {
  import opened Wrappers
  import opened Faults
  import opened Text
  import opened Scan
  import opened Clock

  /** `{"datetime": ..., "party_size": ...}` as returned by the resolver. */
  datatype ReservationDetail = ReservationDetail(when: LocalDateTime, partySize: nat)

  /** The outcome of one way of reading a date-time: no match, a date-time, or a raising `replace`. */
  datatype Attempt = NoParse | Parsed(when: LocalDateTime) | OutOfRange

  /** What `(\d{1,2})(?::(\d{2}))?\s*(am|pm|a\.m\.|p\.m\.)` captures: hour, minute (0 when absent), whether pm. */
  datatype ClockReading = ClockReading(hour: nat, minute: nat, pm: bool)

  /**
   * Where `\d{1,2}` ends when it starts on a digit at `i`: two digits when there are two.
   * The engine's retry with one digit can never succeed then, because every pattern here
   * continues with a character that is not a digit.
   */
  function HourDigitsEnd(s: string, i: nat): (j: nat)
    requires i < |s|
    ensures i < j <= |s| && j <= i + 2
    ensures j == i + 2 <==> i + 1 < |s| && IsDigit(s[i + 1])
  {
    if i + 1 < |s| && IsDigit(s[i + 1]) then i + 2 else i + 1
  }

  /** `o\'?clock` at `k`, ignoring case. */
  predicate ClockWordAt(s: string, k: nat)
  {
    LowerHasAt(s, "o", k)
    && if k + 1 < |s| && s[k + 1] == '\'' then LowerHasAt(s, "clock", k + 2) else LowerHasAt(s, "clock", k + 1)
  }

  /** At most two digits make a number below 100. */
  lemma ShortNumber(d: string)
    requires |d| <= 2
    ensures DigitsValue(d) < 100
  {
    if |d| > 0 {
      assert DigitValue(d[|d| - 1]) < 10;
      if |d| == 2 {
        assert d[..1][..0] == [];
        assert DigitValue(d[..1][0]) < 10;
      }
    }
  }

  /**
   * `(\d{1,2})\s*(?:o\'?clock)` tried at `i` with `re.IGNORECASE`: the captured hour (line 174).
   * It matches exactly when a digit starts there and "o'clock" follows the one or two digits
   * after optional whitespace; the hour is the number those digits spell.
   */
  function OclockAt(s: string, i: nat): (r: Option<nat>)
    ensures r.Some? <==> i < |s| && IsDigit(s[i]) && ClockWordAt(s, SkipSpace(s, HourDigitsEnd(s, i)))
    ensures r.Some? ==> r.value == DigitsValue(s[i..HourDigitsEnd(s, i)]) && r.value < 100
  {
    if i < |s| && IsDigit(s[i]) then
      var j := HourDigitsEnd(s, i);
      ShortNumber(s[i..j]);
      if ClockWordAt(s, SkipSpace(s, j)) then Some(DigitsValue(s[i..j])) else None
    else None
  }

  /**
   * `(am|pm|a\.m\.|p\.m\.)` at `k`, ignoring case: whether the marker is pm. It matches
   * exactly when one of the four markers starts at `k`, and says pm exactly for "pm" and "p.m.".
   */
  function MeridiemAt(s: string, k: nat): (r: Option<bool>)
    ensures r.Some? <==> LowerHasAt(s, "am", k) || LowerHasAt(s, "pm", k) || LowerHasAt(s, "a.m.", k) || LowerHasAt(s, "p.m.", k)
    ensures r == Some(true) <==> LowerHasAt(s, "pm", k) || LowerHasAt(s, "p.m.", k)
  {
    if k + 1 < |s| && (LowerChar(s[k]) == 'a' || LowerChar(s[k]) == 'p') then
      var pm := LowerChar(s[k]) == 'p';
      if LowerChar(s[k + 1]) == 'm' then Some(pm)
      else if k + 3 < |s| && s[k + 1] == '.' && LowerChar(s[k + 2]) == 'm' && s[k + 3] == '.' then Some(pm)
      else None
    else None
  }

  /** `:\d{2}` at `j`. */
  predicate MinutesAt(s: string, j: nat)
  {
    j + 2 < |s| && s[j] == ':' && IsDigit(s[j + 1]) && IsDigit(s[j + 2])
  }

  /** The attempt with the optional minutes present: `:\d{2}` at `j`, then `\s*` and a marker. */
  function MinutedMeridiem(s: string, j: nat): Option<bool>
  {
    if MinutesAt(s, j) then MeridiemAt(s, SkipSpace(s, j + 3)) else None
  }

  /**
   * `(\d{1,2})(?::(\d{2}))?\s*(am|pm|a\.m\.|p\.m\.)` tried at `i` with `re.IGNORECASE`
   * (line 191): first with the optional minutes, then without them. It matches exactly when
   * a digit starts at `i` and a marker follows the hour digits, with or without `:dd` in
   * between; the minute and the pm flag come from the attempt that succeeded.
   */
  function AmPmAt(s: string, i: nat): (r: Option<ClockReading>)
    ensures r.Some? <==> i < |s| && IsDigit(s[i])
                         && (MinutedMeridiem(s, HourDigitsEnd(s, i)).Some? || MeridiemAt(s, SkipSpace(s, HourDigitsEnd(s, i))).Some?)
    ensures r.Some? ==> r.value.hour == DigitsValue(s[i..HourDigitsEnd(s, i)])
    ensures r.Some? && MinutedMeridiem(s, HourDigitsEnd(s, i)).Some? ==>
              r.value.minute == DigitsValue(s[HourDigitsEnd(s, i) + 1..HourDigitsEnd(s, i) + 3])
              && r.value.pm == MinutedMeridiem(s, HourDigitsEnd(s, i)).value
    ensures r.Some? && MinutedMeridiem(s, HourDigitsEnd(s, i)).None? ==>
              r.value.minute == 0 && r.value.pm == MeridiemAt(s, SkipSpace(s, HourDigitsEnd(s, i))).value
    ensures r.Some? ==> r.value.hour < 100 && r.value.minute < 100
    ensures r.Some? && r.value.minute != 0 ==> HourDigitsEnd(s, i) < |s| && s[HourDigitsEnd(s, i)] == ':'
  {
    if i < |s| && IsDigit(s[i]) then
      var j := HourDigitsEnd(s, i);
      var hour := DigitsValue(s[i..j]);
      ShortNumber(s[i..j]);
      var withMinutes := MinutedMeridiem(s, j);
      if withMinutes.Some? then ShortNumber(s[j + 1..j + 3]); Some(ClockReading(hour, DigitsValue(s[j + 1..j + 3]), withMinutes.value))
      else match MeridiemAt(s, SkipSpace(s, j))
        case Some(pm) => Some(ClockReading(hour, 0, pm))
        case None => None
    else None
  }

  /** "people", "person" or "guest" (which covers "guests") at `k`, ignoring case. */
  predicate PartyWordAt(s: string, k: nat)
  {
    LowerHasAt(s, "people", k) || LowerHasAt(s, "person", k) || LowerHasAt(s, "guest", k)
  }

  /**
   * `(\d+)\s*(people|person|guests?)` tried at `i` with `re.IGNORECASE`: the captured number
   * (line 222). It matches exactly when a digit starts there and a party word follows the
   * whole run of digits after optional whitespace; the number is the one the run spells.
   */
  function PartyAt(s: string, i: nat): (r: Option<nat>)
    ensures r.Some? <==> i < |s| && IsDigit(s[i]) && PartyWordAt(s, SkipSpace(s, SkipDigits(s, i)))
    ensures r.Some? ==> r.value == DigitsValue(s[i..SkipDigits(s, i)])
  {
    if i < |s| && IsDigit(s[i]) then
      var j := SkipDigits(s, i);
      var k := SkipSpace(s, j);
      if PartyWordAt(s, k)
      then Some(DigitsValue(s[i..j])) else None
    else None
  }

  /** The evening bias of the o'clock pattern: 5 to 10 o'clock are read as pm (lines 178-179). */
  function EveningHour(h: nat): nat
  {
    if 5 <= h <= 10 then h + 12 else h
  }

  /** The 12-hour to 24-hour conversion of the am/pm pattern (lines 197-200). */
  function To24Hour(h: nat, pm: bool): nat
  {
    if pm && h < 12 then h + 12
    else if !pm && h == 12 then 0
    else h
  }

  /** The date the patterns attach their time to: tomorrow if the utterance says so, else today. */
  function BaseDay(s: string, now: LocalDateTime): int
  {
    if Contains(Lower(s), "tomorrow") then now.day + 1 else now.day
  }

  /** `base_date.replace(hour=hour, minute=minute, second=0, microsecond=0)`, which raises out of range. */
  function AtTime(day: int, hour: nat, minute: nat): (a: Attempt)
    ensures a.Parsed? <==> hour < 24 && minute < 60
    ensures a.Parsed? ==> a.when == LocalDateTime(day, hour, minute, 0, 0)
  {
    if hour < 24 && minute < 60 then Parsed(LocalDateTime(day, hour, minute, 0, 0)) else OutOfRange
  }

  /** The o'clock strategy (lines 174-189). */
  function OclockAttempt(s: string, now: LocalDateTime): Attempt
  {
    match Leftmost(s, OclockAt, 0)
    case None => NoParse
    case Some(m) => AtTime(BaseDay(s, now), EveningHour(m.value), 0)
  }

  /** The am/pm strategy (lines 191-212); "tonight" selects today, as no keyword does. */
  function AmPmAttempt(s: string, now: LocalDateTime): Attempt
  {
    match Leftmost(s, AmPmAt, 0)
    case None => NoParse
    case Some(m) => AtTime(BaseDay(s, now), To24Hour(m.value.hour, m.value.pm), m.value.minute)
  }

  /** The strategies in order: the oracle, then o'clock, then am/pm; the first that matches decides. */
  function FirstAttempt(s: string, now: LocalDateTime, dateparserResult: Option<LocalDateTime>): Attempt
  {
    if dateparserResult.Some? then Parsed(dateparserResult.value)
    else if !OclockAttempt(s, now).NoParse? then OclockAttempt(s, now)
    else AmPmAttempt(s, now)
  }

  /** A time earlier than `now` on today's date moves to tomorrow; nothing else moves (lines 214-216). */
  function RollForward(t: LocalDateTime, now: LocalDateTime): (r: LocalDateTime)
    ensures (r == NextDay(t)) <==> Before(t, now) && SameDate(t, now)
    ensures r != NextDay(t) ==> r == t
    ensures SameDate(r, now) ==> !Before(r, now)
  {
    if Before(t, now) && SameDate(t, now) then NextDay(t) else t
  }

  /** The party size: the number before the first "people", "person" or "guest(s)", else 2 (lines 221-224). */
  function PartySize(s: string): (n: nat)
    ensures Leftmost(s, PartyAt, 0).None? ==> n == 2
    ensures Leftmost(s, PartyAt, 0).Some? ==> PartyAt(s, Leftmost(s, PartyAt, 0).value.pos) == Some(n)
  {
    match Leftmost(s, PartyAt, 0)
    case None => 2
    case Some(m) => m.value
  }

  /**
   * The whole resolver: `Ok(Some(detail))` for a reservation time, `Ok(None)` when no
   * strategy matched, `Err(DateOutOfRange)` when a pattern's hour or minute is out of range.
   */
  function Resolve(s: string, now: LocalDateTime, dateparserResult: Option<LocalDateTime>): (r: Result<Option<ReservationDetail>, Fault>)
    ensures r.Err? ==> dateparserResult.None? && r.error == DateOutOfRange
    ensures r.Ok? && r.value.Some? ==> r.value.value.partySize == PartySize(s)
    ensures r.Ok? && r.value.Some? && SameDate(r.value.value.when, now) ==> !Before(r.value.value.when, now)
  {
    match FirstAttempt(s, now, dateparserResult)
    case NoParse => Ok(None)
    case OutOfRange => Err(DateOutOfRange)
    case Parsed(t) => Ok(Some(ReservationDetail(RollForward(t, now), PartySize(s))))
  }

  /** `parse_reservation_time` step by step, with `now` and the `dateparser.parse` result as inputs. */
  method ParseReservationTime(userInput: string, now: LocalDateTime, dateparserResult: Option<LocalDateTime>)
    returns (r: Result<Option<ReservationDetail>, Fault>)
    ensures r == Resolve(userInput, now, dateparserResult)
  {
    var parsed := dateparserResult;
    if parsed.None? {
      var oclockMatch := Search(userInput, OclockAt, 0);
      if oclockMatch.Some? {
        var hour := oclockMatch.value.value;
        if 5 <= hour <= 10 {
          hour := hour + 12;
        }
        var baseDay := now.day;
        if Contains(Lower(userInput), "tomorrow") {
          baseDay := now.day + 1;
        }
        assert baseDay == BaseDay(userInput, now) && hour == EveningHour(oclockMatch.value.value);
        assert OclockAttempt(userInput, now) == AtTime(baseDay, hour, 0);
        if 23 < hour {
          return Err(DateOutOfRange);
        }
        parsed := Some(LocalDateTime(baseDay, hour, 0, 0, 0));
      } else {
        var timeMatch := Search(userInput, AmPmAt, 0);
        if timeMatch.Some? {
          var hour := timeMatch.value.value.hour;
          var minute := timeMatch.value.value.minute;
          var pm := timeMatch.value.value.pm;
          if pm && hour < 12 {
            hour := hour + 12;
          } else if !pm && hour == 12 {
            hour := 0;
          }
          var baseDay := now.day;
          if Contains(Lower(userInput), "tomorrow") {
            baseDay := now.day + 1;
          } else if Contains(Lower(userInput), "tonight") {
            baseDay := now.day;
          }
          assert baseDay == BaseDay(userInput, now) && hour == To24Hour(timeMatch.value.value.hour, pm);
          assert OclockAttempt(userInput, now) == NoParse;
          assert AmPmAttempt(userInput, now) == AtTime(baseDay, hour, minute);
          if 23 < hour || 59 < minute {
            return Err(DateOutOfRange);
          }
          parsed := Some(LocalDateTime(baseDay, hour, minute, 0, 0));
        } else {
          assert FirstAttempt(userInput, now, dateparserResult) == NoParse;
        }
      }
    }
    assert parsed.Some? ==> FirstAttempt(userInput, now, dateparserResult) == Parsed(parsed.value);

    if parsed.Some? && Before(parsed.value, now) {
      if SameDate(parsed.value, now) {
        parsed := Some(NextDay(parsed.value));
      }
    }

    if parsed.Some? {
      var partySize := 2;
      var partyMatch := Search(userInput, PartyAt, 0);
      if partyMatch.Some? {
        partySize := partyMatch.value.value;
      }
      return Ok(Some(ReservationDetail(parsed.value, partySize)));
    }
    return Ok(None);
  }

  /** A `dateparser` result is taken as it is, rolled forward if need be; neither pattern is consulted. */
  lemma DateparserResultWins(s: string, now: LocalDateTime, t: LocalDateTime)
    ensures Resolve(s, now, Some(t)) == Ok(Some(ReservationDetail(RollForward(t, now), PartySize(s))))
  {
  }

  /**
   * When the oracle fails and the o'clock pattern matches hour `h`, that match decides,
   * whatever the am/pm pattern would find: the hour is `EveningHour(h)`, the minute 0.
   */
  lemma OclockReading(s: string, now: LocalDateTime, p: nat, h: nat)
    requires Leftmost(s, OclockAt, 0) == Some(Hit(p, h))
    ensures EveningHour(h) >= 24 ==> Resolve(s, now, None) == Err(DateOutOfRange)
    ensures EveningHour(h) < 24 ==>
      Resolve(s, now, None) == Ok(Some(ReservationDetail(
        RollForward(LocalDateTime(BaseDay(s, now), EveningHour(h), 0, 0, 0), now), PartySize(s))))
  {
  }

  /** When the oracle and the o'clock pattern fail and the am/pm pattern matches, it decides. */
  lemma AmPmReading(s: string, now: LocalDateTime, p: nat, c: ClockReading)
    requires Leftmost(s, OclockAt, 0).None?
    requires Leftmost(s, AmPmAt, 0) == Some(Hit(p, c))
    ensures To24Hour(c.hour, c.pm) >= 24 || c.minute >= 60 ==> Resolve(s, now, None) == Err(DateOutOfRange)
    ensures To24Hour(c.hour, c.pm) < 24 && c.minute < 60 ==>
      Resolve(s, now, None) == Ok(Some(ReservationDetail(
        RollForward(LocalDateTime(BaseDay(s, now), To24Hour(c.hour, c.pm), c.minute, 0, 0), now), PartySize(s))))
  {
  }

  /** The resolver finds nothing exactly when the oracle and both patterns fail. */
  lemma UnresolvedExactly(s: string, now: LocalDateTime, dateparserResult: Option<LocalDateTime>)
    ensures Resolve(s, now, dateparserResult) == Ok(None) <==>
      dateparserResult.None? && Leftmost(s, OclockAt, 0).None? && Leftmost(s, AmPmAt, 0).None?
  {
  }

  /** The resolver raises exactly when the pattern that decides yields an hour or a minute out of range. */
  lemma RaisesExactly(s: string, now: LocalDateTime, dateparserResult: Option<LocalDateTime>)
    ensures Resolve(s, now, dateparserResult).Err? <==>
      dateparserResult.None? &&
      match Leftmost(s, OclockAt, 0)
      case Some(m) => EveningHour(m.value) >= 24
      case None =>
        match Leftmost(s, AmPmAt, 0)
        case Some(m) => To24Hour(m.value.hour, m.value.pm) >= 24 || m.value.minute >= 60
        case None => false
  {
  }

  /**
   * A time read by either pattern is never before `now`: it lies on today's or
   * tomorrow's date, on a whole minute.
   */
  lemma PatternTimesNotPast(s: string, now: LocalDateTime, d: ReservationDetail)
    requires Resolve(s, now, None) == Ok(Some(d))
    ensures !Before(d.when, now)
    ensures now.day <= d.when.day <= now.day + 1
    ensures d.when.second == 0 && d.when.micro == 0
  {
  }

  /** The party size does not depend on which strategy produced the date-time. */
  lemma PartySizeIndependent(s: string, now1: LocalDateTime, now2: LocalDateTime,
                             o1: Option<LocalDateTime>, o2: Option<LocalDateTime>,
                             d1: ReservationDetail, d2: ReservationDetail)
    requires Resolve(s, now1, o1) == Ok(Some(d1)) && Resolve(s, now2, o2) == Ok(Some(d2))
    ensures d1.partySize == d2.partySize == PartySize(s)
  {
  }

  /** For a 12-hour reading 1..12 the conversion gives the same hour on the 24-hour clock, pm exactly in the afternoon. */
  lemma TwelveHourClock(h: nat, pm: bool)
    requires 1 <= h <= 12
    ensures To24Hour(h, pm) < 24
    ensures To24Hour(h, pm) % 12 == h % 12
    ensures To24Hour(h, pm) >= 12 <==> pm
  {
  }

  /** The evening bias reads 5..10 o'clock as 5..10 pm and leaves every other hour alone. */
  lemma EveningBias(h: nat)
    ensures 5 <= h <= 10 ==> 17 <= EveningHour(h) <= 22 && EveningHour(h) == To24Hour(h, true)
    ensures !(5 <= h <= 10) ==> EveningHour(h) == h
  {
  }
}
