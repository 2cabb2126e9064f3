/**
 * Worked utterances for the temporal resolver, with the `dateparser` oracle failing so
 * that the two patterns decide.
 */
module ResolverExamples {
  import opened Wrappers
  import opened Text
  import opened Scan
  import opened Clock
  import opened ReservationTime

  const NineOclock: string := "book a table at 9 o'clock"
  const TomorrowAtSevenPm: string := "table for 4 tomorrow at 7pm"

  /** A stretch without digits holds no match of the three patterns, which all start on a digit. */
  lemma NoDigitNoMatch(s: string, lo: nat, hi: nat)
    requires hi <= |s| && forall j | lo <= j < hi :: !IsDigit(s[j])
    ensures NoMatchIn(s, OclockAt, lo, hi) && NoMatchIn(s, AmPmAt, lo, hi) && NoMatchIn(s, PartyAt, lo, hi)
  {
  }

  /** Only position 16 of the first utterance holds a digit. */
  lemma NineOclockDigits()
    ensures forall j | 0 <= j < |NineOclock| && j != 16 :: !IsDigit(NineOclock[j])
  {
  }

  /** The first utterance has no letter m in either case. */
  lemma NineOclockHasNoM()
    ensures forall j | 0 <= j < |NineOclock| :: NineOclock[j] != 'm' && NineOclock[j] != 'M'
  {
  }

  /** Only positions 10 and 24 of the second utterance hold digits. */
  lemma TomorrowAtSevenPmDigits()
    ensures forall j | 0 <= j < |TomorrowAtSevenPm| && j != 10 && j != 24 :: !IsDigit(TomorrowAtSevenPm[j])
  {
  }

  lemma NineOclockMatches()
    ensures Leftmost(NineOclock, OclockAt, 0) == Some(Hit(16, 9))
  {
    NineOclockDigits();
    NoDigitNoMatch(NineOclock, 0, 16);
    assert OclockAt(NineOclock, 16) == Some(9) by {
      assert SkipSpace(NineOclock, 18) == 18;
      assert SkipSpace(NineOclock, 17) == 18;
      assert NineOclock[18..19] == "o" && NineOclock[19] == '\'' && NineOclock[20..25] == "clock";
      assert NineOclock[16..17] == "9";
    }
    LeftmostIsUnique(NineOclock, OclockAt, 0, 16, 9);
  }

  lemma NineOclockNineIsNotPartySize()
    ensures PartyAt(NineOclock, 16).None?
  {
    assert SkipDigits(NineOclock, 17) == 17 && SkipDigits(NineOclock, 16) == 17;
    assert SkipSpace(NineOclock, 18) == 18 && SkipSpace(NineOclock, 17) == 18;
    NotLowerHasAt(NineOclock, "people", 18);
    NotLowerHasAt(NineOclock, "person", 18);
    NotLowerHasAt(NineOclock, "guest", 18);
  }

  lemma NineOclockHasNoPartySize()
    ensures Leftmost(NineOclock, PartyAt, 0).None?
  {
    NineOclockDigits();
    NoDigitNoMatch(NineOclock, 0, 16);
    NineOclockNineIsNotPartySize();
    assert NoMatchIn(NineOclock, PartyAt, 16, 17);
    NoDigitNoMatch(NineOclock, 17, 25);
    NoMatchInJoin(NineOclock, PartyAt, 0, 16, 17);
    NoMatchInJoin(NineOclock, PartyAt, 0, 17, 25);
  }

  /** There is no "m" in the utterance, so no "tomorrow". */
  lemma NineOclockSaysNoTomorrow()
    ensures !Contains(Lower(NineOclock), "tomorrow")
  {
    NineOclockHasNoM();
    LetterMissing(NineOclock, "tomorrow", 2);
  }

  /** "book a table at 9 o'clock" at 08:00: the evening bias gives 21:00 the same day, for two. */
  lemma NineOclockInTheMorning(day: int)
    ensures Resolve(NineOclock, LocalDateTime(day, 8, 0, 0, 0), None)
         == Ok(Some(ReservationDetail(LocalDateTime(day, 21, 0, 0, 0), 2)))
  {
    NineOclockMatches();
    NineOclockHasNoPartySize();
    NineOclockSaysNoTomorrow();
  }

  /** Neither digit of the utterance is followed by "o'clock". */
  lemma TomorrowAtSevenPmDigitsAreNotOclock()
    ensures OclockAt(TomorrowAtSevenPm, 10).None? && OclockAt(TomorrowAtSevenPm, 24).None?
  {
    assert SkipSpace(TomorrowAtSevenPm, 12) == 12 && SkipSpace(TomorrowAtSevenPm, 11) == 12;
    NotLowerHasAt(TomorrowAtSevenPm, "o", 12);
    assert SkipSpace(TomorrowAtSevenPm, 25) == 25;
    NotLowerHasAt(TomorrowAtSevenPm, "o", 25);
  }

  lemma TomorrowAtSevenPmHasNoOclock()
    ensures Leftmost(TomorrowAtSevenPm, OclockAt, 0).None?
  {
    TomorrowAtSevenPmDigitsAreNotOclock();
    TomorrowAtSevenPmDigits();
    NoDigitNoMatch(TomorrowAtSevenPm, 0, 10);
    assert NoMatchIn(TomorrowAtSevenPm, OclockAt, 10, 11);
    NoDigitNoMatch(TomorrowAtSevenPm, 11, 24);
    assert NoMatchIn(TomorrowAtSevenPm, OclockAt, 24, 25);
    NoDigitNoMatch(TomorrowAtSevenPm, 25, 27);
    NoMatchInJoin(TomorrowAtSevenPm, OclockAt, 0, 10, 11);
    NoMatchInJoin(TomorrowAtSevenPm, OclockAt, 0, 11, 24);
    NoMatchInJoin(TomorrowAtSevenPm, OclockAt, 0, 24, 25);
    NoMatchInJoin(TomorrowAtSevenPm, OclockAt, 0, 25, 27);
  }

  /** "4 t" is no clock reading. */
  lemma TomorrowAtSevenPmFourIsNoTime()
    ensures AmPmAt(TomorrowAtSevenPm, 10).None?
  {
    assert SkipSpace(TomorrowAtSevenPm, 12) == 12 && SkipSpace(TomorrowAtSevenPm, 11) == 12;
  }

  /** "7pm" is read as 7 pm, without minutes. */
  lemma TomorrowAtSevenPmSevenIsTime()
    ensures AmPmAt(TomorrowAtSevenPm, 24) == Some(ClockReading(7, 0, true))
  {
    assert SkipSpace(TomorrowAtSevenPm, 25) == 25;
    assert TomorrowAtSevenPm[24..25] == "7";
  }

  lemma TomorrowAtSevenPmMatchesAmPm()
    ensures Leftmost(TomorrowAtSevenPm, AmPmAt, 0) == Some(Hit(24, ClockReading(7, 0, true)))
  {
    TomorrowAtSevenPmDigits();
    TomorrowAtSevenPmFourIsNoTime();
    TomorrowAtSevenPmSevenIsTime();
    NoDigitNoMatch(TomorrowAtSevenPm, 0, 10);
    assert NoMatchIn(TomorrowAtSevenPm, AmPmAt, 10, 11);
    NoDigitNoMatch(TomorrowAtSevenPm, 11, 24);
    NoMatchInJoin(TomorrowAtSevenPm, AmPmAt, 0, 10, 11);
    NoMatchInJoin(TomorrowAtSevenPm, AmPmAt, 0, 11, 24);
    LeftmostIsUnique(TomorrowAtSevenPm, AmPmAt, 0, 24, ClockReading(7, 0, true));
  }

  lemma TomorrowAtSevenPmFourIsNotPartySize()
    ensures PartyAt(TomorrowAtSevenPm, 10).None?
  {
    assert SkipDigits(TomorrowAtSevenPm, 11) == 11 && SkipDigits(TomorrowAtSevenPm, 10) == 11;
    assert SkipSpace(TomorrowAtSevenPm, 12) == 12 && SkipSpace(TomorrowAtSevenPm, 11) == 12;
    NotLowerHasAt(TomorrowAtSevenPm, "people", 12);
    NotLowerHasAt(TomorrowAtSevenPm, "person", 12);
    NotLowerHasAt(TomorrowAtSevenPm, "guest", 12);
  }

  lemma TomorrowAtSevenPmSevenIsNotPartySize()
    ensures PartyAt(TomorrowAtSevenPm, 24).None?
  {
    assert SkipDigits(TomorrowAtSevenPm, 25) == 25 && SkipDigits(TomorrowAtSevenPm, 24) == 25;
    assert SkipSpace(TomorrowAtSevenPm, 25) == 25;
    assert !LowerHasAt(TomorrowAtSevenPm, "people", 25) && !LowerHasAt(TomorrowAtSevenPm, "person", 25);
    NotLowerHasAt(TomorrowAtSevenPm, "guest", 25);
  }

  /** The "4" is not followed by "people", "person" or "guest", so it is not a party size. */
  lemma TomorrowAtSevenPmHasNoPartySize()
    ensures Leftmost(TomorrowAtSevenPm, PartyAt, 0).None?
  {
    TomorrowAtSevenPmFourIsNotPartySize();
    TomorrowAtSevenPmSevenIsNotPartySize();
    TomorrowAtSevenPmDigits();
    NoDigitNoMatch(TomorrowAtSevenPm, 0, 10);
    assert NoMatchIn(TomorrowAtSevenPm, PartyAt, 10, 11);
    NoDigitNoMatch(TomorrowAtSevenPm, 11, 24);
    assert NoMatchIn(TomorrowAtSevenPm, PartyAt, 24, 25);
    NoDigitNoMatch(TomorrowAtSevenPm, 25, 27);
    NoMatchInJoin(TomorrowAtSevenPm, PartyAt, 0, 10, 11);
    NoMatchInJoin(TomorrowAtSevenPm, PartyAt, 0, 11, 24);
    NoMatchInJoin(TomorrowAtSevenPm, PartyAt, 0, 24, 25);
    NoMatchInJoin(TomorrowAtSevenPm, PartyAt, 0, 25, 27);
  }

  lemma TomorrowAtSevenPmSaysTomorrow()
    ensures Contains(Lower(TomorrowAtSevenPm), "tomorrow")
  {
    assert forall k | 0 <= k < 8 :: Lower(TomorrowAtSevenPm)[12 + k] == "tomorrow"[k];
    assert Lower(TomorrowAtSevenPm)[12..20] == "tomorrow";
    assert HasAt(Lower(TomorrowAtSevenPm), "tomorrow", 12);
  }

  /**
   * "table for 4 tomorrow at 7pm" at 10:00: 19:00 on the next day. The party size is 2,
   * not 4: a bare number is not a party size.
   */
  lemma TomorrowAtSevenPmAtTen(day: int)
    ensures Resolve(TomorrowAtSevenPm, LocalDateTime(day, 10, 0, 0, 0), None)
         == Ok(Some(ReservationDetail(LocalDateTime(day + 1, 19, 0, 0, 0), 2)))
  {
    TomorrowAtSevenPmHasNoOclock();
    TomorrowAtSevenPmMatchesAmPm();
    TomorrowAtSevenPmHasNoPartySize();
    TomorrowAtSevenPmSaysTomorrow();
  }

  /** "7pm" said at 21:00 has already passed today, so it means 19:00 tomorrow. */
  lemma SevenPmAfterNine(day: int)
    ensures Resolve("7pm", LocalDateTime(day, 21, 0, 0, 0), None)
         == Ok(Some(ReservationDetail(LocalDateTime(day + 1, 19, 0, 0, 0), 2)))
  {
    SevenPmReadings();
    LeftmostIsUnique("7pm", AmPmAt, 0, 0, ClockReading(7, 0, true));
    assert !Contains(Lower("7pm"), "tomorrow");
  }

  /** "7pm" holds one digit, which is an am/pm time and neither an o'clock hour nor a party size. */
  lemma SevenPmReadings()
    ensures Leftmost("7pm", OclockAt, 0).None? && Leftmost("7pm", PartyAt, 0).None?
    ensures AmPmAt("7pm", 0) == Some(ClockReading(7, 0, true))
  {
    assert SkipSpace("7pm", 1) == 1 && SkipDigits("7pm", 1) == 1 && SkipDigits("7pm", 0) == 1;
    assert "7pm"[0..1] == "7";
    NotLowerHasAt("7pm", "o", 1);
    assert !PartyWordAt("7pm", 1);
    assert "7pm"[1] == 'p' && "7pm"[2] == 'm';
    NoDigitNoMatch("7pm", 1, 3);
  }
}
