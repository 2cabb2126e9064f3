/**
 * The two fixed-information responders: opening hours (with the weekday arithmetic of
 * "today" and "tomorrow") and the menu highlights. Both read the restaurant's constant
 * information table; today's weekday is a parameter because the source reads the clock.
 */
module RestaurantInfo {
  import opened Wrappers
  import opened Text
  import opened Clock

  /** The weekday names in the responder's own search order, Monday first. */
  const Days: seq<string> := ["monday", "tuesday", "wednesday", "thursday", "friday", "saturday", "sunday"]

  /** Opening hours per weekday, in the same order as `Days`. */
  const WeeklyHours: seq<string> := [
    "11:00 AM to 10:00 PM", "11:00 AM to 10:00 PM", "11:00 AM to 10:00 PM", "11:00 AM to 10:00 PM",
    "11:00 AM to 11:00 PM", "10:00 AM to 11:00 PM", "10:00 AM to 9:00 PM"]

  const MenuHighlights: seq<string> := [
    "Our chef's special butter chicken", "Paneer tikka masala", "Lamb biryani",
    "Vegetable samosas", "Garlic naan", "Mango lassi"]

  /** The first weekday, from `k` on in Monday..Sunday order, whose name occurs in `s`. */
  function FirstNamedDayFrom(s: string, k: nat): (r: Option<Weekday>)
    requires k <= 7
    ensures r.Some? ==> k <= r.value && Contains(s, Days[r.value])
    ensures r.Some? ==> forall d :: k <= d < r.value ==> !Contains(s, Days[d])
    ensures r.None? ==> forall d :: k <= d < 7 ==> !Contains(s, Days[d])
    decreases 7 - k
  {
    if k == 7 then None
    else if Contains(s, Days[k]) then Some(k)
    else FirstNamedDayFrom(s, k + 1)
  }

  function FirstNamedDay(s: string): Option<Weekday>
  {
    FirstNamedDayFrom(s, 0)
  }

  /** No weekday name occurs in `s`. */
  predicate NamesNoDay(s: string)
  {
    forall d :: 0 <= d < 7 ==> !Contains(s, Days[d])
  }

  /** `d` is the first weekday, in Monday..Sunday order, whose name occurs in `s`. */
  predicate FirstNamed(s: string, d: Weekday)
  {
    Contains(s, Days[d]) && forall e :: 0 <= e < d ==> !Contains(s, Days[e])
  }

  function DaySentence(d: Weekday): string
  {
    "Our hours on " + Capitalize(Days[d]) + " are " + WeeklyHours[d] + "."
  }

  function TodaySentence(d: Weekday): string
  {
    "Our hours today (" + Capitalize(Days[d]) + ") are " + WeeklyHours[d] + "."
  }

  function TomorrowSentence(d: Weekday): string
  {
    "Our hours tomorrow (" + Capitalize(Days[d]) + ") are " + WeeklyHours[d] + "."
  }

  /** One "Day: hours" entry of the full listing. */
  function DayLine(d: Weekday): string
  {
    Capitalize(Days[d]) + ": " + WeeklyHours[d]
  }

  function DayLines(): seq<string>
  {
    [DayLine(0), DayLine(1), DayLine(2), DayLine(3), DayLine(4), DayLine(5), DayLine(6)]
  }

  /** The whole week, days in table order; the sentence has no closing full stop. */
  function WeekListing(): string
  {
    "Our restaurant hours are: " + Join(", ", DayLines())
  }

  function Tomorrow(today: Weekday): Weekday
  {
    (today + 1) % 7
  }

  /**
   * The hours reply: a named weekday wins (the first one in Monday..Sunday order), then
   * "today", then "tomorrow", else the whole week. All tests are substring tests on the
   * lower-cased input.
   */
  function HoursInfo(userInput: string, today: Weekday): string
  {
    var s := Lower(userInput);
    match FirstNamedDay(s)
    case Some(d) => DaySentence(d)
    case None =>
      if Contains(s, "today") then TodaySentence(today)
      else if Contains(s, "tomorrow") then TomorrowSentence(Tomorrow(today))
      else WeekListing()
  }

  /** A weekday that is named first is the one `FirstNamedDay` finds. */
  lemma FirstNamedIsFound(s: string, d: Weekday)
    requires FirstNamed(s, d)
    ensures FirstNamedDay(s) == Some(d)
  {
  }

  /**
   * The priority of the hours reply: the first weekday named, in Monday..Sunday order, then
   * "today", then "tomorrow", else the whole week, all by substring tests on the lower-cased input.
   */
  lemma HoursInfoCases(userInput: string, today: Weekday)
    ensures forall d: Weekday :: FirstNamed(Lower(userInput), d) ==> HoursInfo(userInput, today) == DaySentence(d)
    ensures NamesNoDay(Lower(userInput)) && Contains(Lower(userInput), "today")
            ==> HoursInfo(userInput, today) == TodaySentence(today)
    ensures NamesNoDay(Lower(userInput)) && !Contains(Lower(userInput), "today") && Contains(Lower(userInput), "tomorrow")
            ==> HoursInfo(userInput, today) == TomorrowSentence(Tomorrow(today))
    ensures NamesNoDay(Lower(userInput)) && !Contains(Lower(userInput), "today") && !Contains(Lower(userInput), "tomorrow")
            ==> HoursInfo(userInput, today) == WeekListing()
  {
    var s := Lower(userInput);
    forall d: Weekday | FirstNamed(s, d) ensures HoursInfo(userInput, today) == DaySentence(d) {
      FirstNamedIsFound(s, d);
    }
  }

  /** The responder as the source writes it: a loop over the weekdays with an early return. */
  method GetHoursInfo(userInput: string, today: Weekday) returns (r: string)
    ensures r == HoursInfo(userInput, today)
  {
    var s := Lower(userInput);
    for k := 0 to 7
      invariant forall d :: 0 <= d < k ==> !Contains(s, Days[d])
    {
      if Contains(s, Days[k]) {
        assert FirstNamed(s, k);
        return DaySentence(k);
      }
    }
    assert NamesNoDay(s);
    if Contains(s, "today") {
      r := TodaySentence(today);
    } else if Contains(s, "tomorrow") {
      r := TomorrowSentence(Tomorrow(today));
    } else {
      r := WeekListing();
    }
  }

  function MenuInfo(userInput: string): (r: string)
    ensures forall k :: 0 <= k < |MenuHighlights| ==> Contains(r, MenuHighlights[k])
  {
    var r := "Some of our popular menu items include: " + Join(", ", MenuHighlights)
      + ". We offer a variety of vegetarian and non-vegetarian dishes.";
    MenuMentionsEveryItem(r);
    r
  }

  lemma MenuMentionsEveryItem(r: string)
    requires r == "Some of our popular menu items include: " + Join(", ", MenuHighlights)
      + ". We offer a variety of vegetarian and non-vegetarian dishes."
    ensures forall k :: 0 <= k < |MenuHighlights| ==> Contains(r, MenuHighlights[k])
  {
    forall k | 0 <= k < |MenuHighlights| ensures Contains(r, MenuHighlights[k]) {
      JoinContainsItem(", ", MenuHighlights, k);
      ContainsInSuffix("Some of our popular menu items include: ", Join(", ", MenuHighlights), MenuHighlights[k]);
      ContainsInPrefix("Some of our popular menu items include: " + Join(", ", MenuHighlights),
        ". We offer a variety of vegetarian and non-vegetarian dishes.", MenuHighlights[k]);
    }
  }

  /** The menu reply does not depend on what was said. */
  lemma MenuIgnoresInput(a: string, b: string)
    ensures MenuInfo(a) == MenuInfo(b)
  {
  }

  /** A day's entry names the day and gives its hours. */
  lemma DayLineParts(d: Weekday)
    ensures Contains(DayLine(d), Capitalize(Days[d])) && Contains(DayLine(d), WeeklyHours[d])
  {
    ContainsBothEnds(Capitalize(Days[d]), ": ", WeeklyHours[d]);
  }

  /** The full listing names every weekday together with its hours. */
  lemma WeekListingCoversEveryDay(d: Weekday)
    ensures Contains(WeekListing(), DayLine(d))
    ensures Contains(WeekListing(), Capitalize(Days[d]))
    ensures Contains(WeekListing(), WeeklyHours[d])
  {
    var lines := DayLines();
    JoinContainsItem(", ", lines, d);
    ContainsInSuffix("Our restaurant hours are: ", Join(", ", lines), lines[d]);
    DayLineParts(d);
    assert lines[d] == DayLine(d);
    JoinContainsPart(", ", lines, d, Capitalize(Days[d]));
    JoinContainsPart(", ", lines, d, WeeklyHours[d]);
    ContainsInSuffix("Our restaurant hours are: ", Join(", ", lines), Capitalize(Days[d]));
    ContainsInSuffix("Our restaurant hours are: ", Join(", ", lines), WeeklyHours[d]);
  }

  /** "tomorrow" is the day after today, Sunday wrapping round to Monday. */
  lemma TomorrowWrapsRound(today: Weekday)
    ensures today < 6 ==> Tomorrow(today) == today + 1
    ensures today == 6 ==> Tomorrow(today) == 0
  {
  }

  /** Today's weekday follows the calendar: tomorrow's reply is for the next day's weekday. */
  lemma TomorrowIsNextDate(day: int)
    ensures Tomorrow(WeekdayOf(day)) == WeekdayOf(day + 1)
  {
    NextDayWeekday(day);
  }

  /** The hours reply is insensitive to the case of the input. */
  lemma HoursIgnoreCase(userInput: string, today: Weekday)
    ensures HoursInfo(Lower(userInput), today) == HoursInfo(userInput, today)
  {
    LowerLower(userInput);
  }
}
