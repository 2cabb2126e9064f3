/**
 * The rule-based intent classifier `fallback_process` (app/routes.py:126-157): a
 * priority-ordered keyword test on the lower-cased utterance, then the responder of the
 * chosen category.
 */
module Fallback {
  import opened Wrappers
  import opened Faults
  import opened Text
  import opened Clock
  import opened ReservationTime
  import opened RestaurantInfo

  datatype Intent = Hours | Menu | Reservation | Unknown

  /**
   * The reply sentence. A confirmed booking is kept as its date-time and party size: the
   * source prints them with `strftime`, whose calendar wording is not modelled.
   */
  datatype Speech = Say(text: string) | ConfirmBooking(when: LocalDateTime, partySize: nat)

  /** The result record; `details` is the optional `reservation_details` key. */
  datatype IntentResult = IntentResult(intent: Intent, details: Option<ReservationDetail>, responseText: Speech)

  const HoursWords: seq<string> := ["hour", "open", "close", "timing"]
  const MenuWords: seq<string> := ["menu", "food", "dish", "specialty", "serve", "eat"]
  const ReservationWords: seq<string> := ["book", "reserve", "reservation", "table", "seat"]

  const Clarification: string := "I couldn't understand when you want to make a reservation. Please specify a day and time."
  const NotUnderstood: string := "I'm not sure I understood. You can ask about our hours, our menu, or make a reservation."

  /** `any(word in s for word in words)`: some keyword occurs in `s` as a substring. */
  predicate Mentions(s: string, words: seq<string>)
  {
    exists k | 0 <= k < |words| :: Contains(s, words[k])
  }

  /** The category chosen by the keyword tests: hours first, then menu, then reservation. */
  function Classify(userInput: string): (i: Intent)
    ensures i == Hours <==> Mentions(Lower(userInput), HoursWords)
    ensures i == Menu <==> !Mentions(Lower(userInput), HoursWords) && Mentions(Lower(userInput), MenuWords)
    ensures i == Reservation <==> !Mentions(Lower(userInput), HoursWords) && !Mentions(Lower(userInput), MenuWords)
                                   && Mentions(Lower(userInput), ReservationWords)
    ensures i == Unknown <==> !Mentions(Lower(userInput), HoursWords) && !Mentions(Lower(userInput), MenuWords)
                               && !Mentions(Lower(userInput), ReservationWords)
  {
    var s := Lower(userInput);
    if Mentions(s, HoursWords) then Hours
    else if Mentions(s, MenuWords) then Menu
    else if Mentions(s, ReservationWords) then Reservation
    else Unknown
  }

  /**
   * `fallback_process` with the clock reading `now` and the `dateparser` result as inputs.
   * Only a reservation can raise, and only when the resolver raises.
   */
  function FallbackProcess(userInput: string, now: LocalDateTime, dateparserResult: Option<LocalDateTime>): (r: Result<IntentResult, Fault>)
    ensures r.Err? <==> Classify(userInput) == Reservation && Resolve(userInput, now, dateparserResult).Err?
    ensures r.Err? ==> r == Err(Resolve(userInput, now, dateparserResult).error)
    ensures r.Ok? ==> r.value.intent == Classify(userInput)
    ensures r.Ok? ==> (r.value.details.Some? <==> r.value.intent == Reservation && Resolve(userInput, now, dateparserResult).value.Some?)
    ensures r.Ok? && r.value.details.Some? ==> Resolve(userInput, now, dateparserResult) == Ok(r.value.details)
    ensures r.Ok? && r.value.details.Some? ==>
              r.value.responseText == ConfirmBooking(r.value.details.value.when, r.value.details.value.partySize)
    ensures r.Ok? && r.value.details.None? ==> r.value.responseText.Say?
  {
    match Classify(userInput)
    case Hours => Ok(IntentResult(Hours, None, Say(HoursInfo(userInput, WeekdayOf(now.day)))))
    case Menu => Ok(IntentResult(Menu, None, Say(MenuInfo(userInput))))
    case Reservation =>
      (match Resolve(userInput, now, dateparserResult)
       case Err(f) => Err(f)
       case Ok(Some(d)) => Ok(IntentResult(Reservation, Some(d), ConfirmBooking(d.when, d.partySize)))
       case Ok(None) => Ok(IntentResult(Reservation, None, Say(Clarification))))
    case Unknown => Ok(IntentResult(Unknown, None, Say(NotUnderstood)))
  }

  /** The text said for each category that carries no reservation details. */
  lemma RepliesByCategory(userInput: string, now: LocalDateTime, dateparserResult: Option<LocalDateTime>)
    ensures Classify(userInput) == Hours ==>
      FallbackProcess(userInput, now, dateparserResult) == Ok(IntentResult(Hours, None, Say(HoursInfo(userInput, WeekdayOf(now.day)))))
    ensures Classify(userInput) == Menu ==>
      FallbackProcess(userInput, now, dateparserResult) == Ok(IntentResult(Menu, None, Say(MenuInfo(userInput))))
    ensures Classify(userInput) == Reservation && Resolve(userInput, now, dateparserResult) == Ok(None) ==>
      FallbackProcess(userInput, now, dateparserResult) == Ok(IntentResult(Reservation, None, Say(Clarification)))
    ensures Classify(userInput) == Unknown ==>
      FallbackProcess(userInput, now, dateparserResult) == Ok(IntentResult(Unknown, None, Say(NotUnderstood)))
  {
  }

  /** Keyword matching does not see case. */
  lemma ClassifyIgnoresCase(userInput: string)
    ensures Classify(Lower(userInput)) == Classify(userInput)
  {
    LowerLower(userInput);
  }

  /** A keyword occurring inside a longer word still counts. */
  lemma MentionedInside(s: string, word: string, i: nat, j: nat, w: string, words: seq<string>, k: nat)
    requires HasAt(s, word, i) && j + |w| <= |word| && word[j..j + |w|] == w
    requires k < |words| && words[k] == w
    ensures Mentions(s, words)
  {
    assert s[i + j..i + j + |w|] == w by {
      forall m | 0 <= m < |w| ensures s[i + j + m] == w[m] {
        assert s[i + j + m] == s[i..i + |word|][j + m] == word[j + m] == word[j..j + |w|][m];
      }
    }
    assert HasAt(s, w, i + j);
  }

  /** "seat" contains the menu keyword "eat", so an utterance saying "seat" is never a reservation. */
  lemma SeatIsNeverReservation(userInput: string)
    requires Contains(Lower(userInput), "seat")
    ensures Classify(userInput) != Reservation
    ensures !Mentions(Lower(userInput), HoursWords) ==> Classify(userInput) == Menu
  {
    var i :| 0 <= i <= |Lower(userInput)| - 4 && HasAt(Lower(userInput), "seat", i);
    assert "seat"[1..4] == "eat";
    MentionedInside(Lower(userInput), "seat", i, 1, "eat", MenuWords, 5);
  }

  /** "reserve" contains the menu keyword "serve", so an utterance saying "reserve" is never a reservation. */
  lemma ReserveIsNeverReservation(userInput: string)
    requires Contains(Lower(userInput), "reserve")
    ensures Classify(userInput) != Reservation
    ensures !Mentions(Lower(userInput), HoursWords) ==> Classify(userInput) == Menu
  {
    var i :| 0 <= i <= |Lower(userInput)| - 7 && HasAt(Lower(userInput), "reserve", i);
    assert "reserve"[2..7] == "serve";
    MentionedInside(Lower(userInput), "reserve", i, 2, "serve", MenuWords, 4);
  }

  /** An hours keyword decides the category whatever else is said. */
  lemma HoursWordWins(userInput: string, k: nat)
    requires k < |HoursWords| && Contains(Lower(userInput), HoursWords[k])
    ensures Classify(userInput) == Hours
  {
  }

  /** A text without letters contains no keyword, since every keyword starts with a letter. */
  lemma NoLetterMentionsNothing(s: string, words: seq<string>)
    requires forall k | 0 <= k < |words| :: |words[k]| > 0 && 'a' <= words[k][0] <= 'z'
    requires forall j | 0 <= j < |s| :: !('a' <= s[j] <= 'z') && !('A' <= s[j] <= 'Z')
    ensures !Mentions(Lower(s), words)
  {
    forall k | 0 <= k < |words| ensures !Contains(Lower(s), words[k]) {
      LetterMissing(s, words[k], 0);
    }
  }

  /** Every keyword of the three lists starts with a lower-case letter. */
  lemma KeywordsStartWithLetters()
    ensures forall k | 0 <= k < |HoursWords| :: |HoursWords[k]| > 0 && 'a' <= HoursWords[k][0] <= 'z'
    ensures forall k | 0 <= k < |MenuWords| :: |MenuWords[k]| > 0 && 'a' <= MenuWords[k][0] <= 'z'
    ensures forall k | 0 <= k < |ReservationWords| :: |ReservationWords[k]| > 0 && 'a' <= ReservationWords[k][0] <= 'z'
  {
  }

  /** A bare number, such as "42", mentions no keyword, so it is answered with the generic prompt. */
  lemma BareNumberIsUnknown()
    ensures Classify("42") == Unknown
  {
    KeywordsStartWithLetters();
    NoLetterMentionsNothing("42", HoursWords);
    NoLetterMentionsNothing("42", MenuWords);
    NoLetterMentionsNothing("42", ReservationWords);
  }
}
