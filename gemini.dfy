/**
 * The deterministic part of `process_with_gemini` (app/routes.py:73-124): whether the
 * language model is consulted at all, how a JSON candidate is cut out of its reply text
 * (lines 107-116), and the fall back to the rule-based classifier on any failure. The
 * model call, its reply and `json.loads` are inputs.
 */
module Gemini {
  import opened Wrappers
  import opened Faults
  import opened Text
  import opened Scan
  import opened Clock
  import opened Fallback

  /** A decoded JSON value, as `json.loads` returns it. */
  datatype Json =
    | JNull
    | JBool(b: bool)
    | JNumber(n: int)
    | JString(s: string)
    | JArray(items: seq<Json>)
    | JObject(members: seq<(string, Json)>)

  /** `result['intent']` succeeds: the value is an object with an "intent" key. */
  predicate HasIntent(j: Json)
  {
    j.JObject? && exists k | 0 <= k < |j.members| :: j.members[k].0 == "intent"
  }

  /** How the module-level set-up left `gemini_model` (app/routes.py:26-36). */
  datatype ModelSetup =
    | ApiKeyUnset           // GOOGLE_API_KEY empty: `gemini_model` is never bound
    | AuthenticationFailed  // `configure` or `GenerativeModel` raised: `gemini_model = None`
    | Authenticated

  /** What the model call produced (app/routes.py:103-104). */
  datatype ModelReply =
    | CallRaised            // `generate_content` raised
    | TextRaised            // `response.text` raised, e.g. a reply without text parts
    | Replied(text: string)

  /** The dictionary returned: the model's own object, or the rule-based result. */
  datatype Answer = FromModel(decoded: Json) | FromRules(classified: IntentResult)

  /** `text.strip().startswith('{')`: the first non-whitespace character is an opening brace. */
  predicate LeadsWithBrace(t: string)
  {
    SkipSpace(t, 0) < |t| && t[SkipSpace(t, 0)] == '{'
  }

  /** `\s*```` after the lazy group has ended at `e`: where the closing fence starts, if it does. */
  function ClosingFenceAt(t: string, e: nat): Option<nat>
  {
    if HasAt(t, "```", SkipSpace(t, e)) then Some(SkipSpace(t, e)) else None
  }

  /** Where the fenced body starts when "```json" starts at `p`: after the greedy `\s*`. */
  function BodyStart(t: string, p: nat): nat
  {
    SkipSpace(t, p + 7)
  }

  /**
   * `` ```json\s*(.*?)\s*``` `` tried at `p`, capturing group 1. The lazy group ends at the
   * first `e` from which whitespace and then "```" follow. Backtracking either `\s*` cannot
   * do better: the characters it would give back are whitespace, and no fence starts on
   * whitespace.
   */
  function FenceAt(t: string, p: nat): (r: Option<string>)
    ensures r.Some? <==> HasAt(t, "```json", p) && exists c | BodyStart(t, p) <= c <= |t| - 3 :: HasAt(t, "```", c)
    ensures r.Some? ==> HasAt(t, r.value, BodyStart(t, p))
    ensures r.Some? ==> ClosingFenceAt(t, BodyStart(t, p) + |r.value|).Some?
    ensures r.Some? ==> NoMatchIn(t, ClosingFenceAt, BodyStart(t, p), BodyStart(t, p) + |r.value|)
  {
    if HasAt(t, "```json", p) then
      var a := BodyStart(t, p);
      match Leftmost(t, ClosingFenceAt, a)
      case Some(h) =>
        assert |t[a..h.pos]| == h.pos - a;
        assert HasAt(t, "```", SkipSpace(t, h.pos));
        Some(t[a..h.pos])
      case None =>
        NoClosingFence(t, a);
        None
    else None
  }

  /** A fence starts where it stands: `\s*` cannot skip a backquote. */
  lemma FenceStartsItself(t: string, c: nat)
    requires HasAt(t, "```", c)
    ensures ClosingFenceAt(t, c) == Some(c)
  {
    assert t[c] == '`' && !IsSpace(t[c]);
  }

  /** When the lazy group finds no end, no fence follows its start at all. */
  lemma NoClosingFence(t: string, a: nat)
    requires Leftmost(t, ClosingFenceAt, a).None?
    ensures forall c | a <= c <= |t| - 3 :: !HasAt(t, "```", c)
  {
    forall c | a <= c <= |t| - 3 ensures !HasAt(t, "```", c) {
      if HasAt(t, "```", c) {
        FenceStartsItself(t, c);
      }
    }
  }

  function CloseBraceAt(t: string, i: nat): Option<()>
  {
    if i < |t| && t[i] == '}' then Some(()) else None
  }

  function OpenBraceAt(t: string, i: nat): Option<()>
  {
    if i < |t| && t[i] == '{' then Some(()) else None
  }

  /**
   * `(\{.*\})` tried at `p`: an opening brace, then the greedy `.*` gives back characters
   * until the last closing brace of the text, which must come after `p`.
   */
  function BraceAt(t: string, p: nat): (r: Option<string>)
    ensures r.Some? ==> 2 <= |r.value| && HasAt(t, r.value, p)
    ensures r.Some? ==> r.value[0] == '{' && r.value[|r.value| - 1] == '}'
    ensures p < |t| && t[p] == '{' && Rightmost(t, CloseBraceAt, |t|).Some? && p < Rightmost(t, CloseBraceAt, |t|).value.pos
            ==> r == Some(t[p..Rightmost(t, CloseBraceAt, |t|).value.pos + 1])
  {
    if p < |t| && t[p] == '{' then
      match Rightmost(t, CloseBraceAt, |t|)
      case Some(q) =>
        if p < q.pos then
          var b := t[p..q.pos + 1];
          assert CloseBraceAt(t, q.pos).Some? && b[|b| - 1] == t[q.pos];
          Some(b)
        else None
      case None => None
    else None
  }

  /**
   * The JSON candidate of lines 107-116: the text, else the fenced body, else the brace span,
   * else the text. Whatever is chosen is a piece of the reply text.
   */
  function JsonCandidate(t: string): (r: string)
    ensures Contains(t, r)
  {
    if LeadsWithBrace(t) then ContainsSelf(t); t
    else match Leftmost(t, FenceAt, 0)
      case Some(f) =>
        assert FenceAt(t, f.pos) == Some(f.value);
        ContainsAt(t, f.value, BodyStart(t, f.pos));
        f.value
      case None =>
        match Leftmost(t, BraceAt, 0)
        case Some(b) =>
          assert BraceAt(t, b.pos) == Some(b.value);
          ContainsAt(t, b.value, b.pos);
          b.value
        case None => ContainsSelf(t); t
  }

  /** The rule-based answer: `fallback_process`, whose own failure propagates. */
  function RulesAnswer(userInput: string, now: LocalDateTime, dateparserResult: Option<LocalDateTime>): Result<Answer, Fault>
  {
    match FallbackProcess(userInput, now, dateparserResult)
    case Ok(x) => Ok(FromRules(x))
    case Err(f) => Err(f)
  }

  /**
   * `process_with_gemini` with the two defects of the source corrected (see the findings):
   * every failure of the model path, including a missing API key and an unreadable reply
   * text, falls back to the rule-based classifier.
   */
  function GeminiResult(setup: ModelSetup, reply: ModelReply, loads: string -> Option<Json>,
                        userInput: string, now: LocalDateTime, dateparserResult: Option<LocalDateTime>): (r: Result<Answer, Fault>)
    ensures r.Ok? && r.value.FromModel? <==>
              setup == Authenticated && reply.Replied? && loads(JsonCandidate(reply.text)).Some?
              && HasIntent(loads(JsonCandidate(reply.text)).value)
    ensures r.Ok? && r.value.FromModel? ==> r.value.decoded == loads(JsonCandidate(reply.text)).value
    ensures !(r.Ok? && r.value.FromModel?) ==> r == RulesAnswer(userInput, now, dateparserResult)
  {
    if setup != Authenticated || !reply.Replied? then RulesAnswer(userInput, now, dateparserResult)
    else
      var result := loads(JsonCandidate(reply.text));
      if result.Some? && HasIntent(result.value) then Ok(FromModel(result.value))
      else RulesAnswer(userInput, now, dateparserResult)
  }

  /**
   * `process_with_gemini` as written: with no API key the name `gemini_model` is unbound and
   * its test raises; when reading `response.text` raised, the handler reads it again and
   * the second failure escapes.
   */
  function GeminiResultAsWritten(setup: ModelSetup, reply: ModelReply, loads: string -> Option<Json>,
                                 userInput: string, now: LocalDateTime, dateparserResult: Option<LocalDateTime>): (r: Result<Answer, Fault>)
    ensures setup == ApiKeyUnset ==> r == Err(UndefinedModel)
    ensures setup == Authenticated && reply == TextRaised ==> r == Err(ReplyTextUnavailable)
  {
    if setup == ApiKeyUnset then Err(UndefinedModel)
    else if setup == Authenticated && reply == TextRaised then Err(ReplyTextUnavailable)
    else GeminiResult(setup, reply, loads, userInput, now, dateparserResult)
  }

  /** The corrected flow step by step: the candidate is cut out by reassigning the text, as in the source. */
  method ProcessWithGemini(setup: ModelSetup, reply: ModelReply, loads: string -> Option<Json>,
                           userInput: string, now: LocalDateTime, dateparserResult: Option<LocalDateTime>)
    returns (r: Result<Answer, Fault>)
    ensures r == GeminiResult(setup, reply, loads, userInput, now, dateparserResult)
  {
    if setup != Authenticated || !reply.Replied? {
      return RulesAnswer(userInput, now, dateparserResult);
    }
    var responseText := reply.text;
    if !LeadsWithBrace(responseText) {
      var jsonMatch := Search(responseText, FenceAt, 0);
      if jsonMatch.Some? {
        responseText := jsonMatch.value.value;
      } else {
        var braceMatch := Search(responseText, BraceAt, 0);
        if braceMatch.Some? {
          responseText := braceMatch.value.value;
        }
      }
    }
    var result := loads(responseText);
    if result.Some? && HasIntent(result.value) {
      return Ok(FromModel(result.value));
    }
    return RulesAnswer(userInput, now, dateparserResult);
  }

  /** The lazy group cannot end on whitespace: ending one character earlier would already have matched. */
  lemma LazyGroupEndsOnText(t: string, a: nat, e: nat)
    requires a < e <= |t| && NoMatchIn(t, ClosingFenceAt, a, e) && ClosingFenceAt(t, e).Some?
    ensures !IsSpace(t[e - 1])
  {
    assert ClosingFenceAt(t, e - 1).None?;
    assert SkipSpace(t, e - 1) != SkipSpace(t, e);
  }

  /** The lazy group holds no fence: the match would have ended where that fence starts. */
  lemma LazyGroupHasNoFence(t: string, a: nat, e: nat)
    requires a <= e <= |t| && NoMatchIn(t, ClosingFenceAt, a, e)
    ensures !Contains(t[a..e], "```")
  {
    var b := t[a..e];
    forall c | 0 <= c <= |b| - 3 ensures !HasAt(b, "```", c) {
      assert ClosingFenceAt(t, a + c).None?;
      if HasAt(b, "```", c) {
        HasAtInSlice(t, a, e, "```", c);
      }
    }
  }

  /** The fenced body has no whitespace at either end and contains no fence of its own. */
  lemma FenceBodyTrimmed(t: string, p: nat, b: string)
    requires FenceAt(t, p) == Some(b)
    ensures |b| > 0 ==> !IsSpace(b[0]) && !IsSpace(b[|b| - 1])
    ensures !Contains(b, "```")
  {
    var a := BodyStart(t, p);
    var e := Leftmost(t, ClosingFenceAt, a).value.pos;
    assert b == t[a..e];
    if a < e {
      LazyGroupEndsOnText(t, a, e);
    }
    LazyGroupHasNoFence(t, a, e);
  }

  /** Where no opening brace stands, no brace span starts. */
  lemma NoOpenNoSpan(t: string, lo: nat, hi: nat)
    requires NoMatchIn(t, OpenBraceAt, lo, hi)
    ensures NoMatchIn(t, BraceAt, lo, hi)
  {
    forall j | lo <= j < hi ensures BraceAt(t, j).None? {
      assert OpenBraceAt(t, j).None?;
    }
  }

  /** No brace span starts at or after the last closing brace. */
  lemma NoSpanFromLastClose(t: string, p: nat)
    requires Rightmost(t, CloseBraceAt, |t|).None? || Rightmost(t, CloseBraceAt, |t|).value.pos <= p
    ensures NoMatchIn(t, BraceAt, p, |t|)
  {
  }

  /** When the first opening brace comes before the last closing brace, the span between them is found. */
  lemma BraceSpanFound(t: string, p: nat, q: nat)
    requires Leftmost(t, OpenBraceAt, 0) == Some(Hit(p, ())) && Rightmost(t, CloseBraceAt, |t|) == Some(Hit(q, ()))
    requires p < q
    ensures Leftmost(t, BraceAt, 0) == Some(Hit(p, t[p..q + 1]))
  {
    assert t[p] == '{';
    NoOpenNoSpan(t, 0, p);
    LeftmostIsUnique(t, BraceAt, 0, p, t[p..q + 1]);
  }

  /** Otherwise no brace span is found. */
  lemma BraceSpanAbsent(t: string)
    requires !(Leftmost(t, OpenBraceAt, 0).Some? && Rightmost(t, CloseBraceAt, |t|).Some?
               && Leftmost(t, OpenBraceAt, 0).value.pos < Rightmost(t, CloseBraceAt, |t|).value.pos)
    ensures Leftmost(t, BraceAt, 0).None?
  {
    var o := Leftmost(t, OpenBraceAt, 0);
    if o.None? {
      NoOpenNoSpan(t, 0, |t|);
    } else {
      NoOpenNoSpan(t, 0, o.value.pos);
      NoSpanFromLastClose(t, o.value.pos);
      NoMatchInJoin(t, BraceAt, 0, o.value.pos, |t|);
    }
  }

  /** The brace span runs from the first opening brace to the last closing brace, when the first comes first. */
  lemma BraceSpanFirstToLast(t: string)
    ensures Leftmost(t, BraceAt, 0).Some? <==>
              Leftmost(t, OpenBraceAt, 0).Some? && Rightmost(t, CloseBraceAt, |t|).Some?
              && Leftmost(t, OpenBraceAt, 0).value.pos < Rightmost(t, CloseBraceAt, |t|).value.pos
    ensures Leftmost(t, BraceAt, 0).Some? ==>
              Leftmost(t, BraceAt, 0).value.value
              == t[Leftmost(t, OpenBraceAt, 0).value.pos..Rightmost(t, CloseBraceAt, |t|).value.pos + 1]
  {
    if Leftmost(t, OpenBraceAt, 0).Some? && Rightmost(t, CloseBraceAt, |t|).Some?
       && Leftmost(t, OpenBraceAt, 0).value.pos < Rightmost(t, CloseBraceAt, |t|).value.pos {
      BraceSpanFound(t, Leftmost(t, OpenBraceAt, 0).value.pos, Rightmost(t, CloseBraceAt, |t|).value.pos);
    } else {
      BraceSpanAbsent(t);
    }
  }

  /**
   * The order of lines 107-116: a text that leads with a brace is parsed whole; otherwise the
   * first fenced block; otherwise the first opening brace to the last closing brace; otherwise
   * the text unchanged.
   */
  lemma CandidateOrder(t: string)
    ensures LeadsWithBrace(t) ==> JsonCandidate(t) == t
    ensures !LeadsWithBrace(t) ==> forall p, b | 0 <= p < |t| && FenceAt(t, p) == Some(b) && NoMatchIn(t, FenceAt, 0, p)
              :: JsonCandidate(t) == b
    ensures !LeadsWithBrace(t) && NoMatchIn(t, FenceAt, 0, |t|) ==>
              if Leftmost(t, OpenBraceAt, 0).Some? && Rightmost(t, CloseBraceAt, |t|).Some?
                 && Leftmost(t, OpenBraceAt, 0).value.pos < Rightmost(t, CloseBraceAt, |t|).value.pos
              then JsonCandidate(t) == t[Leftmost(t, OpenBraceAt, 0).value.pos..Rightmost(t, CloseBraceAt, |t|).value.pos + 1]
              else JsonCandidate(t) == t
  {
    forall p, b | 0 <= p < |t| && FenceAt(t, p) == Some(b) && NoMatchIn(t, FenceAt, 0, p) {
      LeftmostIsUnique(t, FenceAt, 0, p, b);
    }
    BraceSpanFirstToLast(t);
  }

  /** A missing API key: the source raises, the corrected flow answers with the rules. */
  lemma MissingApiKeyRaises(reply: ModelReply, loads: string -> Option<Json>,
                            userInput: string, now: LocalDateTime, dateparserResult: Option<LocalDateTime>)
    ensures GeminiResultAsWritten(ApiKeyUnset, reply, loads, userInput, now, dateparserResult) == Err(UndefinedModel)
    ensures GeminiResult(ApiKeyUnset, reply, loads, userInput, now, dateparserResult) == RulesAnswer(userInput, now, dateparserResult)
  {
  }

  /** An utterance that reaches the assistant, "42", shows the first defect: the rules would answer, the source raises. */
  lemma MissingApiKeyOnBareNumber(loads: string -> Option<Json>, now: LocalDateTime)
    ensures GeminiResultAsWritten(ApiKeyUnset, CallRaised, loads, "42", now, None) == Err(UndefinedModel)
    ensures GeminiResult(ApiKeyUnset, CallRaised, loads, "42", now, None)
            == Ok(FromRules(IntentResult(Unknown, None, Say(NotUnderstood))))
  {
    BareNumberIsUnknown();
    RepliesByCategory("42", now, None);
  }

  /** An unreadable reply text: the source raises from its handler, the corrected flow answers with the rules. */
  lemma UnreadableReplyRaises(loads: string -> Option<Json>,
                              userInput: string, now: LocalDateTime, dateparserResult: Option<LocalDateTime>)
    ensures GeminiResultAsWritten(Authenticated, TextRaised, loads, userInput, now, dateparserResult) == Err(ReplyTextUnavailable)
    ensures GeminiResult(Authenticated, TextRaised, loads, userInput, now, dateparserResult) == RulesAnswer(userInput, now, dateparserResult)
  {
  }

  /** Everywhere else the source and the corrected flow agree. */
  lemma AsWrittenAgreesOtherwise(setup: ModelSetup, reply: ModelReply, loads: string -> Option<Json>,
                                 userInput: string, now: LocalDateTime, dateparserResult: Option<LocalDateTime>)
    requires setup != ApiKeyUnset && !(setup == Authenticated && reply == TextRaised)
    ensures GeminiResultAsWritten(setup, reply, loads, userInput, now, dateparserResult)
            == GeminiResult(setup, reply, loads, userInput, now, dateparserResult)
  {
  }
}
