/** Worked replies for the JSON-candidate extraction. */
module GeminiExamples {
  import opened Wrappers
  import opened Text
  import opened Scan
  import opened Gemini

  /** A fenced block can only start on a backquote. */
  lemma NoBackquoteNoFence(t: string, lo: nat, hi: nat)
    requires hi <= |t| && forall j | lo <= j < hi :: t[j] != '`'
    ensures NoMatchIn(t, FenceAt, lo, hi)
  {
    forall j | lo <= j < hi ensures FenceAt(t, j).None? {
      NotHasAt(t, "```json", j);
    }
  }

  /** Prose, then a fenced block holding an empty object. */
  const FencedReply: string := "Sure:\n```json\n{}\n```"

  lemma FencedReplyProse()
    ensures forall j | 0 <= j < 6 :: FencedReply[j] != '`'
  {
  }

  lemma FencedReplyBodyEnd()
    ensures Leftmost(FencedReply, ClosingFenceAt, 14) == Some(Hit(16, 17))
  {
    assert SkipSpace(FencedReply, 14) == 14 && SkipSpace(FencedReply, 15) == 15;
    assert SkipSpace(FencedReply, 17) == 17 && SkipSpace(FencedReply, 16) == 17;
    assert FencedReply[17..20] == "```";
    LeftmostIsUnique(FencedReply, ClosingFenceAt, 14, 16, 17);
  }

  lemma FencedReplyFence()
    ensures FenceAt(FencedReply, 6) == Some("{}")
  {
    assert SkipSpace(FencedReply, 14) == 14 && SkipSpace(FencedReply, 13) == 14;
    assert FencedReply[6..13] == "```json";
    FencedReplyBodyEnd();
    assert BodyStart(FencedReply, 6) == 14 && FencedReply[14..16] == "{}";
  }

  /** The fenced object is cut out, without the whitespace around it. */
  lemma FencedReplyCandidate()
    ensures JsonCandidate(FencedReply) == "{}"
  {
    assert SkipSpace(FencedReply, 0) == 0;
    FencedReplyProse();
    NoBackquoteNoFence(FencedReply, 0, 6);
    FencedReplyFence();
    LeftmostIsUnique(FencedReply, FenceAt, 0, 6, "{}");
  }

  /** Two objects in prose: the greedy span runs from the first to the last brace. */
  const GreedyReply: string := "a {} b {} c"

  lemma GreedyReplyHasNoBackquote()
    ensures forall j | 0 <= j < |GreedyReply| :: GreedyReply[j] != '`'
  {
  }

  lemma GreedyReplyHasNoFence()
    ensures Leftmost(GreedyReply, FenceAt, 0).None?
  {
    GreedyReplyHasNoBackquote();
    NoBackquoteNoFence(GreedyReply, 0, |GreedyReply|);
  }

  lemma GreedyReplyBraces()
    ensures Leftmost(GreedyReply, OpenBraceAt, 0) == Some(Hit(2, ()))
    ensures Rightmost(GreedyReply, CloseBraceAt, |GreedyReply|) == Some(Hit(8, ()))
  {
    LeftmostIsUnique(GreedyReply, OpenBraceAt, 0, 2, ());
    assert CloseBraceAt(GreedyReply, 10).None? && CloseBraceAt(GreedyReply, 9).None?;
  }

  lemma GreedyReplyBraceSpan()
    ensures Leftmost(GreedyReply, BraceAt, 0) == Some(Hit(2, GreedyReply[2..9]))
  {
    GreedyReplyBraces();
    BraceSpanFirstToLast(GreedyReply);
  }

  lemma GreedyReplyProse()
    ensures !LeadsWithBrace(GreedyReply) && GreedyReply[2..9] == "{} b {}"
  {
    assert SkipSpace(GreedyReply, 0) == 0;
  }

  lemma GreedyReplyCandidate()
    ensures JsonCandidate(GreedyReply) == "{} b {}"
  {
    GreedyReplyProse();
    GreedyReplyHasNoFence();
    GreedyReplyBraceSpan();
  }
}
