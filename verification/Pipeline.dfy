/** From an Anthropic request to the prompt that is sent: translation, check and truncation together. */
module Pipeline {
  import opened Conversation
  import opened ContextWindow
  import opened ToolState
  import opened Anthropic
  import opened AnthropicLimits
  import Atoms
  import Truncation
  import TruncationLimits
  import SessionKeys
  import SessionResolver

  /** From the Anthropic request to the truncated prompt: whatever the window keeps is still accepted. */
  lemma TranslatedThenTruncated(req: Request, r: Rendering, budget: int, cost: Atoms.Cost)
    requires WellTyped(req.turns) && AnswersBeforeNextBody(req.turns)
    requires SlidingWindow(Translation(req, r), budget, cost).Window?
    ensures Accepts(SlidingWindow(Translation(req, r), budget, cost).kept)
  {
    TranslationIsValidExactly(req, r);
    TranslationIsStandard(req, r);
    Truncation.TruncationKeepsProtocol(Translation(req, r), budget, cost);
  }

  /** And only such requests survive every budget, whatever the messages cost. */
  lemma TranslatedThenTruncatedExactly(req: Request, r: Rendering, cost: Atoms.Cost)
    requires WellTyped(req.turns) && TruncationLimits.Positive(Translation(req, r), cost)
    ensures (forall budget: int | SlidingWindow(Translation(req, r), budget, cost).Window? ::
               Accepts(SlidingWindow(Translation(req, r), budget, cost).kept))
            <==> AnswersBeforeNextBody(req.turns)
  {
    TranslationIsValidExactly(req, r);
    TranslationIsStandard(req, r);
    TruncationLimits.TruncationSafeExactly(Translation(req, r), cost);
  }

  /** A resume by prefix cuts the request at an atom boundary. */
  lemma PrefixResumeCuts(e: SessionResolver.State, q: SessionResolver.Query, now: int, cfg: SessionResolver.Config,
                         s': SessionResolver.State, r: SessionResolver.Reply)
    requires SessionResolver.ResolveFrom(e, q, now, cfg, s', r) && r.Resumed? && r.how.ByPrefix?
    ensures 0 < r.historyLen <= |q.messages| && Boundary(q.messages, r.historyLen)
  {
    hide SessionResolver.NotBetter, SessionResolver.Scoreless;
    var id, n :| SessionResolver.Best(e, q, now, cfg, SessionResolver.ByPrefix, id, n)
                 && SessionResolver.Returns(e, id, SessionResolver.ByPrefix, n, r);
  }

  /** What is sent after a resume by prefix, the messages behind those the conversation has, is itself a conversation
      that passes the tool protocol check with every result adjacent. */
  lemma PrefixResumeKeepsProtocol(s: SessionResolver.State, q: SessionResolver.Query, now: int,
                                  cfg: SessionResolver.Config, s': SessionResolver.State, r: SessionResolver.Reply)
    requires Truncation.WellFormed(q.messages)
    requires SessionResolver.ResolveStep(s, q, now, cfg, s', r) && r.Resumed? && r.how.ByPrefix?
    ensures r.historyLen <= |q.messages| && Truncation.WellFormed(q.messages[r.historyLen..])
  {
    var e :| SessionResolver.Evicted(s, e, now, cfg) && SessionResolver.ResolveFrom(e, q, now, cfg, s', r);
    PrefixResumeCuts(e, q, now, cfg, s', r);
    Truncation.BoundaryIsQuiet(q.messages, r.historyLen);
    Truncation.RestIsWellFormedExactly(q.messages, r.historyLen);
  }
}
