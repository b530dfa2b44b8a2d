/** A rule's finding and the log classifier's opinion, merged into one event. */
module SignalIntegration {
  import opened Sequences
  import opened ResponsePolicy
  import opened ResponseServer

  /** The classifier's answer for a line; its label, the category, arrives stripped. */
  datatype MlSignal = MlSignal(category: string, confidence: real)

  predicate IsStrong(ml: MlSignal, minConfidence: real) {
    ml.category !in {"", "normal", "unknown"} && ml.confidence >= minConfidence
  }

  function BoostSeverity(severity: Severity): Severity {
    match severity
    case Low => Medium
    case Medium => High
    case High => Critical
    case other => other
  }

  function MlOnlySeverity(confidence: real): Severity { if confidence >= 0.9 then Medium else Low }

  /** A confirmed rule finding is raised, a lone rule finding kept, a lone strong signal becomes a soft event. */
  function MergeLogDetection(rule: Option<Event>, ml: Option<MlSignal>, lineIp: string, minConfidence: real)
    : (merged: Option<Event>)
    ensures merged.Some? <==>
              rule.Some?
              || (ml.Some? && ml.value.category !in {"", "normal", "unknown"} && ml.value.confidence >= minConfidence)
    ensures rule.Some? ==>
              merged.value.eventType == rule.value.eventType && merged.value.sourceIp == rule.value.sourceIp
    ensures rule.None? && merged.Some? ==>
              && merged.value.eventType == ml.value.category && merged.value.sourceIp == lineIp
              && merged.value.description == "ML-detected: " + ml.value.category
              && merged.value.severity == if ml.value.confidence >= 0.9 then Medium else Low
  {
    var strong := ml.Some? && IsStrong(ml.value, minConfidence);
    match rule
    case Some(found) =>
      if strong && found.eventType == ml.value.category then
        Some(found.(description := "Rule+ML confirmed: " + found.eventType, severity := BoostSeverity(found.severity)))
      else
        Some(found)
    case None =>
      if strong then
        Some(Event(ml.value.category, MlOnlySeverity(ml.value.confidence), lineIp, "ML-detected: " + ml.value.category))
      else
        None
  }

  /** How bad a severity is; an unknown one is never raised. */
  function Rank(severity: Severity): nat {
    match severity
    case Unknown => 0
    case Low => 1
    case Medium => 2
    case High => 3
    case Critical => 4
  }

  /** A strong classifier that agrees raises a rule's finding one step, up to critical; otherwise nothing changes. */
  lemma ConfirmationRaises(rule: Event, ml: Option<MlSignal>, lineIp: string, minConfidence: real)
    ensures var merged := MergeLogDetection(Some(rule), ml, lineIp, minConfidence).value;
            if ml.Some? && ml.value.category == rule.eventType && ml.value.confidence >= minConfidence
               && ml.value.category !in {"", "normal", "unknown"}
            then && Rank(merged.severity) == (if rule.severity.Unknown? then 0 else Min(4, Rank(rule.severity) + 1))
                 && merged.description == "Rule+ML confirmed: " + rule.eventType
            else merged == rule
  {
  }

  /** Log, review, block. */
  function Strength(action: Action): nat {
    match action
    case Log => 0
    case Review => 1
    case Block => 2
  }

  /** Whatever the classifier says, a rule's finding is never answered more weakly than alone. */
  lemma ConfirmationNeverWeakens(rule: Event, ml: Option<MlSignal>, lineIp: string, minConfidence: real, mode: Mode,
                                 autoBlock: bool, recentEvents: int, threshold: int, cooldownActive: bool)
    ensures var merged := MergeLogDetection(Some(rule), ml, lineIp, minConfidence).value;
            Strength(DecideResponse(rule, mode, autoBlock, recentEvents, threshold, cooldownActive).action)
            <= Strength(DecideResponse(merged, mode, autoBlock, recentEvents, threshold, cooldownActive).action)
  {
    ConfirmationRaises(rule, ml, lineIp, minConfidence);
    hide DecideResponse;
  }

  /** An event that only the classifier saw. */
  function MlOnlyEvent(ml: MlSignal, lineIp: string, minConfidence: real): (e: Event)
    requires IsStrong(ml, minConfidence)
    ensures e.eventType == ml.category && e.sourceIp == lineIp
    ensures e.severity == if ml.confidence >= 0.9 then Medium else Low
  {
    MergeLogDetection(None, Some(ml), lineIp, minConfidence).value
  }

  /** What marks an event that only the classifier saw for a block: its type alone, or repetition at medium severity. */
  predicate MlOnlyBlocks(cfg: Config, context: Context, ml: MlSignal, e: Event, mode: Mode) {
    && mode == AutoDefend && CanBlock(e, cfg.autoBlock, context.cooldownActive)
    && (ml.category in IMMEDIATE_BLOCK_TYPES
        || (ml.confidence >= 0.9 && ml.category in ESCALATABLE_MEDIUM_TYPES
            && context.recentEvents >= cfg.mediumEscalationThreshold))
  }

  /**
   * An event that only the classifier saw goes to review exactly when a standby holds back its block, or
   * when nothing blocks it, the mode acts at all and the confidence reaches 0.9. Otherwise it is blocked
   * or merely logged.
   */
  lemma MlOnlyReviewedIff(cfg: Config, context: Context, ml: MlSignal, lineIp: string, minConfidence: real,
                          mode: Mode, active: bool)
    requires IsStrong(ml, minConfidence)
    ensures var e := MlOnlyEvent(ml, lineIp, minConfidence);
            var taken, blocks := TakenFor(cfg, context, e, mode, active), MlOnlyBlocks(cfg, context, ml, e, mode);
            && (taken == ReviewRequired <==> if blocks then !active else mode != Observe && ml.confidence >= 0.9)
            && (taken == AutoBlock <==> blocks && active)
  {
    var e := MlOnlyEvent(ml, lineIp, minConfidence);
    assert e.severity in {Low, Medium};
  }

  /** It is recorded as that, unless one of the two suppressions drops it. */
  lemma MlOnlyRecordedIff(cfg: Config, t: Tables, ml: MlSignal, lineIp: string, minConfidence: real, ts: int,
                          mode: Mode, active: bool)
    requires IsStrong(ml, minConfidence)
    ensures var e := MlOnlyEvent(ml, lineIp, minConfidence);
            var context := LoadContext(cfg, t, e, ts);
            var blocks := MlOnlyBlocks(cfg, context, ml, e, mode);
            OutcomeFor(cfg, t, e, ts, mode, active) == RecordedAs(ReviewRequired)
            <==> && (if blocks then !active else mode != Observe && ml.confidence >= 0.9)
                 && !SuppressFollowup(e, context) && !SuppressDuplicate(e, ReviewRequired, context)
  {
    hide LoadContext, TakenFor, SuppressFollowup, SuppressDuplicate, MlOnlyBlocks;
    var e := MlOnlyEvent(ml, lineIp, minConfidence);
    MlOnlyReviewedIff(cfg, LoadContext(cfg, t, e, ts), ml, lineIp, minConfidence, mode, active);
  }

  /** Three ways past review: blocked on sight at low severity, only logged, blocked by repetition. */
  lemma MlEventsNotAlwaysReviewed()
    ensures var sqli := MlOnlyEvent(MlSignal("sqli", 0.6), "10.0.0.1", 0.6);
            sqli.severity == Low && DecideResponse(sqli, AutoDefend, true, 1, 3, false).action == Block
    ensures var xss := MlOnlyEvent(MlSignal("xss", 0.6), "10.0.0.1", 0.6);
            xss.severity == Low && DecideResponse(xss, AutoDefend, true, 3, 3, false).action == Log
    ensures var xss := MlOnlyEvent(MlSignal("xss", 0.9), "10.0.0.1", 0.6);
            xss.severity == Medium && DecideResponse(xss, AutoDefend, true, 3, 3, false).action == Block
  {
    assert IsStrong(MlSignal("sqli", 0.6), 0.6) && IsStrong(MlSignal("xss", 0.6), 0.6);
  }
}
