/** The response policy: one event and its context in, one decision out. */
module ResponsePolicy {
  import opened Sequences

  datatype Severity = Unknown | Low | Medium | High | Critical

  /** Every mode the source does not name behaves like auto-defend. */
  datatype Mode = Observe | Assist | AutoDefend

  datatype Event = Event(eventType: string, severity: Severity, sourceIp: string, description: string)

  datatype Action = Log | Review | Block

  datatype Priority = LowPriority | NormalPriority | HighPriority | Urgent

  datatype Response = Response(action: Action, stage: string, reason: string, priority: Priority,
                               ip: Option<string>, highlight: bool)

  const IMMEDIATE_BLOCK_TYPES: set<string> := {"ssh_brute_force", "sqli", "command_injection"}
  const ESCALATABLE_MEDIUM_TYPES: set<string> :=
    {"path_traversal", "xss", "port_scan", "ssh_user_enum", "sensitive_path_probe", "scanner_probe"}
  const CREDENTIAL_ABUSE_TYPES: set<string> := {"ssh_brute_force", "ssh_user_enum", "web_login_bruteforce"}
  const RECONNAISSANCE_TYPES: set<string> := {"port_scan", "sensitive_path_probe", "scanner_probe"}
  const ACTIVE_ATTACK_TYPES: set<string> := {"sqli", "xss", "path_traversal", "command_injection"}

  predicate Escalates(e: Event, recentEvents: int, threshold: int) {
    e.severity.Medium? && e.eventType in ESCALATABLE_MEDIUM_TYPES && recentEvents >= threshold
  }

  /** Containment needs an address, the auto-block switch, and no running cooldown. */
  predicate CanBlock(e: Event, autoBlock: bool, cooldownActive: bool) {
    autoBlock && e.sourceIp != "" && !cooldownActive
  }

  function DecideResponse(e: Event, mode: Mode, autoBlock: bool, recentEvents: int, threshold: int,
                          cooldownActive: bool): (r: Response)
    ensures r.action == Block <==>
            && mode == AutoDefend
            && CanBlock(e, autoBlock, cooldownActive)
            && (e.severity.Critical? || e.severity.High? || e.eventType in IMMEDIATE_BLOCK_TYPES
                || Escalates(e, recentEvents, threshold))
    ensures r.action == Block ==> r.ip == Some(e.sourceIp)
    ensures r.action != Block ==> r.ip == None && !r.highlight
    ensures r.action == Review ==> mode != Observe && e.severity in {Medium, High, Critical}
    ensures mode != Observe && e.severity in {Medium, High, Critical} ==> r.action != Log
    ensures r.highlight ==> e.severity.Critical?
    ensures r.action == Log <==> r.stage == "observe"
    ensures r.action == Review <==> r.stage == "review"
    ensures r.priority == LowPriority <==> r.action == Log
    ensures r.action == Review && r.priority == Urgent ==> e.severity.Critical?
    ensures r.action == Review && r.priority == NormalPriority <==> r.action == Review && e.severity.Medium?
    ensures r.action == Block ==> r.priority in {HighPriority, Urgent}
    ensures r.action == Block && r.priority == HighPriority ==> r.stage == "contain" && !e.severity.Critical?
  {
    var sev := e.severity;
    if mode.Observe? then
      Response(Log, "observe", "observe_mode", LowPriority, None, false)
    else if mode.Assist? then
      if sev.Medium? || sev.High? || sev.Critical? then
        var priority := if sev.Critical? then Urgent else if sev.High? then HighPriority else NormalPriority;
        Response(Review, "review", "assist_mode", priority, None, false)
      else
        Response(Log, "observe", "log_only", LowPriority, None, false)
    else
      var canBlock := CanBlock(e, autoBlock, cooldownActive);
      if sev.Critical? && canBlock then
        Response(Block, "block", "critical_severity", Urgent, Some(e.sourceIp), true)
      else if sev.High? && canBlock then
        var reason := if e.eventType in ACTIVE_ATTACK_TYPES then "active_attack_high_confidence"
                      else "high_severity_containment";
        Response(Block, "contain", reason, HighPriority, Some(e.sourceIp), false)
      else if e.eventType in IMMEDIATE_BLOCK_TYPES && canBlock then
        var reason := if e.eventType in CREDENTIAL_ABUSE_TYPES then "credential_attack_first_seen"
                      else "policy_block_on_first_seen";
        Response(Block, "block", reason, Urgent, Some(e.sourceIp), sev.Critical?)
      else if Escalates(e, recentEvents, threshold) && canBlock then
        var reason := if e.eventType in CREDENTIAL_ABUSE_TYPES then "credential_attack_escalation"
                      else if e.eventType in RECONNAISSANCE_TYPES then "reconnaissance_escalation"
                      else "medium_repetition_escalation";
        Response(Block, "contain", reason, HighPriority, Some(e.sourceIp), false)
      else if cooldownActive && (sev.Medium? || sev.High? || sev.Critical?) then
        Response(Review, "review", "cooldown_active",
                 if sev.High? || sev.Critical? then HighPriority else NormalPriority, None, false)
      else if (sev.High? || sev.Critical?) && !canBlock then
        Response(Review, "review", "manual_containment_required",
                 if sev.Critical? then Urgent else HighPriority, None, false)
      else if sev.Medium? || sev.High? || sev.Critical? then
        var reason := if e.eventType in RECONNAISSANCE_TYPES then "reconnaissance_review" else "operator_review";
        Response(Review, "review", reason, if sev.High? then HighPriority else NormalPriority, None, false)
      else
        Response(Log, "observe", "log_only", LowPriority, None, false)
  }

  /** On first sight, at low severity, three types are blocked where containment is possible, and no others. */
  lemma FirstSightBlocksIff(e: Event, recentEvents: int, threshold: int)
    requires e.severity.Low? && e.sourceIp != ""
    ensures DecideResponse(e, AutoDefend, true, recentEvents, threshold, false).action == Block
       <==> e.eventType in {"ssh_brute_force", "sqli", "command_injection"}
  {
  }

  /** At medium severity six more are, once they repeat often enough; anything else of medium severity is reviewed. */
  lemma RepetitionBlocksIff(e: Event, recentEvents: int, threshold: int)
    requires e.severity.Medium? && e.sourceIp != ""
    requires e.eventType !in {"ssh_brute_force", "sqli", "command_injection"}
    ensures var action := DecideResponse(e, AutoDefend, true, recentEvents, threshold, false).action;
            && (action == Block
                <==> && recentEvents >= threshold
                     && e.eventType in {"path_traversal", "xss", "port_scan", "ssh_user_enum", "sensitive_path_probe",
                                        "scanner_probe"})
            && action != Log
  {
  }

  /** What the reasons tell an operator. */
  lemma ReasonsTell(e: Event, mode: Mode, autoBlock: bool, recentEvents: int, threshold: int, cooldownActive: bool)
    ensures var r := DecideResponse(e, mode, autoBlock, recentEvents, threshold, cooldownActive);
            var serious := e.severity.High? || e.severity.Critical?;
            && (r.reason == "observe_mode" <==> mode.Observe?)
            && (r.reason == "assist_mode" <==> mode.Assist? && r.action == Review)
            && (r.reason == "log_only" <==> !mode.Observe? && r.action == Log)
            && (r.reason == "cooldown_active" <==> mode.AutoDefend? && r.action == Review && cooldownActive)
            && (r.reason == "manual_containment_required"
                <==> mode.AutoDefend? && serious && !cooldownActive && (!autoBlock || e.sourceIp == ""))
            && (r.reason == "critical_severity" <==> r.action == Block && e.severity.Critical?)
            && (r.reason == "active_attack_high_confidence"
                <==> r.action == Block && e.severity.High?
                     && e.eventType in {"sqli", "xss", "path_traversal", "command_injection"})
  {
  }
}
