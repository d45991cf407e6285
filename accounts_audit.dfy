/** Audit helpers: the client address of a request and the construction of one audit record. */
module AccountsAudit {
  import opened Wrappers
  import opened Ids
  import PyStr

  /**
   * get_client_ip: the first comma-separated entry of a non-empty
   * X-Forwarded-For header, stripped; otherwise REMOTE_ADDR, with an empty
   * or missing address giving None.
   */
  function ClientIp(forwardedFor: Option<string>, remoteAddr: Option<string>): (r: Option<string>)
    ensures forwardedFor.Some? && forwardedFor.value != [] ==>
              r.Some? && r.value == PyStr.Strip(PyStr.SplitFirst(forwardedFor.value, ','))
    ensures (forwardedFor.None? || forwardedFor.value == []) ==>
              (r.Some? <==> remoteAddr.Some? && remoteAddr.value != []) && (r.Some? ==> r == remoteAddr)
  {
    if forwardedFor.Some? && forwardedFor.value != [] then
      Some(PyStr.Strip(PyStr.SplitFirst(forwardedFor.value, ',')))
    else if remoteAddr.Some? && remoteAddr.value != [] then remoteAddr
    else None
  }

  /** The forwarded address never contains a comma or surrounding whitespace. */
  lemma ForwardedIpIsOneEntry(forwardedFor: string, remoteAddr: Option<string>)
    requires forwardedFor != []
    ensures var ip := ClientIp(Some(forwardedFor), remoteAddr).value;
            ',' !in ip && (ip != [] ==> !PyStr.IsSpace(ip[0]) && !PyStr.IsSpace(ip[|ip| - 1]))
  {
    var first := PyStr.SplitFirst(forwardedFor, ',');
    PyStr.StripIsInfix(first);
  }

  const TargetReprMaxLength: nat := 500

  /** target_repr[:500] if target_repr else ''. */
  function TruncateRepr(s: string): (r: string)
    ensures |r| <= TargetReprMaxLength
    ensures |r| <= |s| && r == s[..|r|]
    ensures |s| <= TargetReprMaxLength ==> r == s
    ensures |s| > TargetReprMaxLength ==> |r| == TargetReprMaxLength
  {
    if |s| > TargetReprMaxLength then s[..TargetReprMaxLength] else s
  }

  /** An audit level name; LEVEL_IMPORTANT is the one an unlisted action gets. */
  type Level = string

  datatype AuditEntry = AuditEntry(
    user: Option<UserId>,
    action: string,
    level: Level,
    targetRepr: string,
    detail: string,
    ipAddress: Option<string>,
    targetUser: Option<UserId>)

  /**
   * The record log_action creates. `actorPk` is the actor's primary key: None
   * both for no actor and for an actor not yet saved, which the code treats
   * alike. `actionLevels` is ACTION_LEVELS and `important` LEVEL_IMPORTANT.
   */
  function MakeEntry(actorPk: Option<UserId>, action: string, targetRepr: string, detail: string,
                     ipAddress: Option<string>, targetUser: Option<UserId>,
                     actionLevels: map<string, Level>, important: Level): (e: AuditEntry)
    ensures e.user == actorPk && e.action == action && e.detail == detail
    ensures e.ipAddress == ipAddress && e.targetUser == targetUser
    ensures e.level == if action in actionLevels then actionLevels[action] else important
    ensures |e.targetRepr| <= TargetReprMaxLength && |e.targetRepr| <= |targetRepr| && e.targetRepr == targetRepr[..|e.targetRepr|]
    ensures |targetRepr| <= TargetReprMaxLength ==> e.targetRepr == targetRepr
  {
    var level := if action in actionLevels then actionLevels[action] else important;
    AuditEntry(actorPk, action, level, TruncateRepr(targetRepr), detail, ipAddress, targetUser)
  }

  /** The audit table. */
  class AuditTrail {
    var entries: seq<AuditEntry>

    constructor()
      ensures entries == []
    {
      entries := [];
    }

    /**
     * log_action: appends the record, or, when the database write fails
     * (`writeFails`), swallows the error and leaves the table as it was.
     * It never reports a failure to its caller.
     */
    method LogAction(actorPk: Option<UserId>, action: string, targetRepr: string, detail: string,
                     ipAddress: Option<string>, targetUser: Option<UserId>,
                     actionLevels: map<string, Level>, important: Level, writeFails: bool)
      modifies this
      ensures writeFails ==> entries == old(entries)
      ensures !writeFails ==>
        entries == old(entries) + [MakeEntry(actorPk, action, targetRepr, detail, ipAddress, targetUser, actionLevels, important)]
    {
      if !writeFails {
        var entry := MakeEntry(actorPk, action, targetRepr, detail, ipAddress, targetUser, actionLevels, important);
        entries := entries + [entry];
      }
    }
  }
}
