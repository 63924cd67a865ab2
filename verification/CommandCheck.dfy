/**
 The checks `execute` makes before it touches the hardware, and the responses it builds.
 */
module CommandCheck {
  import opened Options

  // expires_at as the agent sees it: absent, not a timestamp, or an instant.
  datatype Expiry = NoExpiry | Unparsable | At(time: int)

  datatype Request = Request(
    commandId: string,
    gatewayId: string,
    channelId: string,
    action: string,
    expiresAt: Expiry,
    requireAck: bool)

  datatype Status = Executed | Rejected | Failed

  datatype Reason =
    | MissingCommandId
    | WrongGateway
    | InvalidExpiry
    | Expired
    | UnknownChannel
    | InvalidAction

  datatype Verdict = Refuse(reason: Reason) | Proceed(value: int)

  function ActionToValue(action: string): Option<int> {
    if action in {"ON", "on", "1", "true"} then Some(1)
    else if action in {"OFF", "off", "0", "false"} then Some(0)
    else None
  }

  // The words of the two actions.
  lemma ActionWords(action: string)
    ensures ActionToValue(action) == Some(1) <==> action in {"ON", "on", "1", "true"}
    ensures ActionToValue(action) == Some(0) <==> action in {"OFF", "off", "0", "false"}
    ensures ActionToValue(action).Some? ==> ActionToValue(action).value in {0, 1}
  {
  }

  function Check(req: Request, gatewayId: string, now: int, channels: set<string>): Verdict {
    if req.commandId == "" then Refuse(MissingCommandId)
    else if req.gatewayId != "" && req.gatewayId != gatewayId then Refuse(WrongGateway)
    else if req.expiresAt.Unparsable? then Refuse(InvalidExpiry)
    else if req.expiresAt.At? && now > req.expiresAt.time then Refuse(Expired)
    else if req.channelId !in channels then Refuse(UnknownChannel)
    else match ActionToValue(req.action)
      case None => Refuse(InvalidAction)
      case Some(v) => Proceed(v)
  }

  // A command reaches the hardware exactly when it is named, addressed to this gateway or
  // to none, not known to be expired, and asks a known channel for a known action.
  lemma ProceedsExactlyWhen(req: Request, gatewayId: string, now: int, channels: set<string>, value: int)
    ensures Check(req, gatewayId, now, channels) == Proceed(value) <==>
              && req.commandId != ""
              && req.gatewayId in {"", gatewayId}
              && (req.expiresAt == NoExpiry || (req.expiresAt.At? && now <= req.expiresAt.time))
              && req.channelId in channels
              && ((value == 1 && req.action in {"ON", "on", "1", "true"})
                  || (value == 0 && req.action in {"OFF", "off", "0", "false"}))
    ensures Check(req, gatewayId, now, channels) == Proceed(value) ==> ActionToValue(req.action) == Some(value)
  {
    ActionWords(req.action);
  }

  // The reason of a refusal is the first check that fails.
  lemma RefusedExactlyWhen(req: Request, gatewayId: string, now: int, channels: set<string>, reason: Reason)
    ensures Check(req, gatewayId, now, channels) == Refuse(reason) <==>
              match reason
              case MissingCommandId => req.commandId == ""
              case WrongGateway => req.commandId != "" && req.gatewayId !in {"", gatewayId}
              case InvalidExpiry => req.commandId != "" && req.gatewayId in {"", gatewayId} && req.expiresAt.Unparsable?
              case Expired =>
                && req.commandId != "" && req.gatewayId in {"", gatewayId}
                && req.expiresAt.At? && now > req.expiresAt.time
              case UnknownChannel =>
                && req.commandId != "" && req.gatewayId in {"", gatewayId}
                && (req.expiresAt == NoExpiry || (req.expiresAt.At? && now <= req.expiresAt.time))
                && req.channelId !in channels
              case InvalidAction =>
                && req.commandId != "" && req.gatewayId in {"", gatewayId}
                && (req.expiresAt == NoExpiry || (req.expiresAt.At? && now <= req.expiresAt.time))
                && req.channelId in channels
                && req.action !in {"ON", "on", "1", "true", "OFF", "off", "0", "false"}
  {
    ActionWords(req.action);
  }
}
