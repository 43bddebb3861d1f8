/**
 * Classifying control messages for admission: by kind, operation and direction. What the
 * classifier lets through fits what admission demands of each class, and the safety class
 * is reached only by the messages that may claim it.
 */
module Classification {
  import opened Options
  import opened Admission

  datatype Direction = ControllerToGateway | GatewayToController

  datatype Initiator = Gateway | Controller

  datatype Operation =
    | CallerContextRegister | ControlPing
    | LeaseCreate | LeaseGet | LeasePeek | LeaseReacquire | LeaseRelease
    | LeaseRenew(leaseId: string) | LeaseUseStart | LeaseUseHeartbeat(useLeaseId: string, useId: string) | LeaseUseEnd
    | OperationCancel(initiatedBy: Initiator) | RecoveryCommand
    | ControllerExecution | OauthAvailability | GooglePreflight | Attachment
    | ApprovalDecide | AdmissionReserve | DispatchArm
    | BindingRequest | BindingPublish(bindingPrincipal: string)

  datatype ControlMessage =
    | CommandResult
    | Heartbeat
    | RuntimeReadiness
    | HealthEvent(keyText: string)
    | Command(operation: Operation)

  datatype Verdict =
    | Classified(messageClass: MessageClass, coalesceKey: Option<string>, stablePrincipal: Option<string>)
    | StablePrincipalRequired
    | UnprovenGatewayCancel
    | DirectionViolation
    | ForgedCommandResult

  datatype Circumstances = Circumstances(
    direction: Direction, controllerSafety: bool, matchedPendingResult: bool, stablePrincipal: Option<string>)

  function DirectionText(d: Direction): string {
    if d.ControllerToGateway? then "controller_to_gateway" else "gateway_to_controller"
  }

  function AuthorityVerdict(principal: Option<string>): Verdict {
    if !Present(principal) then StablePrincipalRequired else Classified(Authority, None, principal)
  }

  // The five fields of a health event as a JSON array.
  function DiagnosticKey(keyText: string): string { "[" + keyText + "]" }

  function Classify(m: ControlMessage, at: Circumstances): Verdict {
    match m
    case CommandResult => if at.matchedPendingResult then Classified(Safety, None, None) else ForgedCommandResult
    case Heartbeat => Classified(Liveness, Some(DirectionText(at.direction) + ":control-heartbeat"), None)
    case RuntimeReadiness =>
      if !at.direction.GatewayToController? then DirectionViolation
      else Classified(Liveness, Some("gateway-runtime-readiness"), None)
    case HealthEvent(keyText) =>
      if !at.direction.GatewayToController? then DirectionViolation
      else Classified(Diagnostic, Some(DiagnosticKey(keyText)), None)
    case Command(operation) =>
      if operation.ControlPing? then Classified(Liveness, Some(DirectionText(at.direction) + ":control-ping"), None)
      else if at.direction.ControllerToGateway? then FromController(operation, at)
      else FromGateway(operation, at)
  }

  function FromController(operation: Operation, at: Circumstances): Verdict {
    match operation
    case BindingPublish(principal) =>
      Classified(Authority, Some("tool-vm-binding:" + principal), Some(principal))
    case OperationCancel(initiator) =>
      if at.controllerSafety && initiator.Controller? then Classified(Safety, None, None) else DirectionViolation
    case RecoveryCommand =>
      if at.controllerSafety then Classified(Safety, None, None) else DirectionViolation
    case _ => DirectionViolation
  }

  function FromGateway(operation: Operation, at: Circumstances): Verdict {
    match operation
    case LeaseRenew(lease) =>
      if at.stablePrincipal.None? then StablePrincipalRequired
      else Classified(Liveness, Some(at.stablePrincipal.value + ":lease:" + lease), None)
    case LeaseUseHeartbeat(lease, use) =>
      if at.stablePrincipal.None? then StablePrincipalRequired
      else Classified(Liveness, Some(at.stablePrincipal.value + ":lease:" + lease + ":use:" + use), None)
    case OperationCancel(initiator) =>
      if initiator.Gateway? && at.stablePrincipal.Some? then Classified(Safety, None, at.stablePrincipal)
      else if initiator.Gateway? then UnprovenGatewayCancel
      else DirectionViolation
    case RecoveryCommand => DirectionViolation
    case BindingPublish(_) => DirectionViolation
    case _ => AuthorityVerdict(at.stablePrincipal)
  }

  // The message handed to admission for a classified message.
  function Admissible<T>(v: Verdict, id: string, byteLength: int, payload: T): Message<T>
    requires v.Classified?
  {
    Message(id, byteLength, v.messageClass, v.coalesceKey, v.stablePrincipal, None, payload)
  }

  /**
   * A classified message with an ID and a positive size is never fenced as invalid, unless
   * it publishes a binding without a principal, which the message schema excludes.
   */
  lemma ClassifiedIsValid<T>(m: ControlMessage, at: Circumstances, id: string, byteLength: int, payload: T)
    requires Classify(m, at).Classified? && id != "" && 0 < byteLength <= MAX_SAFE_INTEGER
    ensures Validate(Admissible(Classify(m, at), id, byteLength, payload)) == Some(InvalidMessage) <==>
              byteLength <= MAX_FRAME_BYTES && PublishesWithoutPrincipal(m, at)
  {
    if Classify(m, at).coalesceKey.Some? {
      KeyIsPresent(m, at);
    }
  }

  ghost predicate PublishesWithoutPrincipal(m: ControlMessage, at: Circumstances) {
    m == Command(BindingPublish("")) && at.direction.ControllerToGateway?
  }

  lemma KeyIsPresent(m: ControlMessage, at: Circumstances)
    requires Classify(m, at).Classified? && Classify(m, at).coalesceKey.Some?
    ensures Present(Classify(m, at).coalesceKey)
  {
    assert |Classify(m, at).coalesceKey.value| > 0;
  }

  /** The safety class is reached only by matched results, controller safety operations, and cancels of a proven gateway principal. */
  lemma SafetyIsEarned(m: ControlMessage, at: Circumstances)
    ensures Classify(m, at).Classified? && Classify(m, at).messageClass.Safety? <==>
              || (m.CommandResult? && at.matchedPendingResult)
              || (at.direction.ControllerToGateway? && at.controllerSafety
                  && (m == Command(RecoveryCommand) || m == Command(OperationCancel(Controller))))
              || (at.direction.GatewayToController? && at.stablePrincipal.Some? && m == Command(OperationCancel(Gateway)))
  {
  }

  // ---------- What coalesces ----------

  // Two messages meet in a queue: they are of one coalescing class and have one key.
  ghost predicate Coalesce(x: Verdict, y: Verdict) {
    x.Classified? && y.Classified? && x.messageClass == y.messageClass && Coalesces(x.messageClass) && x.coalesceKey == y.coalesceKey
  }

  lemma SameTail(a: string, b: string, x: string, y: string)
    requires |a| == |b| && a + x == b + y
    ensures a == b && x == y
  {
    assert (a + x)[..|a|] == a && (b + y)[..|b|] == b;
    assert (a + x)[|a|..] == x && (b + y)[|b|..] == y;
  }

  /** Renewals by gateway principals, whose digests are of one length, coalesce exactly if principal and lease are the same. */
  lemma RenewalsCoalesceIff(lease: string, other: string, at: Circumstances, there: Circumstances)
    requires at.direction.GatewayToController? && at.stablePrincipal.Some?
    requires there.direction.GatewayToController? && there.stablePrincipal.Some? && |at.stablePrincipal.value| == |there.stablePrincipal.value|
    ensures Coalesce(Classify(Command(LeaseRenew(lease)), at), Classify(Command(LeaseRenew(other)), there))
            <==> at.stablePrincipal == there.stablePrincipal && lease == other
  {
    var p, q := at.stablePrincipal.value, there.stablePrincipal.value;
    if p + ":lease:" + lease == q + ":lease:" + other {
      SameTail(p + ":lease:", q + ":lease:", lease, other);
      SameTail(p, q, ":lease:", ":lease:");
    }
  }

  /** A renewal and a heartbeat of one principal coalesce exactly if the renewed lease's ID spells out the other's lease and use. */
  lemma RenewalMeetsHeartbeatIff(lease: string, other: string, use: string, at: Circumstances)
    requires at.direction.GatewayToController? && at.stablePrincipal.Some?
    ensures Coalesce(Classify(Command(LeaseRenew(lease)), at), Classify(Command(LeaseUseHeartbeat(other, use)), at))
            <==> lease == other + ":use:" + use
  {
    var p := at.stablePrincipal.value;
    assert p + ":lease:" + other + ":use:" + use == p + ":lease:" + (other + ":use:" + use);
    if p + ":lease:" + lease == p + ":lease:" + (other + ":use:" + use) {
      SameTail(p + ":lease:", p + ":lease:", lease, other + ":use:" + use);
    }
  }
}
