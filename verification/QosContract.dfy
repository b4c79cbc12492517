/** What each route QoS promises and which modules accept it (`runtime/src/ev_qos_contract.c`). */
module QosContract {
  import opened Results
  import opened Mailboxes

  datatype FailureBehavior = StrictFailure | DropAllowed | CoalesceFailure | ReplaceLatest

  datatype Contract = Contract(behavior: FailureBehavior, wakeup: bool, command: bool, telemetry: bool)

  /** Numeric code of a QoS, as module descriptors write their policy. */
  function Code(q: Qos): nat {
    match q
    case Critical => 0
    case BestEffort => 1
    case Lossy => 2
    case Coalesced => 3
    case LatestOnly => 4
    case WakeupCritical => 5
    case Telemetry => 6
    case Command => 7
  }

  function ContractFor(q: Qos): Contract {
    match q
    case Critical => Contract(StrictFailure, false, false, false)
    case WakeupCritical => Contract(StrictFailure, true, false, false)
    case Command => Contract(StrictFailure, false, true, false)
    case BestEffort => Contract(DropAllowed, false, false, false)
    case Lossy => Contract(DropAllowed, false, false, false)
    case Telemetry => Contract(DropAllowed, false, false, true)
    case Coalesced => Contract(CoalesceFailure, false, false, false)
    case LatestOnly => Contract(ReplaceLatest, false, false, false)
  }

  /** A QoS code outside the enumeration is treated as strict. */
  predicate IsStrict(q: Option<Qos>) {
    q.None? || ContractFor(q.value).behavior == StrictFailure
  }

  /** Traffic that must not be lost in silence: critical, wake-up and command routes, and unknown classes. */
  predicate MustArrive(q: Option<Qos>) {
    q.None? || q.value in {Critical, WakeupCritical, Command}
  }

  /** A class fails strictly exactly if it must arrive; of the others two make room in their own way. */
  lemma StrictClasses(q: Option<Qos>)
    ensures IsStrict(q) <==> MustArrive(q)
    ensures q.Some? ==> (ContractFor(q.value).behavior.CoalesceFailure? <==> q.value == Coalesced)
    ensures q.Some? ==> (ContractFor(q.value).behavior.ReplaceLatest? <==> q.value == LatestOnly)
  {
  }

  lemma CodesAreDistinct(q: Qos, p: Qos)
    ensures Code(q) == Code(p) ==> q == p
    ensures Code(q) < 8 && Code(Critical) == 0
  {
  }

  predicate PolicyAccepts(policy: nat, q: Qos) {
    || policy == 0 || policy == Code(q)
    || (policy == Code(WakeupCritical) && q == Critical)
    || (policy == Code(Telemetry) && q in {Telemetry, BestEffort, Lossy, Critical})
    || (policy == Code(Command) && q in {Command, Critical})
  }

  function ValidateRoute(q: Option<Qos>, policy: nat): Result {
    if q.None? then ErrOutOfRange
    else if !PolicyAccepts(policy, q.value) then ErrPolicy
    else
      var c := ContractFor(q.value);
      if c.wakeup && policy != Code(WakeupCritical) then ErrPolicy
      else if c.command && policy != Code(Command) then ErrPolicy
      else if c.telemetry && policy != Code(Telemetry) then ErrPolicy
      else Ok
  }

  /**
   The compatibility table the checks amount to.  A module without a policy takes
   everything except wake-up, command and telemetry traffic, which only modules
   declaring that policy take; such modules take critical traffic too, and telemetry
   modules also take traffic that may be dropped.
   */
  lemma CompatibilityTable(q: Option<Qos>, policy: nat)
    ensures ValidateRoute(q, policy) == if q.None? then ErrOutOfRange else if Compatible(q, policy) then Ok
            else ErrPolicy
  {
  }

  predicate Compatible(q: Option<Qos>, policy: nat) {
    && q.Some?
    && (|| (policy == 0 && q.value !in {WakeupCritical, Command, Telemetry})
        || (policy == Code(q.value) && policy != 0)
        || (q.value == Critical && policy in {5, 6, 7})
        || (policy == 6 && q.value in {BestEffort, Lossy}))
  }
}
