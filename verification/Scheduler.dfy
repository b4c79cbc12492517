/** Binding the execution domains of a scheduler (`runtime/src/ev_runtime_scheduler.c`). */
module Scheduler {
  import opened Results
  import opened ActorRuntime
  import DP = DomainPump
  import SP = SystemPump

  /** A domain is active when its bit is set; an empty mask activates every domain. */
  predicate Active(mask: nat, i: nat)
    requires i < SP.DOMAIN_COUNT
  {
    mask == 0 || mask / [1, 2, 4, 8][i] % 2 == 1
  }

  /** Exactly the active domains are bound, each to a pump of its own domain over the same registry. */
  method Init<W>(registry: Registry<W>, mask: nat) returns (rc: Result, system: SP.SystemPump<W>)
    requires registry.Valid() && |registry.bound| > 0
    ensures rc == Ok && fresh(system) && system.Valid() && system.registry == registry
    ensures forall i :: 0 <= i < SP.DOMAIN_COUNT ==> (system.slots[i] != null <==> Active(mask, i))
  {
    hide Active;
    system := new SP.SystemPump(registry);
    var i := 0;
    while i < SP.DOMAIN_COUNT
      invariant i <= SP.DOMAIN_COUNT && fresh(system) && system.Valid() && system.registry == registry
      invariant forall j :: 0 <= j < SP.DOMAIN_COUNT ==> (system.slots[j] != null <==> j < i && Active(mask, j))
    {
      if Active(mask, i) {
        var pump := new DP.DomainPump(registry, SP.DomainAt(i));
        rc := system.Bind(i, pump);
        if rc != Ok {
          return;
        }
      }
      i := i + 1;
    }
    rc := Ok;
  }
}
