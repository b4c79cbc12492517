# Verified model of the event-driven actor framework

This project models the messaging kernel of the framework, the services around it and
four self-contained actors in Dafny, and proves what they keep over every run. Code that
works in place is modelled by classes whose methods are proved against a specification;
what the framework promises is then proved about the specification, for all inputs, all
runs and all behaviour of handlers, ports and buses.

`dafny verify dfyconfig.toml` checks everything.

## How the model is built

* **Messages and leases** (`Messages`, `Leases`, `Mailboxes`, `Ownership`). A lease pool
  over an array of slots and a ring mailbox over an array of messages refine a pool value
  and a bounded queue. `Ownership` is the transition system of everything that can hold a
  share: handles, messages held by publishers and actors, queued copies. Its invariant is
  that reference counts are owner counts.
* **Scheduling** (`Rotation`, `ActorRuntime`, `DomainPump`, `SystemPump`, `Scheduler`,
  `RuntimeLoop`). Handlers are arbitrary functions from a world and a message to a new
  world, a result and a list of client actions (posts, acquisitions, disposals and so on)
  on the kernel. Every handler call is logged, and every method says that what happened is
  exactly the calls it logged, so the ownership invariant is carried from the handlers up to
  a poll of the runtime; budgets, fairness and waiting times are stated about the same log.
  A poll of the runtime is a sequence of events, each the one a small protocol function asks
  for next.
* **Routing and delivery** (`QosContract`, `Routes`, `Delivery`). The span index is proved
  equal to a linear scan. What publishing along entries means is stated over the entries
  walked and the attempts logged, and the fan-out over the scan is proved to do it.
* **Timers** (`Timers`). One specification with two clocks, wrapping and unbounded, and a
  simulation between them.
* **Sleep** (`PowerStates`, `Quiescence`, `Sleep`). The state machine, the quiescence
  check, the arming callbacks and the power actor, with every call out recorded.
* **Display** (`OledPanel`, `OledLink`, `Oled`). A panel memory with both controllers'
  addressing, a bus that may fail at any transfer, and the actor's dirty windows on top.
* **Buttons, outbox, commands, clock** (`PanelButtons`, `Outbox`, `KeyValues`, `Commands`,
  `Rtc`).

Catalogs, capacities that headers leave open, fonts, port results and delivery results are
parameters.

## Where a stronger claim is false

* A handler that returns the empty error makes its domain pump forget the messages of that
  visit (`core/src/ev_domain_pump.c:254`). `DomainPump.Run` counts them as lost and says
  that nothing is lost exactly when no handler returned it.
* After a failing turn the system pump adds one to its cumulative turns although the report
  may hold more (`core/src/ev_system_pump.c:231-236`); `SystemPump.Run` states both cases.
* A share taken at the 32-bit maximum of a counter, a release of a handle one does not hold,
  and a payload set by hand with the pool's callbacks break the count.
  `RetainKeepsExactly`, `ReleaseKeepsExactly`, `PostKeepsExactly`, `AttachKeepsExactly` and
  `SetExternalKeepsExactly` give the exact conditions, `FanOutKeepsOwnership` that of a
  fan-out, and `DisciplineIsExact` that of a whole run.
* A timer token can cancel a later timer of the same slot, after exactly a positive
  multiple of 65535 further schedules; `StaleTokenRevives` is such a run.
* Dropping the oldest item of the outbox ignores its category, so a category can exceed its
  limit; `LimitIsKeptExactly` says when.
* The display state becomes ready after a failed repaint
  (`actors/device/ev_oled_actor.c:382-383`). A ready panel is right if and only if the cells
  the bus did not bring were right before (`TryInitialize`); `ReadyButWrong` is a boot after
  which they were not.
* A scene committed after a failed flush
  recomputes the windows against the framebuffer, so cells the failed flush already wrote
  may fall outside them. The panel is then right outside the windows if and only if each
  cell it shows wrongly lies between two cells of its page that the scene changes
  (`PrepareSceneCommit`, `HandleCommitFrame`); `BlankSceneHidesFailedFlush` is a run in which
  nothing is pending any more and the panel is wrong.
* The quiescence check looks at the earliest deadline only, so under a policy that does not
  hold due timers against sleeping an overdue timer hides a near one (`OverdueHidesNear`);
  with no timer due, `WindowIsLeft` says the check is exact.
* The sleep arming flag is restored on every path unless the request armed and no disarm
  callback is configured.
* The expiry check inside a sleep confirmation is never reached by an expired arming.

## Model

| member | source | states |
|---|---|---|
| `Bits.PowerOfTwoTestIsExact` | core/src/ev_mailbox.c:22-25 | The `n & (n - 1)` test accepts exactly the powers of two, for every natural number. |
| `Bits.MaskIsMod` | core/src/ev_mailbox.c:27-30 | For every capacity the test accepts, masking with `capacity - 1` is the remainder, so head and tail always index the storage. |
| `Leases.LeasePool.Init` | core/src/ev_lease_pool.c:86-117 | A pool is created exactly for a non-zero slot count and size, with every slot free, uncounted and at generation 0. |
| `Leases.LeasePool.Acquire` | core/src/ev_lease_pool.c:119-162 | The array scan takes the first free slot, gives it one share and a fresh non-zero generation, and leaves every other slot and all other statistics alone; a full pool and a bad size change only the failure counter. |
| `Leases.LeasePool.Retain` | core/src/ev_lease_pool.c:184-199 | Only a live handle gains a share; a dead one is counted as stale and nothing else changes. |
| `Leases.LeasePool.Release` | core/src/ev_lease_pool.c:201-224 | Only a live handle loses a share; the last share frees the slot, any other outcome leaves the slots as they were. |
| `Leases.LeasePool.RetainSlot` | core/src/ev_lease_pool.c:44-63 | The retain callback of a message adds a share only if context, pointer and size still name a slot in use. |
| `Leases.LeasePool.ReleaseSlot` | core/src/ev_lease_pool.c:65-84 | The release callback gives back one share under the same conditions and is otherwise silent. |
| `Leases.LeasePool.Attach` | core/src/ev_lease_pool.c:231-275 | Attaching takes a share of its own before it replaces the old payload; a refused attachment leaves message and pool balanced. |
| `Leases.LeasePool.RetainMsg` | core/src/ev_msg.c:205-241 | A message takes one more share only when its payload carries a retain callback, and validation failures change nothing. |
| `Leases.LeasePool.SetInlinePayload` | core/src/ev_msg.c:100-143 | Replacing a payload by bytes gives the old share back exactly once; on every refusal pool and message are unchanged. |
| `Leases.LeasePool.SetExternalPayload` | core/src/ev_msg.c:145-203 | Replacing a payload by an external one gives the old share back exactly once and keeps the new callbacks and size. |
| `Leases.LeasePool.Dispose` | core/src/ev_dispose.c:5-32 | Disposing gives back the payload's share, empties the message and marks it disposed, at most once. |
| `Leases.AcquireIsExact` | core/src/ev_lease_pool.c:119-162 | A lease is granted if and only if the size fits and a slot is free: the first free slot, one share, a generation it did not have; a refusal changes no slot. |
| `Leases.AcquiredIsLive` | core/src/ev_lease_pool.c:119-162 | The handle of a new lease is live, was not before, and every other handle is as live as it was. |
| `Leases.ReleaseUndoesRetain` | core/src/ev_lease_pool.c:184-224 | A retain and a release of a live handle give back the slots as they were. |
| `Leases.LastReleaseFrees` | core/src/ev_lease_pool.c:201-224 | A release takes exactly one share; the last one frees the slot and kills every handle to it, and no other slot changes. |
| `Leases.DeadHandleChangesNothing` | core/src/ev_lease_pool.c:184-275 | Retaining, releasing or attaching a dead handle is refused and changes only the stale counter. |
| `Leases.AttachIsExact` | core/src/ev_lease_pool.c:231-275 | A live lease is attached if and only if the message is undisposed and of a known lease event; it then names the slot and its size, the old share is given back after the new one was taken, and a refusal leaves message and slots as they were. |
| `Leases.ValidIsBuilt` | core/src/ev_msg.c:100-316 | The validator accepts exactly the undisposed envelopes with known event, source and target that carry what a successful payload setter puts there. |
| `Mailboxes.Mailbox.PushMsg` | core/src/ev_mailbox.c:237-350 | For every mailbox kind the masked ring does what the bounded-sequence specification does: append, evict the oldest, replace, coalesce or refuse, with the same pool, counters and result. |
| `Mailboxes.Mailbox.PushWithQos` | core/src/ev_mailbox.c:422-461 | The same for every quality of service on every kind, including the effect reported to the caller. |
| `Mailboxes.Mailbox.CoalescedPush` | core/src/ev_mailbox.c:352-382 | A coalesced push is absorbed exactly when its event is already pending; otherwise it is posted, or dropped when full. |
| `Mailboxes.Mailbox.LatestOnlyPush` | core/src/ev_mailbox.c:384-420 | A latest-only push replaces the newest pending entry of its event in place, or is posted, or dropped when full. |
| `Mailboxes.Mailbox.ReplaceSlot` | core/src/ev_mailbox.c:128-150 | Replacement retains the new message before it disposes the old one; a failed retention leaves the entry in place. |
| `Mailboxes.Mailbox.FindEventSlot` | core/src/ev_mailbox.c:106-126 | The search over masked indices returns the first, or the last, pending entry of the event in queue order, or none. |
| `Mailboxes.Mailbox.PopMsg` | core/src/ev_mailbox.c:463-494 | Popping removes the oldest entry and leaves the order of the others; an empty mailbox is an error that changes nothing. |
| `Mailboxes.Mailbox.Reset` | core/src/ev_mailbox.c:219-235 | A reset disposes storage in index order, which gives the pool the same state as disposing the queue in queue order. |
| `Mailboxes.PushKeepsQueueValid` | core/src/ev_mailbox.c:237-461 | Whatever the kind and quality of service, pending stays within capacity and posts balance with evictions, pops and pending entries. |
| `Mailboxes.UniquePendingPreserved` | core/src/ev_mailbox.c:219-494 | Over any run of pushes, pops and resets of a mailbox, whatever else is pushed and whatever happens to the pool in between, an event pushed only as coalesced or latest-only is pending at most once. |
| `Mailboxes.LatestOnlyIsNewest` | core/src/ev_mailbox.c:384-420 | An accepted latest-only push is the newest pending entry of its event, and every other entry keeps its place; a dropped or refused one moves nothing. |
| `Mailboxes.DisposeCommutes` | core/src/ev_dispose.c:5-32 | Disposing two messages gives the same pool in either order. |
| `Mailboxes.StorageOrder` | core/src/ev_mailbox.c:219-235 | Disposing ring storage from index zero equals disposing the queue oldest first, wrapped or not. |
| `Mailboxes.RetainIsExact` | core/src/ev_mailbox.c:66-77 | A share for the queue is taken if and only if the message carries nothing external, or a lease held and as described; the named slot then counts one more, and no slot changes otherwise. |
| `Mailboxes.PushIsExact` | core/src/ev_mailbox.c:237-350 | For every kind, exactly which answer a plain push gives: the validation error, the full error of a FIFO with 8 or 16 entries, the contract error of a flag, the error of a share that cannot be taken, and success in all other cases. |
| `Mailboxes.PushDoes` | core/src/ev_mailbox.c:237-350 | For every kind: a refused push changes no entry and no slot and is counted; an accepted message is the newest entry, the mailbox then holds the newest entries it has room for, unless a pending flag absorbed the message; every counter and the pool are given. |
| `Mailboxes.QosIsExact` | core/src/ev_mailbox.c:352-461 | For every kind and quality of service, exactly when a push is coalesced, replaces, is dropped or is a plain push, with its effect and counters. |
| `Mailboxes.PostReaches` | core/src/ev_mailbox.c:237-461 | After any post, a refused, dropped or coalesced one has moved no entry, and a posted or replacing message is in the mailbox. |
| `Mailboxes.FifoOrder` | core/src/ev_mailbox.c:237-494 | Over any run of pushes, full or not, and pops, a FIFO mailbox hands out every message that entered it once and in the order of arrival. |
| `Ownership.RefcountsAreOwners` | core/src/ev_lease_pool.c:119-275 | After any disciplined run of acquire, retain, release, attach, set, post, take, dispose and reset, each slot's count equals its outstanding handles plus the undisposed message copies naming it, and a slot is in use exactly when that is positive. |
| `Ownership.DisciplineIsExact` | core/src/ev_lease_pool.c:119-275 | The discipline asks for nothing more than it must: from a sound state, every state of a run is sound if and only if every client action of the run is disciplined. |
| `Ownership.InitialInv` | core/src/ev_lease_pool.c:86-117 | The invariant holds of a fresh pool with empty mailboxes, so of every reachable state. |
| `Ownership.PostKeepsExactly` | core/src/ev_mailbox.c:237-461 | A post of any kind and quality of service, accepted, replaced, coalesced, evicting or failed, keeps every count equal to its owners if and only if it takes no share or the one slot its message names has a counter below its 32-bit maximum; whether it takes a share is said by the guards alone. |
| `Ownership.TakeKeeps` | core/src/ev_mailbox.c:463-494 | Popping moves a share from the queue to the holder. |
| `Ownership.DisposeKeeps` | core/src/ev_dispose.c:5-32 | Disposing a held message keeps every count equal to its owners. |
| `Ownership.ResetKeeps` | core/src/ev_mailbox.c:219-235 | Resetting a mailbox gives back the share of each entry it held. |
| `Ownership.AcquireKeeps` | core/src/ev_lease_pool.c:119-162 | Acquiring adds one handle and one share to a slot nobody owned. |
| `Ownership.AttachKeepsExactly` | core/src/ev_lease_pool.c:231-275 | Attaching a handle keeps every count equal to its owners if and only if it is refused before it retains or the slot of the handle has room. |
| `Ownership.SetExternalKeepsExactly` | core/src/ev_msg.c:145-203 | Setting an external payload directly keeps the books if and only if it does not install the pool's own callbacks on a slot, which would claim a share nobody took. |
| `Ownership.RetainKeepsExactly` | core/src/ev_lease_pool.c:184-199 | Retaining keeps the invariant if and only if the handle is dead or its 32-bit counter has room. |
| `Ownership.ReleaseKeepsExactly` | core/src/ev_lease_pool.c:201-224 | Releasing keeps the invariant if and only if the handle is dead or the caller really holds it. |
| `Ownership.OwnedSlotsAreNotReused` | core/src/ev_lease_pool.c:119-162 | A slot that anyone still owns is never handed out again. |
| `Ownership.DisposeTwice` | core/src/ev_dispose.c:5-32 | Disposing the same message again, in any later pool state, changes nothing. |
| `Ownership.ClientRunDrainsNothing` | core/src/ev_mailbox.c:237-461 | Posting and the other client actions never shorten a mailbox and never count as pops. |
| `Rotation.BoundedWaiting` | core/src/ev_domain_pump.c:203-283 | A distance that shrinks on every round that does not serve is used up within that many rounds. |
| `Rotation.FullTurn` | core/src/ev_domain_pump.c:63-80 | The weights met in one turn from any cursor add up to the sum over all actors. |
| `ActorRuntime.Registry.Bind` | core/src/ev_actor_runtime.c:64-152 | A runtime is bound exactly when its actor is known and free, its mailbox is of the declared kind and its drain budget is at least one. |
| `ActorRuntime.Registry.ProcessOne` | core/src/ev_actor_runtime.c:22-52 | Exactly one message is popped, its handler is called once on it in the world as it was, what the handler posts is done, and the popped message is disposed; world, kernel, result and log are those. |
| `ActorRuntime.Registry.Pump` | core/src/ev_actor_runtime.c:244-300 | A pump calls the handler exactly `processed` times, each call doing what the handler makes of the popped message, never more often than the budget; it stops at the first failure, and on success empties the mailbox or spends the budget although handlers may post. |
| `ActorRuntime.ServedDisposes` | core/src/ev_actor_runtime.c:22-52 | Serving takes the oldest message, hands it to the handler in the world as it is, and ends with that message disposed, whatever the handler did. |
| `ActorRuntime.PerformedKeeps` | core/src/ev_actor_runtime.c:22-52 | Over any sequence of handler calls, handlers that keep the ownership discipline on the states they were called in keep every reference count equal to its owners. |
| `ActorRuntime.Registry.SinceKeeps` | core/src/ev_actor_runtime.c:22-52 | Whatever was pumped since a sound moment, disciplined handlers left the kernel sound. |
| `DomainPump.DomainPump.DefaultBudget` | core/src/ev_domain_pump.c:63-80 | The default budget is the sum of the drain budgets of the domain's actors. |
| `DomainPump.DomainPump.PendingMail` | core/src/ev_domain_pump.c:140-161 | Pending is the sum over the bound actors of the domain, and positive exactly when one has mail. |
| `DomainPump.DomainPump.Pass` | core/src/ev_domain_pump.c:203-283 | One scan from the cursor: its budget never underflows, its counters match the calls made, it is fair, and it leaves the cursor just past the actor called last, or where it was if none was called. |
| `DomainPump.DomainPump.Run` | core/src/ev_domain_pump.c:163-308 | What happened is exactly the handler calls logged, so disciplined handlers keep the ownership invariant. Unless a handler returned the empty error, a success has spent its budget or left no mail. Calls made equal those reported plus those lost, none is lost exactly when no handler returned the empty error, the messages reported stay within the budget, and report and cumulative counters are those of the run. The cursor ends just past the actor called last and so moves towards everyone not served. A run that finds mail fails only with the error of its last handler, or because messages were lost to the empty error. If all handlers succeed on the default budget, every actor with mail at the start gets the smaller of its pending count and its drain budget. |
| `DomainPump.DomainPump.WaitingIsBounded` | core/src/ev_domain_pump.c:203-283 | An actor with mail before each of `actor count` runs is pumped by one of them, for all budgets and all handler failures. |
| `DomainPump.DomainPump.RunsServe` | core/src/ev_domain_pump.c:163-308 | Performing `actor count` runs, with anything posted before each of them, serves an actor that has mail at the start, for all budgets and all handler failures. |
| `SystemPump.SystemPump.Bind` | core/src/ev_system_pump.c:69-87 | A domain is bound once; a second binding is refused and changes nothing. |
| `SystemPump.SystemPump.PendingMail` | core/src/ev_system_pump.c:124-141 | Pending is the sum of the mail of the bound domains, and positive exactly when one has mail. |
| `SystemPump.SystemPump.Run` | core/src/ev_system_pump.c:143-286 | A success has spent its turns or left no mail, a failure is that of the last handler or of lost messages, turns stay within the budget, and a turn processes at most the default budget of its domain. The calls made are the messages reported plus those lost, and none is lost exactly when no handler returned the empty error; report and cumulative counters are those of the run, except that a failure books one turn; the exhausted flag means the turns are spent with mail left; disciplined handlers keep the ownership invariant. If all handlers succeed and the turns cover the domains, every actor of a bound domain with mail at the start is given the smaller of its pending count and its drain budget. |
| `SystemPump.SystemPump.PollOnce` | runtime/src/ev_runtime_scheduler.c:35-49 | A poll counts itself, and counts a partial return exactly when its run spent its turns with mail left; it then returns the partial error. An ordinary success leaves no mail, any other error is the last handler's or of lost messages, and the run is accounted, fair and sound as a system run is. |
| `SystemPump.SystemPump.WaitingIsBounded` | core/src/ev_system_pump.c:182-260 | An actor of a bound domain with mail before each of `domains * actors` system runs is served by one of them, for all turn budgets and failures. |
| `SystemPump.SystemPump.RunsServe` | core/src/ev_system_pump.c:143-286 | Performing `domains * actors` system runs, with anything posted before each of them, serves an actor of a bound domain that has mail at the start, for all turn budgets and failures. |
| `Scheduler.Init` | runtime/src/ev_runtime_scheduler.c:5-33 | Exactly the domains of the mask are bound, each to a pump of that domain over the given registry; an empty mask binds all four. |
| `RuntimeLoop.RuntimeLoop.DrainScheduler` | runtime/src/ev_runtime_loop.c:51-79 | Draining adds only scheduler polls, each as the protocol asks, and ends with no mail, an exhausted budget or the error of its last poll; it touches only the pump counters of the report, stays within the pump-call limit, and without mail does nothing. |
| `RuntimeLoop.RuntimeLoop.PollScheduler` | runtime/src/ev_runtime_loop.c:63-69 | One poll, when the protocol asks for one, is on the policy's turns, performs the handler calls it records and ends without mail, with its turns spent, or with its last handler's error; the report grows by one poll, its turns and its messages, which are all its calls when no handler returned the empty error. |
| `RuntimeLoop.RuntimeLoop.Collect` | runtime/src/ev_runtime_loop.c:81-92 | Collecting, when the protocol asks for it, shows the collector the report so far, does to environment and kernel what it asks for and adds the samples it reports. |
| `RuntimeLoop.RuntimeLoop.PublishTimers` | runtime/src/ev_runtime_loop.c:151-160 | A pass, made only when the protocol asks for one, leaves timers, environment and kernel as the pass over the due timers leaves them, adds what was accepted to the report, lowers the total lateness if it published anything, and if it did not, with accepted deliveries, found nothing due. |
| `RuntimeLoop.RuntimeLoop.TimerRound` | runtime/src/ev_runtime_loop.c:148-174 | One round publishes only if the policy lets it, drains if the policy asks for it, and follows the protocol. If it published, it polled the scheduler or used up lateness of due timers; if it published nothing, the protocol asks for nothing more and, with accepted deliveries, no timer is due. |
| `RuntimeLoop.RuntimeLoop.CollectAndDrain` | runtime/src/ev_runtime_loop.c:125-142 | Collection and draining alternate as the protocol asks until a collection brings no sample or a budget is exhausted; an ordinary end has no mail, its last collection brought nothing, no timer was published, and the report adds up what happened. |
| `RuntimeLoop.RuntimeLoop.TimersAndDrain` | runtime/src/ev_runtime_loop.c:144-175 | Each further round polled the scheduler or used up lateness of due timers, for every timer period; all of it follows the protocol, and an ordinary end is one where the protocol asks for nothing more and, with accepted deliveries, no timer is due. |
| `RuntimeLoop.RuntimeLoop.PollOnce` | runtime/src/ev_runtime_loop.c:94-197 | A poll always returns, also when no domain is bound. Every event of it is the one the protocol `NextStep` asks for, with the policy's parameters: it starts by collecting; each later event follows a success with every counter of the report below its limit; the scheduler is polled when mail waits; samples are collected again only before any timer; and timers are published at one reading of the clock, never under a policy that skips them, and never over waiting mail that the policy puts first. It ends when the protocol asks for nothing more, with the error of its last event, or with the clock's, and it is flagged exhausted exactly when a limit is reached. Its report is the sum of what happened, with the mail pending before and after and the time taken on the 32-bit clock. An ordinary return with the scheduler run after the timers leaves no mail, and if no budget ran out, the last collection brought nothing and, with accepted deliveries, no timer is due. It is partial exactly when it is otherwise a success, a budget ran out, and mail or other work is left. Disciplined handlers and ports keep the ownership invariant. |
| `RuntimeLoop.RuntimeLoop.AllAllowed` | runtime/src/ev_runtime_loop.c:51-175 | What the protocol means for each event: what came before it, which mail waits, which limits and which part of the policy allow it. |
| `RuntimeLoop.HappenedKeeps` | runtime/src/ev_runtime_loop.c:94-197 | Over any sequence of collections, scheduler polls and timer passes, collectors, handlers and deliveries that keep the ownership discipline keep every reference count equal to its owners. |
| `Timers.TimerService.ScheduleTimer` | runtime/src/ev_timer_service.c:25-54 | Scheduling succeeds exactly for a positive delay and an idle slot. It arms the first idle slot with the next non-zero generation, for `delay` after now on the 32-bit clock, with the request's period, target, event and argument; zero delays and a full table change nothing. |
| `Timers.TimerService.CancelTimer` | runtime/src/ev_timer_service.c:66-74 | Only the active timer of the token's generation is cancelled. |
| `Timers.TimerService.PublishDue` | runtime/src/ev_timer_service.c:76-106 | The slot loop attempts due timers in slot order, each once, until the budget of accepted attempts is spent or the slots are; with budget left every due timer was attempted. |
| `Timers.TimerService.NextDeadline` | runtime/src/ev_timer_service.c:108-133 | The loop returns the earliest deadline by the wrapped comparison, or reports that none is pending. |
| `Timers.DueIsExact` | runtime/src/ev_timer_service.c:13-16 | The signed 32-bit comparison is the true one for distances below 2^31. |
| `Timers.PublishWraps` | runtime/src/ev_timer_service.c:76-106 | One publishing pass on wrapped deadlines makes the attempts the pass on true deadlines makes. |
| `Timers.WrappingTimeIsTime` | runtime/src/ev_timer_service.c:13-133 | Over any run of schedule, cancel and publish, while true distances stay below 2^31, wrapped time gives the same answers, attempts and timers as unbounded time. |
| `Timers.NoDrift` | runtime/src/ev_timer_service.c:76-106 | On either clock, after any run that neither schedules into a slot nor cancels its timer, a periodic deadline has moved by exactly one period per attempt, and a one-shot timer was attempted at most once; cancelling with stale tokens of the slot is part of such runs. |
| `Timers.ScheduleIsExact` | runtime/src/ev_timer_service.c:25-54 | On either clock, exactly when a schedule succeeds, which slot and token it gives, and the whole timer it arms, with its deadline `delay` from now. |
| `Timers.IssuedTimer` | runtime/src/ev_timer_service.c:25-106 | From the schedule that issued a token, on either clock and over any run that leaves its slot: after `n` attempts a periodic timer is due `n + 1` periods after it was scheduled, a one-shot timer is attempted at most once, and every attempt carries the request's target, event and argument. |
| `Timers.IssuedNeverEarly` | runtime/src/ev_timer_service.c:25-106 | Attempt `n` of a timer is made by a pass `n` delays after its schedule, or later. |
| `Timers.CancelledNeverFires` | runtime/src/ev_timer_service.c:66-106 | A cancelled timer is never attempted again, and its slot stays idle until something is scheduled into it. |
| `Timers.PassIsExact` | runtime/src/ev_timer_service.c:76-106 | A pass makes exactly the firings of the due timers in slot order, delivers them one after the other and counts the accepted ones, and stops before the last slot only when its budget is spent. |
| `Timers.EveryDueIsAttempted` | runtime/src/ev_timer_service.c:76-106 | A pass with budget left attempts every timer that is due. |
| `Timers.EarliestIsMinimum` | runtime/src/ev_timer_service.c:108-133 | The deadline reported is the true minimum of the pending ones. |
| `Timers.GenerationCycle` | runtime/src/ev_timer_service.c:25-54 | Generations run through 1 to 65535 and skip zero. |
| `Timers.RunGeneration` | runtime/src/ev_timer_service.c:25-54 | Over any run of calls the generation of a slot moves by one step for each schedule into it and for nothing else. |
| `Timers.StaleTokenCancelsNothing` | runtime/src/ev_timer_service.c:66-74 | From the schedule that issued a token, after any run of calls, it cancels a timer if and only if its slot is active and the run scheduled into that slot a multiple of 65535 times; otherwise cancelling with it changes nothing. |
| `Timers.StaleTokenRevives` | runtime/src/ev_timer_service.c:66-74 | A run that cancels and schedules 65535 times ends with a timer of its own that the first token ever issued cancels. |
| `Timers.FiredRank` | runtime/src/ev_timer_service.c:88-98 | Firing a due timer lowers the number of attempts it can still absorb at the same instant, for every period. |
| `Timers.PublishLowersRank` | runtime/src/ev_timer_service.c:76-106 | A pass that fired anything lowers the total of these numbers, which is why the loop over timers ends. |
| `QosContract.CompatibilityTable` | runtime/src/ev_qos_contract.c:93-149 | Exactly which service classes a module of each policy accepts. |
| `QosContract.StrictClasses` | runtime/src/ev_qos_contract.c:45-91 | A failed delivery is strict exactly on critical, wake-up, command and unknown classes; of the others, coalesced and latest-only make room in their own way. |
| `Routes.ActiveRouteTable.Add` | runtime/src/ev_active_route_table.c:29-50 | An entry is appended while there is room, also after the table was finalised, and the table must then be finalised again; the three counts are those of the enabled, disabled and rejected entries. |
| `Routes.ActiveRouteTable.FinalizeSpans` | runtime/src/ev_active_route_table.c:52-99 | Finalising succeeds exactly when all events are known and each event's entries are contiguous, and each refusal names the condition that failed. |
| `Routes.ActiveRouteTable.SpanForEvent` | runtime/src/ev_active_route_table.c:101-115 | The span of an event is exactly its entries, in table order, for every event number. |
| `Routes.SpanIsScan` | runtime/src/ev_active_route_table.c:101-115 | A span that covers an event's entries holds what a linear scan finds. |
| `Routes.BindRoutes` | runtime/src/ev_runtime_graph.c:295-346 | Binding succeeds exactly when the routes fit, are valid and grouped, and, under strict validation, none is rejected; only then is the table in force. |
| `Routes.ClassifyIsExact` | runtime/src/ev_runtime_graph.c:196-258 | Exactly when a route is enabled, disabled, rejected for its event, its actor or its class, or missing its actor, and with which reason. |
| `Routes.BoundReasonsSound` | runtime/src/ev_runtime_graph.c:196-258 | Every rejected route carries an error, which the delivery accounting relies on. |
| `Delivery.DeliveryService.DeliverOne` | runtime/src/ev_delivery_service.c:129-172 | One delivery posts an alias of the message to the route's target and books the outcome as delivered, dropped or failed. |
| `Delivery.SendReaches` | runtime/src/ev_delivery_service.c:129-145 | A post reaches its own target only; a refused or dropped one moves no entry, a posted message is the newest entry there, addressed to that actor, and an unbound target is not found. |
| `Delivery.DeliveryService.PublishActive` | runtime/src/ev_delivery_service.c:174-224 | Publishing through the span does what a fan-out over the linear scan of the table does. |
| `Delivery.DeliveryService.PublishStatic` | runtime/src/ev_delivery_service.c:226-248 | Publishing through the static span fans out over that span's routes in order; an event without a span has none. |
| `Delivery.DeliveryService.Publish` | runtime/src/ev_delivery_service.c:250-277 | In both modes the entries of the event are walked in order and the enabled ones attempted, up to the first error on a critical, wake-up, command or unknown route, or to the end. That error is the result, or else the last rejected entry's; the first error named is the first of these; every counter of the report is the number of entries or attempts of its sort; the attempts are posts one after the other; and an event without routes is reported as not found. |
| `Delivery.FanOutAccounts` | runtime/src/ev_delivery_service.c:174-224 | After any fan-out, cut short or not, delivered + dropped = matched = attempted + optional-disabled + rejected, and the result is success exactly when no first error is recorded. |
| `Delivery.StaticFanOutAccounts` | runtime/src/ev_delivery_service.c:226-248 | A static fan-out delivers or drops each route it attempts, attempts all of them unless a strict failure cut it short, and succeeds exactly when no first error is recorded. |
| `Delivery.FanOutTells` | runtime/src/ev_delivery_service.c:129-224 | The fan-out walks the entries in order, attempts the enabled ones until a strict failure, and its report, result and log are counted over exactly what it walked. |
| `Delivery.StaticTells` | runtime/src/ev_delivery_service.c:226-248 | Static publishing does what publishing along enabled entries means, except that it counts the whole span as matched. |
| `Delivery.NothingAfterStrictFailure` | runtime/src/ev_delivery_service.c:129-224 | Only the last attempt can be a strict failure. |
| `Delivery.FanOutKeepsOwnership` | runtime/src/ev_delivery_service.c:129-172 | A fan-out of aliases keeps every lease count equal to its owners if and only if each of its posts takes no share or finds room in the slot the message names. |
| `Delivery.ActiveIsStatic` | runtime/src/ev_delivery_service.c:174-248 | With every route enabled, active and static fan-out make the same attempts with the same results and end in the same state. |
| `Delivery.PublishModesAgree` | runtime/src/ev_delivery_service.c:174-248 | So active publishing through an exact span equals static publishing through the same span. |
| `OledPanel.FeedFillsRow` | actors/device/ev_oled_actor.c:227-256 | Data sent after addressing lands in consecutive cells of the addressed row and nowhere else. |
| `OledPanel.PageAddressPoints` | actors/device/ev_oled_actor.c:313-326 | The three page commands address the page and, through two nibbles and the column offset, exactly the intended column. |
| `OledPanel.WindowAddressPoints` | actors/device/ev_oled_actor.c:344-357 | The six window commands address exactly the intended window. |
| `OledLink.Link.SendCommands` | actors/device/ev_oled_actor.c:196-225 | Commands are sent in chunks: a success delivers them chunk by chunk, in order; commands never change display memory, even if the bus fails; and it succeeds exactly when the bus accepted every transaction. |
| `OledLink.ChunksDoNotShow` | actors/device/ev_oled_actor.c:196-225 | A page-addressed controller ends in the same state however its commands were cut into chunks. |
| `OledLink.Link.SendData` | actors/device/ev_oled_actor.c:227-256 | Chunked data arrives as one stream; after a bus failure exactly the bytes before the refused transaction and its own part of it did. |
| `OledLink.Link.PaintWindowed` | actors/device/ev_oled_actor.c:344-359 | The window addressing of the other controller paints the same cells, and after a failure exactly those whose byte arrived. |
| `OledLink.Link.PaintPaged` | actors/device/ev_oled_actor.c:313-342 | The chunked column addressing of one controller paints the window piece by piece, without overlap or gap; after a failure exactly the cells whose byte arrived are painted. |
| `OledLink.Link.ApplyAddressWindow` | actors/device/ev_oled_actor.c:302-360 | For both controllers a window write paints exactly the columns the bus brings, all of them when it accepts every transaction, and changes nothing else. |
| `Oled.OledActor.ResetDirty` | actors/device/ev_oled_actor.c:259-273 | No page is dirty and every window is empty. |
| `Oled.OledActor.MarkDirty` | actors/device/ev_oled_actor.c:275-289 | A valid range widens its page's window to take it in; an invalid one changes nothing. |
| `Oled.OledActor.RenderText` | actors/device/ev_oled_actor.c:392-431 | Rendering clears and redraws the row from the column on, pixel for pixel as the font says, clips at the edge and touches nothing else. |
| `Oled.OledActor.RenderGlyph` | actors/device/ev_oled_actor.c:412-428 | One glyph fills its cell, five columns and a gap, clipped at the edge, and nothing else. |
| `Oled.OledActor.DrawScene` | actors/device/ev_oled_actor.c:446-466 | The staged frame is exactly the scene: its lines on their pages, blank elsewhere, all blank when invisible. |
| `Oled.OledActor.DiffFrames` | actors/device/ev_oled_actor.c:468-475 | A cell is inside a window if and only if it lies between two cells of its page that differ. |
| `Oled.OledActor.PrepareSceneCommit` | actors/device/ev_oled_actor.c:433-478 | A committed scene is staged exactly, the windows are exactly what it spans of the current frame, and the panel is right outside them if and only if every cell it shows wrongly lies between two cells of its page that the scene changes. A column out of range changes nothing. |
| `Oled.OledActor.WriteWindows` | actors/device/ev_oled_actor.c:492-517 | The cells of the windows that the bus brings show the staged frame, every other cell is as it was; the write is complete exactly when the bus accepts every transaction. |
| `Oled.OledActor.FlushPending` | actors/device/ev_oled_actor.c:480-523 | A successful flush leaves the panel equal to the staged frame, as a full repaint would, if and only if it was right outside the windows; a failed one shows the staged frame exactly in the cells brought, keeps frames and windows and schedules a retry. Either way the panel is right outside the windows exactly if it was. |
| `Oled.OledActor.SyncFull` | actors/device/ev_oled_actor.c:362-390 | A repaint shows the framebuffer in exactly the cells the bus brings and leaves every other cell; so the panel is right afterwards if and only if the cells not brought were right before. It is complete exactly when the bus accepts all its transactions; a failed one is counted, puts the actor in the error state and sets the retry time. |
| `Oled.OledActor.TryInitialize` | actors/device/ev_oled_actor.c:525-569 | Refused initialisation commands leave panel memory, the error state and a retry time. After accepted ones the actor is ready even if the repaint failed, unless the flush that follows an accepted announcement failed too; and when it is ready the panel is right if and only if the cells that neither repaint nor flush brought were right before. The failures counted are exactly those of repaint and flush. |
| `Oled.OledActor.HandleBoot` | actors/device/ev_oled_actor.c:698-710 | Boot initialises at once; the actor is then ready exactly when the commands and the flush, if there was one, were accepted, and a ready panel is right under exactly the condition of the initialisation. |
| `Oled.ReadyButWrong` | actors/device/ev_oled_actor.c:362-390 | A boot whose repaint is refused at its first transaction ends ready, with nothing pending and a panel that does not show the framebuffer. |
| `Oled.OledActor.HandleDisplayText` | actors/device/ev_oled_actor.c:571-600 | A text command stages its line, marks the rest of its row dirty and keeps differences covered; the panel is then right outside the windows if and only if it was right outside them and the row's widened window; bad payloads and positions stage nothing. |
| `Oled.OledActor.HandleCommitFrame` | actors/device/ev_oled_actor.c:602-637 | Committing stages the scene if any and flushes when ready. After an accepted scene the panel is right outside the windows if and only if the scene spans every cell that was wrong; without one, if and only if it was before. |
| `Oled.BlankSceneHidesFailedFlush` | actors/device/ev_oled_actor.c:433-523 | A boot, two lines of text, a flush the bus refuses between their pages and a blank scene leave nothing pending and a panel that does not show the current frame. |
| `Oled.OledActor.HandleTick` | actors/device/ev_oled_actor.c:639-667 | A tick tries to initialise exactly when boot was seen, the panel is not ready, and after an error the wrapped retry time has come; otherwise it flushes when ready and does nothing when not. A tick that initialises and ends ready leaves the panel right under exactly the condition of the initialisation. |
| `Oled.Recovers` | actors/device/ev_oled_actor.c:639-667 | Once the bus accepts again, five ticks after a failure the actor is ready and the panel current, whatever texts, scenes and boots come in between. |
| `Oled.OledActor.Handle` | actors/device/ev_oled_actor.c:698-724 | Every event keeps all differences inside dirty windows, a panel showing the framebuffer goes on showing it over every event in which no flush fails, and a commit keeps the panel right outside the windows exactly under the condition of its scene. |
| `PowerStates.PowerStateMachine.Step` | runtime/src/ev_power_state_machine.c:99-141 | A step moves along the transition relation or is refused with the state unchanged, and only accepted steps are counted. |
| `PowerStates.SleepOnlyAfterEveryStep` | runtime/src/ev_power_state_machine.c:51-97 | Whatever actions are attempted, each sleep state is reached only by accepting all its preparation steps in order, and the wake-boot state is never reached. |
| `PowerStates.StepsAre` | runtime/src/ev_power_state_machine.c:51-97 | Each preparation step leads from its own stage of the descent to the next and from nowhere else. |
| `PowerStates.ExitsAre` | runtime/src/ev_power_state_machine.c:51-97 | Exactly from which stages each failure leads out, and from which states waking leads back. |
| `PowerStates.NoDeadEnd` | runtime/src/ev_power_state_machine.c:51-97 | Every state but the wake-boot one can be reached, and from each two actions at most lead back to the active state. |
| `Quiescence.QuiescenceService.ScanActors` | runtime/src/ev_quiescence_service.c:83-92 | The loop sums the mail, and collects the blocker bits, of exactly the enabled actors. |
| `Quiescence.QuiescenceService.DueTimers` | runtime/src/ev_quiescence_service.c:31-45 | The count is that of the active timers due by the wrapped comparison. |
| `Quiescence.QuiescenceService.HasCritical` | runtime/src/ev_quiescence_service.c:47-59 | The search finds a critical fault exactly when there is one. |
| `Quiescence.QuiescenceService.NearBlocks` | runtime/src/ev_quiescence_service.c:105-115 | The deadline block is raised exactly when the next deadline is nearer than the guard or the window allows. |
| `Quiescence.WindowIsLeft` | runtime/src/ev_quiescence_service.c:104-120 | While true distances stay below 2^31, no timer is due and the deadline block is clear if and only if every pending timer leaves the guard and the window of the policy in true time. |
| `Quiescence.OverdueHidesNear` | runtime/src/ev_quiescence_service.c:104-120 | If due timers do not block, an overdue timer can hide one that is inside the guard. |
| `Quiescence.QuiescenceService.PolicyBlocks` | runtime/src/ev_quiescence_service.c:117-132 | Each block is raised exactly when its condition of the policy holds. |
| `Quiescence.QuiescenceService.IsQuiescentAt` | runtime/src/ev_quiescence_service.c:68-154 | The check succeeds exactly when no actor has mail, no ingress waits and no timer, actor, buffer or deadline condition of the policy holds; the report is accurate, each block is raised exactly by its condition, and the reason names the first obstacle. |
| `Sleep.DemoApp.SleepQuiescenceGuard` | apps/demo/ev_demo_policy.c:341-401 | The guard passes exactly when interrupt port and clock answer, no interrupt sample waits and the runtime is quiescent; its report carries the counts of the check. |
| `Sleep.DemoApp.SleepArm` | apps/demo/ev_demo_policy.c:403-435 | Arming succeeds exactly when not yet armed and quiet; a refusal leaves the flag as it was. |
| `Sleep.DemoApp.SleepDisarm` | apps/demo/ev_demo_policy.c:437-448 | Disarming clears the flag and is counted. |
| `Sleep.PowerActor.ArmSleep` | actors/framework/ev_power_actor.c:157-191 | The gate opens exactly as the configured callback says; a refusal is counted as an arming or a quiescence failure by what the guard read, and its reason is given. |
| `Sleep.PowerActor.FlushLog` | actors/framework/ev_power_actor.c:320-332 | A failed flush ends the request as failed and rejected; a missing flush counts as success. |
| `Sleep.PowerActor.PreparePorts` | actors/framework/ev_power_actor.c:334-348 | A failed prepare ends the request as failed and rejected; success leads through both remaining preparation states. |
| `Sleep.PowerActor.EnterSleep` | actors/framework/ev_power_actor.c:350-363 | The port is called once, armed and in the saved state; a failure is recorded and cancelled. |
| `Sleep.PowerActor.Attempt` | actors/framework/ev_power_actor.c:313-367 | From the gate on: the calls made are exactly the protocol's, and the arming is undone whatever came of them. |
| `Sleep.PowerActor.Request` | actors/framework/ev_power_actor.c:292-367 | A request with a good duration: without a deep-sleep port it ends at once, otherwise the calls made are exactly the conversation of the protocol. |
| `Sleep.PowerActor.Handle` | actors/framework/ev_power_actor.c:270-372 | Every state-machine step taken is legal; deep sleep is entered exactly when the request is valid, the gate opened and flush and prepare succeeded; every failure is counted where it happened and the last reason names it; the arming flag ends as it began unless this request armed and no disarm callback is configured. |
| `Sleep.WhenAsleep` | actors/framework/ev_power_actor.c:306-367 | A conversation enters deep sleep if and only if the gate opened and flush and prepare succeeded. |
| `Sleep.DeepSleepIsGuarded` | actors/framework/ev_power_actor.c:306-367 | Before the deep-sleep call come the open gate, the flush and the prepare, each when configured; after it only the cancellation of a failure and the disarming. |
| `Sleep.SleepsOnce` | actors/framework/ev_power_actor.c:350-367 | A request enters deep sleep once at most. |
| `Sleep.SavedMeansPrepared` | actors/framework/ev_power_actor.c:347-352 | In the state the call is made in, all five preparation steps were accepted, in order. |
| `PanelButtons.PanelActor.HandleInputsChanged` | actors/device/ev_panel_actor.c:48-64 | Only the four button bits of a payload are kept; a missing payload changes nothing. |
| `PanelButtons.PanelActor.HandleTick` | actors/device/ev_panel_actor.c:66-133 | The tick loop is the four button steps in order, cut short by a failed publication, and does nothing before the first input. |
| `PanelButtons.PanelActor.HandleButton` | actors/device/ev_panel_actor.c:77-130 | The loop body on masks and arrays is one step of the button specification. |
| `PanelButtons.BitsAreIndependent` | actors/device/ev_panel_actor.c:78-97 | Setting or clearing one button's bit changes no other button's. |
| `PanelButtons.ButtonsDoNotInterfere` | actors/device/ev_panel_actor.c:77-130 | A button's step changes no state of another button and publishes none of its events. |
| `PanelButtons.StepReports` | actors/device/ev_panel_actor.c:77-130 | With accepted publications a step reports exactly the edge its sample makes: press, release with or without short press, or the long press of the eleventh sample down. |
| `PanelButtons.TickReports` | actors/device/ev_panel_actor.c:66-133 | So does a whole tick, for every button. |
| `PanelButtons.TraceIsReport` | actors/device/ev_panel_actor.c:66-133 | For any inputs with accepted publications, each button's events are exactly the report of its own samples, defined by how long it was held. |
| `PanelButtons.ReportIsCyclic` | actors/device/ev_panel_actor.c:66-133 | Every report is a prefix of cycles press, optional long, release, then short exactly when long was absent. |
| `Outbox.OutboxRing.TakeHead` | runtime/src/ev_network_outbox.c:39-48 | Taking the head removes the oldest item and lowers exactly its category's count; the guard against zero never applies. |
| `Outbox.OutboxRing.CopyPayload` | runtime/src/ev_network_outbox.c:31-37 | The payload is cut to the slot; a missing one leaves the slot's bytes. |
| `Outbox.OutboxRing.Put` | runtime/src/ev_network_outbox.c:76-86 | A stored item goes behind all others and disturbs none of them. |
| `Outbox.OutboxRing.PushItem` | runtime/src/ev_network_outbox.c:50-87 | Whatever the wrapped counters, a push does what the ledger's push does, and stores the payload cut to the slot. |
| `Outbox.PushIsExact` | runtime/src/ev_network_outbox.c:50-87 | Exactly when a push is accepted: below the category's limit with a place free, or at it with leave to drop and something to drop; the new queue and every total are given, and a refusal is only counted. |
| `Outbox.OutboxRing.PopItem` | runtime/src/ev_network_outbox.c:89-108 | A pop returns the oldest item, or the empty error. |
| `Outbox.OutboxRing.Pending` | runtime/src/ev_network_outbox.c:21-29 | The wrapped difference of the counters is the number of items queued. |
| `Outbox.WrapKeepsSlot` | runtime/src/ev_network_outbox.c:76-79 | Wrapping a counter at 2^32 does not move its slot, for every power-of-two capacity. |
| `Outbox.OutboxIsFifo` | runtime/src/ev_network_outbox.c:21-108 | After any run under changing policies, items leave in the order they were accepted, pending stays within capacity, and accepted = popped + dropped + pending. |
| `Outbox.LimitIsKeptExactly` | runtime/src/ev_network_outbox.c:60-70 | An accepted push leaves its category within a limit if and only if it was below it, or at it with the dropped head one of its own. |
| `Outbox.LimitCanBeExceeded` | runtime/src/ev_network_outbox.c:50-87 | A run that pushes two telemetry items behind a fault record and a third under a limit of two ends with three of them. |
| `KeyValues.ParseNextKv` | actors/framework/ev_command_actor.c:148-177 | The two scans read the next pair of the specification, and the cursor strictly advances. |
| `KeyValues.ParsePayload` | actors/framework/ev_command_actor.c:224-239 | A payload is accepted exactly when it is 1 to 128 printable characters that parse, and yields the last value of each known key. |
| `KeyValues.AcceptedPayloads` | actors/framework/ev_command_actor.c:148-239 | The accepted payloads are exactly the renderings of non-empty lists of good pairs, and each is the rendering of one list only. |
| `KeyValues.ParseOfRender` | actors/framework/ev_command_actor.c:148-239 | Rendering a list of good pairs, with or without a final semicolon, and parsing it gives the list back. |
| `KeyValues.RenderOfParse` | actors/framework/ev_command_actor.c:148-239 | Whatever parses is the rendering of what it parsed to. |
| `KeyValues.LastValueWins` | actors/framework/ev_command_actor.c:179-222 | A known key has the value of its last pair. |
| `KeyValues.OnlyGivenKeys` | actors/framework/ev_command_actor.c:179-222 | Only known keys that were given have a value. |
| `KeyValues.ValuesAreSaid` | actors/framework/ev_command_actor.c:179-222 | The recorded value of a known key is exactly what the last pair of that key says. |
| `KeyValues.ParseUint32Dec` | actors/framework/ev_command_actor.c:87-108 | Exactly the strings of 1 to 10 digits with value at most 2^32 - 1 are accepted, with that value. |
| `KeyValues.DecimalRoundTrip` | actors/framework/ev_command_actor.c:87-108 | A number written in decimal reads back as itself, and is accepted exactly when it fits 32 bits. |
| `Commands.CommandActor.HandleSleepArm` | actors/framework/ev_command_actor.c:337-364 | Arming happens exactly for an allowed, not rate-limited request with a valid nonce and duration. |
| `Commands.CommandActor.HandleSleepConfirm` | actors/framework/ev_command_actor.c:366-392 | A matching confirmation publishes the armed duration and disarms, even if the publication fails; any other changes nothing. |
| `Commands.CommandActor.Dispatch` | actors/framework/ev_command_actor.c:394-437 | Only a well-formed, authorised sleep message touches the sleep state. |
| `Commands.AskedIsExact` | actors/framework/ev_command_actor.c:224-437 | A message reaches the sleep state if and only if it is of the sleep topic, well formed, shows the configured non-empty token in its last token pair, and asks to arm or to confirm. |
| `Commands.WindowIsExact` | actors/framework/ev_command_actor.c:469-475 | By the wrapped counters the window is over at its last tick and at none before it, wherever the counter wraps. |
| `Commands.CommandsAreArmed` | actors/framework/ev_command_actor.c:337-392 | Over every run each sleep command comes right after an arming, with its duration and nonce, before its window ends; so no arming gives two. |
| `Commands.EventsAreRequested` | actors/framework/ev_command_actor.c:337-437 | Over every run each arming and each command was asked for, with its nonce and duration, by a received message that showed the token. |
| `Commands.ConfirmedInTime` | actors/framework/ev_command_actor.c:337-475 | From every reachable state that is not rate limited, a valid arming, `k` ticks and a confirmation of its nonce publish the command if and only if `k` is below the window. |
| `Commands.ConfirmFindsWindowOpen` | actors/framework/ev_command_actor.c:379-383 | The expiry check of a confirmation never fires in a reachable state, because the tick disarms first. |
| `Commands.CommandActor.HandleTick` | actors/framework/ev_command_actor.c:513-518 | A tick advances the wrapping counter and disarms exactly when the window is over. |
| `Commands.OneCommandPerTick` | actors/framework/ev_command_actor.c:247-253 | Delivered sleep commands come at strictly increasing ticks. |
| `Commands.CommandsNeverExceedArmings` | actors/framework/ev_command_actor.c:366-392 | A history in which each command follows its arming has at most as many commands as armings. |
| `Rtc.BuildUnixTime` | actors/device/ev_rtc_actor.c:103-125 | The year and month loops compute the closed form of section 4.16 of POSIX.1-2017, reduced to 32 bits, for every valid date from 1970 on. |
| `Rtc.NextMonth` | actors/device/ev_rtc_actor.c:71-85 | The closed form grows by the length of each month, and twelve of them make a year. |
| `Rtc.NextYear` | actors/device/ev_rtc_actor.c:59-69 | The closed form grows by the length of each year, leap or common. |
| `Rtc.PosixFollowsOrder` | actors/device/ev_rtc_actor.c:103-125 | The closed form follows the lexicographic order of dates and times, both ways. |
| `Rtc.NextSecondAddsOne` | actors/device/ev_rtc_actor.c:71-101 | One calendar second later is one more, across minutes, days, months and leap years. |
| `Rtc.FitsExactly` | actors/device/ev_rtc_actor.c:103-125 | The count fits 32 bits if and only if the date is not after 7 February 2106, 06:28:15. |
| `Rtc.CountedTimesFollowOrder` | actors/device/ev_rtc_actor.c:103-125 | What the code returns is strictly increasing over all dates it can count. |
| `Rtc.ReadTimePayload` | actors/device/ev_rtc_actor.c:214-251 | A failed read is an error; an invalid time is returned without a count, a valid one with it. |
| `Rtc.RegistersRoundTrip` | actors/device/ev_rtc_actor.c:35-57 | Any date the chip can hold reads back, in twelve- and twenty-four-hour mode and with the century bit. |

## Left out

- RuntimeLoop.RuntimeLoop.PollOnce: a collector that lowers its sample counts is not modelled, because it reports what it found as natural numbers.
- SystemPump.SystemPump.Bind: a domain pump over another registry than the system pump's is not modelled, although binding does not check it.
- PanelButtons.TraceIsReport: assumes accepted publications; a refused one ends the tick, which `HandleTick` states, and its event is lost.
- Null pointers: references are never null, so the argument checks for them do not appear.
- Metrics, traces, faults and log text: side effects nothing here reads back, except the pending counts the quiescence check uses.
- Diagnostic 32-bit event counters are unbounded numbers, except where a counter takes part in a decision or an invariant (reference counts, timers, ticks, outbox sequence numbers and totals).
- Payload bytes inside lease slots, their clearing, and opaque storage layout: shares and sizes matter to ownership, contents do not.
- Mailbox delivery reports beyond the effect, and the high-water and per-call maxima of pumps and runtimes.
- External payloads with callbacks other than the lease pool's.
- The scheduler holds mailboxes as the sequences that class `Mailbox` is proved to implement, and the timer table as the value that class `TimerService` is proved to implement, so that handlers can be functions of them.
- Delivery through the registry's plain send, and the watchdog and network counters of disabled routes.
- The ingress ring: it copies messages without retaining them, and only its pending count enters the model.
- The graph builder outside route classification and binding.
- Font contents, the ready announcement's delivery, and everything of the display driver below a write that succeeds or fails.
- LED and display commands, statistics and topic names other than the sleep topic in the command actor; they do not touch the sleep state.
- The clock actor's publishing, interrupt wiring and fallback polling.
- Other actors (network, expander, supervisor, watchdog, light and temperature sensors), the demo application outside the three sleep callbacks, ports, board files and tools.
