# errorSync: a verified model of the error wait group

`errorWaitGroup.go` implements an *error wait group*. A supervisor creates a
group (`New`) and registers one *admin* per worker (`Add`). Each admin gets a
fresh id and a mailbox of interrupts. The supervisor then calls `Wait` once.

- A worker that finishes calls `NotifyDone`. This removes the worker from the
  registry and then hands a Done report to `Wait`.
- A worker that fails calls `NotifyError`. A worker can also send a report
  with any code through `Notify`.
- `Wait` keeps waiting on Done reports while the registry is not empty.
- `Wait` returns the zero report and `true` once a Done report leaves the
  registry empty, or at once if the registry was empty to begin with.
- `Wait` returns the first report that is not Done, together with `false`.
  If the auto-interrupt policy maps that report's code, `Wait` first sends the
  mapped interrupt to every admin still registered.
- `Interrupt` sends an interrupt to one registered admin. `InterruptAll`
  sends one to all of them. An admin takes interrupts from its mailbox with
  the non-blocking `PollInterrupt`.

The model is sequential: it runs each operation as one step. The source
does not lock everything: `Wait` releases the lock between receives and
reads the registry's size without it, and `Notify` and `PollInterrupt`
never take the lock. How `Wait` interleaves with the other goroutines is
fixed as "## Left out" describes. The model has four modules:

- `Reports` (reports.dfy) holds the values: `AdminId`, the report `Notif`,
  `Interrupt`, the reserved codes, and the zero values `Notif{}` and
  `Interrupt{}`. The source's getters (`AdminId()`, `Code()`, `Info()`,
  `Err()`) are the datatype fields.
- `Escalation` (escalation.dfy) says what `Wait` decides, as functions of the
  registry's ids and the reports received in order.
  - `Drain` is the receive loop and `WaitResult` is the whole wait.
  - `StopsAt` is an independent description of where the loop stops.
  - `Broadcast` gives the policy interrupt that an escalation sends.
  - The lemmas relate these functions to each other.
- `ErrorSync` (error_wait_group.dfy) holds the source's objects as classes.
  - `AdminIdGen` is the id counter.
  - `Admin` has its id, its group and a mailbox `pending: seq<Interrupt>`.
  - `ErrorWaitGroup` has the registry `admins: map<AdminId, Admin>` and the
    policy `autoInterrupts: map<NotifCode, InterruptCode>`.
  - Every method states the new state in terms of the old one. `Wait` is
    proved against `WaitResult`.
- `Scenarios` (scenarios.dfy) has supervisors that use the group as the
  repository's tests do. Each one's contract states what the supervisor
  observes.

`Wait` takes the reports it receives as a sequence `arrivals`. Each Done
report stands for a `NotifyDone` whose delete comes just before its hand-off
(errorWaitGroup.go:83 comes before :85). So `Wait` deletes that report's id
from the registry when it takes the report. `Wait` ends in one of two ways:

- `Returned(notif, allDone, consumed)`, or
- `Blocked`, when the reports run out before the loop stops. The source
  would block on the channel at that point.

Payloads are opaque. `info` is an `Option<int>` and `err` is an
`Option<string>`, with `None` standing for nil.

## Model

| member | source | states |
|---|---|---|
| ErrorSync.Issued | errorWaitGroup.go:100-103 | after n calls of `next` from -1, the ids issued are exactly 0, 1, …, n-1 in that order |
| ErrorSync.AdminIdGen.Next | errorWaitGroup.go:100-103 | increments the counter and returns the new value; the id is greater than every id issued before and is appended to the history |
| ErrorSync.ErrorWaitGroup.New | errorWaitGroup.go:114-116 | a new group has an empty registry, an empty policy, a counter at -1 and no ids issued |
| ErrorSync.ErrorWaitGroup.Add | errorWaitGroup.go:118-125 | registers one new admin with an empty mailbox under the id previous-top+1; that id was not registered and is greater than every id ever issued; the registry grows by exactly that one entry and the policy is unchanged |
| ErrorSync.ErrorWaitGroup.RemoveAdmin | errorWaitGroup.go:82-84 | the registry loses exactly the given id; the policy is unchanged |
| ErrorSync.Admin.Notify | errorWaitGroup.go:77-79 | the report carries the admin's own id and the given code, payload and error; the registry is untouched |
| ErrorSync.Admin.NotifyDone | errorWaitGroup.go:81-86 | removes only the caller's id from the registry, then produces a Done report with that id and no payload or error |
| ErrorSync.Admin.NotifyError | errorWaitGroup.go:88-90 | produces an Error report with the admin's id, no payload and the given error; the registry is untouched |
| ErrorSync.ErrorWaitGroup.SetAutoInterrupt | errorWaitGroup.go:127-131 | the policy maps the code to the interrupt code; every other key and the registry are unchanged |
| ErrorSync.ErrorWaitGroup.RemoveAutoInterrupt | errorWaitGroup.go:133-137 | the policy loses exactly that code; every other key and the registry are unchanged |
| ErrorSync.ErrorWaitGroup.Wait | errorWaitGroup.go:139-176 | the outcome is `WaitResult` of the registry at the call. The registry loses the ids of the Done reports taken. On an escalation whose code the policy maps, every admin still registered gets that interrupt at the end of its mailbox. No other mailbox changes and the policy is unchanged |
| ErrorSync.ErrorWaitGroup.Receive | errorWaitGroup.go:151-171 | the receive loop on a non-empty registry ends as `Drain` says, deletes the ids of the Done reports it took, and returns the policy lookup for the escalating code (`interruptAll` is true only when the code is mapped) |
| ErrorSync.ErrorWaitGroup.InterruptAll | errorWaitGroup.go:179-185 | every registered admin gets the interrupt appended to its mailbox, whatever order the registry is visited in |
| ErrorSync.ErrorWaitGroup.Interrupt | errorWaitGroup.go:188-195 | a registered id gets the interrupt appended to its mailbox and no other registered admin's mailbox changes; an unregistered id changes nothing |
| ErrorSync.Admin.Deliver | errorWaitGroup.go:73-75 | the interrupt goes at the end of the admin's pending interrupts |
| ErrorSync.Admin.PollInterrupt | errorWaitGroup.go:63-70 | on an empty mailbox returns the zero interrupt and false and changes nothing; otherwise returns the oldest pending interrupt with true and removes it |
| Escalation.Drain | errorWaitGroup.go:151-171 | the receive loop on a registry, over the reports in the order received; when it returns, it has taken at least one report and no more than were received |
| Escalation.DrainShape | errorWaitGroup.go:151-171 | the loop stops after 1..n reports, all but the last Done. If the last one is Done the result is the zero report with true; otherwise it is that report verbatim with false. The loop stays blocked only if every report is Done |
| Escalation.WaitResult | errorWaitGroup.go:139-171 | a true result always carries the zero report; a false result is the first non-Done report received, and every earlier report was Done |
| Escalation.BroadcastOnEscalation | errorWaitGroup.go:160-174 | (`Broadcast`, both directions) `Wait` broadcasts exactly when it returns a report that is not Done and whose code the policy maps; the interrupt carries the mapped code and a nil payload, and at least one admin is still registered to receive it |
| Escalation.DrainStopsAtFirstStop | errorWaitGroup.go:151-171 | (both directions) the loop returns after exactly k reports iff report k is the first that is not Done, or is Done and leaves the registry empty |
| Escalation.AllDoneCompletes | errorWaitGroup.go:141-171 | if each of n registered admins reports Done exactly once, then `Wait` returns the zero report and true after consuming exactly those n reports, whatever arrives later |
| Escalation.WaitRegistryAfter | errorWaitGroup.go:144-174 | after a true result the registry is empty; at an escalation it is not empty, so a mapped interrupt reaches at least one admin; while blocked it is not empty |
| Escalation.BlockedKeepsRegistry | errorWaitGroup.go:151-169 | while the wait stays blocked, no Done report it took left the registry empty |
| Escalation.DoneIdsSnoc | errorWaitGroup.go:83 | one more report deletes its own id exactly when its code is Done |
| Escalation.DoneIdsMembers | errorWaitGroup.go:83 | an id is deleted by a sequence of reports iff one of them is a Done report carrying that id |
| Scenarios.WaitWithoutAdd | errorWaitGroup_test.go:47-66 | a group with no admin added returns the zero report and true at once and takes no report |
| Scenarios.AllAdminsDone | errorWaitGroup_test.go:24-45 | three admins that each report Done: `Wait` returns the zero report and true after the third report and leaves the registry empty |
| Scenarios.OneAdminErrors | errorWaitGroup_test.go:90-112 | an error from admin 1 is returned verbatim with false after one report; the admin stays registered; with no policy nobody is interrupted |
| Scenarios.PolicyInterruptsOnCustomCode | errorWaitGroup.go:159-174 | with code 7 mapped to Stop, admin 2 finishes and then admin 0 reports code 7. `Wait` returns that report with false. Admins 0 and 1 each poll exactly one Stop; admin 2, no longer registered, polls nothing |
| Scenarios.TargetedInterrupt | errorWaitGroup.go:188-195 | interrupting an admin that has finished, or an id never issued, changes no mailbox; interrupting a registered admin reaches only that admin |
| Scenarios.RemovedPolicyDoesNotInterrupt | errorWaitGroup.go:133-137 | after removing a code from the policy, an escalation on that code interrupts nobody |

## Left out

- ErrorSync.ErrorWaitGroup.Add: the model has one group object that every
  caller shares. In Go, `New` returns an `ErrorWaitGroup` struct value
  (errorWaitGroup.go:114-116). A copy of that value shares the registry, the
  policy, the report channel and the mutex, which are references. It has its
  own id counter, because `idGen` is a value field (errorWaitGroup.go:107)
  that `Add` increments in place (errorWaitGroup.go:120). So two copies can
  issue the same id, and the second `Add` then overwrites the first admin in
  the shared registry (errorWaitGroup.go:122). This copying is not modelled.
  `Add`'s guarantees that the id is fresh and that the registry grows by one
  hold only for a group value that is never copied.
- The mutex (errorWaitGroup.go:109) is modelled only as atomic steps. The
  source has a lock defect that the model does not capture. After the
  `break` at errorWaitGroup.go:164 or :167, the lock taken at :159 is never
  released, so the `InterruptAll` at :173 would block at :180. Also,
  `len(ewg.admins)` at :144 is read without the lock. Both are concurrency
  questions. The model states the broadcast that the code means to make.
- Channel semantics are left out: the rendezvous on `notifCh` and on the
  unbuffered interrupt channels, blocking, and goroutine scheduling. A mailbox
  is a FIFO queue of pending interrupts. The reports `Wait` receives are its
  `arrivals` argument. The interleaving is fixed so that each `NotifyDone`
  deletes just before `Wait` takes its report. The race between one admin's
  delete and another admin's send is not modelled.
- A worker that calls `Notify` with the Done code itself skips the delete
  that `NotifyDone` performs. The model cannot tell the two apart: in `Wait`,
  every Done report deletes its sender's id.
- Go randomises map iteration order in `InterruptAll`. The model visits the
  registry in an arbitrary order and states the result for the whole set of
  registered ids.
- `interface{}` payloads and `error` values are opaque (`Option<int>`,
  `Option<string>`). The unused `ErrorWaitGroup.info` field
  (errorWaitGroup.go:108) is not modelled.
- The id counter is an unbounded integer. Go's `int` would wrap after 2^31
  or 2^63 ids, depending on the platform's `int` width, and that wrap-around
  is not modelled.
- The workload functions of errorWaitGroup_test.go (`funcWithoutError`,
  `funcWithError`, `funcAdd`, `doSomething`, `random`) are demo workloads, not
  part of the group. Only the outcomes its tests assert about `Wait` are
  modelled, in `Scenarios`.
- A mailbox in the code is an unbuffered channel (errorWaitGroup.go:121).
  `Deliver` stands for the send at errorWaitGroup.go:74, which blocks until
  the admin receives, and `InterruptAll` and `Interrupt` send while holding
  the group lock (errorWaitGroup.go:180-184, :189-194). So the code never has
  more than one interrupt pending per group. The model keeps the code's FIFO
  delivery order but abstracts the blocking hand-off as a queue that may hold
  several interrupts. A one-slot mailbox where the newest interrupt replaces
  an older one is not modelled.
