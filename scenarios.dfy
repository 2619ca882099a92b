/** Supervisors using an error wait group, as the repository's tests do,
    together with the policy and targeted-interrupt cases; each one's
    contract is what the supervisor observes.

    A report built with `Notify(NotifDone, ...)` below is the hand-off of a
    NotifyDone whose delete, as everywhere in this model, takes effect when
    Wait receives the report. */
module Scenarios {
  import opened Reports
  import opened Escalation
  import opened ErrorSync

  /** A fresh group to which three admins were added, with ids 0, 1, 2. */
  method NewGroupOfThree() returns (ewg: ErrorWaitGroup, a0: Admin, a1: Admin, a2: Admin)
    ensures fresh(ewg) && fresh(ewg.idGen) && fresh(a0) && fresh(a1) && fresh(a2)
    ensures ewg.Valid()
    ensures ewg.admins == map[AdminId(0) := a0, AdminId(1) := a1, AdminId(2) := a2]
    ensures ewg.autoInterrupts == map[]
    ensures a0.id == AdminId(0) && a1.id == AdminId(1) && a2.id == AdminId(2)
    ensures a0.pending == [] && a1.pending == [] && a2.pending == []
  {
    ewg, a0, a1 := NewGroupOfTwo();
    a2 := ewg.Add();
  }

  /** A fresh group to which two admins were added, with ids 0 and 1. */
  method NewGroupOfTwo() returns (ewg: ErrorWaitGroup, a0: Admin, a1: Admin)
    ensures fresh(ewg) && fresh(ewg.idGen) && fresh(a0) && fresh(a1)
    ensures ewg.Valid() && ewg.idGen.top == 1
    ensures ewg.admins == map[AdminId(0) := a0, AdminId(1) := a1]
    ensures ewg.autoInterrupts == map[]
    ensures a0.id == AdminId(0) && a1.id == AdminId(1)
    ensures a0.pending == [] && a1.pending == []
  {
    ewg := new ErrorWaitGroup.New();
    a0 := ewg.Add();
    a1 := ewg.Add();
  }

  /** A group no admin was added to does not wait, whatever reports exist. */
  method WaitWithoutAdd(arrivals: seq<Notif>) returns (outcome: WaitOutcome)
    ensures outcome == Returned(ZeroNotif, true, 0)
  {
    var ewg := new ErrorWaitGroup.New();
    outcome := ewg.Wait(arrivals);
  }

  /** Three admins each finish (the hand-offs of their NotifyDone calls,
      received in the order 1, 2, 0):
      the wait ends normally after the third report and the registry is
      empty; reports arriving later are not taken. */
  method AllAdminsDone(later: seq<Notif>) returns (outcome: WaitOutcome, registered: nat)
    ensures outcome == Returned(ZeroNotif, true, 3)
    ensures registered == 0
  {
    var ewg, a0, a1, a2 := NewGroupOfThree();
    var d1 := a1.Notify(NotifDone, None, None);
    var d2 := a2.Notify(NotifDone, None, None);
    var d0 := a0.Notify(NotifDone, None, None);
    var dones := [d1, d2, d0];
    assert DoneIds(dones) == ewg.admins.Keys by {
      assert ewg.admins.Keys == {a0.id, a1.id, a2.id};
      assert [d0][1..] == [] && DoneIds([d0]) == {a0.id};
      assert [d2, d0][1..] == [d0] && DoneIds([d2, d0]) == {a2.id, a0.id};
      assert dones[1..] == [d2, d0];
    }
    AllDoneCompletes(ewg.admins.Keys, dones, later);
    outcome := ewg.Wait(dones + later);
    assert (dones + later)[..3] == dones;
    registered := |ewg.admins|;
  }

  /** The second of three admins reports an error: the wait returns that
      report and false at once, whatever follows; without a policy entry
      nobody is interrupted, and the erring admin stays registered. */
  method OneAdminErrors(err: ErrorValue, later: seq<Notif>)
    returns (outcome: WaitOutcome, stillRegistered: bool, ok0: bool, ok1: bool, ok2: bool)
    ensures outcome == Returned(Notif(AdminId(1), NotifError, None, Some(err)), false, 1)
    ensures stillRegistered
    ensures !ok0 && !ok1 && !ok2
  {
    var ewg, a0, a1, a2 := NewGroupOfThree();
    var e := a1.NotifyError(Some(err));
    assert ([e] + later)[0] == e;
    outcome := ewg.Wait([e] + later);
    assert Broadcast(ewg.autoInterrupts, outcome) == None;
    assert a0.pending == [] && a1.pending == [] && a2.pending == [];
    stillRegistered := a1.id in ewg.admins;
    var _, polled0 := a0.PollInterrupt();
    var _, polled1 := a1.PollInterrupt();
    var _, polled2 := a2.PollInterrupt();
    ok0, ok1, ok2 := polled0, polled1, polled2;
  }

  /** The policy maps custom code 7 to Stop. Admin 2 finishes, then admin 0
      reports code 7: the wait returns that report and false, and each admin
      still registered (0 and 1) finds exactly one Stop in its mailbox, while
      admin 2, no longer registered, finds none. */
  method PolicyInterruptsOnCustomCode(info: Info)
    returns (outcome: WaitOutcome, i0: Interrupt, ok0: bool, i1: Interrupt, ok1: bool,
             again0: bool, again1: bool, ok2: bool)
    ensures outcome == Returned(Notif(AdminId(0), 7, Some(info), None), false, 2)
    ensures ok0 && i0 == Interrupt(InterruptStop, None)
    ensures ok1 && i1 == Interrupt(InterruptStop, None)
    ensures !again0 && !again1 && !ok2
  {
    var a0, a1, a2;
    outcome, a0, a1, a2 := EscalateOnCustomCode(info);
    i0, ok0 := a0.PollInterrupt();
    var _, more := a0.PollInterrupt();
    again0 := more;
    i1, ok1 := a1.PollInterrupt();
    var _, more1 := a1.PollInterrupt();
    again1 := more1;
    var _, polled2 := a2.PollInterrupt();
    ok2 := polled2;
  }

  /** The wait of PolicyInterruptsOnCustomCode, and the mailboxes it leaves. */
  method EscalateOnCustomCode(info: Info) returns (outcome: WaitOutcome, a0: Admin, a1: Admin, a2: Admin)
    ensures fresh(a0) && fresh(a1) && fresh(a2)
    ensures a0.id == AdminId(0) && a1.id == AdminId(1) && a2.id == AdminId(2)
    ensures outcome == Returned(Notif(AdminId(0), 7, Some(info), None), false, 2)
    ensures a0.pending == [Interrupt(InterruptStop, None)]
    ensures a1.pending == [Interrupt(InterruptStop, None)]
    ensures a2.pending == []
  {
    var ewg;
    ewg, a0, a1, a2 := NewGroupOfThree();
    ewg.SetAutoInterrupt(7, InterruptStop);
    // Admin 2's NotifyDone hand-off; its delete applies when Wait takes it.
    var d2 := a2.Notify(NotifDone, None, None);
    var c0 := a0.Notify(7, Some(info), None);
    var arrivals := [d2, c0];
    ghost var keys := ewg.admins.Keys;
    assert keys - {a2.id} != {} by {
      assert a0.id in keys - {a2.id};
    }
    DrainTake(keys, arrivals, 0);
    DrainTake(keys - {a2.id}, arrivals, 1);
    assert arrivals[1..] == [c0] && arrivals[..2] == arrivals;
    assert DoneIds(arrivals) == {a2.id} by {
      assert [c0][1..] == [];
      assert DoneIds([c0]) == {};
    }
    outcome := ewg.Wait(arrivals);
    assert Broadcast(ewg.autoInterrupts, outcome) == Some(Interrupt(InterruptStop, None));
    assert a0.id in ewg.admins && a1.id in ewg.admins && a2.id !in ewg.admins;
  }

  /** Interrupt reaches only the admin it names, and only while that admin
      is registered; an unknown id changes nothing. */
  method TargetedInterrupt() returns (i1: Interrupt, ok1: bool, again1: bool, ok0: bool, ok2: bool)
    ensures ok1 && i1 == Interrupt(InterruptKill, None)
    ensures !again1 && !ok0 && !ok2
  {
    var a0, a1, a2 := InterruptOneOfThree();
    i1, ok1 := a1.PollInterrupt();
    var _, more1 := a1.PollInterrupt();
    again1 := more1;
    var _, polled0 := a0.PollInterrupt();
    ok0 := polled0;
    var _, polled2 := a2.PollInterrupt();
    ok2 := polled2;
  }

  /** The interrupts of TargetedInterrupt, and the mailboxes they leave:
      admin 0 has finished, id 5 was never issued, admin 1 gets a Kill. */
  method InterruptOneOfThree() returns (a0: Admin, a1: Admin, a2: Admin)
    ensures fresh(a0) && fresh(a1) && fresh(a2)
    ensures a0.pending == [] && a1.pending == [Interrupt(InterruptKill, None)] && a2.pending == []
  {
    var ewg;
    ewg, a0, a1, a2 := NewGroupOfThree();
    var _ := a0.NotifyDone();
    ewg.Interrupt(a0.id, Interrupt(InterruptStop, None));
    ewg.Interrupt(AdminId(5), Interrupt(InterruptStop, None));
    ewg.Interrupt(a1.id, Interrupt(InterruptKill, None));
  }

  /** After RemoveAutoInterrupt the escalating code triggers no broadcast. */
  method RemovedPolicyDoesNotInterrupt(err: ErrorValue) returns (outcome: WaitOutcome, ok0: bool)
    ensures outcome == Returned(Notif(AdminId(0), NotifError, None, Some(err)), false, 1)
    ensures !ok0
  {
    var ewg := new ErrorWaitGroup.New();
    var a0 := ewg.Add();
    ewg.SetAutoInterrupt(NotifError, InterruptKill);
    ewg.RemoveAutoInterrupt(NotifError);
    var e := a0.NotifyError(Some(err));
    outcome := ewg.Wait([e]);
    var _, polled := a0.PollInterrupt();
    ok0 := polled;
  }
}
