/** An error wait group: a supervisor registers admins (workers), waits for
    all of them to finish, is woken on the first abnormal report, and sends
    interrupts to one or all registered admins, automatically for report
    codes its policy maps. Every method is one atomic step under the group's
    lock; the report channel is the `arrivals` argument of Wait. */
module ErrorSync {
  import opened Reports
  import opened Escalation

  /** The ids issued by a fresh generator after `count` calls of Next. */
  function Issued(count: nat): (ids: seq<AdminId>)
    ensures |ids| == count
    ensures forall i | 0 <= i < count :: ids[i].id == i
  {
    if count == 0 then [] else Issued(count - 1) + [AdminId(count - 1)]
  }

  /** The id generator: `top` is the last id issued, -1 before the first. */
  class AdminIdGen {
    var top: int
    ghost var issued: seq<AdminId>

    ghost predicate Valid()
      reads this
    {
      -1 <= top && issued == Issued(top + 1)
    }

    constructor ()
      ensures Valid() && top == -1 && issued == []
    {
      top := -1;
      issued := [];
    }

    /** Increments the counter, then returns it: a fresh id, greater than
        every id issued before. */
    method Next() returns (id: AdminId)
      requires Valid()
      modifies this
      ensures Valid()
      ensures top == old(top) + 1 && id == AdminId(top)
      ensures issued == old(issued) + [id]
      ensures forall x | x in old(issued) :: x.id < id.id
    {
      top := top + 1;
      issued := issued + [AdminId(top)];
      id := AdminId(top);
    }
  }

  /** The handle of one admin: its id, its group, and its mailbox of pending
      interrupts, oldest first. */
  class Admin {
    const id: AdminId
    const group: ErrorWaitGroup
    var pending: seq<Interrupt>

    constructor (id: AdminId, group: ErrorWaitGroup)
      ensures this.id == id && this.group == group && pending == []
    {
      this.id := id;
      this.group := group;
      pending := [];
    }

    /** Non-blocking take from the mailbox: the oldest pending interrupt,
        or the zero interrupt and false when there is none. */
    method PollInterrupt() returns (i: Interrupt, ok: bool)
      modifies this
      ensures ok <==> old(pending) != []
      ensures ok ==> i == old(pending)[0] && pending == old(pending)[1..]
      ensures !ok ==> i == ZeroInterrupt && pending == old(pending)
    {
      if pending != [] {
        i, ok := pending[0], true;
        pending := pending[1..];
      } else {
        i, ok := ZeroInterrupt, false;
      }
    }

    /** Puts an interrupt into the mailbox, behind those already pending. */
    method Deliver(inter: Interrupt)
      modifies this
      ensures pending == old(pending) + [inter]
    {
      pending := pending + [inter];
    }

    /** The report this admin hands to the group; the registry is untouched. */
    method Notify(code: NotifCode, info: Option<Info>, err: Option<ErrorValue>) returns (n: Notif)
      ensures n.adminId == id && n.code == code && n.info == info && n.err == err
    {
      n := Notif(id, code, info, err);
    }

    /** Leaves the registry, then reports Done. */
    method NotifyDone() returns (n: Notif)
      requires group.Valid()
      modifies group
      ensures group.Valid()
      ensures group.admins == old(group.admins) - {id}
      ensures group.autoInterrupts == old(group.autoInterrupts)
      ensures n == Notif(id, NotifDone, None, None)
    {
      group.RemoveAdmin(id);
      n := Notify(NotifDone, None, None);
    }

    /** Reports an error; the admin stays registered. */
    method NotifyError(err: Option<ErrorValue>) returns (n: Notif)
      ensures n.adminId == id && n.code == NotifError && n.info == None && n.err == err
    {
      n := Notify(NotifError, None, err);
    }
  }

  /** One turn of Wait's receive loop, on registry `m` after `i` reports
      taken from `a` since registry `m0`. */
  lemma ReceiveStep(m0: map<AdminId, Admin>, m: map<AdminId, Admin>, a: seq<Notif>, i: nat)
    requires i < |a| && m == m0 - DoneIds(a[..i])
    ensures a[i].code != NotifDone ==>
      m == m0 - DoneIds(a[..i + 1]) &&
      Later(Drain(m.Keys, a[i..]), i) == Returned(a[i], false, i + 1)
    ensures a[i].code == NotifDone ==>
      m - {a[i].adminId} == m0 - DoneIds(a[..i + 1]) &&
      Later(Drain(m.Keys, a[i..]), i) ==
        if (m - {a[i].adminId}).Keys == {} then Returned(ZeroNotif, true, i + 1)
        else Later(Drain((m - {a[i].adminId}).Keys, a[i + 1..]), i + 1)
  {
    DrainTake(m.Keys, a, i);
    assert a[..i + 1] == a[..i] + [a[i]];
    DoneIdsSnoc(a[..i], a[i]);
    assert (m - {a[i].adminId}).Keys == m.Keys - {a[i].adminId};
  }

  class ErrorWaitGroup {
    const idGen: AdminIdGen
    var admins: map<AdminId, Admin>
    var autoInterrupts: map<NotifCode, InterruptCode>

    /** Registered admins are keyed by their own ids, belong to this group,
        and hold ids the generator has issued. */
    ghost predicate Valid()
      reads this, idGen
    {
      idGen.Valid() &&
      forall k | k in admins :: 0 <= k.id <= idGen.top && admins[k].id == k && admins[k].group == this
    }

    constructor New()
      ensures Valid() && fresh(idGen)
      ensures admins == map[] && autoInterrupts == map[]
      ensures idGen.top == -1 && idGen.issued == []
    {
      idGen := new AdminIdGen();
      admins := map[];
      autoInterrupts := map[];
    }

    /** Registers a new admin under a fresh id, with an empty mailbox. */
    method Add() returns (a: Admin)
      requires Valid()
      modifies this, idGen
      ensures Valid()
      ensures fresh(a) && a.group == this && a.pending == []
      ensures a.id == AdminId(old(idGen.top) + 1) && a.id !in old(admins)
      ensures forall x | x in old(idGen.issued) :: x.id < a.id.id
      ensures idGen.issued == old(idGen.issued) + [a.id]
      ensures admins == old(admins)[a.id := a] && |admins| == |old(admins)| + 1
      ensures autoInterrupts == old(autoInterrupts)
    {
      var adminId := idGen.Next();
      a := new Admin(adminId, this);
      admins := admins[adminId := a];
    }

    /** The delete NotifyDone performs under the lock. */
    method RemoveAdmin(id: AdminId)
      requires Valid()
      modifies this
      ensures Valid()
      ensures admins == old(admins) - {id}
      ensures autoInterrupts == old(autoInterrupts)
    {
      admins := admins - {id};
    }

    method SetAutoInterrupt(n: NotifCode, i: InterruptCode)
      requires Valid()
      modifies this
      ensures Valid()
      ensures autoInterrupts == old(autoInterrupts)[n := i]
      ensures admins == old(admins)
    {
      autoInterrupts := autoInterrupts[n := i];
    }

    method RemoveAutoInterrupt(n: NotifCode)
      requires Valid()
      modifies this
      ensures Valid()
      ensures autoInterrupts == old(autoInterrupts) - {n}
      ensures admins == old(admins)
    {
      autoInterrupts := autoInterrupts - {n};
    }

    /** Waits on the reports `arrivals`, in the order they are received.
        The outcome is the one WaitResult specifies; the registry loses the
        ids of the Done reports taken; on an escalation whose code the
        policy maps, every admin still registered gets the policy's
        interrupt, and no other mailbox changes. */
    method Wait(arrivals: seq<Notif>) returns (outcome: WaitOutcome)
      requires Valid()
      modifies this, admins.Values
      ensures Valid()
      ensures outcome == WaitResult(old(admins).Keys, arrivals)
      ensures admins == old(admins) - DoneIds(arrivals[..Consumed(outcome, arrivals)])
      ensures autoInterrupts == old(autoInterrupts)
      ensures forall k | k in old(admins) ::
        old(admins)[k].pending ==
          if k in admins && Broadcast(autoInterrupts, outcome).Some?
          then old(admins[k].pending) + [Broadcast(autoInterrupts, outcome).value]
          else old(admins[k].pending)
    {
      if |admins| == 0 {
        assert admins.Keys == {};
        assert arrivals[..0] == [];
        return Returned(ZeroNotif, true, 0);
      }
      var interruptAll, iCode;
      outcome, interruptAll, iCode := Receive(arrivals);
      if interruptAll {
        assert admins.Values <= old(admins).Values;
        InterruptAll(Reports.Interrupt(iCode, None));
      }
    }

    /** The receive loop of Wait, entered with a non-empty registry: it
        takes reports until one is not Done, or a Done one leaves the
        registry empty, and looks the escalating code up in the policy. */
    method Receive(arrivals: seq<Notif>) returns (outcome: WaitOutcome, interruptAll: bool, iCode: InterruptCode)
      requires Valid() && admins != map[]
      modifies this
      ensures Valid()
      ensures outcome == Drain(old(admins).Keys, arrivals)
      ensures Consumed(outcome, arrivals) <= |arrivals|
      ensures admins == old(admins) - DoneIds(arrivals[..Consumed(outcome, arrivals)])
      ensures autoInterrupts == old(autoInterrupts)
      ensures interruptAll <==> Broadcast(autoInterrupts, outcome).Some?
      ensures interruptAll ==> Reports.Interrupt(iCode, None) == Broadcast(autoInterrupts, outcome).value
    {
      var isDone := true;
      var result := ZeroNotif;
      interruptAll, iCode := false, 0;
      var i := 0;
      var stopped := false;
      assert arrivals[0..] == arrivals;
      assert arrivals[..0] == [];
      while i < |arrivals|
        invariant 0 <= i <= |arrivals|
        invariant Valid()
        invariant admins == old(admins) - DoneIds(arrivals[..i])
        invariant admins != map[]
        invariant Later(Drain(admins.Keys, arrivals[i..]), i) == Drain(old(admins).Keys, arrivals)
        invariant autoInterrupts == old(autoInterrupts)
      {
        var n := arrivals[i];
        ReceiveStep(old(admins), admins, arrivals, i);
        i := i + 1;
        if n.code != NotifDone {
          interruptAll := n.code in autoInterrupts;
          iCode := if interruptAll then autoInterrupts[n.code] else 0;
          result := n;
          isDone := false;
          stopped := true;
          assert admins == old(admins) - DoneIds(arrivals[..i]);
          break;
        } else {
          RemoveAdmin(n.adminId);
          if |admins| == 0 {
            assert admins.Keys == {};
            stopped := true;
            break;
          }
        }
      }
      if !stopped {
        return Blocked, interruptAll, iCode;
      }
      outcome := Returned(result, isDone, i);
    }

    /** Sends `inter` to every registered admin, in no particular order. */
    method InterruptAll(inter: Interrupt)
      requires Valid()
      modifies admins.Values
      ensures forall k | k in admins :: admins[k].pending == old(admins[k].pending) + [inter]
    {
      var remaining := admins.Keys;
      while remaining != {}
        invariant remaining <= admins.Keys
        invariant forall k | k in admins && k !in remaining :: admins[k].pending == old(admins[k].pending) + [inter]
        invariant forall k | k in remaining :: admins[k].pending == old(admins[k].pending)
        decreases remaining
      {
        var id :| id in remaining;
        admins[id].Deliver(inter);
        remaining := remaining - {id};
      }
    }

    /** Sends `inter` to the admin registered under `id`; does nothing when
        no admin is. */
    method Interrupt(id: AdminId, inter: Interrupt)
      requires Valid()
      modifies if id in admins then {admins[id]} else {}
      ensures id in admins ==> admins[id].pending == old(admins[id].pending) + [inter]
      ensures forall k | k in admins && k != id :: admins[k].pending == old(admins[k].pending)
    {
      if id in admins {
        admins[id].Deliver(inter);
      }
    }
  }
}
