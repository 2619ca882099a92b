/** What a call of Wait decides, as functions of the registry at the call and
    the reports it receives, in the order it receives them.

    A report whose code is Done stands for a NotifyDone: the sender removed
    its own id from the registry just before handing the report over, so the
    registry Wait sees after receiving it no longer holds that id. */
module Escalation {
  import opened Reports

  /** How a call of Wait ends: it returns a report, whether every admin
      finished normally, and how many reports it took from the channel; or
      it is still blocked on the channel when the reports run out. */
  datatype WaitOutcome =
    | Returned(notif: Notif, allDone: bool, consumed: nat)
    | Blocked

  /** The outcome of a wait that had already taken `k` reports. */
  function Later(o: WaitOutcome, k: nat): WaitOutcome
  {
    if o.Returned? then o.(consumed := o.consumed + k) else o
  }

  /** Number of reports a wait takes: all of them when it stays blocked. */
  function Consumed(o: WaitOutcome, arrivals: seq<Notif>): nat
  {
    if o.Returned? then o.consumed else |arrivals|
  }

  /** The ids that the Done reports among `s` remove from the registry. */
  function DoneIds(s: seq<Notif>): set<AdminId>
  {
    if s == [] then {}
    else (if s[0].code == NotifDone then {s[0].adminId} else {}) + DoneIds(s[1..])
  }

  lemma {:induction false} DoneIdsSnoc(s: seq<Notif>, x: Notif)
    ensures DoneIds(s + [x]) == DoneIds(s) + (if x.code == NotifDone then {x.adminId} else {})
  {
    if s == [] {
      assert s + [x] == [x];
      assert [x][1..] == [];
    } else {
      assert (s + [x])[0] == s[0];
      assert (s + [x])[1..] == s[1..] + [x];
      DoneIdsSnoc(s[1..], x);
    }
  }

  lemma {:induction false} DoneIdsMembers(s: seq<Notif>, x: AdminId)
    ensures x in DoneIds(s) <==> exists j | 0 <= j < |s| :: s[j].code == NotifDone && s[j].adminId == x
  {
    if s != [] {
      DoneIdsMembers(s[1..], x);
      if x in DoneIds(s[1..]) {
        var j :| 0 <= j < |s[1..]| && s[1..][j].code == NotifDone && s[1..][j].adminId == x;
        assert s[j + 1] == s[1..][j];
      }
      if exists j | 0 <= j < |s| :: s[j].code == NotifDone && s[j].adminId == x {
        var j :| 0 <= j < |s| && s[j].code == NotifDone && s[j].adminId == x;
        if j > 0 {
          assert s[1..][j - 1] == s[j];
        }
      }
    }
  }

  /** The receive loop of Wait, entered with registry `reg`. */
  function Drain(reg: set<AdminId>, arrivals: seq<Notif>): (r: WaitOutcome)
    ensures r.Returned? ==> 1 <= r.consumed <= |arrivals|
    decreases |arrivals|
  {
    if arrivals == [] then Blocked
    else if arrivals[0].code != NotifDone then Returned(arrivals[0], false, 1)
    else
      var rest := reg - {arrivals[0].adminId};
      if rest == {} then Returned(ZeroNotif, true, 1)
      else Later(Drain(rest, arrivals[1..]), 1)
  }

  /** The receive loop returns after 1..n reports, all Done but the last;
      a true result carries the zero report, a false one the last report
      taken; it stays blocked only when every report is Done. */
  lemma {:induction false} DrainShape(reg: set<AdminId>, arrivals: seq<Notif>)
    ensures var r := Drain(reg, arrivals);
      (r.Returned? ==> 1 <= r.consumed <= |arrivals|) &&
      (r.Returned? ==> forall j | 0 <= j < r.consumed - 1 :: arrivals[j].code == NotifDone) &&
      (r.Returned? ==> (r.allDone <==> arrivals[r.consumed - 1].code == NotifDone)) &&
      (r.Returned? && r.allDone ==> r.notif == ZeroNotif) &&
      (r.Returned? && !r.allDone ==> r.notif == arrivals[r.consumed - 1]) &&
      (r.Blocked? ==> forall j | 0 <= j < |arrivals| :: arrivals[j].code == NotifDone)
    decreases |arrivals|
  {
    if arrivals != [] && arrivals[0].code == NotifDone && reg - {arrivals[0].adminId} != {} {
      DrainShape(reg - {arrivals[0].adminId}, arrivals[1..]);
      forall j | 1 <= j < |arrivals|
        ensures arrivals[j] == arrivals[1..][j - 1]
      {
      }
    }
  }

  /** One turn of the receive loop, taking report `i` after `i` others. */
  lemma DrainTake(reg: set<AdminId>, a: seq<Notif>, i: nat)
    requires i < |a|
    ensures Later(Drain(reg, a[i..]), i) ==
      if a[i].code != NotifDone then Returned(a[i], false, i + 1)
      else if reg - {a[i].adminId} == {} then Returned(ZeroNotif, true, i + 1)
      else Later(Drain(reg - {a[i].adminId}, a[i + 1..]), i + 1)
  {
    assert a[i..][1..] == a[i + 1..];
  }

  /** Wait: nothing to wait for on an empty registry, the receive loop otherwise. */
  function WaitResult(reg: set<AdminId>, arrivals: seq<Notif>): (r: WaitOutcome)
    ensures r.Returned? ==> r.consumed <= |arrivals|
    ensures r.Returned? && r.allDone ==> r.notif == ZeroNotif
    ensures r.Returned? && !r.allDone ==>
      1 <= r.consumed && r.notif == arrivals[r.consumed - 1] && r.notif.code != NotifDone
    ensures r.Returned? ==> forall j | 0 <= j < r.consumed - 1 :: arrivals[j].code == NotifDone
  {
    if reg == {} then Returned(ZeroNotif, true, 0)
    else DrainShape(reg, arrivals); Drain(reg, arrivals)
  }

  /** The interrupt Wait broadcasts before returning `o`, under policy `policy`:
      only an escalation (a non-Done report) whose code the policy maps. */
  function Broadcast(policy: map<NotifCode, InterruptCode>, o: WaitOutcome): Option<Interrupt>
  {
    if o.Returned? && !o.allDone && o.notif.code in policy
    then Some(Interrupt(policy[o.notif.code], None))
    else None
  }

  /** Wait broadcasts exactly when it returns a report that is not Done and
      whose code the policy maps; the interrupt carries the mapped code and
      no payload, and the registry it goes to is not empty. */
  lemma BroadcastOnEscalation(policy: map<NotifCode, InterruptCode>, reg: set<AdminId>, a: seq<Notif>)
    ensures var o := WaitResult(reg, a);
      (Broadcast(policy, o).Some? <==>
        o.Returned? && 1 <= o.consumed <= |a| &&
        a[o.consumed - 1].code != NotifDone && a[o.consumed - 1].code in policy) &&
      (Broadcast(policy, o).Some? ==>
        Broadcast(policy, o).value == Interrupt(policy[a[o.consumed - 1].code], None) &&
        reg - DoneIds(a[..o.consumed]) != {})
  {
    if reg != {} {
      DrainShape(reg, a);
    }
    WaitRegistryAfter(reg, a);
  }

  /** Independent statement of where the receive loop stops: the `k`-th
      report is the first that is either not Done, or Done and leaves the
      registry empty. */
  ghost predicate StopsAt(reg: set<AdminId>, a: seq<Notif>, k: int)
  {
    1 <= k <= |a| &&
    (forall j | 0 <= j < k - 1 :: a[j].code == NotifDone && reg - DoneIds(a[..j + 1]) != {}) &&
    (a[k - 1].code != NotifDone || reg - DoneIds(a[..k]) == {})
  }

  lemma DoneIdsAfterFirst(reg: set<AdminId>, a: seq<Notif>, j: nat)
    requires j < |a| && a[0].code == NotifDone
    ensures reg - DoneIds(a[..j + 1]) == (reg - {a[0].adminId}) - DoneIds(a[1..][..j])
  {
    var p := a[..j + 1];
    assert p[0] == a[0];
    assert p[1..] == a[1..][..j];
  }

  /** The receive loop stops after exactly the reports StopsAt describes. */
  lemma {:induction false} DrainStopsAtFirstStop(reg: set<AdminId>, a: seq<Notif>, k: int)
    ensures StopsAt(reg, a, k) <==> Drain(reg, a).Returned? && Drain(reg, a).consumed == k
    decreases |a|
  {
    if a == [] {
    } else if a[0].code != NotifDone {
      if k > 1 {
        assert !StopsAt(reg, a, k);
      }
    } else {
      var rest := reg - {a[0].adminId};
      DoneIdsAfterFirst(reg, a, 0);
      assert a[1..][..0] == [];
      assert reg - DoneIds(a[..1]) == rest;
      if rest == {} {
        if k > 1 {
          assert !StopsAt(reg, a, k);
        }
      } else {
        DrainStopsAtFirstStop(rest, a[1..], k - 1);
        if k >= 2 && k <= |a| {
          var b := a[1..];
          forall j | 0 <= j < |a|
            ensures reg - DoneIds(a[..j + 1]) == rest - DoneIds(b[..j])
          {
            DoneIdsAfterFirst(reg, a, j);
          }
          if StopsAt(reg, a, k) {
            forall j | 0 <= j < k - 2
              ensures b[j].code == NotifDone && rest - DoneIds(b[..j + 1]) != {}
            {
              assert b[j] == a[j + 1];
              assert reg - DoneIds(a[..j + 2]) != {};
            }
            assert b[k - 2] == a[k - 1];
            assert StopsAt(rest, b, k - 1);
          }
          if StopsAt(rest, b, k - 1) {
            forall j | 0 <= j < k - 1
              ensures a[j].code == NotifDone && reg - DoneIds(a[..j + 1]) != {}
            {
              if j > 0 {
                assert a[j] == b[j - 1];
              }
            }
            assert a[k - 1] == b[k - 2];
            assert StopsAt(reg, a, k);
          }
        }
      }
    }
  }

  /** Admins are distinct when no two reports come from the same id. */
  predicate DistinctIds(s: seq<Notif>)
  {
    forall i, j | 0 <= i < j < |s| :: s[i].adminId != s[j].adminId
  }

  /** n registered admins that each report Done once, and nothing else in
      between, end the wait normally after exactly those n reports, whatever
      arrives afterwards. */
  lemma {:induction false} AllDoneCompletes(reg: set<AdminId>, dones: seq<Notif>, later: seq<Notif>)
    requires forall j | 0 <= j < |dones| :: dones[j].code == NotifDone
    requires DistinctIds(dones)
    requires DoneIds(dones) == reg
    ensures WaitResult(reg, dones + later) == Returned(ZeroNotif, true, |dones|)
    decreases |dones|
  {
    if dones != [] {
      var d := dones[0];
      var rest := reg - {d.adminId};
      DoneIdsMembers(dones[1..], d.adminId);
      assert rest == DoneIds(dones[1..]);
      var all := dones + later;
      assert all[0] == d;
      assert all[1..] == dones[1..] + later;
      if rest != {} {
        forall i, j | 0 <= i < j < |dones[1..]|
          ensures dones[1..][i].adminId != dones[1..][j].adminId
        {
          assert dones[1..][i] == dones[i + 1] && dones[1..][j] == dones[j + 1];
        }
        AllDoneCompletes(rest, dones[1..], later);
      }
    }
  }

  /** What the registry looks like when Wait ends: empty after a normal
      return, still populated after an escalation (so a policy interrupt
      reaches at least one admin) and while Wait stays blocked. */
  lemma WaitRegistryAfter(reg: set<AdminId>, a: seq<Notif>)
    ensures var o := WaitResult(reg, a);
      (o.Returned? && o.allDone ==> reg - DoneIds(a[..o.consumed]) == {}) &&
      (o.Returned? && !o.allDone ==> reg - DoneIds(a[..o.consumed]) != {}) &&
      (o.Blocked? ==> reg - DoneIds(a) != {})
  {
    var o := WaitResult(reg, a);
    if reg == {} {
      assert a[..0] == [];
    } else if o.Returned? {
      var k := o.consumed;
      DrainShape(reg, a);
      DrainStopsAtFirstStop(reg, a, k);
      if !o.allDone {
        DoneIdsSnoc(a[..k - 1], a[k - 1]);
        assert a[..k - 1] + [a[k - 1]] == a[..k];
        if k > 1 {
          assert a[k - 2].code == NotifDone;
        } else {
          assert a[..0] == [];
        }
      }
    } else if a != [] {
      BlockedKeepsRegistry(reg, a, |a| - 1);
      assert a[..|a|] == a;
    }
  }

  /** While Wait stays blocked, no report it took emptied the registry. */
  lemma BlockedKeepsRegistry(reg: set<AdminId>, a: seq<Notif>, j: nat)
    requires reg != {} && WaitResult(reg, a).Blocked? && j < |a|
    ensures reg - DoneIds(a[..j + 1]) != {}
    decreases j
  {
    forall i | 1 <= i <= j
      ensures reg - DoneIds(a[..i]) != {}
    {
      BlockedKeepsRegistry(reg, a, i - 1);
    }
    DrainShape(reg, a);
    DrainStopsAtFirstStop(reg, a, j + 1);
  }
}
