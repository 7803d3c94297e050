/** Runs of the process manager, with the history of every process inside process_wait: which were woken
    by the death of a child they waited for, which by somebody else's process_wakeup, and which had a child
    taken from them by process_info. */
module ProcessRuns {
  import opened ProcessState
  import opened ProcessKill
  import opened ProcessSpared
  import opened ProcessReparent
  import opened ProcessManager

  // Pids of processes that called process_wait and have not come back from it, and what befell them there.
  datatype History = History(waiting: set<nat>, told: set<nat>, outside: set<nat>, robbed: set<nat>)

  ghost predicate Known(h: History, x: nat) { x in h.waiting || x in h.told || x in h.outside || x in h.robbed }

  ghost predicate HasDead(pl: seq<Proc>, w: nat) { exists j: nat :: DeadChild(pl, w, j) }

  // Whoever was told of a child's death still has a dead child to collect, unless one was taken from it;
  // the kernel's are not kept.
  ghost predicate ToldOk(pl: seq<Proc>, h: History, w: nat) {
    w < |pl| && Alive(pl[w]) && pl[w].pid in h.told && pl[w].pid != 0 ==> HasDead(pl, w) || pl[w].pid in h.robbed
  }

  // Inside process_wait, a process still waits for a child of its own, or somebody has woken it.
  ghost predicate WaitOk(pl: seq<Proc>, h: History, w: nat) {
    w < |pl| && Alive(pl[w]) && pl[w].pid in h.waiting ==>
      || pl[w].pid in h.told || pl[w].pid in h.outside || pl[w].pid in h.robbed || pl[w].waitPid == -1
      || (pl[w].waitPid > 0 && ChildOf(pl, pl[w].waitPid, pl[w].pid))
  }

  ghost predicate HistoryOk(pl: seq<Proc>, h: History, pidCount: nat) {
    && (forall x: nat :: Known(h, x) ==> x <= pidCount)
    && (forall w: nat :: ToldOk(pl, h, w) && WaitOk(pl, h, w))
  }

  // A step that kills nobody: names stay, waits stay, and zombies whose parent may still ask for them too.
  ghost predicate Quiet(pl: seq<Proc>, pl': seq<Proc>) {
    && |pl'| == |pl|
    && (forall j :: 0 <= j < |pl| ==>
          && pl'[j].pid == pl[j].pid && pl'[j].ppid == pl[j].ppid && (Alive(pl'[j]) <==> Alive(pl[j]))
          && pl'[j].waitPid == pl[j].waitPid
          && (pl[j].state == ZMB && pl[j].ppid != 0 && AlivePid(pl, pl[j].ppid) ==> pl'[j].state == ZMB))
  }

  lemma QuietKeeps(pl: seq<Proc>, pl': seq<Proc>, h: History, pidCount: nat)
    requires HistoryOk(pl, h, pidCount) && Quiet(pl, pl')
    ensures HistoryOk(pl', h, pidCount)
  {
    forall w: nat ensures ToldOk(pl', h, w) && WaitOk(pl', h, w) {
      assert ToldOk(pl, h, w) && WaitOk(pl, h, w);
      if w < |pl| && Alive(pl[w]) && pl[w].pid in h.told && pl[w].pid != 0 && HasDead(pl, w) {
        var j: nat :| DeadChild(pl, w, j);
        assert DeadChild(pl', w, j);
      }
    }
  }

  lemma ScheduledQuiet(s: St, s': St, t: nat)
    requires Scheduled(s, s', t)
    ensures Quiet(s.plist, s'.plist)
  {
    hide AlivePid;
    var a := AwakePl(s.plist, t);
    assert forall j :: 0 <= j < |a| ==> a[j].pid == s.plist[j].pid && (Alive(a[j]) <==> Alive(s.plist[j]));
    SamePids(s.plist, a);
  }

  lemma SamePids(pl: seq<Proc>, pl': seq<Proc>)
    requires |pl'| == |pl|
    requires forall j :: 0 <= j < |pl| ==> pl'[j].pid == pl[j].pid && (Alive(pl'[j]) <==> Alive(pl[j]))
    ensures forall x :: AlivePid(pl', x) <==> AlivePid(pl, x)
  {
  }

  // A process that is back from process_wait leaves the history.
  function Forget(h: History, pid: nat): History {
    History(h.waiting - {pid}, h.told - {pid}, h.outside - {pid}, h.robbed - {pid})
  }

  lemma ForgetKeeps(pl: seq<Proc>, h: History, pid: nat, pidCount: nat)
    requires HistoryOk(pl, h, pidCount)
    ensures HistoryOk(pl, Forget(h, pid), pidCount)
  {
    forall x: nat | Known(Forget(h, pid), x) ensures x <= pidCount { assert Known(h, x); }
    forall w: nat ensures ToldOk(pl, Forget(h, pid), w) && WaitOk(pl, Forget(h, pid), w) {
      assert ToldOk(pl, h, w) && WaitOk(pl, h, w);
    }
  }

  // One slot changes, its names and the life in it do not; h' differs from h for its process only.
  ghost predicate OneSlot(pl: seq<Proc>, pl': seq<Proc>, p: nat) {
    && p < |pl| && |pl'| == |pl| && pl' == pl[p := pl'[p]]
    && pl'[p].pid == pl[p].pid && pl'[p].ppid == pl[p].ppid && Alive(pl[p]) && Alive(pl'[p])
  }

  lemma OneSlotKeeps(pl: seq<Proc>, pl': seq<Proc>, p: nat, h: History, h': History, pidCount: nat)
    requires HistoryOk(pl, h, pidCount) && OneSlot(pl, pl', p)
    requires h'.told == h.told && h'.robbed == h.robbed && forall x: nat :: Known(h', x) ==> x <= pidCount
    requires forall x :: x != pl[p].pid ==>
               (x in h'.waiting <==> x in h.waiting) && (x in h'.outside <==> x in h.outside)
    requires WaitOk(pl', h', p)
    requires forall j :: 0 <= j < |pl| && j != p && Alive(pl[j]) ==> pl[j].pid != pl[p].pid
    ensures HistoryOk(pl', h', pidCount)
  {
    forall w: nat ensures ToldOk(pl', h', w) && WaitOk(pl', h', w) {
      assert ToldOk(pl, h, w) && WaitOk(pl, h, w);
      if w < |pl| && w != p && Alive(pl[w]) {
        assert pl[w].pid in h'.waiting <==> pl[w].pid in h.waiting;
        assert pl[w].pid in h'.outside <==> pl[w].pid in h.outside;
      }
      if w < |pl| && Alive(pl[w]) && pl[w].pid in h.told && pl[w].pid != 0 && HasDead(pl, w) {
        var j: nat :| DeadChild(pl, w, j);
        assert DeadChild(pl', w, j);
      }
    }
  }

  // A zombie child of slot c is collected; c's process had left the history.
  lemma CollectKeeps(pl: seq<Proc>, pl': seq<Proc>, c: nat, i: nat, h: History, pidCount: nat)
    requires HistoryOk(pl, h, pidCount) && DeadChild(pl, c, i) && |pl'| == |pl| && pl'[i].state == FRE
    requires forall j :: 0 <= j < |pl| && j != i ==> pl'[j] == pl[j]
    requires pl[c].pid !in h.told
    ensures HistoryOk(pl', h, pidCount)
  {
    forall w: nat ensures ToldOk(pl', h, w) && WaitOk(pl', h, w) {
      assert ToldOk(pl, h, w) && WaitOk(pl, h, w);
      if w < |pl| && w != i && Alive(pl[w]) && pl[w].pid in h.told && pl[w].pid != 0 && HasDead(pl, w) {
        var j: nat :| DeadChild(pl, w, j);
        assert DeadChild(pl', w, j);
      }
    }
  }

  lemma CreateKeepsHistory(pl: seq<Proc>, pl': seq<Proc>, p: nat, h: History, pidCount: nat)
    requires HistoryOk(pl, h, pidCount) && p < |pl| && pl[p].state == FRE && |pl'| == |pl| && pl' == pl[p := pl'[p]]
    requires pl'[p].pid == pidCount + 1 && pl'[p].waitPid == 0
    requires forall j :: 0 <= j < |pl| && Alive(pl[j]) ==> pl[j].waitPid <= pidCount
    ensures HistoryOk(pl', h, pidCount + 1)
  {
    assert !Known(h, pidCount + 1);
    forall w: nat ensures ToldOk(pl', h, w) && WaitOk(pl', h, w) {
      assert ToldOk(pl, h, w) && WaitOk(pl, h, w);
      if w < |pl| && w != p && Alive(pl[w]) && pl[w].pid in h.told && pl[w].pid != 0 && HasDead(pl, w) {
        var j: nat :| DeadChild(pl, w, j);
        assert DeadChild(pl', w, j);
      }
    }
  }

  // Survivors that waited for one of their own children that died.
  ghost function Bereaved(pl: seq<Proc>, pl': seq<Proc>): set<nat> {
    set w: nat | w < |pl| && w < |pl'| && Alive(pl[w]) && Alive(pl'[w]) && LostChild(pl, pl', w) :: pl[w].pid
  }

  ghost predicate LostChild(pl: seq<Proc>, pl': seq<Proc>, w: nat)
    requires w < |pl|
  {
    exists k: nat :: Died(pl, pl', k) && WaitsFor(pl[w], pl[k]) && pl[k].ppid == pl[w].pid
  }

  lemma KillKeepsHistory(pl: seq<Proc>, pl': seq<Proc>, pid: nat, retcode: nat, h: History, pidCount: nat)
    requires HistoryOk(pl, h, pidCount) && Killed(pl, pl', pid, retcode) && OnePid(pl)
    requires forall j :: 0 <= j < |pl| && Alive(pl[j]) ==> pl[j].pid <= pidCount
    ensures HistoryOk(pl', h.(told := h.told + Bereaved(pl, pl')), pidCount)
  {
    var h' := h.(told := h.told + Bereaved(pl, pl'));
    var place: nat :| Spared(pl, pl', place, PROCESS_MAX, PROCESS_MAX) && pl'[place] == Corpse(pl[place], retcode);
    KilledNames(pl, pl', place, retcode);
    forall x: nat | Known(h', x) ensures x <= pidCount { assert x in Bereaved(pl, pl') || Known(h, x); }
    forall w: nat ensures ToldOk(pl', h', w) && WaitOk(pl', h', w) {
      if w < |pl| && Alive(pl'[w]) {
        SurvivorTold(pl, pl', place, retcode, h, w);
        SurvivorWaits(pl, pl', place, h, w);
      }
    }
  }

  lemma KilledNames(pl: seq<Proc>, pl': seq<Proc>, place: nat, retcode: nat)
    requires Spared(pl, pl', place, PROCESS_MAX, PROCESS_MAX) && pl'[place] == Corpse(pl[place], retcode)
    ensures forall j :: 0 <= j < |pl| ==> pl'[j].pid == pl[j].pid && pl'[j].ppid == pl[j].ppid
    ensures forall k: nat :: Died(pl, pl', k) ==> pl'[k].state == ZMB
    ensures forall j :: 0 <= j < |pl| && Alive(pl'[j]) ==> Alive(pl[j])
  {
    forall j: nat | j < |pl|
      ensures pl'[j].pid == pl[j].pid && pl'[j].ppid == pl[j].ppid && (Died(pl, pl', j) ==> pl'[j].state == ZMB)
              && (Alive(pl'[j]) ==> Alive(pl[j]))
    {
      assert SparedAt(pl, pl', place, j);
    }
  }

  lemma SurvivorTold(pl: seq<Proc>, pl': seq<Proc>, place: nat, retcode: nat, h: History, w: nat)
    requires Spared(pl, pl', place, PROCESS_MAX, PROCESS_MAX) && pl'[place] == Corpse(pl[place], retcode) && OnePid(pl)
    requires w < |pl| && Alive(pl'[w]) && Alive(pl[w]) && ToldOk(pl, h, w)
    ensures ToldOk(pl', h.(told := h.told + Bereaved(pl, pl')), w)
  {
    KilledNames(pl, pl', place, retcode);
    if pl[w].pid != 0 && pl[w].pid in h.told && HasDead(pl, w) {
      var j: nat :| DeadChild(pl, w, j);
      assert SparedAt(pl, pl', place, j);
      ParentLivesOn(pl, pl', j, w);
      assert DeadChild(pl', w, j);
    } else if pl[w].pid in Bereaved(pl, pl') {
      var v: nat :| v < |pl| && v < |pl'| && Alive(pl[v]) && Alive(pl'[v]) && LostChild(pl, pl', v)
          && pl[v].pid == pl[w].pid;
      var k: nat :| Died(pl, pl', k) && WaitsFor(pl[v], pl[k]) && pl[k].ppid == pl[v].pid;
      assert DeadChild(pl', w, k);
    }
  }

  lemma ParentLivesOn(pl: seq<Proc>, pl': seq<Proc>, j: nat, w: nat)
    requires OnePid(pl) && j < |pl| && w < |pl| && w < |pl'| && Alive(pl[w]) && Alive(pl'[w]) && pl[w].pid == pl[j].ppid
    ensures !ParentDied(pl, pl', j)
  {
  }

  lemma SurvivorWaits(pl: seq<Proc>, pl': seq<Proc>, place: nat, h: History, w: nat)
    requires Spared(pl, pl', place, PROCESS_MAX, PROCESS_MAX) && w < |pl| && Alive(pl'[w]) && WaitOk(pl, h, w)
    requires forall j :: 0 <= j < |pl| ==>
               pl'[j].pid == pl[j].pid && pl'[j].ppid == pl[j].ppid && (Alive(pl'[j]) ==> Alive(pl[j]))
    ensures WaitOk(pl', h.(told := h.told + Bereaved(pl, pl')), w)
  {
    assert SparedAt(pl, pl', place, w);
    if pl'[w] != pl[w] {
      var k: nat :| Died(pl, pl', k) && WokenBy(pl[w], pl'[w], pl[k]);
      if pl[k].ppid == pl[w].pid { assert LostChild(pl, pl', w); }
    }
  }

  // The process manager and its history. A process that has been woken inside process_wait goes on there
  // before it makes another call.
  class Runs {
    const m: Manager
    ghost var h: History

    ghost predicate Valid()
      reads this, m
    {
      m.Valid() && HistoryOk(m.plist, h, m.pidCount)
    }

    // The current process, free to make a call.
    ghost predicate Free()
      requires m.Valid()
      reads this, m
    {
      m.plist[m.current].pid !in h.waiting
    }

    constructor ()
      ensures Valid() && fresh(m) && h == History({}, {}, {}, {}) && Initial(m.View())
    {
      m := new Manager();
      h := History({}, {}, {}, {});
    }

    // A timer tick: anybody may be preempted.
    method Tick(ticks: nat, now: nat)
      requires Valid()
      modifies this, m
      ensures Valid() && h == old(h)
      ensures if ticks != 0 && ticks - old(m.lastSwitch) < SCHEDULER_EVRY
                 && (old(m.plist[m.current].state) != IDL || old(m.interact) > ticks)
              then m.View() == old(m.View())
              else Scheduled(old(m.View()), m.View(), if ticks == 0 then now else ticks)
    {
      hide Structure, InteractOk, FamilyOk, Scheduled, HistoryOk;
      m.Schedule(ticks, now);
      RescheduledQuiet(old(m.View()), m.View());
      QuietKeeps(old(m.plist), m.plist, h, m.pidCount);
    }

    method Create() returns (ret: int)
      requires Valid() && Free()
      modifies this, m
      ensures Valid() && h == old(h)
    {
      hide Structure, InteractOk, FamilyOk, HistoryOk;
      WaitsBelow(m.View());
      ret := m.Create();
      if ret != -1 {
        ghost var p :| 0 <= p < PROCESS_MAX && old(m.plist[p].state) == FRE
                 && m.plist == old(m.plist)[p := Proc(ret, old(m.plist[m.current].pid), SLP, 0, 0, true)];
        CreateKeepsHistory(old(m.plist), m.plist, p, h, old(m.pidCount));
      }
    }

    method Sleep(pid: nat, ms: nat, now: nat) returns (ret: int)
      requires Valid() && Free() && ms < WORD && now < WORD
      requires ms == 0 || ms == FOR_EVER || WakeDate(now, ms) != 0
      modifies this, m
      ensures Valid() && h == old(h)
    {
      hide Structure, InteractOk, FamilyOk, HistoryOk, Scheduled;
      ghost var s := m.View();
      ShapeOf(s);
      ret := m.Sleep(pid, ms, now);
      if ret != 0 { return; }
      if pid == s.plist[s.current].pid {
        ghost var u := if ms == 0 then s else s.(plist := s.plist[s.current := Asleep(s.plist[s.current], now, ms)]);
        ScheduledQuiet(u, m.View(), now);
        QuietTwice(s.plist, u.plist, m.plist);
      } else if ms != 0 {
        ShapeOf(m.View());
        SleepQuiet(s, m.plist, pid, now, ms);
      }
      QuietKeeps(s.plist, m.plist, h, m.pidCount);
    }

    method Wakeup(pid: nat, handover: bool, now: nat) returns (ret: int)
      requires Valid() && Free() && (handover ==> m.plist[m.current].state != IDL)
      modifies this, m
      ensures Valid() && h == if ret == 0 then old(h).(outside := old(h).outside + {pid}) else old(h)
    {
      hide Structure, InteractOk, FamilyOk, HistoryOk, Scheduled;
      ghost var s := m.View();
      PidsDiffer(s);
      ret := m.Wakeup(pid, handover, now);
      if ret != 0 { return; }
      ghost var p :| 0 <= p < |s.plist| && old(m.At(pid, p)) && s.plist[p].state == SLP
               && if handover then Scheduled(HandedOver(s, p), m.View(), now)
                 else m.plist == s.plist[p := Awoken(s.plist[p])];
      WokenHistory(s, p, h);
      h := h.(outside := h.outside + {pid});
      if handover {
        ghost var u := HandedOver(s, p);
        HandedHistory(s, p, h);
        ScheduledQuiet(u, m.View(), now);
        QuietKeeps(u.plist, m.plist, h, m.pidCount);
      }
    }

    method Kill(pid: nat, retcode: nat, now: nat) returns (ret: int)
      requires Valid() && Free() && (Below(m.plist, m.current, pid) ==> m.plist[m.current].pid == pid)
      modifies this, m
      ensures Valid()
      ensures ret != 0 ==> h == old(h) && m.View() == old(m.View())
      ensures ret == 0 ==> h == old(h).(told := old(h).told + Bereaved(old(m.plist), m.plist))
    {
      hide Structure, InteractOk, FamilyOk, HistoryOk, Scheduled, Killed, Below;
      ghost var s := m.View();
      PidsDiffer(s);
      ghost var killed;
      ret, killed := m.Kill(pid, retcode, now);
      if ret != 0 { return; }
      KillKeepsHistory(s.plist, killed, pid, retcode, h, m.pidCount);
      h := h.(told := h.told + Bereaved(s.plist, killed));
      if pid == s.plist[s.current].pid {
        ghost var u := s.(plist := killed, needClean := true);
        ScheduledQuiet(u, m.View(), now);
        QuietKeeps(killed, m.plist, h, m.pidCount);
        SameBereaved(s.plist, killed, m.plist);
      }
    }

    // process_info gives a process to the kernel; its parent is remembered.
    method Reparent(pid: nat) returns (ret: int)
      requires Valid() && Free()
      modifies this, m
      ensures Valid()
      ensures ret != 0 ==> h == old(h) && m.View() == old(m.View())
      ensures ret == 0 ==>
                exists p :: 0 <= p < |old(m.plist)| && old(m.At(pid, p)) && m.View() == Reparented(old(m.View()), p)
                            && h == old(h).(robbed := old(h).robbed + {old(m.plist)[p].ppid})
    {
      hide Structure, InteractOk, FamilyOk, HistoryOk;
      ghost var s := m.View();
      ret := m.Reparent(pid);
      if ret != 0 { return; }
      ghost var p :| 0 <= p < |s.plist| && old(m.At(pid, p)) && m.View() == Reparented(s, p);
      ReparentHistory(s, p, h);
      h := h.(robbed := h.robbed + {s.plist[p].ppid});
    }

    // process_wait up to the point where it hands the processor over.
    method Wait(pid: int, block: bool, now: nat) returns (ret: int, retcode: nat, blocked: bool)
      requires Valid() && Free() && m.plist[m.current].state != IDL
      modifies this, m
      ensures Valid()
      ensures var me := old(m.plist[m.current].pid);
              h == if blocked then Forget(old(h), me).(waiting := old(h).waiting + {me}) else Forget(old(h), me)
    {
      hide Structure, InteractOk, FamilyOk, HistoryOk, Scheduled, AlivePid, AliveChild;
      ghost var s := m.View();
      PidsDiffer(s);
      ghost var me := s.plist[s.current].pid;
      ghost var slot;
      ret, retcode, blocked, slot := m.Wait(pid, block, now);
      ForgetKeeps(s.plist, h, me, m.pidCount);
      h := Forget(h, me);
      if !blocked {
        if ret > 0 { CollectKeeps(s.plist, m.plist, s.current, slot, h, m.pidCount); }
        return;
      }
      ghost var u := Blocked(s, if pid < 1 then -1 else pid);
      BlockedHistory(s, u, pid, h, m.pidCount);
      h := h.(waiting := h.waiting + {me});
      ScheduledQuiet(u, m.View(), now);
      QuietKeeps(u.plist, m.plist, h, m.pidCount);
    }

    // The rest of it, once the process runs again. The fatal error needs the kernel as the waiter,
    // somebody else's process_wakeup, or a child taken away since the process began to wait.
    method WaitResume() returns (ret: int, retcode: nat, fatal: bool)
      requires Valid() && m.plist[m.current].pid in h.waiting && m.plist[m.current].state != IDL
      modifies this, m
      ensures Valid() && h == Forget(old(h), old(m.plist[m.current].pid))
      ensures fatal ==> var me := old(m.plist[m.current].pid); me == 0 || me in old(h.outside) || me in old(h.robbed)
      ensures !fatal && !(old(m.plist[m.current].waitPid) == -1 || old(m.plist[m.current].waitPid) > 0) ==>
                forall named: nat :: ret == named <==> FirstDeadIs(old(m.plist), old(m.current), named)
    {
      hide Structure, InteractOk, FamilyOk, AlivePid, AliveChild, HistoryOk;
      ghost var s := m.View();
      PidsDiffer(s);
      ghost var me := s.plist[s.current].pid;
      ghost var slot;
      ToldCollects(s, h, m.pidCount);
      ret, retcode, fatal, slot := m.WaitResume();
      ForgetKeeps(s.plist, h, me, m.pidCount);
      h := Forget(h, me);
      ghost var mid := s.plist[s.current := s.plist[s.current].(waitPid := 0)];
      HistoryBelow(s.plist, h, m.pidCount);
      OneSlotKeeps(s.plist, mid, s.current, h, h, m.pidCount);
      if !fatal && s.plist[s.current].waitPid != -1 && s.plist[s.current].waitPid <= 0 {
        FirstDeadAlone(s.plist, s.current, slot);
        CollectKeeps(mid, m.plist, s.current, slot, h, m.pidCount);
      }
    }
  }

  lemma SleepQuiet(s: St, pl': seq<Proc>, pid: nat, now: nat, ms: nat)
    requires Structure(s) && |pl'| == |s.plist|
    requires exists i :: 0 <= i < |s.plist| && s.plist[i].pid == pid && s.plist[i].state !in {FRE, ZMB, IDL}
    requires forall p :: 0 <= p < |s.plist| ==>
               pl'[p] == if s.plist[p].state != FRE && s.plist[p].pid == pid then Asleep(s.plist[p], now, ms)
                 else s.plist[p]
    ensures Quiet(s.plist, pl')
  {
  }

  lemma WokenHistory(s: St, p: nat, h: History)
    requires Structure(s) && HistoryOk(s.plist, h, s.pidCount) && p < |s.plist| && s.plist[p].state == SLP
    ensures HistoryOk(s.plist[p := Awoken(s.plist[p])], h.(outside := h.outside + {s.plist[p].pid}), s.pidCount)
  {
    hide HistoryOk, Structure;
    PidsDiffer(s);
    HistoryMore(s.plist, h, h.(outside := h.outside + {s.plist[p].pid}), s.plist[p].pid, s.pidCount);
    OneSlotKeeps(s.plist, s.plist[p := Awoken(s.plist[p])], p, h, h.(outside := h.outside + {s.plist[p].pid}),
                 s.pidCount);
  }

  lemma HistoryBelow(pl: seq<Proc>, h: History, pidCount: nat)
    requires HistoryOk(pl, h, pidCount)
    ensures forall x: nat :: Known(h, x) ==> x <= pidCount
  {
  }

  lemma HistoryMore(pl: seq<Proc>, h: History, h': History, pid: nat, pidCount: nat)
    requires HistoryOk(pl, h, pidCount) && pid <= pidCount && forall x: nat :: Known(h', x) ==> Known(h, x) || x == pid
    ensures forall x: nat :: Known(h', x) ==> x <= pidCount
  {
  }

  lemma ReparentHistory(s: St, p: nat, h: History)
    requires Structure(s) && HistoryOk(s.plist, h, s.pidCount) && p < |s.plist| && s.plist[p].state != FRE
    ensures HistoryOk(Reparented(s, p).plist, h.(robbed := h.robbed + {s.plist[p].ppid}), s.pidCount)
  {
    var pl, pl', h' := s.plist, Reparented(s, p).plist, h.(robbed := h.robbed + {s.plist[p].ppid});
    forall x: nat | Known(h', x) ensures x <= s.pidCount { assert x != pl[p].ppid ==> Known(h, x); }
    forall w: nat ensures ToldOk(pl', h', w) && WaitOk(pl', h', w) {
      assert ToldOk(pl, h, w) && WaitOk(pl, h, w);
      if w < |pl| && HasDead(pl, w) && pl[w].pid != pl[p].ppid {
        var j: nat :| DeadChild(pl, w, j);
        assert DeadChild(pl', w, j);
      }
    }
  }

  // A schedule after the kill changes nothing in who lost a child.
  lemma SameBereaved(pl: seq<Proc>, killed: seq<Proc>, pl': seq<Proc>)
    requires |killed| == |pl| && Quiet(killed, pl')
    ensures Bereaved(pl, pl') == Bereaved(pl, killed)
  {
    forall k: nat ensures Died(pl, pl', k) <==> Died(pl, killed, k) {}
    forall w: nat | w < |pl| ensures LostChild(pl, pl', w) <==> LostChild(pl, killed, w) {
      if k: nat :| Died(pl, killed, k) && WaitsFor(pl[w], pl[k]) && pl[k].ppid == pl[w].pid { assert Died(pl, pl', k); }
    }
  }

  // The caller of a handover wakeup is not inside process_wait.
  lemma HandedHistory(s: St, p: nat, h: History)
    requires Structure(s) && s.current < |s.plist| && p < |s.plist| && s.plist[p].state == SLP
    requires Alive(s.plist[s.current]) && s.current != p && s.plist[s.current].pid !in h.waiting
    requires HistoryOk(s.plist[p := Awoken(s.plist[p])], h, s.pidCount)
    ensures HistoryOk(HandedOver(s, p).plist, h, s.pidCount)
  {
    hide HistoryOk, Structure;
    PidsDiffer(s);
    var mid := s.plist[p := Awoken(s.plist[p])];
    HistoryBelow(mid, h, s.pidCount);
    OneSlotKeeps(mid, HandedOver(s, p).plist, s.current, h, h, s.pidCount);
  }

  lemma BlockedHistory(s: St, u: St, pid: int, h: History, pidCount: nat)
    requires s.current < |s.plist| && Alive(s.plist[s.current]) && OnePid(s.plist) && s.plist[s.current].pid <= pidCount
    requires HistoryOk(s.plist, h, pidCount) && u == Blocked(s, if pid < 1 then -1 else pid)
    requires pid >= 1 ==> ChildOf(s.plist, pid, s.plist[s.current].pid)
    ensures HistoryOk(u.plist, h.(waiting := h.waiting + {s.plist[s.current].pid}), pidCount)
  {
    hide HistoryOk;
    HistoryMore(s.plist, h, h.(waiting := h.waiting + {s.plist[s.current].pid}), s.plist[s.current].pid, pidCount);
    OneSlotKeeps(s.plist, u.plist, s.current, h, h.(waiting := h.waiting + {s.plist[s.current].pid}), pidCount);
  }

  // The named process is dead, and no other dead child is in an earlier slot.
  ghost predicate FirstDeadIs(pl: seq<Proc>, w: nat, named: nat) {
    exists j: nat :: DeadChild(pl, w, j) && pl[j].pid == named && forall i: nat :: i < j ==> !DeadChild(pl, w, i)
  }

  lemma FirstDeadAlone(pl: seq<Proc>, w: nat, j: nat)
    requires DeadChild(pl, w, j) && forall i: nat :: i < j ==> !DeadChild(pl, w, i)
    ensures forall named: nat :: FirstDeadIs(pl, w, named) <==> named == pl[j].pid
  {
  }

  // A waiter that was told of a death, or not woken by anybody else, has a dead child to collect.
  lemma ToldCollects(s: St, h: History, pidCount: nat)
    requires HistoryOk(s.plist, h, pidCount) && s.current < |s.plist| && Alive(s.plist[s.current])
    requires s.plist[s.current].pid in h.waiting
    ensures !(s.plist[s.current].waitPid == -1 || s.plist[s.current].waitPid > 0) ==>
              || s.plist[s.current].pid == 0 || s.plist[s.current].pid in h.outside
              || s.plist[s.current].pid in h.robbed || HasDead(s.plist, s.current)
  {
    assert ToldOk(s.plist, h, s.current) && WaitOk(s.plist, h, s.current);
  }

  lemma RescheduledQuiet(s: St, s': St)
    requires Rescheduled(s, s')
    ensures Quiet(s.plist, s'.plist)
  {
  }

  lemma QuietTwice(a: seq<Proc>, b: seq<Proc>, c: seq<Proc>)
    requires Quiet(b, c) && |a| == |b|
    requires forall j :: 0 <= j < |a| ==>
               b[j].pid == a[j].pid && b[j].ppid == a[j].ppid && (Alive(b[j]) <==> Alive(a[j]))
                 && b[j].waitPid == a[j].waitPid
               && (a[j].state == ZMB ==> b[j].state == ZMB)
    ensures Quiet(a, c)
  {
    SamePids(a, b);
  }

  lemma WaitsBelow(s: St)
    requires Structure(s) && FamilyOk(s)
    ensures forall j :: 0 <= j < |s.plist| && Alive(s.plist[j]) ==> s.plist[j].waitPid <= s.pidCount
    ensures |s.plist| == PROCESS_MAX && s.current < |s.plist|
  {
    forall j: nat | j < |s.plist| && Alive(s.plist[j]) ensures s.plist[j].waitPid <= s.pidCount {
      assert Dangling(s.plist, j) ==> Robbed(s, j);
    }
  }

  lemma PidsDiffer(s: St)
    requires Structure(s)
    ensures OnePid(s.plist) && |s.plist| == PROCESS_MAX && s.current < |s.plist|
    ensures forall j :: 0 <= j < |s.plist| && Alive(s.plist[j]) ==> s.plist[j].pid <= s.pidCount
  {
  }
}
