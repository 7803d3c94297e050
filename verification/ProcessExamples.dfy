/** Runs of process_wait that do not end as one would expect. */
module ProcessExamples {
  import opened ProcessState
  import opened ProcessKill
  import opened ProcessSpared
  import opened ProcessReparent
  import opened ProcessManager

  // The table holds these processes, each in the slot of its pid, and nobody else; memory is left aside.
  ghost predicate Pic(pl: seq<Proc>, procs: seq<Proc>) {
    && |procs| <= |pl| == PROCESS_MAX
    && (forall i :: 0 <= i < |procs| ==> pl[i].(hasDir := true) == procs[i] && procs[i].pid == i)
    && forall i :: |procs| <= i < |pl| ==> pl[i].state == FRE
  }

  function P(pid: nat, ppid: nat, state: Status): Proc { Proc(pid, ppid, state, 0, 0, true) }

  const IDLE := P(1, 0, IDL)
  const KERNEL_ASLEEP := P(0, 0, SLP)

  lemma PicFirst(s: St)
    requires Initial(s)
    ensures Pic(s.plist, [P(0, 0, RUN), IDLE])
  {
  }

  // A slot is written, ...
  lemma PicSet(pl: seq<Proc>, procs: seq<Proc>, p: nat, q: Proc)
    requires Pic(pl, procs) && p < |procs| && q.pid == p
    ensures Pic(pl[p := q], procs[p := q.(hasDir := true)])
  {
  }

  // ... or the next one.
  lemma PicAdd(pl: seq<Proc>, procs: seq<Proc>, q: Proc)
    requires Pic(pl, procs) && |procs| < |pl| && q.pid == |procs|
    ensures pl[|procs|].state == FRE && Pic(pl[|procs| := q], procs + [q.(hasDir := true)])
  {
  }

  // Pids name slots.
  lemma PicSlot(pl: seq<Proc>, procs: seq<Proc>, p: nat)
    requires Pic(pl, procs) && p < |pl| && pl[p].state != FRE
    ensures p < |procs| && pl[p].pid == p && pl[p].(hasDir := true) == procs[p]
  {
  }

  lemma PicAt(pl: seq<Proc>, procs: seq<Proc>, p: nat)
    requires Pic(pl, procs) && p < |procs|
    ensures p < |pl| && pl[p].(hasDir := true) == procs[p] && pl[p].pid == p
  {
  }

  lemma PicSize(pl: seq<Proc>, procs: seq<Proc>)
    requires Pic(pl, procs)
    ensures |pl| == PROCESS_MAX
  {
  }

  // Nobody sleeps with a date, n alone can run, and zombies have a live parent above the kernel.
  ghost predicate Sole(procs: seq<Proc>, n: nat) {
    && n < |procs|
    && (forall j :: 0 <= j < |procs| ==> (procs[j].state in {INQ, RUN} <==> j == n))
    && (forall j :: 0 <= j < |procs| && procs[j].state == SLP ==> procs[j].sleepTo == 0)
    && (forall j :: 0 <= j < |procs| && procs[j].state == ZMB ==>
          0 < procs[j].ppid < |procs| && Alive(procs[procs[j].ppid]))
  }

  // A schedule then runs n, and changes nothing else.
  lemma SoleRuns(s: St, s': St, t: nat, n: nat, procs: seq<Proc>)
    requires Scheduled(s, s', t) && Pic(s.plist, procs) && Sole(procs, n) && n != s.current
    ensures s'.current == n && Pic(s'.plist, procs[n := procs[n].(state := RUN)])
  {
    hide AlivePid;
    assert AwakePl(s.plist, t) == s.plist;
    forall j | 0 <= j < |s.plist| && s.plist[j].state == ZMB
      ensures s.plist[j].ppid != 0 && AlivePid(s.plist, s.plist[j].ppid) {
      ZombieParent(s.plist, procs, n, j);
    }
    var p := TendedPl(s, t);
    assert p[n].state in {INQ, RUN};
  }

  lemma ZombieParent(pl: seq<Proc>, procs: seq<Proc>, n: nat, j: nat)
    requires Pic(pl, procs) && Sole(procs, n) && j < |pl| && pl[j].state == ZMB
    ensures pl[j].ppid != 0 && AlivePid(pl, pl[j].ppid)
  {
    var k := procs[j].ppid;
    assert Alive(pl[k]) && pl[k].pid == k;
  }

  // Process 2 runs, and the kernel sleeps.
  method Start() returns (m: Manager)
    ensures fresh(m) && m.Valid() && m.current == 2 && m.pidCount == 2
            && Pic(m.plist, [KERNEL_ASLEEP, IDLE, P(2, 0, RUN)])
  {
    hide Structure, InteractOk, FamilyOk, Scheduled, HandedOver, Pic, Initial;
    m := new Manager();
    PicFirst(m.View());
    InitialCount(m.View());
    ghost var procs := [P(0, 0, RUN), IDLE];
    Spawn(m, procs);
    assert procs + [P(2, 0, SLP)] == [P(0, 0, RUN), IDLE, P(2, 0, SLP)];
    procs := [P(0, 0, RUN), IDLE, P(2, 0, SLP)];
    Rouse(m, procs, 2);
    assert procs[2 := P(2, 0, INQ)] == [P(0, 0, RUN), IDLE, P(2, 0, INQ)];
    procs := [P(0, 0, RUN), IDLE, P(2, 0, INQ)];
    assert procs[0 := KERNEL_ASLEEP] == [KERNEL_ASLEEP, IDLE, P(2, 0, INQ)];
    assert procs[0 := KERNEL_ASLEEP][2 := P(2, 0, RUN)] == [KERNEL_ASLEEP, IDLE, P(2, 0, RUN)];
    Leave(m, procs, 2);
  }

  lemma InitialCount(s: St)
    requires Initial(s)
    ensures s.pidCount == 1 && s.current == 0
  {
  }

  // The current process makes a child.
  method Spawn(m: Manager, ghost procs: seq<Proc>)
    requires m.Valid() && Pic(m.plist, procs) && |procs| == m.pidCount + 1 < PROCESS_MAX && m.current < |procs|
    modifies m
    ensures m.Valid() && m.pidCount == old(m.pidCount) + 1 && m.current == old(m.current)
    ensures Pic(m.plist, procs + [P(m.pidCount, m.current, SLP)])
  {
    hide Structure, InteractOk, FamilyOk, Pic;
    PicSize(m.plist, procs);
    PicAdd(m.plist, procs, P(|procs|, m.current, SLP));
    PicAt(m.plist, procs, m.current);
    var r := m.Create();
  }

  // The current process wakes process p.
  method Rouse(m: Manager, ghost procs: seq<Proc>, p: nat)
    requires m.Valid() && Pic(m.plist, procs) && p < |procs| && procs[p].state == SLP
    modifies m
    ensures m.Valid() && m.pidCount == old(m.pidCount) && m.current == old(m.current)
    ensures Pic(m.plist, procs[p := P(p, procs[p].ppid, INQ)])
  {
    hide Structure, InteractOk, FamilyOk, Pic, Scheduled;
    ghost var pl := m.plist;
    PicAt(pl, procs, p);
    var r := m.Wakeup(p, false, 0);
    ghost var q :| 0 <= q < |pl| && old(m.At(p, q)) && pl[q].state == SLP && m.plist == pl[q := Awoken(pl[q])];
    PicSlot(pl, procs, q);
    PicSet(pl, procs, p, Awoken(pl[p]));
  }

  // The current process goes to sleep for ever, and n is the only one that can run.
  method Leave(m: Manager, ghost procs: seq<Proc>, n: nat)
    requires m.Valid() && Pic(m.plist, procs) && m.current < |procs| && procs[m.current].state == RUN && n != m.current
    requires Sole(procs[m.current := procs[m.current].(state := SLP, sleepTo := 0)], n)
    modifies m
    ensures m.Valid() && m.pidCount == old(m.pidCount) && m.current == n
    ensures n < |procs|
    ensures var asleep := procs[old(m.current)].(state := SLP, sleepTo := 0);
            Pic(m.plist, procs[old(m.current) := asleep][n := procs[n].(state := RUN)])
  {
    hide Structure, InteractOk, FamilyOk, Pic, Scheduled, Sole;
    ghost var s := m.View();
    PicAt(s.plist, procs, s.current);
    var r := m.Sleep(m.plist[m.current].pid, FOR_EVER, 0);
    ghost var q := Asleep(s.plist[s.current], 0, FOR_EVER);
    PicSet(s.plist, procs, s.current, q);
    SoleIn(procs[s.current := procs[s.current].(state := SLP, sleepTo := 0)], n);
    SoleRuns(s.(plist := s.plist[s.current := q]), m.View(), 0, n,
             procs[s.current := procs[s.current].(state := SLP, sleepTo := 0)]);
  }

  lemma SoleIn(procs: seq<Proc>, n: nat)
    requires Sole(procs, n)
    ensures n < |procs|
  {
  }

  // The current process waits for its child p, the only one that can run then.
  method WaitFor(m: Manager, ghost procs: seq<Proc>, p: nat)
    requires m.Valid() && Pic(m.plist, procs) && m.current < |procs| && procs[m.current].state == RUN
    requires 0 < p < |procs| && procs[p].state == INQ && procs[p].ppid == m.current != p
    requires Sole(procs[m.current := Waits(procs[m.current], p)], p)
    modifies m
    ensures m.Valid() && m.pidCount == old(m.pidCount) && m.current == p
    ensures Pic(m.plist, procs[old(m.current) := Waits(procs[old(m.current)], p)][p := procs[p].(state := RUN)])
  {
    hide Structure, InteractOk, FamilyOk, Pic, Scheduled, Sole;
    ghost var s := m.View();
    PicAt(s.plist, procs, s.current);
    PicAt(s.plist, procs, p);
    var ret, retcode, blocked, slot := m.Wait(p, true, 0);
    if !blocked {
      if ret > 0 { PicSlot(s.plist, procs, slot); }
      assert false;
    }
    ghost var q := Waits(s.plist[s.current], p);
    PicSet(s.plist, procs, s.current, q);
    SoleRuns(Blocked(s, p), m.View(), 0, p, procs[s.current := Waits(procs[s.current], p)]);
  }

  function Waits(p: Proc, pid: nat): Proc { p.(state := SLP, waitPid := pid, sleepTo := 0) }

  // Process 2 waits for its child 3; the child wakes it and sleeps on. The waiter finds nobody dead, and
  // that is fatal.
  method WokenTooSoon() returns (fatal: bool)
    ensures fatal
  {
    hide Structure, InteractOk, FamilyOk, Scheduled, Pic;
    var m := Start();
    ghost var procs := [KERNEL_ASLEEP, IDLE, P(2, 0, RUN)];
    Spawn(m, procs);
    assert procs + [P(3, 2, SLP)] == [KERNEL_ASLEEP, IDLE, P(2, 0, RUN), P(3, 2, SLP)];
    procs := [KERNEL_ASLEEP, IDLE, P(2, 0, RUN), P(3, 2, SLP)];
    Rouse(m, procs, 3);
    assert procs[3 := P(3, 2, INQ)] == [KERNEL_ASLEEP, IDLE, P(2, 0, RUN), P(3, 2, INQ)];
    procs := [KERNEL_ASLEEP, IDLE, P(2, 0, RUN), P(3, 2, INQ)];
    assert procs[2 := Waits(procs[2], 3)][3 := P(3, 2, RUN)]
           == [KERNEL_ASLEEP, IDLE, Waits(P(2, 0, RUN), 3), P(3, 2, RUN)];
    WaitFor(m, procs, 3);
    procs := [KERNEL_ASLEEP, IDLE, Waits(P(2, 0, RUN), 3), P(3, 2, RUN)];
    Rouse(m, procs, 2);
    assert procs[2 := P(2, 0, INQ)] == [KERNEL_ASLEEP, IDLE, P(2, 0, INQ), P(3, 2, RUN)];
    procs := [KERNEL_ASLEEP, IDLE, P(2, 0, INQ), P(3, 2, RUN)];
    assert procs[3 := P(3, 2, SLP)][2 := P(2, 0, RUN)] == [KERNEL_ASLEEP, IDLE, P(2, 0, RUN), P(3, 2, SLP)];
    Leave(m, procs, 2);
    procs := [KERNEL_ASLEEP, IDLE, P(2, 0, RUN), P(3, 2, SLP)];
    NobodyDead(m.plist, procs, 2);
    PicAt(m.plist, procs, 2);
    var ret, retcode;
    ghost var slot;
    ret, retcode, fatal, slot := m.WaitResume();
  }

  lemma NobodyDead(pl: seq<Proc>, procs: seq<Proc>, c: nat)
    requires Pic(pl, procs) && forall j :: 0 <= j < |procs| ==> procs[j].state != ZMB
    ensures forall j: nat :: !DeadChild(pl, c, j)
  {
  }

  // ------------------------------------------------------------------------ another child

  // Process p has no child, and waiters sleep.
  ghost predicate Leaf(procs: seq<Proc>, p: nat) {
    && 0 < p < |procs| && Alive(procs[p])
    && (forall j :: 0 <= j < |procs| ==> procs[j].ppid != p && (j != 0 ==> procs[j].ppid < j))
    && (forall j :: 0 <= j < |procs| ==> procs[j].waitPid == 0 || (procs[j].state == SLP && procs[j].waitPid == p))
    && (forall j :: 0 <= j < |procs| && procs[j].state == ZMB ==>
          procs[j].ppid < |procs| && Alive(procs[procs[j].ppid]))
  }

  // What its death makes of the table.
  function LeafDies(procs: seq<Proc>, p: nat, retcode: nat): (r: seq<Proc>)
    ensures |r| == |procs|
  {
    seq(|procs|, j requires 0 <= j < |procs| =>
      if j == p then Corpse(procs[j], retcode) else if procs[j].waitPid == p then Awoken(procs[j]) else procs[j])
  }

  lemma {:induction false} LeafBelow(pl: seq<Proc>, procs: seq<Proc>, p: nat, i: nat)
    requires Pic(pl, procs) && Leaf(procs, p) && i < |procs| && Below(pl, i, p)
    ensures i == p
    decreases i
  {
    if i == p {
    } else {
      var j: nat :| j < |pl| && Alive(pl[j]) && pl[j].pid == pl[i].ppid && pl[j].pid < pl[i].pid && Below(pl, j, p);
      PicSlot(pl, procs, j);
      LeafBelow(pl, procs, p, j);
    }
  }

  lemma LeafKilled(pl: seq<Proc>, pl': seq<Proc>, procs: seq<Proc>, p: nat, retcode: nat)
    requires Pic(pl, procs) && Leaf(procs, p) && Killed(pl, pl', p, retcode)
    ensures Pic(pl', LeafDies(procs, p, retcode))
  {
    hide Leaf, Below;
    var place: nat :| Spared(pl, pl', place, PROCESS_MAX, PROCESS_MAX) && Alive(pl[place]) && pl[place].pid == p
                      && pl'[place] == Corpse(pl[place], retcode)
                      && forall i: nat :: i < |pl'| ==> (Alive(pl'[i]) <==> Alive(pl[i]) && !Below(pl, i, p));
    PicSlot(pl, procs, place);
    forall k: nat ensures Died(pl, pl', k) <==> k == p {
      if k < |pl| && Alive(pl[k]) && Below(pl, k, p) { PicSlot(pl, procs, k); LeafBelow(pl, procs, p, k); }
    }
    forall j: nat | j < |procs| ensures pl'[j].(hasDir := true) == LeafDies(procs, p, retcode)[j] {
      LeafEntry(pl, pl', procs, p, place, retcode, j);
    }
    forall j: nat | |procs| <= j < |pl| ensures pl'[j].state == FRE { assert SparedAt(pl, pl', place, j); }
  }

  lemma LeafEntry(pl: seq<Proc>, pl': seq<Proc>, procs: seq<Proc>, p: nat, place: nat, retcode: nat, j: nat)
    requires Pic(pl, procs) && Leaf(procs, p) && Spared(pl, pl', place, PROCESS_MAX, PROCESS_MAX) && place == p
             && j < |procs|
    requires pl'[p] == Corpse(pl[p], retcode) && forall k: nat :: Died(pl, pl', k) <==> k == p
    ensures pl'[j].(hasDir := true) == LeafDies(procs, p, retcode)[j]
  {
    assert SparedAt(pl, pl', place, j) && Told(pl, pl', place, PROCESS_MAX, j, p);
    PicAt(pl, procs, j);
    PicAt(pl, procs, p);
  }

  // The current process, which is not p, kills the leaf p.
  method KillLeaf(m: Manager, ghost procs: seq<Proc>, p: nat, retcode: nat)
    requires m.Valid() && Pic(m.plist, procs) && Leaf(procs, p) && m.current < |procs| && m.current != p
             && procs[p].state != IDL
    modifies m
    ensures m.Valid() && m.pidCount == old(m.pidCount) && m.current == old(m.current)
    ensures Pic(m.plist, LeafDies(procs, p, retcode))
  {
    hide Structure, InteractOk, FamilyOk, Pic, Scheduled, Killed, Leaf, LeafDies;
    ghost var s := m.View();
    LeafAt(procs, p);
    PicAt(s.plist, procs, p);
    PicAt(s.plist, procs, s.current);
    if Below(s.plist, s.current, p) { LeafBelow(s.plist, procs, p, s.current); }
    var ret, killed := m.Kill(p, retcode, 0);
    LeafKilled(s.plist, killed, procs, p, retcode);
  }

  lemma LeafAt(procs: seq<Proc>, p: nat)
    requires Leaf(procs, p)
    ensures 0 < p < |procs| && Alive(procs[p])
  {
  }

  // The current process, a leaf, kills itself, and n is the only one that can run then.
  method Exit(m: Manager, ghost procs: seq<Proc>, retcode: nat, n: nat)
    requires m.Valid() && Pic(m.plist, procs) && Leaf(procs, m.current) && procs[m.current].state == RUN
    requires Sole(LeafDies(procs, m.current, retcode), n) && n != m.current
    modifies m
    ensures m.Valid() && m.pidCount == old(m.pidCount) && m.current == n < |procs|
    ensures Pic(m.plist, LeafDies(procs, old(m.current),
                                  retcode)[n := LeafDies(procs, old(m.current), retcode)[n].(state := RUN)])
  {
    hide Structure, InteractOk, FamilyOk, Pic, Scheduled, Killed, Leaf, LeafDies, Sole;
    ghost var s := m.View();
    LeafAt(procs, m.current);
    PicAt(s.plist, procs, s.current);
    var ret, killed := m.Kill(m.plist[m.current].pid, retcode, 0);
    LeafKilled(s.plist, killed, procs, s.current, retcode);
    LeafSize(procs, s.current, retcode);
    SoleIn(LeafDies(procs, s.current, retcode), n);
    SoleRuns(s.(plist := killed, needClean := true), m.View(), 0, n, LeafDies(procs, s.current, retcode));
  }

  lemma LeafSize(procs: seq<Proc>, p: nat, retcode: nat)
    ensures |LeafDies(procs, p, retcode)| == |procs|
  {
  }

  // Process 2 has killed its child 3, and its child 4 can run.
  method OneDeadOneLive() returns (m: Manager)
    ensures fresh(m) && m.Valid() && m.current == 2
    ensures Pic(m.plist, [KERNEL_ASLEEP, IDLE, P(2, 0, RUN), Corpse(P(3, 2, SLP), 7), P(4, 2, INQ)])
  {
    hide Structure, InteractOk, FamilyOk, Scheduled, Pic, Killed;
    m := Start();
    ghost var procs := [KERNEL_ASLEEP, IDLE, P(2, 0, RUN)];
    Spawn(m, procs);
    assert procs + [P(3, 2, SLP)] == [KERNEL_ASLEEP, IDLE, P(2, 0, RUN), P(3, 2, SLP)];
    procs := [KERNEL_ASLEEP, IDLE, P(2, 0, RUN), P(3, 2, SLP)];
    Spawn(m, procs);
    assert procs + [P(4, 2, SLP)] == [KERNEL_ASLEEP, IDLE, P(2, 0, RUN), P(3, 2, SLP), P(4, 2, SLP)];
    procs := [KERNEL_ASLEEP, IDLE, P(2, 0, RUN), P(3, 2, SLP), P(4, 2, SLP)];
    KillLeaf(m, procs, 3, 7);
    ghost var three := Corpse(P(3, 2, SLP), 7);
    assert LeafDies(procs, 3, 7) == [KERNEL_ASLEEP, IDLE, P(2, 0, RUN), three, P(4, 2, SLP)];
    procs := [KERNEL_ASLEEP, IDLE, P(2, 0, RUN), three, P(4, 2, SLP)];
    Rouse(m, procs, 4);
    assert procs[4 := P(4, 2, INQ)] == [KERNEL_ASLEEP, IDLE, P(2, 0, RUN), three, P(4, 2, INQ)];
  }

  // It waits for 4, which returns 9, and is given child 3 and 7.
  method AnotherChild() returns (ret: int, retcode: nat)
    ensures ret == 3 && retcode == 7
  {
    hide Structure, InteractOk, FamilyOk, Scheduled, Pic, Killed;
    var m := OneDeadOneLive();
    ghost var three := Corpse(P(3, 2, SLP), 7);
    ghost var procs := [KERNEL_ASLEEP, IDLE, P(2, 0, RUN), three, P(4, 2, INQ)];
    assert procs[2 := Waits(procs[2], 4)][4 := P(4, 2, RUN)]
           == [KERNEL_ASLEEP, IDLE, Waits(P(2, 0, RUN), 4), three, P(4, 2, RUN)];
    WaitFor(m, procs, 4);
    procs := [KERNEL_ASLEEP, IDLE, Waits(P(2, 0, RUN), 4), three, P(4, 2, RUN)];
    ghost var four := Corpse(P(4, 2, RUN), 9);
    assert LeafDies(procs, 4, 9) == [KERNEL_ASLEEP, IDLE, P(2, 0, INQ), three, four];
    assert LeafDies(procs, 4, 9)[2 := P(2, 0, RUN)] == [KERNEL_ASLEEP, IDLE, P(2, 0, RUN), three, four];
    Exit(m, procs, 9, 2);
    procs := [KERNEL_ASLEEP, IDLE, P(2, 0, RUN), three, four];
    FirstDead(m.plist, procs);
    PicAt(m.plist, procs, 2);
    PicAt(m.plist, procs, 3);
    var fatal;
    ghost var slot;
    ret, retcode, fatal, slot := m.WaitResume();
  }

  lemma FirstDead(pl: seq<Proc>, procs: seq<Proc>)
    requires Pic(pl, procs) && |procs| == 5 && procs[3].state == ZMB && procs[3].ppid == 2
    requires forall j :: 0 <= j < 3 ==> procs[j].state != ZMB
    ensures DeadChild(pl, 2, 3) && forall j: nat :: j < 3 ==> !DeadChild(pl, 2, j)
  {
  }

  // ------------------------------------------------------------------- a child given away

  // The zombie p is given to the kernel.
  method GiveAway(m: Manager, ghost procs: seq<Proc>, p: nat)
    requires m.Valid() && Pic(m.plist, procs) && p < |procs| && procs[p].state == ZMB
    modifies m
    ensures m.Valid() && m.current == old(m.current) && Pic(m.plist, procs[p := procs[p].(ppid := 0)])
  {
    hide Structure, InteractOk, FamilyOk, Pic;
    ghost var s := m.View();
    PicAt(s.plist, procs, p);
    var r := m.Reparent(p);
    ghost var q :| 0 <= q < |s.plist| && old(m.At(p, q)) && m.View() == Reparented(s, q);
    PicSlot(s.plist, procs, q);
    PicSet(s.plist, procs, p, s.plist[p].(ppid := 0));
  }

  // A schedule runs the only process that can, and makes no zombie.
  lemma OnlyReady(s: St, s': St, t: nat, n: nat, procs: seq<Proc>)
    requires Scheduled(s, s', t) && Pic(s.plist, procs) && n < |procs| && n != s.current
    requires forall j :: 0 <= j < |procs| ==> (procs[j].state in {INQ, RUN} <==> j == n)
    requires forall j :: 0 <= j < |procs| && procs[j].state == SLP ==> procs[j].sleepTo == 0
    ensures s'.current == n < |s.plist| == |s'.plist| && s'.plist[n] == s.plist[n].(state := RUN)
    ensures forall j :: 0 <= j < |s.plist| && s'.plist[j].state == ZMB ==>
              s.plist[j].state == ZMB && s'.plist[j].ppid == s.plist[j].ppid
  {
    hide AlivePid;
    assert AwakePl(s.plist, t) == s.plist;
    assert TendedPl(s, t)[n].state in {INQ, RUN};
  }

  // Process 2 waits for its child 3, which the kernel kills and takes over. The waiter, told of the death,
  // finds nobody dead, and that is fatal.
  method ChildGivenAway() returns (fatal: bool)
    ensures fatal
  {
    hide Structure, InteractOk, FamilyOk, Scheduled, Pic;
    var m := ChildKilled();
    ghost var procs := [P(0, 0, RUN), IDLE, P(2, 0, INQ), Corpse(P(3, 2, SLP), 7)];
    GiveAway(m, procs, 3);
    ghost var three := Corpse(P(3, 0, SLP), 7);
    assert procs[3 := three] == [P(0, 0, RUN), IDLE, P(2, 0, INQ), three];
    procs := [P(0, 0, RUN), IDLE, P(2, 0, INQ), three];
    ghost var s := m.View();
    PicAt(s.plist, procs, 0);
    PicAt(s.plist, procs, 2);
    var r := m.Sleep(0, FOR_EVER, 0);
    PicSet(s.plist, procs, 0, Asleep(s.plist[0], 0, FOR_EVER));
    assert procs[0 := KERNEL_ASLEEP] == [KERNEL_ASLEEP, IDLE, P(2, 0, INQ), three];
    ghost var u := s.(plist := s.plist[0 := Asleep(s.plist[0], 0, FOR_EVER)]);
    OnlyReady(u, m.View(), 0, 2, [KERNEL_ASLEEP, IDLE, P(2, 0, INQ), three]);
    NoneOfTwo(u.plist, m.plist, [KERNEL_ASLEEP, IDLE, P(2, 0, INQ), three]);
    var ret, retcode;
    ghost var slot;
    ret, retcode, fatal, slot := m.WaitResume();
  }

  lemma NoneOfTwo(pl: seq<Proc>, pl': seq<Proc>, procs: seq<Proc>)
    requires Pic(pl, procs) && |procs| == 4 && procs[3].ppid == 0 && |pl'| == |pl| && pl'[2].pid == 2
    requires forall j :: 0 <= j < 3 ==> procs[j].state != ZMB
    requires forall j :: 0 <= j < |pl| && pl'[j].state == ZMB ==> pl[j].state == ZMB && pl'[j].ppid == pl[j].ppid
    ensures forall j: nat :: !DeadChild(pl', 2, j)
  {
  }

  // The kernel runs, and has killed the child that process 2 waits for.
  method ChildKilled() returns (m: Manager)
    ensures fresh(m) && m.Valid() && m.current == 0
    ensures Pic(m.plist, [P(0, 0, RUN), IDLE, P(2, 0, INQ), Corpse(P(3, 2, SLP), 7)])
  {
    hide Structure, InteractOk, FamilyOk, Scheduled, Pic, Killed;
    m := Start();
    ghost var procs := [KERNEL_ASLEEP, IDLE, P(2, 0, RUN)];
    Spawn(m, procs);
    assert procs + [P(3, 2, SLP)] == [KERNEL_ASLEEP, IDLE, P(2, 0, RUN), P(3, 2, SLP)];
    procs := [KERNEL_ASLEEP, IDLE, P(2, 0, RUN), P(3, 2, SLP)];
    Rouse(m, procs, 3);
    assert procs[3 := P(3, 2, INQ)] == [KERNEL_ASLEEP, IDLE, P(2, 0, RUN), P(3, 2, INQ)];
    procs := [KERNEL_ASLEEP, IDLE, P(2, 0, RUN), P(3, 2, INQ)];
    ghost var two := Waits(P(2, 0, RUN), 3);
    assert procs[2 := Waits(procs[2], 3)][3 := P(3, 2, RUN)] == [KERNEL_ASLEEP, IDLE, two, P(3, 2, RUN)];
    WaitFor(m, procs, 3);
    procs := [KERNEL_ASLEEP, IDLE, two, P(3, 2, RUN)];
    Rouse(m, procs, 0);
    assert procs[0 := P(0, 0, INQ)] == [P(0, 0, INQ), IDLE, two, P(3, 2, RUN)];
    procs := [P(0, 0, INQ), IDLE, two, P(3, 2, RUN)];
    assert procs[3 := P(3, 2, SLP)][0 := P(0, 0, RUN)] == [P(0, 0, RUN), IDLE, two, P(3, 2, SLP)];
    Leave(m, procs, 0);
    procs := [P(0, 0, RUN), IDLE, two, P(3, 2, SLP)];
    KillLeaf(m, procs, 3, 7);
    assert LeafDies(procs, 3, 7) == [P(0, 0, RUN), IDLE, P(2, 0, INQ), Corpse(P(3, 2, SLP), 7)];
  }
}
