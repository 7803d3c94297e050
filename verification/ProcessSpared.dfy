/** What a recursive kill does to each entry of the process table: to the dead, and to those it spares. */
module ProcessSpared {
  import opened ProcessState
  import opened ProcessKill

  // w waits for k, or for any child of its own and k is one.
  ghost predicate WaitsFor(w: Proc, k: Proc) {
    w.waitPid == k.pid || (w.waitPid == -1 && w.pid == k.ppid)
  }

  // How the death of k reaches o, which waited for it.
  ghost predicate WokenBy(o: Proc, n: Proc, k: Proc) {
    && WaitsFor(o, k) && k.pid > 1
    && n == if o.state == SLP then o.(state := INQ, sleepTo := 0, waitPid := 0) else o.(waitPid := -(k.pid as int))
  }

  function Corpse(p: Proc, retcode: nat): Proc { p.(state := ZMB, waitPid := 0, sleepTo := retcode) }

  ghost predicate Died(pl0: seq<Proc>, pl: seq<Proc>, k: nat) {
    k < |pl0| && k < |pl| && Alive(pl0[k]) && !Alive(pl[k])
  }

  ghost predicate ParentDied(pl0: seq<Proc>, pl: seq<Proc>, j: nat)
    requires j < |pl0|
  {
    exists k: nat :: Died(pl0, pl, k) && pl0[k].pid == pl0[j].ppid
  }

  // A survivor is as it was, unless it waited for a process that died; those killed with the target
  // are zombies that return 0; a zombie is as it was, unless its parent died and its slot was freed.
  ghost predicate SparedAt(pl0: seq<Proc>, pl: seq<Proc>, place: nat, j: nat) {
    && j < |pl0| && j < |pl|
    && (Alive(pl[j]) ==> pl[j] == pl0[j] || exists k: nat :: Died(pl0, pl, k) && WokenBy(pl0[j], pl[j], pl0[k]))
    && (!Alive(pl[j]) && Alive(pl0[j]) ==> j == place || (pl[j] == Corpse(pl0[j], 0) && ParentDied(pl0, pl, j)))
    && (!Alive(pl[j]) && !Alive(pl0[j]) ==>
          pl[j] == pl0[j]
          || (pl0[j].state == ZMB && pl[j] == pl0[j].(hasDir := false, state := FRE) && ParentDied(pl0, pl, j)))
  }

  // Survivor j no longer waits for k, unless the loop has still to come to it.
  ghost predicate Told(pl0: seq<Proc>, pl: seq<Proc>, place: nat, iw: nat, j: nat, k: nat) {
    j < |pl| && Alive(pl[j]) && Died(pl0, pl, k) && WaitsFor(pl[j], pl0[k]) ==> k == place && j >= iw
  }

  // A child of the target that the loop has still to come to lives on.
  ghost predicate Unvisited(pl0: seq<Proc>, pl: seq<Proc>, place: nat, ic: nat, j: nat) {
    ic <= j < |pl0| && j < |pl| && place < |pl0| && j != place && pl0[j].ppid == pl0[place].pid && Alive(pl0[j]) ==>
      Alive(pl[j])
  }

  // Wakes are done below iw, visits of children below ic.
  ghost predicate Spared(pl0: seq<Proc>, pl: seq<Proc>, place: nat, iw: nat, ic: nat) {
    && place < |pl0| == |pl|
    && (forall j: nat :: j < |pl| ==> SparedAt(pl0, pl, place, j))
    && (forall j: nat, k: nat :: Told(pl0, pl, place, iw, j, k))
    && (forall j: nat :: Unvisited(pl0, pl, place, ic, j))
  }

  // The table a kill leaves.
  ghost predicate Killed(pl0: seq<Proc>, pl: seq<Proc>, pid: nat, retcode: nat) {
    exists place: nat ::
      && Spared(pl0, pl, place, PROCESS_MAX, PROCESS_MAX) && Alive(pl0[place]) && pl0[place].pid == pid
      && pl[place] == Corpse(pl0[place], retcode)
      && forall i: nat :: i < |pl| ==> (Alive(pl[i]) <==> Alive(pl0[i]) && !Below(pl0, i, pid))
  }

  // Whoever dies with the target has a pid above the idle process.
  lemma DeadAboveIdle(s0: St, s: St, place: nat)
    requires OnlyKills(s0, s, place) && s0.plist[place].pid > 1
    ensures |s.plist| == |s0.plist|
    ensures forall k: nat :: Died(s0.plist, s.plist, k) ==> s0.plist[k].pid > 1
    ensures forall k :: 0 <= k < |s.plist| ==> s.plist[k].pid == s0.plist[k].pid && s.plist[k].ppid == s0.plist[k].ppid
  {
    forall k: nat | Died(s0.plist, s.plist, k) ensures s0.plist[k].pid > 1 {
      BelowPid(s0.plist, k, s0.plist[place].pid);
    }
  }

  lemma SparedStart(pl0: seq<Proc>, pl: seq<Proc>, place: nat, retcode: nat)
    requires place < |pl0| && Alive(pl0[place])
    requires pl == pl0[place := Corpse(pl0[place], retcode)]
    ensures Spared(pl0, pl, place, 0, 0)
  {
  }

  // Live processes have different pids.
  ghost predicate OnePid(pl: seq<Proc>) {
    forall j, k :: 0 <= j < |pl| && 0 <= k < |pl| && Alive(pl[j]) && Alive(pl[k]) && pl[j].pid == pl[k].pid ==> j == k
  }

  ghost predicate SameNames(pl0: seq<Proc>, pl: seq<Proc>) {
    |pl| == |pl0| && forall k :: 0 <= k < |pl| ==> pl[k].pid == pl0[k].pid && pl[k].ppid == pl0[k].ppid
  }

  // Slot i is looked at: it is woken if it waits for the target.
  lemma SparedWoke(pl0: seq<Proc>, pl: seq<Proc>, pl': seq<Proc>, place: nat, i: nat)
    requires Spared(pl0, pl, place, i, i) && SameNames(pl0, pl) && i < |pl| && i != place && Died(pl0, pl, place)
    requires forall k: nat :: Died(pl0, pl, k) ==> pl0[k].pid > 1
    requires if WaitsFor(pl[i], pl[place])
             then |pl'| == |pl| && Alive(pl[i]) && pl' == pl[i := pl'[i]] && WokenBy(pl[i], pl'[i], pl[place])
             else pl' == pl
    ensures Spared(pl0, pl', place, i + 1, i)
  {
    forall j: nat | j < |pl'| ensures SparedAt(pl0, pl', place, j) {
      assert SparedAt(pl0, pl, place, j);
      assert Died(pl0, pl', place);
    }
    forall j: nat ensures Unvisited(pl0, pl', place, i, j) { assert Unvisited(pl0, pl, place, i, j); }
    var iw := i + 1;
    forall j: nat, k: nat ensures Told(pl0, pl', place, iw, j, k) {
      assert Told(pl0, pl, place, i, j, k);
    }
  }

  // A zombie child of the target is freed.
  lemma SparedFreed(pl0: seq<Proc>, pl: seq<Proc>, pl': seq<Proc>, place: nat, i: nat)
    requires Spared(pl0, pl, place, i + 1, i) && SameNames(pl0, pl) && i < |pl| && i != place && Died(pl0, pl, place)
    requires pl[i].state == ZMB && pl[i].ppid == pl[place].pid
    requires |pl'| == |pl| && pl' == pl[i := pl[i].(hasDir := false, state := FRE)]
    ensures Spared(pl0, pl', place, i + 1, i + 1)
  {
    var next := i + 1;
    assert Unvisited(pl0, pl, place, i, i);
    forall j: nat | j < |pl'| ensures SparedAt(pl0, pl', place, j) {
      assert SparedAt(pl0, pl, place, j);
    }
    forall j: nat, k: nat ensures Told(pl0, pl', place, next, j, k) {
      assert Told(pl0, pl, place, next, j, k);
    }
    forall j: nat ensures Unvisited(pl0, pl', place, next, j) { assert Unvisited(pl0, pl, place, i, j); }
  }

  // The child in slot i was killed with all below it.
  lemma SparedRecursed(pl0: seq<Proc>, pl: seq<Proc>, pl': seq<Proc>, place: nat, i: nat)
    requires Spared(pl0, pl, place, i + 1, i) && SameNames(pl0, pl) && i < |pl|
    requires Spared(pl, pl', i, |pl|, |pl|) && SameNames(pl, pl')
    requires Alive(pl[i]) && pl[i].ppid == pl[place].pid && pl'[i] == Corpse(pl[i], 0) && Died(pl0, pl, place)
             && pl'[place] == pl[place]
    requires OnePid(pl0)
    requires forall j :: 0 <= j < |pl| && Alive(pl[j]) ==> Alive(pl0[j])
    requires forall j :: 0 <= j < |pl| && Alive(pl'[j]) ==> Alive(pl[j])
    requires forall k: nat :: Died(pl0, pl, k) ==> pl0[k].pid > 1
    requires forall k: nat :: Died(pl, pl', k) ==> pl[k].pid > 1
    requires forall j: nat :: j < |pl| && i < j && j != place && pl[j].ppid == pl[place].pid && Alive(pl[j]) ==>
               Alive(pl'[j])
    ensures Spared(pl0, pl', place, i + 1, i + 1)
  {
    var next := i + 1;
    forall j: nat | j < |pl'| ensures SparedAt(pl0, pl', place, j) {
      SparedRecursedAt(pl0, pl, pl', place, i, next, j);
    }
    forall j: nat, k: nat ensures Told(pl0, pl', place, next, j, k) {
      assert Told(pl0, pl, place, next, j, k) && Told(pl, pl', i, |pl|, j, k);
      if j < |pl'| { assert SparedAt(pl, pl', i, j); }
    }
    forall j: nat ensures Unvisited(pl0, pl', place, next, j) { assert Unvisited(pl0, pl, place, i, j); }
  }

  // Whoever's parent died earlier is not freed as the child of one that dies now.
  lemma StillDied(pl0: seq<Proc>, pl: seq<Proc>, pl': seq<Proc>, j: nat)
    requires j < |pl0| == |pl| == |pl'| && ParentDied(pl0, pl, j) && OnePid(pl0) && SameNames(pl0, pl)
    requires forall j :: 0 <= j < |pl| && Alive(pl[j]) ==> Alive(pl0[j])
    requires forall k: nat :: Died(pl0, pl, k) || Died(pl, pl', k) ==> Died(pl0, pl', k)
    ensures ParentDied(pl0, pl', j) && !ParentDied(pl, pl', j)
  {
    var k: nat :| Died(pl0, pl, k) && pl0[k].pid == pl0[j].ppid;
    assert Died(pl0, pl', k);
  }

  lemma SparedRecursedAt(pl0: seq<Proc>, pl: seq<Proc>, pl': seq<Proc>, place: nat, i: nat, iw: nat, j: nat)
    requires Spared(pl0, pl, place, iw, i) && SameNames(pl0, pl) && i < |pl| && j < |pl|
    requires Spared(pl, pl', i, |pl|, |pl|) && SameNames(pl, pl')
    requires Alive(pl[i]) && pl[i].ppid == pl[place].pid && pl'[i] == Corpse(pl[i], 0) && Died(pl0, pl, place)
             && pl'[place] == pl[place]
    requires OnePid(pl0)
    requires forall j :: 0 <= j < |pl| && Alive(pl[j]) ==> Alive(pl0[j])
    requires forall j :: 0 <= j < |pl| && Alive(pl'[j]) ==> Alive(pl[j])
    requires forall k: nat :: Died(pl, pl', k) ==> pl[k].pid > 1
    ensures SparedAt(pl0, pl', place, j)
  {
    assert SparedAt(pl0, pl, place, j) && SparedAt(pl, pl', i, j);
    forall k: nat ensures Died(pl0, pl, k) || Died(pl, pl', k) ==> Died(pl0, pl', k) {}
    if j < |pl0| && ParentDied(pl0, pl, j) {
      StillDied(pl0, pl, pl', j);
    }
  }

  // The loop is through: this is the table the kill leaves.
  lemma KilledTable(s0: St, s: St, place: nat, retcode: nat)
    requires Spared(s0.plist, s.plist, place, PROCESS_MAX, PROCESS_MAX) && Alive(s0.plist[place])
    requires s.plist[place] == Corpse(s0.plist[place], retcode)
    requires forall i: nat :: i < |s.plist| ==>
               (Alive(s.plist[i]) <==> Alive(s0.plist[i]) && !Below(s0.plist, i, s0.plist[place].pid))
    ensures Killed(s0.plist, s.plist, s0.plist[place].pid, retcode)
  {
  }

  // A waiter that sleeps is woken by any death it waits for, and nobody else is.
  lemma WokenExactly(pl0: seq<Proc>, pl: seq<Proc>, pid: nat, retcode: nat, j: nat)
    requires Killed(pl0, pl, pid, retcode) && |pl| == PROCESS_MAX && j < |pl| == |pl0| && Alive(pl[j])
             && pl0[j].state == SLP
    ensures pl[j].state == INQ <==> exists k: nat :: Died(pl0, pl, k) && WaitsFor(pl0[j], pl0[k])
  {
    var place: nat :| Spared(pl0, pl, place, PROCESS_MAX, PROCESS_MAX);
    assert SparedAt(pl0, pl, place, j);
    if k: nat :| Died(pl0, pl, k) && WaitsFor(pl0[j], pl0[k]) {
      assert Told(pl0, pl, place, PROCESS_MAX, j, k);
    }
  }

  // ------------------------------------------- the same, for the states of the kill loop

  lemma SparedSelf(pl0: seq<Proc>, pl: seq<Proc>, place: nat)
    requires Spared(pl0, pl, place, place, place) && !Alive(pl[place])
    ensures Spared(pl0, pl, place, place + 1, place + 1)
  {
    SparedSkip(pl0, pl, place, place, place, place + 1);
  }

  // Nothing to do at place i.
  lemma SparedSkip(pl0: seq<Proc>, pl: seq<Proc>, place: nat, i: nat, iw: nat, next: nat)
    requires Spared(pl0, pl, place, iw, i) && next == i + 1 && (iw == next || (iw == i == place && !Alive(pl[place])))
    requires i == place || i >= |pl| || pl0[i].ppid != pl0[place].pid || !Alive(pl0[i])
    ensures Spared(pl0, pl, place, next, next)
  {
    forall j: nat, k: nat ensures Told(pl0, pl, place, next, j, k) { assert Told(pl0, pl, place, iw, j, k); }
    forall j: nat ensures Unvisited(pl0, pl, place, next, j) { assert Unvisited(pl0, pl, place, i, j); }
  }

  lemma SparedNext(s0: St, s: St, s': St, place: nat, i: nat)
    requires KillLoop(s0, s, place, i, i) && i < |s.plist| && i != place && Alive(s0.plist[place])
             && s.plist[place].pid > 1
    requires Spared(s0.plist, s.plist, place, i, i)
    requires if WaitsFor(s.plist[i], s.plist[place])
             then |s'.plist| == |s.plist| && Alive(s.plist[i]) && s'.plist == s.plist[i := s'.plist[i]]
                  && WokenBy(s.plist[i], s'.plist[i], s.plist[place])
             else s'.plist == s.plist
    ensures Spared(s0.plist, s'.plist, place, i + 1, i)
  {
    hide Spared, AlivePid, AliveChild, Below, Dangling, Loose, Orphan;
    DeadAboveIdle(s0, s, place);
    SparedWoke(s0.plist, s.plist, s'.plist, place, i);
  }

  lemma SparedNoChild(s0: St, s: St, place: nat, i: nat)
    requires KillLoop(s0, s, place, i + 1, i) && i < |s.plist| && Alive(s0.plist[place])
    requires Spared(s0.plist, s.plist, place, i + 1, i)
    requires s.plist[i].ppid != s.plist[place].pid || s.plist[i].state == FRE
    ensures Spared(s0.plist, s.plist, place, i + 1, i + 1)
  {
    hide AlivePid, AliveChild, Below, Dangling, Loose, Orphan;
    assert Unvisited(s0.plist, s.plist, place, i, i);
    SparedSkip(s0.plist, s.plist, place, i, i + 1, i + 1);
  }

  lemma SparedFreedChild(s0: St, s: St, s': St, place: nat, i: nat)
    requires KillLoop(s0, s, place, i + 1, i) && i < |s.plist| && i != place && Alive(s0.plist[place])
    requires Spared(s0.plist, s.plist, place, i + 1, i)
    requires s.plist[i].state == ZMB && s.plist[i].ppid == s.plist[place].pid && |s'.plist| == |s.plist|
    requires s'.plist == s.plist[i := s.plist[i].(hasDir := false, state := FRE)]
    ensures Spared(s0.plist, s'.plist, place, i + 1, i + 1)
  {
    hide Spared, AlivePid, AliveChild, Below, Dangling, Loose, Orphan;
    SparedFreed(s0.plist, s.plist, s'.plist, place, i);
  }

  // A live process dies with another only below it: not when its parent is the target, which is dead.
  lemma SiblingLives(s: St, s': St, place: nat, i: nat, j: nat)
    requires PidsOk(s) && OnlyKills(s, s', i) && place < |s.plist| && i != j && j < |s.plist|
    requires s.plist[place].state == ZMB && s.plist[j].ppid == s.plist[place].pid && Alive(s.plist[j])
             && Alive(s.plist[i])
    ensures Alive(s'.plist[j])
  {
    hide AlivePid, AliveChild;
    if Below(s.plist, j, s.plist[i].pid) {
      assert s.plist[j].pid != s.plist[i].pid;
      var k: nat :| k < |s.plist| && Alive(s.plist[k]) && s.plist[k].pid == s.plist[j].ppid
          && s.plist[k].pid < s.plist[j].pid;
    }
  }

  lemma SparedBelow(s0: St, s: St, s': St, place: nat, i: nat)
    requires PidsOk(s0) && PidsOk(s)
    requires KillLoop(s0, s, place, i + 1, i) && KillLoop(s, s', i, PROCESS_MAX, PROCESS_MAX)
             && |s.plist| == PROCESS_MAX
    requires s0.plist[place].pid > 1 && Alive(s0.plist[place]) && i < |s.plist| && s.plist[i].pid > 1
    requires Alive(s.plist[i]) && s.plist[i].ppid == s.plist[place].pid && s'.plist[i] == Corpse(s.plist[i], 0)
    requires s.plist[place].state == ZMB && s'.plist[place] == s.plist[place]
    requires Spared(s0.plist, s.plist, place, i + 1, i) && Spared(s.plist, s'.plist, i, PROCESS_MAX, PROCESS_MAX)
    ensures Spared(s0.plist, s'.plist, place, i + 1, i + 1)
  {
    hide Spared, AlivePid, AliveChild, Below, Dangling, Loose, Orphan;
    DeadAboveIdle(s0, s, place);
    DeadAboveIdle(s, s', i);
    forall j: nat | j < |s.plist| && i < j && j != place && s.plist[j].ppid == s.plist[place].pid && Alive(s.plist[j])
      ensures Alive(s'.plist[j])
    {
      SiblingLives(s, s', place, i, j);
    }
    SparedRecursed(s0.plist, s.plist, s'.plist, place, i);
  }
}
