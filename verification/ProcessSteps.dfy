/** The elementary changes of the process table, and why each keeps its invariants. */
module ProcessSteps {
  import opened Lists
  import opened ProcessState

  ghost predicate Minus(l': seq<nat>, l: seq<nat>, p: nat) {
    NoDup(l') && forall x: nat :: x in l' <==> x in l && x != p
  }

  // ------------------------------------------- structure, one changed slot at a time

  lemma PidsKeep(s: St, s': St)
    requires PidsOk(s) && |s'.plist| == |s.plist| && s'.pidCount == s.pidCount
    requires forall i :: 0 <= i < |s.plist| ==>
               var o, n := s.plist[i], s'.plist[i];
               && n.pid == o.pid && n.ppid == o.ppid && (n.state != FRE ==> o.state != FRE)
               && (Alive(n) ==> Alive(o) && n.hasDir == o.hasDir) && (n.state == FRE ==> n == o || !n.hasDir)
               && (!Alive(n) ==> n.waitPid == 0 || (!Alive(o) && n.waitPid == o.waitPid))
    ensures PidsOk(s')
  {
  }

  // A sleeper is put in the run queue.
  lemma WakeKeeps(s: St, s': St, p: nat, waitPid: int, sleepTo: nat)
    requires Structure(s) && p < |s.plist| && s.plist[p].state == SLP
    requires s'.plist == s.plist[p := s.plist[p].(state := INQ, waitPid := waitPid, sleepTo := sleepTo)]
    requires s'.current == s.current && s'.pidCount == s.pidCount
    requires s'.queue == s.queue + [p] && Minus(s'.tsleep, s.tsleep, p)
    ensures Structure(s')
  {
    hide PidsOk;
    PidsKeep(s, s');
  }

  // A live process other than idle is put to sleep, with or without a date.
  lemma SleepKeeps(s: St, s': St, p: nat, waitPid: int, sleepTo: nat)
    requires Structure(s) && p < |s.plist| && s.plist[p].state in {SLP, INQ, RUN}
    requires s'.plist == s.plist[p := s.plist[p].(state := SLP, waitPid := waitPid, sleepTo := sleepTo)]
    requires s'.current == s.current && s'.pidCount == s.pidCount
    requires Minus(s'.queue, s.queue, p)
    requires NoDup(s'.tsleep)
    requires forall x: nat :: x in s'.tsleep <==> (x in s.tsleep && x != p) || (x == p && sleepTo != 0)
    ensures Structure(s')
  {
    hide PidsOk;
    PidsKeep(s, s');
  }

  // A live process other than the kernel and idle becomes a zombie.
  lemma DieKeeps(s: St, s': St, p: nat, retcode: nat)
    requires Structure(s) && 2 <= p < |s.plist| && Alive(s.plist[p])
    requires s'.plist == s.plist[p := s.plist[p].(state := ZMB, waitPid := 0, sleepTo := retcode)]
    requires s'.current == s.current && s'.pidCount == s.pidCount
    requires Minus(s'.queue, s.queue, p) && Minus(s'.tsleep, s.tsleep, p)
    ensures Structure(s')
  {
    hide PidsOk;
    PidsKeep(s, s');
  }

  // A zombie other than the current process is cleaned or freed.
  lemma CleanKeeps(s: St, s': St, p: nat, q: Proc)
    requires Structure(s) && p < |s.plist| && s.plist[p].state == ZMB && p != s.current
    requires q == s.plist[p].(hasDir := q.hasDir, state := q.state) && q.state in {ZMB, FRE}
    requires s'.plist == s.plist[p := q] && (q.state == FRE ==> !q.hasDir)
    requires s'.current == s.current && s'.pidCount == s.pidCount && s'.queue == s.queue && s'.tsleep == s.tsleep
    ensures Structure(s')
  {
    hide PidsOk;
    PidsKeep(s, s');
  }

  // The wait word of a live process other than idle changes.
  lemma WaitKeeps(s: St, s': St, p: nat, waitPid: int)
    requires Structure(s) && p < |s.plist| && Alive(s.plist[p]) && p != 1
    requires s'.plist == s.plist[p := s.plist[p].(waitPid := waitPid)]
    requires s'.current == s.current && s'.pidCount == s.pidCount && s'.queue == s.queue && s'.tsleep == s.tsleep
    ensures Structure(s')
  {
    hide PidsOk;
    PidsKeep(s, s');
  }

  // A free slot receives a sleeping child of a live process.
  lemma CreateKeeps(s: St, s': St, p: nat, ppid: nat)
    requires Structure(s) && p < |s.plist| && s.plist[p].state == FRE && ppid <= s.pidCount
    requires s'.plist == s.plist[p := Proc(s.pidCount + 1, ppid, SLP, 0, 0, true)]
    requires s'.current == s.current && s'.pidCount == s.pidCount + 1 && s'.queue == s.queue && s'.tsleep == s.tsleep
    ensures Structure(s')
  {
  }

  // A context switch, first half: the running process goes back in queue.
  lemma DemoteKeeps(s: St, s': St)
    requires Structure(s) && s.plist[s.current].state == RUN
    requires s' == s.(plist := s.plist[s.current := s.plist[s.current].(state := INQ)])
    ensures Structure(s') && forall i :: 0 <= i < |s'.plist| ==> s'.plist[i].state != RUN
  {
    hide PidsOk;
    PidsKeep(s, s');
  }

  // Second half: q becomes current, and runs unless it is idle.
  lemma PromoteKeeps(s: St, s': St, q: nat)
    requires Structure(s) && q < |s.plist| && s.plist[q].state in {INQ, IDL}
    requires forall i :: 0 <= i < |s.plist| ==> s.plist[i].state != RUN
    requires s' == s.(current := q, plist := if s.plist[q].state == IDL then s.plist
                                              else s.plist[q := s.plist[q].(state := RUN)])
    ensures Structure(s') && Ready(s')
  {
    hide PidsOk;
    PidsKeep(s, s');
  }

  // --------------------------------------------------------------- the family side

  // Nobody was born, died, or was freed.
  ghost predicate SameFamily(pl: seq<Proc>, pl': seq<Proc>) {
    && |pl'| == |pl|
    && forall i :: 0 <= i < |pl| ==>
         && pl'[i].pid == pl[i].pid && pl'[i].ppid == pl[i].ppid && pl'[i].hasDir == pl[i].hasDir
         && (Alive(pl'[i]) <==> Alive(pl[i])) && (pl'[i].state == ZMB <==> pl[i].state == ZMB)
  }

  lemma SameFamilyAlive(pl: seq<Proc>, pl': seq<Proc>)
    requires SameFamily(pl, pl')
    ensures forall x :: AlivePid(pl', x) <==> AlivePid(pl, x)
    ensures forall x :: AliveChild(pl', x) <==> AliveChild(pl, x)
  {
  }

  lemma FamilyAt(s: St, i: nat)
    requires FamilyOk(s)
    ensures !Orphan(s.plist, i) && (Dangling(s.plist, i) ==> Robbed(s, i))
    ensures Loose(s.plist, s.needClean, i) ==> GivenDead(s, i)
  {
  }

  // Only wait words may matter then.
  lemma FamilyKeeps(s: St, s': St)
    requires FamilyOk(s) && SameFamily(s.plist, s'.plist) && (s.needClean ==> s'.needClean) && s'.given == s.given
    requires forall i: nat :: i < |s.plist| ==> s'.plist[i].waitPid == s.plist[i].waitPid || !Dangling(s'.plist, i)
    ensures FamilyOk(s')
  {
    hide AlivePid, AliveChild;
    SameFamilyAlive(s.plist, s'.plist);
    forall i: nat
      ensures !Orphan(s'.plist, i) && (Dangling(s'.plist, i) ==> Robbed(s', i))
              && (Loose(s'.plist, s'.needClean, i) ==> GivenDead(s', i))
    {
      FamilyAt(s, i);
    }
  }

  // Clearing or freeing a zombie: a cleaned zombie that stays must have a live parent other
  // than the kernel.
  lemma FamilyAfterClean(s: St, s': St, p: nat, q: Proc)
    requires FamilyOk(s) && p < |s.plist| && s.plist[p].state == ZMB
    requires q == s.plist[p].(hasDir := q.hasDir, state := q.state) && s'.plist == s.plist[p := q]
    requires q.state == FRE || (q.state == ZMB && q.ppid != 0 && AlivePid(s.plist, q.ppid))
    requires s'.needClean == s.needClean && s'.given == s.given
    ensures FamilyOk(s')
  {
    hide AlivePid, AliveChild;
    AliveAfterClean(s.plist, s'.plist, p);
    forall i: nat
      ensures !Orphan(s'.plist, i) && (Dangling(s'.plist, i) ==> Robbed(s', i))
              && (Loose(s'.plist, s'.needClean, i) ==> GivenDead(s', i))
    {
      FamilyAt(s, i);
    }
  }

  lemma AliveAfterClean(pl: seq<Proc>, pl': seq<Proc>, p: nat)
    requires p < |pl| && !Alive(pl[p]) && |pl'| == |pl| && !Alive(pl'[p])
    requires forall i :: 0 <= i < |pl| && i != p ==> pl'[i] == pl[i]
    ensures forall x :: AlivePid(pl', x) <==> AlivePid(pl, x)
    ensures forall x :: AliveChild(pl', x) <==> AliveChild(pl, x)
  {
  }

  lemma FamilyAfterCreate(s: St, s': St, p: nat, ppid: nat)
    requires FamilyOk(s) && p < |s.plist| && s.plist[p].state == FRE && AlivePid(s.plist, ppid)
    requires s'.plist == s.plist[p := Proc(s.pidCount + 1, ppid, SLP, 0, 0, true)]
    requires s'.needClean == s.needClean && s'.given == s.given
    ensures FamilyOk(s')
  {
    hide AlivePid, AliveChild;
    AliveAfterCreate(s.plist, s'.plist, p);
    forall i: nat
      ensures !Orphan(s'.plist, i) && (Dangling(s'.plist, i) ==> Robbed(s', i))
              && (Loose(s'.plist, s'.needClean, i) ==> GivenDead(s', i))
    {
      FamilyAt(s, i);
    }
  }

  lemma AliveAfterCreate(pl: seq<Proc>, pl': seq<Proc>, p: nat)
    requires p < |pl| == |pl'| && !Alive(pl[p]) && forall i :: 0 <= i < |pl| && i != p ==> pl'[i] == pl[i]
    ensures forall x :: AlivePid(pl, x) ==> AlivePid(pl', x)
    ensures forall x :: AliveChild(pl, x) ==> AliveChild(pl', x)
  {
  }

  // ------------------------------------------------------------- the earliest date

  // Entries of the timed-sleep list keep their dates.
  lemma InteractKeeps(s: St, s': St)
    requires InteractOk(s) && s'.tsleep == s.tsleep && s'.interact == s.interact && |s'.plist| == |s.plist|
    requires forall k :: 0 <= k < |s.tsleep| ==> s.tsleep[k] < |s.plist| ==>
               s'.plist[s.tsleep[k]].sleepTo == s.plist[s.tsleep[k]].sleepTo
    ensures InteractOk(s')
  {
  }
}
