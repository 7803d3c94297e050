/** Giving a process to the kernel (process_info with PROC_INFO_SET_PPID): what stays in order, and what may not. */
module ProcessReparent {
  import opened ProcessState

  function Reparented(s: St, p: nat): St
    requires p < |s.plist|
  {
    var q := s.plist[p];
    s.(plist := s.plist[p := q.(ppid := 0)],
       given := Given(s.given.parents + {q.ppid}, s.given.zombies + if q.state == ZMB then {q.pid} else {}))
  }

  // Every live process still has its chain of live parents, and the family is in order but for those a
  // child was taken from.
  lemma ReparentKeeps(s: St, p: nat)
    requires Structure(s) && FamilyOk(s) && p < |s.plist| && s.plist[p].state != FRE
    ensures Structure(Reparented(s, p)) && FamilyOk(Reparented(s, p))
  {
    hide AlivePid, AliveChild, Structure;
    ReparentStructure(s, p);
    ReparentOrphans(s, p);
    ReparentedPids(s, p);
    var s' := Reparented(s, p);
    forall j: nat ensures (Dangling(s'.plist, j) ==> Robbed(s', j))
      && (Loose(s'.plist, s'.needClean, j) ==> GivenDead(s', j)) {
      assert Dangling(s.plist, j) ==> Robbed(s, j);
      assert Loose(s.plist, s.needClean, j) ==> GivenDead(s, j);
      if j < |s.plist| { ReparentedChild(s, p, s.plist[j].pid); }
    }
  }

  lemma ReparentStructure(s: St, p: nat)
    requires Structure(s) && p < |s.plist| && s.plist[p].state != FRE
    ensures Structure(Reparented(s, p))
  {
    hide PidsOk, QueueOk, TsleepOk;
    ReparentPidsOk(s, p);
    ReparentLists(s, p);
  }

  lemma ReparentPidsOk(s: St, p: nat)
    requires PidsOk(s) && p < |s.plist|
    ensures PidsOk(Reparented(s, p))
  {
  }

  lemma ReparentLists(s: St, p: nat)
    requires QueueOk(s) && TsleepOk(s) && p < |s.plist|
    ensures QueueOk(Reparented(s, p)) && TsleepOk(Reparented(s, p))
  {
  }

  lemma ReparentOrphans(s: St, p: nat)
    requires Structure(s) && NoOrphans(s.plist) && p < |s.plist|
    ensures NoOrphans(Reparented(s, p).plist)
  {
    hide AlivePid, Structure;
    ReparentedPids(s, p);
    KernelIsThere(s);
    forall i: nat ensures !Orphan(Reparented(s, p).plist, i) { assert !Orphan(s.plist, i); }
  }

  lemma ReparentedPids(s: St, p: nat)
    requires p < |s.plist|
    ensures forall x :: AlivePid(Reparented(s, p).plist, x) <==> AlivePid(s.plist, x)
  {
    var s' := Reparented(s, p);
    forall x ensures AlivePid(s'.plist, x) <==> AlivePid(s.plist, x) {
      if i :| 0 <= i < |s.plist| && Alive(s.plist[i]) && s.plist[i].pid == x {
        assert Alive(s'.plist[i]) && s'.plist[i].pid == x;
      }
      if i :| 0 <= i < |s.plist| && Alive(s'.plist[i]) && s'.plist[i].pid == x {
        assert Alive(s.plist[i]) && s.plist[i].pid == x;
      }
    }
  }

  lemma KernelIsThere(s: St)
    requires Structure(s)
    ensures AlivePid(s.plist, 0)
  {
    assert Alive(s.plist[0]) && s.plist[0].pid == 0;
  }

  // Somebody waits for any child, and p is the only live one.
  ghost predicate OnlyHope(pl: seq<Proc>, p: nat, j: nat) {
    && p < |pl| && j < |pl| && Alive(pl[j]) && pl[j].waitPid == -1 && Alive(pl[p]) && pl[p].ppid == pl[j].pid != 0
    && forall i :: 0 <= i < |pl| && i != p && Alive(pl[i]) ==> pl[i].ppid != pl[j].pid
  }

  // The family is in order without excuse.
  ghost predicate Whole(s: St) { FamilyOk(s.(given := Given({}, {}))) }

  // It stays so exactly when nobody is left waiting and no zombie left lying about.
  lemma ReparentFamily(s: St, p: nat)
    requires Structure(s) && Whole(s) && p < |s.plist| && s.plist[p].state != FRE
    ensures Whole(Reparented(s, p)) <==>
            !(exists j: nat :: OnlyHope(s.plist, p, j))
              && !(s.plist[p].state == ZMB && !(s.plist[p].hasDir && s.needClean))
  {
    hide AlivePid, AliveChild;
    var s' := Reparented(s, p);
    WholeAt(s);
    ReparentOrphans(s, p);
    ReparentedPids(s, p);
    forall j: nat ensures Dangling(s'.plist, j) <==> OnlyHope(s.plist, p, j) {
      assert !Dangling(s.plist, j);
      if j < |s.plist| { ReparentedChild(s, p, s.plist[j].pid); }
    }
    forall j: nat ensures Loose(s'.plist, s'.needClean, j) <==>
      j == p && s.plist[p].state == ZMB && !(s.plist[p].hasDir && s.needClean) {
      assert !Loose(s.plist, s.needClean, j);
    }
    if j: nat :| OnlyHope(s.plist, p, j) { assert Dangling(s'.plist, j); }
    if s.plist[p].state == ZMB && !(s.plist[p].hasDir && s.needClean) { assert Loose(s'.plist, s'.needClean, p); }
    if Whole(s') { WholeAt(s'); }
  }

  lemma WholeAt(s: St)
    requires Whole(s)
    ensures NoOrphans(s.plist)
    ensures forall j: nat {:trigger Dangling(s.plist, j)} :: !Dangling(s.plist, j)
    ensures forall j: nat {:trigger Loose(s.plist, s.needClean, j)} :: !Loose(s.plist, s.needClean, j)
  {
    var t := s.(given := Given({}, {}));
    forall j: nat ensures !Dangling(s.plist, j) { assert Dangling(t.plist, j) ==> Robbed(t, j); }
    forall j: nat ensures !Loose(s.plist, s.needClean, j) {
      assert Loose(t.plist, t.needClean, j) ==> GivenDead(t, j);
    }
  }

  // A live child of x in another slot than p.
  ghost predicate Other(pl: seq<Proc>, p: nat, x: nat) {
    exists i :: 0 <= i < |pl| && i != p && Alive(pl[i]) && pl[i].ppid == x
  }

  lemma ReparentedChild(s: St, p: nat, x: nat)
    requires p < |s.plist|
    ensures AliveChild(Reparented(s, p).plist, x) <==>
            (x == 0 && Alive(s.plist[p])) || Other(s.plist, p, x)
    ensures AliveChild(s.plist, x) <==>
            (s.plist[p].ppid == x && Alive(s.plist[p])) || Other(s.plist, p, x)
  {
    var s' := Reparented(s, p);
    if i :| 0 <= i < |s.plist| && i != p && Alive(s.plist[i]) && s.plist[i].ppid == x {
      assert Alive(s'.plist[i]) && s'.plist[i].ppid == x;
    }
    if Alive(s.plist[p]) { assert Alive(s'.plist[p]) && s'.plist[p].ppid == 0; }
    if i :| 0 <= i < |s.plist| && Alive(s'.plist[i]) && s'.plist[i].ppid == x {
      assert i != p ==> s.plist[i].ppid == x;
    }
  }

  // An input: process 2 waits for any child, and its only one is given to the kernel.
  function WaitingProc(i: nat): Proc {
    match i
    case 0 => Proc(0, 0, RUN, 0, 0, true)
    case 1 => Proc(1, 0, IDL, 0, 0, true)
    case 2 => Proc(2, 0, SLP, -1, 0, true)
    case 3 => Proc(3, 2, INQ, 0, 0, true)
    case _ => Proc(0, 0, FRE, 0, 0, false)
  }

  function Waiting(): St { St(seq(PROCESS_MAX, i requires 0 <= i => WaitingProc(i)), 0, 3, [], 0, [0, 3], false,
                              Given({}, {})) }

  lemma WaitingOk()
    ensures Structure(Waiting()) && InteractOk(Waiting())
  {
    hide Shape, PidsOk, QueueOk, TsleepOk, RunOk;
    WaitingShape();
    WaitingPids();
    WaitingLists();
  }

  lemma WaitingShape()
    ensures Shape(Waiting()) && RunOk(Waiting())
  {
  }

  // Pids that are slot numbers are different.
  ghost predicate OwnSlot(s: St, i: nat)
    requires i < |s.plist|
  {
    var p := s.plist[i];
    && (p.state != FRE ==> p.pid == i <= s.pidCount && (i != 0 ==> p.ppid < i))
    && (Alive(p) ==> p.hasDir) && (!Alive(p) ==> p.waitPid == 0) && (p.state == FRE ==> !p.hasDir)
  }

  lemma OwnSlots(s: St)
    requires forall i: nat :: i < |s.plist| ==> OwnSlot(s, i)
    ensures PidsOk(s)
  {
    forall i | 0 <= i < |s.plist| && s.plist[i].state != FRE
      ensures s.plist[i].pid == i <= s.pidCount && (i != 0 ==> s.plist[i].ppid < i)
    {
      assert OwnSlot(s, i);
    }
    forall i | 0 <= i < |s.plist|
      ensures (if Alive(s.plist[i]) then s.plist[i].hasDir else s.plist[i].waitPid == 0)
              && (s.plist[i].state == FRE ==> !s.plist[i].hasDir) {
      assert OwnSlot(s, i);
    }
  }

  lemma WaitingPids()
    ensures PidsOk(Waiting())
  {
    hide PidsOk;
    OwnSlots(Waiting());
  }

  lemma WaitingLists()
    ensures QueueOk(Waiting()) && TsleepOk(Waiting())
  {
    var s := Waiting();
    assert s.queue[0] == 0 && s.queue[1] == 3;
    assert forall x: nat :: x in s.queue <==> x == 0 || x == 3;
  }

  lemma WaitingFamily()
    ensures FamilyOk(Waiting())
  {
    var s := Waiting();
    assert AlivePid(s.plist, 0) by { assert Alive(s.plist[0]) && s.plist[0].pid == 0; }
    assert AlivePid(s.plist, 2) by { assert Alive(s.plist[2]) && s.plist[2].pid == 2; }
    assert AliveChild(s.plist, 2) by { assert Alive(s.plist[3]) && s.plist[3].ppid == 2; }
  }

  lemma ReparentStrands()
    ensures Inv(Waiting()) && var pl := Reparented(Waiting(), 3).plist;
            pl[2].state == SLP && pl[2].waitPid == -1 && !AliveChild(pl, pl[2].pid)
  {
    hide Structure, InteractOk, FamilyOk;
    WaitingOk();
    WaitingFamily();
  }
}
