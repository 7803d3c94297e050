/** What a recursive kill does to the process table (process_kill). */
module ProcessKill {
  import opened Lists
  import opened ProcessState
  import opened ProcessSteps

  // Process t or one of its descendants, following live parents.
  ghost predicate Below(pl: seq<Proc>, i: nat, t: nat)
    decreases if i < |pl| then pl[i].pid else 0
  {
    && i < |pl|
    && (pl[i].pid == t
        || exists j: nat :: j < |pl| && Alive(pl[j]) && pl[j].pid == pl[i].ppid && pl[j].pid < pl[i].pid
             && Below(pl, j, t))
  }

  lemma {:induction false} BelowPid(pl: seq<Proc>, i: nat, t: nat)
    requires Below(pl, i, t)
    ensures pl[i].pid >= t
    decreases pl[i].pid
  {
    if pl[i].pid != t {
      var j: nat :| j < |pl| && Alive(pl[j]) && pl[j].pid == pl[i].ppid && pl[j].pid < pl[i].pid && Below(pl, j, t);
      BelowPid(pl, j, t);
    }
  }

  // The table only lost live processes since pl0.
  ghost predicate Fewer(pl0: seq<Proc>, pl: seq<Proc>) {
    && |pl| == |pl0|
    && forall j :: 0 <= j < |pl| ==>
         pl[j].pid == pl0[j].pid && pl[j].ppid == pl0[j].ppid && (Alive(pl[j]) ==> Alive(pl0[j]))
  }

  lemma {:induction false} BelowEarlier(pl0: seq<Proc>, pl: seq<Proc>, i: nat, t: nat)
    requires Fewer(pl0, pl) && Below(pl, i, t)
    ensures Below(pl0, i, t)
    decreases pl[i].pid
  {
    if pl[i].pid != t {
      var j: nat :| j < |pl| && Alive(pl[j]) && pl[j].pid == pl[i].ppid && pl[j].pid < pl[i].pid && Below(pl, j, t);
      BelowEarlier(pl0, pl, j, t);
    }
  }

  lemma {:induction false} BelowChild(pl: seq<Proc>, i: nat, c: nat, p: nat)
    requires c < |pl| && p < |pl| && Below(pl, i, pl[c].pid)
    requires forall j :: 0 <= j < |pl| && pl[j].pid == pl[c].pid && (Alive(pl[j]) || j == i) ==>
               j == c || pl[j].ppid == pl[c].ppid
    requires Alive(pl[p]) && pl[p].pid == pl[c].ppid && pl[p].pid < pl[c].pid
    ensures Below(pl, i, pl[p].pid)
    decreases pl[i].pid
  {
    if pl[i].pid == pl[c].pid {
    } else {
      var j: nat :| j < |pl| && Alive(pl[j]) && pl[j].pid == pl[i].ppid && pl[j].pid < pl[i].pid
          && Below(pl, j, pl[c].pid);
      BelowChild(pl, j, c, p);
    }
  }

  lemma ChildBelow(pl: seq<Proc>, i: nat, p: nat)
    requires i < |pl| && p < |pl| && Alive(pl[p]) && pl[p].pid == pl[i].ppid && pl[p].pid < pl[i].pid
    ensures Below(pl, i, pl[p].pid)
  {
  }

  // ------------------------------------------------------------ the live processes

  ghost function Living(pl: seq<Proc>): set<nat> { set i: nat | i < |pl| && Alive(pl[i]) }

  lemma FewerLiving(pl0: seq<Proc>, pl: seq<Proc>)
    requires Fewer(pl0, pl)
    ensures Living(pl) <= Living(pl0) && |Living(pl)| <= |Living(pl0)|
  {
    SubsetSize(Living(pl), Living(pl0));
  }

  lemma OneFewer(pl: seq<Proc>, p: nat, q: Proc)
    requires p < |pl| && Alive(pl[p]) && !Alive(q)
    ensures |Living(pl[p := q])| == |Living(pl)| - 1
  {
    assert Living(pl[p := q]) == Living(pl) - {p};
  }

  // ------------------------------------------------- the state of the kill loop

  // Still to be woken: slots from iw on waiting for the target, or for any child of its parent.
  ghost predicate ToWake(s: St, place: nat, iw: nat, j: nat) {
    && place < |s.plist| && iw <= j < |s.plist| && j != place
    && (s.plist[j].waitPid == s.plist[place].pid || (s.plist[j].waitPid == -1 && s.plist[j].pid == s.plist[place].ppid))
  }

  // Still to be visited: slots from ic on holding a child of the target.
  ghost predicate ToVisit(s: St, place: nat, ic: nat, j: nat) {
    place < |s.plist| && ic <= j < |s.plist| && s.plist[j].ppid == s.plist[place].pid
  }

  // Changes a kill of slot `place` may make to the table.
  ghost predicate OnlyKills(s0: St, s: St, place: nat) {
    && place < |s0.plist| && Fewer(s0.plist, s.plist)
    && s.current == s0.current && s.pidCount == s0.pidCount && s.needClean && s.given == s0.given
    && (forall j :: 0 <= j < |s.plist| && Alive(s.plist[j]) ==>
          s.plist[j].state == s0.plist[j].state || (s0.plist[j].state == SLP && s.plist[j].state == INQ))
    && (forall j :: 0 <= j < |s.plist| && s0.plist[j].state == ZMB && s0.plist[j].ppid < s0.plist[place].pid ==>
          s.plist[j] == s0.plist[j])
    && (forall j: nat {:trigger Below(s0.plist, j, s0.plist[place].pid)} ::
          j < |s.plist| && Alive(s0.plist[j]) && !Alive(s.plist[j]) ==> Below(s0.plist, j, s0.plist[place].pid))
  }

  // The family damage left to repair: wakes are done below iw, visits below ic.
  ghost predicate KillLoop(s0: St, s: St, place: nat, iw: nat, ic: nat) {
    && OnlyKills(s0, s, place)
    && !Alive(s.plist[place])
    && (forall j: nat {:trigger Orphan(s.plist, j)} ::
          Orphan(s.plist, j) ==> Orphan(s0.plist, j) || ToVisit(s, place, ic, j))
    && (forall j: nat {:trigger Dangling(s.plist, j)} ::
          Dangling(s.plist, j) ==>
            (Dangling(s0.plist, j) && s.plist[j].waitPid == s0.plist[j].waitPid) || ToWake(s, place, iw, j))
    && (forall j: nat {:trigger Loose(s.plist, s.needClean, j)} ::
          Loose(s.plist, s.needClean, j) ==> Loose(s0.plist, s0.needClean, j) || ToVisit(s, place, ic, j))
  }

  lemma AliveAfterDeath(pl: seq<Proc>, pl': seq<Proc>, p: nat)
    requires p < |pl| == |pl'| && Alive(pl[p]) && !Alive(pl'[p])
    requires forall i :: 0 <= i < |pl| && i != p ==> pl'[i] == pl[i]
    ensures forall x :: AlivePid(pl, x) && x != pl[p].pid ==> AlivePid(pl', x)
    ensures forall x :: AliveChild(pl, x) && x != pl[p].ppid ==> AliveChild(pl', x)
  {
  }

  // The target has just become a zombie.
  lemma KillStart(s0: St, s: St, place: nat, retcode: nat)
    requires PidsOk(s0) && place < |s0.plist| && Alive(s0.plist[place])
    requires s.plist == s0.plist[place := s0.plist[place].(state := ZMB, waitPid := 0, sleepTo := retcode)]
    requires s.needClean && s.current == s0.current && s.pidCount == s0.pidCount && s.given == s0.given
    ensures KillLoop(s0, s, place, 0, 0)
  {
    hide AlivePid, AliveChild;
    AliveAfterDeath(s0.plist, s.plist, place);
    assert Below(s0.plist, place, s0.plist[place].pid);
  }

  // Slot i has been looked at for waking: its wait word no longer dangles.
  lemma KillWoke(s0: St, s: St, s': St, place: nat, i: nat)
    requires KillLoop(s0, s, place, i, i) && i < |s.plist| && i != place
    requires SameFamily(s.plist, s'.plist) && s'.current == s.current && s'.pidCount == s.pidCount
             && s'.needClean == s.needClean && s'.given == s.given
    requires forall j :: 0 <= j < |s.plist| && j != i ==> s'.plist[j] == s.plist[j]
    requires s'.plist[i].state == s.plist[i].state || (s.plist[i].state == SLP && s'.plist[i].state == INQ)
    requires s.plist[i].state == ZMB ==> s'.plist[i] == s.plist[i]
    requires s0.plist[i].state == ZMB ==> s.plist[i].state != SLP
    requires if ToWake(s, place, i, i) then s'.plist[i].waitPid <= 0 && s'.plist[i].waitPid != -1 else s' == s
    ensures KillLoop(s0, s', place, i + 1, i)
  {
    hide AlivePid, AliveChild, Below;
    SameFamilyAlive(s.plist, s'.plist);
    forall j: nat ensures Dangling(s'.plist, j) ==>
      (Dangling(s0.plist, j) && s'.plist[j].waitPid == s0.plist[j].waitPid) || ToWake(s', place, i + 1, j)
    {
      assert Dangling(s.plist, j) ==>
          (Dangling(s0.plist, j) && s.plist[j].waitPid == s0.plist[j].waitPid) || ToWake(s, place, i, j);
    }
    forall j: nat ensures Orphan(s'.plist, j) ==> Orphan(s0.plist, j) || ToVisit(s', place, i, j) {
      assert Orphan(s.plist, j) ==> Orphan(s0.plist, j) || ToVisit(s, place, i, j);
    }
    forall j: nat ensures Loose(s'.plist, s'.needClean, j) ==>
      Loose(s0.plist, s0.needClean, j) || ToVisit(s', place, i, j) {
      assert Loose(s.plist, s.needClean, j) ==> Loose(s0.plist, s0.needClean, j) || ToVisit(s, place, i, j);
    }
  }

  // Slot i holds no child to see to.
  lemma KillSkip(s0: St, s: St, place: nat, iw: nat, i: nat)
    requires KillLoop(s0, s, place, iw, i) && i < |s.plist|
    requires s.plist[i].ppid != s.plist[place].pid || s.plist[i].state == FRE
    ensures KillLoop(s0, s, place, iw, i + 1)
  {
  }

  // The target's own slot is passed over.
  lemma KillSelf(s0: St, s: St, place: nat)
    requires KillLoop(s0, s, place, place, place) && place < |s.plist| && s.plist[place].ppid < s.plist[place].pid
    ensures KillLoop(s0, s, place, place + 1, place + 1)
  {
  }

  // Slot i held a zombie child: it is freed.
  lemma KillFreed(s0: St, s: St, s': St, place: nat, i: nat)
    requires KillLoop(s0, s, place, i + 1, i) && i < |s.plist| && i != place && s.plist[i].state == ZMB
    requires s.plist[i].ppid == s.plist[place].pid && s.plist[place].pid == s0.plist[place].pid
    requires |s'.plist| == |s.plist|
    requires s'.plist == s.plist[i := s.plist[i].(hasDir := s'.plist[i].hasDir, state := FRE)]
    requires s'.current == s.current && s'.pidCount == s.pidCount && s'.needClean == s.needClean
    requires s'.given == s.given
    ensures KillLoop(s0, s', place, i + 1, i + 1)
  {
    hide AlivePid, AliveChild, Below;
    AliveAfterClean(s.plist, s'.plist, i);
    forall j: nat ensures Dangling(s'.plist, j) ==>
      (Dangling(s0.plist, j) && s'.plist[j].waitPid == s0.plist[j].waitPid) || ToWake(s', place, i + 1, j)
    {
      assert Dangling(s.plist, j) ==>
          (Dangling(s0.plist, j) && s.plist[j].waitPid == s0.plist[j].waitPid) || ToWake(s, place, i + 1, j);
    }
    forall j: nat ensures Orphan(s'.plist, j) ==> Orphan(s0.plist, j) || ToVisit(s', place, i + 1, j) {
      assert Orphan(s.plist, j) ==> Orphan(s0.plist, j) || ToVisit(s, place, i, j);
    }
    forall j: nat ensures Loose(s'.plist, s'.needClean, j) ==>
      Loose(s0.plist, s0.needClean, j) || ToVisit(s', place, i + 1, j) {
      assert Loose(s.plist, s.needClean, j) ==> Loose(s0.plist, s0.needClean, j) || ToVisit(s, place, i, j);
    }
  }

  // Slot i held a live child: it was killed with everything below it.
  lemma KillRecursed(s0: St, s: St, s': St, place: nat, i: nat)
    requires PidsOk(s0) && |s0.plist| == |s.plist| == PROCESS_MAX && place < PROCESS_MAX && Alive(s0.plist[place])
    requires KillLoop(s0, s, place, i + 1, i) && i < |s.plist| && i != place && Alive(s.plist[i])
    requires s.plist[i].ppid == s.plist[place].pid && s.plist[i].ppid < s.plist[i].pid
    requires s.plist[place].state == ZMB && s.plist[place].ppid < s.plist[place].pid
    requires KillLoop(s, s', i, PROCESS_MAX, PROCESS_MAX) && s'.plist[i].hasDir
    ensures KillLoop(s0, s', place, i + 1, i + 1)
    ensures s'.plist[place] == s.plist[place]
  {
    hide AlivePid, AliveChild, Below, PidsOk, Fewer;
    RecursedKills(s0, s, s', place, i);
    forall j: nat ensures Dangling(s'.plist, j) ==>
      (Dangling(s0.plist, j) && s'.plist[j].waitPid == s0.plist[j].waitPid) || ToWake(s', place, i + 1, j)
    {
      NothingLeft(s, s', i, j);
      assert Dangling(s.plist, j) ==>
          (Dangling(s0.plist, j) && s.plist[j].waitPid == s0.plist[j].waitPid) || ToWake(s, place, i + 1, j);
    }
    forall j: nat ensures Orphan(s'.plist, j) ==> Orphan(s0.plist, j) || ToVisit(s', place, i + 1, j) {
      NothingLeft(s, s', i, j);
      assert Orphan(s.plist, j) ==> Orphan(s0.plist, j) || ToVisit(s, place, i, j);
    }
    forall j: nat ensures Loose(s'.plist, s'.needClean, j) ==>
      Loose(s0.plist, s0.needClean, j) || ToVisit(s', place, i + 1, j) {
      NothingLeft(s, s', i, j);
    }
  }

  // A finished kill leaves no new damage.
  lemma NothingLeft(s0: St, s: St, place: nat, j: nat)
    requires KillLoop(s0, s, place, PROCESS_MAX, PROCESS_MAX) && |s0.plist| == PROCESS_MAX
    ensures |s.plist| == |s0.plist|
    ensures Orphan(s.plist, j) ==> Orphan(s0.plist, j)
    ensures Dangling(s.plist, j) ==> Dangling(s0.plist, j) && s.plist[j].waitPid == s0.plist[j].waitPid
    ensures Loose(s.plist, s.needClean, j) ==> Loose(s0.plist, s0.needClean, j)
    ensures j < |s.plist| ==> s.plist[j].pid == s0.plist[j].pid && s.plist[j].ppid == s0.plist[j].ppid
  {
  }

  lemma RecursedKills(s0: St, s: St, s': St, place: nat, i: nat)
    requires PidsOk(s0) && place < |s0.plist| && Alive(s0.plist[place])
    requires OnlyKills(s0, s, place) && OnlyKills(s, s', i) && Alive(s.plist[i]) && !Alive(s'.plist[i])
    requires s.plist[i].ppid == s.plist[place].pid && s.plist[i].ppid < s.plist[i].pid
    requires s.plist[place].state == ZMB && s.plist[place].ppid < s.plist[place].pid
    ensures OnlyKills(s0, s', place) && s'.plist[place] == s.plist[place]
  {
    hide AlivePid, AliveChild, Below;
    forall j: nat | j < |s'.plist| && Alive(s0.plist[j]) && !Alive(s'.plist[j])
      ensures Below(s0.plist, j, s0.plist[place].pid)
    {
      if Alive(s.plist[j]) {
        BelowEarlier(s0.plist, s.plist, j, s.plist[i].pid);
        BelowChild(s0.plist, j, i, place);
      }
    }
  }

  // -------------------------------------------------------------- after the kill

  lemma {:induction false} Survivors(s0: St, s: St, place: nat, i: nat)
    requires PidsOk(s0) && place < |s0.plist| && s0.plist[place].pid != 0
    requires OnlyKills(s0, s, place) && !Alive(s.plist[place])
    requires forall j :: 0 <= j < |s0.plist| && Alive(s0.plist[j]) && s0.plist[j].pid == s0.plist[place].pid ==>
               j == place
    requires forall j: nat {:trigger Orphan(s.plist, j)} :: !Orphan(s.plist, j)
    requires i < |s.plist| && Alive(s.plist[i])
    ensures !Below(s0.plist, i, s0.plist[place].pid)
    decreases s0.plist[i].pid
  {
    hide Below, Orphan, AlivePid, PidsOk;
    var t := s0.plist[place].pid;
    KilledNames(s0, s, place);
    if Below(s0.plist, i, t) {
      assert !Orphan(s.plist, i);
      if s0.plist[i].pid != t {
        var k := LiveParent(s0, s.plist, i, t);
        Survivors(s0, s, place, k);
      }
    }
  }

  lemma KilledNames(s0: St, s: St, place: nat)
    requires OnlyKills(s0, s, place)
    ensures |s.plist| == |s0.plist|
    ensures forall k :: 0 <= k < |s.plist| ==>
              && s.plist[k].pid == s0.plist[k].pid && s.plist[k].ppid == s0.plist[k].ppid
              && (Alive(s.plist[k]) ==> Alive(s0.plist[k]))
  {
    hide Below;
  }

  // The live parent of a survivor that stood below t does so too.
  lemma LiveParent(s0: St, pl: seq<Proc>, i: nat, t: nat) returns (k: nat)
    requires var pl0 := s0.plist;
             PidsOk(s0) && |pl| == |pl0| && i < |pl| && Alive(pl[i]) && Below(pl0, i, t) && pl0[i].pid != t
               && !Orphan(pl, i)
    requires forall j :: 0 <= j < |pl| ==>
               var p := s0.plist[j]; pl[j].pid == p.pid && pl[j].ppid == p.ppid && (Alive(pl[j]) ==> Alive(p))
    ensures k < |pl| && Alive(pl[k]) && s0.plist[k].pid < s0.plist[i].pid && Below(s0.plist, k, t)
  {
    var pl0 := s0.plist;
    var j: nat :| j < |pl0| && Alive(pl0[j]) && pl0[j].pid == pl0[i].ppid && pl0[j].pid < pl0[i].pid
                  && Below(pl0, j, t);
    k :| 0 <= k < |pl| && Alive(pl[k]) && pl[k].pid == pl[i].ppid;
    assert k == j;
  }

  // The whole family is in order again, and exactly the target and its descendants died.
  lemma KillDone(s0: St, s: St, place: nat)
    requires Structure(s0) && FamilyOk(s0) && place < |s0.plist| && s0.plist[place].pid != 0 && Alive(s0.plist[place])
    requires KillLoop(s0, s, place, PROCESS_MAX, PROCESS_MAX)
    ensures FamilyOk(s)
    ensures forall i: nat :: i < |s.plist| ==>
              (Alive(s.plist[i]) <==> Alive(s0.plist[i]) && !Below(s0.plist, i, s0.plist[place].pid))
  {
    hide AlivePid, AliveChild, Below, Orphan, Dangling, Loose, QueueOk, TsleepOk, RunOk;
    forall j: nat
      ensures !Orphan(s.plist, j) && (Dangling(s.plist, j) ==> Robbed(s, j))
              && (Loose(s.plist, s.needClean, j) ==> GivenDead(s, j))
    {
      NothingLeft(s0, s, place, j);
      FamilyAt(s0, j);
    }
    forall i: nat | i < |s.plist|
      ensures Alive(s.plist[i]) <==> Alive(s0.plist[i]) && !Below(s0.plist, i, s0.plist[place].pid)
    {
      if Alive(s.plist[i]) {
        Survivors(s0, s, place, i);
      }
    }
  }
}
