/** The process manager's state (process.c): the process table, the run queue, the list of
    timed sleepers, and what must hold of them. Processes are named by their table slot. */
module ProcessState {
  import opened Lists

  const PROCESS_MAX := 200
  const SCHEDULER_EVRY := 10

  datatype Status = FRE | ZMB | SLP | INQ | RUN | IDL

  // sleepTo is the word the source shares between the wake-up date and the return code.
  datatype Proc = Proc(pid: nat, ppid: nat, state: Status, waitPid: int, sleepTo: nat, hasDir: bool)

  datatype St = St(
    plist: seq<Proc>,
    current: nat,
    pidCount: nat,
    tsleep: seq<nat>,
    interact: nat,
    queue: seq<nat>,
    needClean: bool,
    given: Given)

  // History: pids whose child was given to the kernel, and pids given away when already dead.
  datatype Given = Given(parents: set<nat>, zombies: set<nat>)

  // The source's `state > PROC_STATE_ZMB`.
  predicate Alive(p: Proc) { p.state != FRE && p.state != ZMB }

  // ------------------------------------------------------------------- lists

  // Removal by moving the last entry into the hole.
  function SwapRemove(s: seq<nat>, i: nat): seq<nat>
    requires i < |s|
  {
    s[i := s[|s| - 1]][..|s| - 1]
  }

  lemma SwapRemoveOk(s: seq<nat>, i: nat)
    requires i < |s| && NoDup(s)
    ensures NoDup(SwapRemove(s, i)) && |SwapRemove(s, i)| == |s| - 1
    ensures forall x: nat :: x in SwapRemove(s, i) <==> x in s && x != s[i]
    ensures forall j :: 0 <= j < |s| - 1 ==> SwapRemove(s, i)[j] == if j == i then s[|s| - 1] else s[j]
  {
    var r := SwapRemove(s, i);
    forall x: nat | x in s && x != s[i] ensures x in r {
      var j :| 0 <= j < |s| && s[j] == x;
      assert r[if j == |s| - 1 then i else j] == x;
    }
  }

  lemma {:induction false} NoDupBound(s: seq<nat>, n: nat)
    requires NoDup(s) && forall i :: 0 <= i < |s| ==> s[i] < n
    ensures |s| <= n
    ensures (exists y: nat :: y < n && y !in s) ==> |s| < n
    decreases n
  {
    assert |s| > 0 ==> s[0] < n;
    if n == 0 {
    } else {
      if n - 1 in s {
        var i :| 0 <= i < |s| && s[i] == n - 1;
        SwapRemoveOk(s, i);
        var r := SwapRemove(s, i);
        forall j | 0 <= j < |r| ensures r[j] < n - 1 {
          assert r[j] in r;
        }
        NoDupBound(r, n - 1);
      } else {
        NoDupBound(s, n - 1);
      }
    }
  }

  // --------------------------------------------------------------- who is alive

  ghost predicate AlivePid(pl: seq<Proc>, x: int) {
    exists i :: 0 <= i < |pl| && Alive(pl[i]) && pl[i].pid == x
  }

  ghost predicate AliveChild(pl: seq<Proc>, x: int) {
    exists i :: 0 <= i < |pl| && Alive(pl[i]) && pl[i].ppid == x
  }

  // Alive, not the kernel, and without a live parent.
  ghost predicate Orphan(pl: seq<Proc>, i: nat) {
    i < |pl| && Alive(pl[i]) && pl[i].pid != 0 && !AlivePid(pl, pl[i].ppid)
  }

  // Waiting for a death that can no longer happen.
  ghost predicate Dangling(pl: seq<Proc>, i: nat) {
    && i < |pl| && Alive(pl[i])
    && ((pl[i].waitPid > 0 && !AlivePid(pl, pl[i].waitPid))
        || (pl[i].waitPid == -1 && !AliveChild(pl, pl[i].pid)))
  }

  // A zombie nobody will ever clear: already cleaned once (or no cleaning is due), and without
  // a live parent other than the kernel to collect it.
  ghost predicate Loose(pl: seq<Proc>, needClean: bool, i: nat) {
    && i < |pl| && pl[i].state == ZMB
    && !(pl[i].hasDir && needClean)
    && !(pl[i].ppid != 0 && AlivePid(pl, pl[i].ppid))
  }

  // ------------------------------------------------------------- the invariants

  // The kernel (slot 0) and the idle process (slot 1).
  ghost predicate Shape(s: St) {
    && |s.plist| == PROCESS_MAX && s.current < PROCESS_MAX
    && s.plist[0].pid == 0 && s.plist[0].ppid == 0 && Alive(s.plist[0])
    && s.plist[1].pid == 1 && s.plist[1].ppid == 0 && s.plist[1].waitPid == 0
    && (forall i :: 0 <= i < PROCESS_MAX ==> (s.plist[i].state == IDL <==> i == 1))
    && s.plist[s.current].state != FRE
  }

  ghost predicate PidsOk(s: St) {
    && (forall i :: 0 <= i < |s.plist| && s.plist[i].state != FRE ==>
          s.plist[i].pid <= s.pidCount && (s.plist[i].pid != 0 ==> s.plist[i].ppid < s.plist[i].pid))
    && (forall i, j :: 0 <= i < j < |s.plist| && s.plist[i].state != FRE && s.plist[j].state != FRE ==>
          s.plist[i].pid != s.plist[j].pid)
    && (forall i :: 0 <= i < |s.plist| && Alive(s.plist[i]) ==> s.plist[i].hasDir)
    && (forall i :: 0 <= i < |s.plist| && s.plist[i].state == FRE ==> !s.plist[i].hasDir)
    && (forall i :: 0 <= i < |s.plist| && !Alive(s.plist[i]) ==> s.plist[i].waitPid == 0)
  }

  // The run queue holds exactly the processes in queue or running.
  ghost predicate QueueOk(s: St) {
    && NoDup(s.queue)
    && (forall x: nat :: x in s.queue <==> x < |s.plist| && s.plist[x].state in {INQ, RUN})
  }

  // The timed-sleep list holds exactly the sleepers with a wake-up date.
  ghost predicate TsleepOk(s: St) {
    && NoDup(s.tsleep)
    && (forall x: nat :: x in s.tsleep <==> x < |s.plist| && s.plist[x].state == SLP && s.plist[x].sleepTo != 0)
  }

  ghost predicate RunOk(s: St) {
    forall i :: 0 <= i < |s.plist| && s.plist[i].state == RUN ==> i == s.current
  }

  // g_tsleep_interact is the earliest wake-up date, 0 when nobody sleeps.
  ghost predicate InteractOk(s: St) {
    && (s.interact == 0 <==> s.tsleep == [])
    && (s.tsleep != [] ==>
        exists k :: 0 <= k < |s.tsleep| && s.tsleep[k] < |s.plist| && s.plist[s.tsleep[k]].sleepTo == s.interact)
    && (forall k :: 0 <= k < |s.tsleep| ==> s.tsleep[k] < |s.plist| && s.interact <= s.plist[s.tsleep[k]].sleepTo)
  }

  // What every routine keeps, including in the middle of a recursive kill.
  ghost predicate Structure(s: St) {
    Shape(s) && PidsOk(s) && QueueOk(s) && TsleepOk(s) && RunOk(s)
  }

  ghost predicate NoOrphans(pl: seq<Proc>) { forall i: nat {:trigger Orphan(pl, i)} :: !Orphan(pl, i) }

  // It waits for any child, and one was taken from it.
  ghost predicate Robbed(s: St, i: nat) {
    i < |s.plist| && s.plist[i].waitPid == -1 && s.plist[i].pid in s.given.parents
  }

  ghost predicate GivenDead(s: St, i: nat) { i < |s.plist| && s.plist[i].pid in s.given.zombies }

  ghost predicate FamilyOk(s: St) {
    && NoOrphans(s.plist)
    && (forall i: nat {:trigger Dangling(s.plist, i)} :: Dangling(s.plist, i) ==> Robbed(s, i))
    && (forall i: nat {:trigger Loose(s.plist, s.needClean, i)} :: Loose(s.plist, s.needClean, i) ==> GivenDead(s, i))
  }

  ghost predicate Inv(s: St) {
    Structure(s) && InteractOk(s) && FamilyOk(s)
  }

  // The current process can go on running.
  ghost predicate Ready(s: St)
    requires s.current < |s.plist|
  {
    s.plist[s.current].state in {RUN, INQ, IDL}
  }

  // ------------------------------------------------------- what follows from them

  // The source's "too many processes in queue" and "already in queue" are unreachable:
  // a process outside the queue finds room in it.
  lemma QueueHasRoom(s: St, p: nat)
    requires Shape(s) && QueueOk(s) && p < PROCESS_MAX && s.plist[p].state !in {INQ, RUN}
    ensures p !in s.queue && |s.queue| < PROCESS_MAX
  {
    assert forall i :: 0 <= i < |s.queue| ==> s.queue[i] in s.queue;
    NoDupBound(s.queue, PROCESS_MAX);
  }

  // The same for the list of sleepers: once a process is off it, a timed sleeper put to sleep again
  // included, the list has room for it.
  lemma TsleepHasRoom(s: St, l: seq<nat>, p: nat)
    requires Shape(s) && TsleepOk(s) && p < PROCESS_MAX
    requires NoDup(l) && p !in l && forall x: nat :: x in l ==> x in s.tsleep
    ensures |l| < PROCESS_MAX
  {
    assert forall i :: 0 <= i < |l| ==> l[i] in l;
    NoDupBound(l, PROCESS_MAX);
  }

  // A live process other than the kernel has a live parent, of a smaller pid.
  lemma ParentOf(s: St, i: nat) returns (j: nat)
    requires Structure(s) && NoOrphans(s.plist) && i < |s.plist| && Alive(s.plist[i]) && i != 0
    ensures j < |s.plist| && Alive(s.plist[j]) && s.plist[j].pid == s.plist[i].ppid < s.plist[i].pid
  {
    hide Dangling, Loose, AliveChild, QueueOk, TsleepOk, RunOk;
    assert !Orphan(s.plist, i);
    j :| 0 <= j < |s.plist| && Alive(s.plist[j]) && s.plist[j].pid == s.plist[i].ppid;
  }

  // Every live process has a live parent chain that ends at the kernel: the pids strictly
  // decrease along it.
  lemma {:induction false} ChainToKernel(s: St, i: nat) returns (chain: seq<nat>)
    requires Structure(s) && NoOrphans(s.plist) && i < |s.plist| && Alive(s.plist[i])
    ensures |chain| >= 1 && chain[0] == i && chain[|chain| - 1] == 0
    ensures forall k :: 0 <= k < |chain| ==> chain[k] < |s.plist| && Alive(s.plist[chain[k]])
    ensures forall k :: 0 <= k < |chain| - 1 ==>
              && s.plist[chain[k + 1]].pid == s.plist[chain[k]].ppid
              && s.plist[chain[k + 1]].pid < s.plist[chain[k]].pid
    decreases s.plist[i].pid
  {
    hide Structure, NoOrphans;
    if i == 0 {
      return [0];
    }
    var j := ParentOf(s, i);
    var rest := ChainToKernel(s, j);
    chain := [i] + rest;
  }

  // No lost wakeup by death: a sleeper that waits for a process waits for a live one, and a
  // sleeper that waits for any child has a live child, unless one was taken from it.
  lemma NoLostWakeup(s: St, i: nat)
    requires Inv(s) && i < |s.plist| && s.plist[i].state == SLP
    ensures s.plist[i].waitPid > 0 ==> AlivePid(s.plist, s.plist[i].waitPid)
    ensures s.plist[i].waitPid == -1 ==>
              AliveChild(s.plist, s.plist[i].pid) || s.plist[i].pid in s.given.parents
  {
    assert Dangling(s.plist, i) ==> Robbed(s, i);
  }

  // After a sweep, or whenever the earliest date is ahead, nobody sleeps past its deadline.
  lemma NobodyOverslept(s: St, ticks: nat)
    requires Structure(s) && InteractOk(s) && (s.interact == 0 || s.interact > ticks)
    ensures forall i :: 0 <= i < |s.plist| && s.plist[i].state == SLP && s.plist[i].sleepTo != 0 ==>
              s.plist[i].sleepTo > ticks
  {
  }
}
