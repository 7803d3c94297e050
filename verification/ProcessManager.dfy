/** The process manager (process.c): one atomic step per public routine. */
module ProcessManager {
  import opened Lists
  import opened ProcessState
  import opened ProcessSteps
  import opened ProcessKill
  import opened ProcessSpared
  import opened ProcessReparent

  // A cleaned zombie: its memory is gone; its slot too, unless a live parent other than the
  // kernel may still ask for its return code.
  ghost function CleanedProc(pl: seq<Proc>, p: nat): Proc
    requires p < |pl|
  {
    if pl[p].ppid != 0 && AlivePid(pl, pl[p].ppid) then pl[p].(hasDir := false)
    else pl[p].(hasDir := false, state := FRE)
  }

  // The process table after the sleepers due at t were woken, ...
  ghost function AwakePl(pl: seq<Proc>, t: nat): (r: seq<Proc>)
    ensures |r| == |pl|
  {
    seq(|pl|, j requires 0 <= j < |pl| =>
      if pl[j].state == SLP && pl[j].sleepTo != 0 && pl[j].sleepTo <= t then pl[j].(state := INQ) else pl[j])
  }

  // ... after the killed other than c were cleaned up, ...
  ghost function CleanPl(pl: seq<Proc>, c: nat): (r: seq<Proc>)
    ensures |r| == |pl|
  {
    seq(|pl|, j requires 0 <= j < |pl| => if pl[j].state == ZMB && pl[j].hasDir && j != c then CleanedProc(pl, j)
        else pl[j])
  }

  // ... and after the processor went from c to n.
  ghost function SwitchPl(pl: seq<Proc>, c: nat, n: nat): (r: seq<Proc>)
    requires c < |pl| && n < |pl|
    ensures |r| == |pl|
  {
    var left := if pl[c].state == RUN then pl[c := pl[c].(state := INQ)] else pl;
    if n == c then pl else if pl[n].state == IDL then left else left[n := left[n].(state := RUN)]
  }

  ghost function TendedPl(s: St, t: nat): (r: seq<Proc>)
    ensures |r| == |s.plist|
  {
    if s.needClean then CleanPl(AwakePl(s.plist, t), s.current) else AwakePl(s.plist, t)
  }

  // Nobody is in queue or running.
  ghost predicate NoneReady(pl: seq<Proc>) { forall j :: 0 <= j < |pl| ==> pl[j].state !in {INQ, RUN} }

  // All that a schedule does to the process table; the idle process runs only when nobody else can.
  ghost predicate Scheduled(s: St, s': St, t: nat) {
    && s.current < |s.plist| && s'.current < |s.plist|
    && TendedPl(s, t)[s'.current].state in {INQ, RUN, IDL}
    && (TendedPl(s, t)[s'.current].state == IDL ==> NoneReady(TendedPl(s, t)))
    && s'.plist == SwitchPl(TendedPl(s, t), s.current, s'.current)
  }

  const WORD := 0x1_0000_0000
  const FOR_EVER := 0xFFFF_FFFF     // (uint32_t) -1
  const RATE_TIMER_TICK := 1000

  // The date of a sleep of ms milliseconds, in 32-bit words that wrap around.
  function WakeDate(now: nat, ms: nat): nat { (now + ms * 1000 % WORD / RATE_TIMER_TICK) % WORD }

  // A sleep takes its milliseconds in ticks, of which there are a thousand in a second, exactly when the product
  // with 1000 fits a word; a longer one ends too early.
  lemma DateExact(now: nat, ms: nat)
    requires ms < WORD
    ensures WakeDate(now, ms) == (now + ms) % WORD <==> ms * 1000 < WORD
    ensures ms * 1000 < WORD && now + ms < WORD ==> WakeDate(now, ms) == now + ms
  {
    var q := ms * 1000 % WORD / RATE_TIMER_TICK;
    if ms * 1000 < WORD {
      assert ms * 1000 / 1000 == ms;
    } else {
      assert q < ms;
      ApartModulo(now + q, ms - q, WORD);
    }
  }

  lemma ApartModulo(a: nat, d: nat, m: nat)
    requires 0 < d < m
    ensures a % m != (a + d) % m
  {
    assert a == m * (a / m) + a % m && a + d == m * ((a + d) / m) + (a + d) % m;
    if a % m == (a + d) % m {
      NoMultiple((a + d) / m - a / m, d, m);
    }
  }

  lemma NoMultiple(k: int, d: nat, m: nat)
    requires 0 < d < m
    ensures m * k != d
  {
    if k >= 1 { assert m * k >= m; }
  }

  function Asleep(p: Proc, now: nat, ms: nat): Proc {
    p.(state := SLP, sleepTo := if ms == FOR_EVER then 0 else WakeDate(now, ms))
  }

  // A process put to sleep keeps all but its state and its date.
  lemma AsleepUntil(p: Proc, now: nat, ms: nat)
    requires ms < WORD
    ensures var q := Asleep(p, now, ms);
            && q.state == SLP && q.(state := p.state, sleepTo := p.sleepTo) == p
            && (q.sleepTo == 0 <==> ms == FOR_EVER || WakeDate(now, ms) == 0)
            && (ms != FOR_EVER && ms * 1000 < WORD ==> q.sleepTo == (now + ms) % WORD)
  {
    DateExact(now, ms);
  }

  // What process_sleep leaves of process p before it reschedules: with any date but for ever, the process is
  // put on the list of sleepers.
  ghost function PutToSleepState(s: St, p: nat, now: nat, ms: nat): St
    requires p < |s.plist|
  {
    s.(plist := s.plist[p := Asleep(s.plist[p], now, ms)],
       tsleep := if ms == FOR_EVER then s.tsleep else s.tsleep + [p])
  }

  // The list of sleepers stays right exactly when the date does not wrap around to 0, which stands for no date.
  lemma DateLost(s: St, p: nat, now: nat, ms: nat)
    requires NoDup(s.tsleep) && p < |s.plist| && p !in s.tsleep && ms != 0
    requires forall x: nat :: x in s.tsleep <==>
               x < |s.plist| && x != p && s.plist[x].state == SLP && s.plist[x].sleepTo != 0
    ensures TsleepOk(PutToSleepState(s, p, now, ms)) <==> ms == FOR_EVER || WakeDate(now, ms) != 0
  {
    var s' := PutToSleepState(s, p, now, ms);
    assert ms != FOR_EVER ==> s'.tsleep[|s.tsleep|] == p && p in s'.tsleep;
    forall x: nat ensures x in s'.tsleep <==> x in s.tsleep || (x == p && ms != FOR_EVER) {}
  }

  // For example on the last tick before the timer wraps, by one millisecond.
  lemma DateLostInput()
    ensures WakeDate(0xFFFF_FFFF, 1) == 0
  {
  }

  // The current process sleeps without a date and waits.
  ghost function Blocked(s: St, waitPid: int): St
    requires s.current < |s.plist|
  {
    s.(plist := s.plist[s.current := s.plist[s.current].(state := SLP, waitPid := waitPid, sleepTo := 0)])
  }

  function Awoken(p: Proc): Proc { p.(state := INQ, sleepTo := 0, waitPid := 0) }

  // What was taken from a process before it began to wait is forgotten.
  function Fresh(g: Given, pid: nat): Given { g.(parents := g.parents - {pid}) }

  // A handover wakeup up to its schedule: the process in slot p is woken, the current one waits for it.
  ghost function HandedOver(s: St, p: nat): St
    requires p < |s.plist| && s.current < |s.plist|
  {
    Blocked(s.(plist := s.plist[p := Awoken(s.plist[p])]), s.plist[p].pid)
  }

  lemma ScheduledFrom(s: St, u: St, s': St, t: nat)
    requires Scheduled(s, s', t) && u.plist == s.plist && u.current == s.current && u.needClean == s.needClean
    ensures Scheduled(u, s', t)
  {
  }

  // The kernel runs, the idle process stands by, and all other slots are free.
  ghost predicate Initial(s: St) {
    && |s.plist| == PROCESS_MAX && s.plist[0] == Proc(0, 0, RUN, 0, 0, true)
      && s.plist[1] == Proc(1, 0, IDL, 0, 0, true)
    && (forall i :: 2 <= i < PROCESS_MAX ==> s.plist[i] == Proc(0, 0, FRE, 0, 0, false))
    && s.current == 0 && s.pidCount == 1 && s.tsleep == [] && s.interact == 0 && s.queue == [0]
    && s.given == Given({}, {})
  }

  lemma InitialLists(s: St)
    requires Initial(s)
    ensures Structure(s) && InteractOk(s)
  {
    assert forall x: nat :: x in s.queue <==> x == 0;
  }

  lemma InitialFamily(s: St)
    requires Initial(s)
    ensures FamilyOk(s)
  {
    assert AlivePid(s.plist, 0) by { assert Alive(s.plist[0]) && s.plist[0].pid == 0; }
  }

  lemma NobodyDue(s: St, t: nat)
    requires Structure(s) && InteractOk(s) && (s.interact == 0 || s.interact > t)
    ensures AwakePl(s.plist, t) == s.plist
  {
  }

  // A sleeper that is not due sleeps on unchanged.
  lemma SleeperStays(s: St, s': St, t: nat, p: nat)
    requires Scheduled(s, s', t) && p < |s.plist| && s.plist[p].state == SLP
    requires s.plist[p].sleepTo == 0 || s.plist[p].sleepTo > t
    ensures p < |s'.plist| && s'.plist[p] == s.plist[p]
  {
  }

  ghost predicate WokenFrom(p: Proc, q: Proc, ticks: nat) {
    p.state == SLP && p.sleepTo != 0 && p.sleepTo <= ticks && q == p.(state := INQ)
  }

  ghost predicate PartlyAwakened(pl0: seq<Proc>, pl: seq<Proc>, ticks: nat) {
    |pl| == |pl0| && forall j :: 0 <= j < |pl| ==> pl[j] == pl0[j] || WokenFrom(pl0[j], pl[j], ticks)
  }

  lemma PartlyStart(pl: seq<Proc>, ticks: nat)
    ensures PartlyAwakened(pl, pl, ticks)
  {
  }

  lemma PartlyStep(pl0: seq<Proc>, pl: seq<Proc>, pl': seq<Proc>, p: nat, ticks: nat)
    requires PartlyAwakened(pl0, pl, ticks) && p < |pl| && WokenFrom(pl[p], pl[p].(state := INQ), ticks)
    requires pl' == pl[p := pl[p].(state := INQ)]
    ensures PartlyAwakened(pl0, pl', ticks)
  {
  }

  lemma PartlyEnd(s: St, s': St, ticks: nat)
    requires PartlyAwakened(s.plist, s'.plist, ticks)
    requires forall i :: 0 <= i < |s'.plist| && s'.plist[i].state == SLP && s'.plist[i].sleepTo != 0 ==>
               s'.plist[i].sleepTo > ticks
    ensures s'.plist == AwakePl(s.plist, ticks)
  {
  }

  lemma AllInList(l: seq<nat>)
    ensures forall k :: 0 <= k < |l| ==> l[k] in l
  {
  }

  ghost predicate ChildOf(pl: seq<Proc>, pid: nat, parent: nat) {
    forall k :: 0 <= k < |pl| && Alive(pl[k]) && pl[k].pid == pid ==> pl[k].ppid == parent
  }

  // Slot i holds a zombie child of slot c's process.
  ghost predicate DeadChild(pl: seq<Proc>, c: nat, i: nat) {
    i < |pl| && c < |pl| && pl[i].state == ZMB && pl[i].ppid == pl[c].pid
  }

  class Manager {
    var plist: seq<Proc>
    var current: nat
    var pidCount: nat
    var tsleep: seq<nat>
    var interact: nat
    var queue: seq<nat>
    var needClean: bool
    ghost var given: Given
    var queueIndex: nat
    var lastSwitch: nat

    ghost function View(): St
      reads this
    {
      St(plist, current, pidCount, tsleep, interact, queue, needClean, given)
    }

    ghost predicate Valid()
      reads this
    {
      Inv(View()) && Ready(View())
    }

    // process_init: the kernel runs, the idle process stands by.
    constructor ()
      ensures Valid() && Initial(View())
    {
      hide Structure, InteractOk, FamilyOk;
      var kernel := Proc(0, 0, RUN, 0, 0, true);
      var idle := Proc(1, 0, IDL, 0, 0, true);
      plist := [kernel, idle] + seq(PROCESS_MAX - 2, _ => Proc(0, 0, FRE, 0, 0, false));
      current, pidCount, tsleep, interact, queue := 0, 1, [], 0, [0];
      needClean, queueIndex, lastSwitch := false, 0, 0;
      given := Given({}, {});
      new;
      InitialLists(View());
      InitialFamily(View());
    }

    // -------------------------------------------------------------- small helpers

    method PidToPlace(pid: nat) returns (place: int)
      requires |plist| == PROCESS_MAX
      ensures place < 0 ==> forall i :: 0 <= i < |plist| && plist[i].state != FRE ==> plist[i].pid != pid
      ensures place >= 0 ==> place < |plist| && plist[place].pid == pid && plist[place].state != FRE
    {
      var ideal := pid % PROCESS_MAX;
      var i := PROCESS_MAX + ideal;
      while i > ideal
        invariant ideal <= i <= PROCESS_MAX + ideal
        invariant forall k :: i < k <= PROCESS_MAX + ideal ==>
                    !(plist[k % PROCESS_MAX].pid == pid && plist[k % PROCESS_MAX].state != FRE)
      {
        if plist[i % PROCESS_MAX].pid == pid && plist[i % PROCESS_MAX].state != FRE {
          return i % PROCESS_MAX;
        }
        i := i - 1;
      }
      forall p | 0 <= p < |plist| && plist[p].state != FRE ensures plist[p].pid != pid {
        var k := if p <= ideal then p + PROCESS_MAX else p;
        assert k % PROCESS_MAX == p;
      }
      return -1;
    }

    method GetFreePlace(pid: nat) returns (place: int)
      requires |plist| == PROCESS_MAX
      ensures place < 0 ==> forall i :: 0 <= i < |plist| ==> plist[i].state != FRE
      ensures place >= 0 ==> place < |plist| && plist[place].state == FRE
      ensures place >= -1 && (|plist| > 0 && plist[pid % PROCESS_MAX].state == FRE ==> place == pid % PROCESS_MAX)
    {
      var ideal := pid % PROCESS_MAX;
      var i := PROCESS_MAX + ideal;
      while i > ideal
        invariant ideal <= i <= PROCESS_MAX + ideal
        invariant forall k :: i < k <= PROCESS_MAX + ideal ==> plist[k % PROCESS_MAX].state != FRE
        invariant i < PROCESS_MAX + ideal ==> plist[ideal].state != FRE
      {
        assert (PROCESS_MAX + ideal) % PROCESS_MAX == ideal;
        if plist[i % PROCESS_MAX].state == FRE {
          return i % PROCESS_MAX;
        }
        i := i - 1;
      }
      forall p | 0 <= p < |plist| ensures plist[p].state != FRE {
        var k := if p <= ideal then p + PROCESS_MAX else p;
        assert k % PROCESS_MAX == p;
      }
      return -1;
    }

    // A full queue, or a process already in it, would be fatal.
    method AddToQueue(p: nat)
      requires |queue| < PROCESS_MAX && p !in queue
      modifies this
      ensures View() == old(View()).(queue := old(queue) + [p])
      ensures queueIndex == old(queueIndex) && lastSwitch == old(lastSwitch) && given == old(given)
    {
      queue := queue + [p];
    }

    method RemoveFromQueue(p: nat)
      requires NoDup(queue)
      modifies this
      ensures View() == old(View()).(queue := queue)
      ensures Minus(queue, old(queue), p)
      ensures queueIndex == old(queueIndex) && lastSwitch == old(lastSwitch) && given == old(given)
    {
      var i := 0;
      while i < |queue|
        invariant 0 <= i <= |queue| && p !in queue[..i] && queue == old(queue)
      {
        if queue[i] == p {
          SwapRemoveOk(queue, i);
          queue := SwapRemove(queue, i);
          return;
        }
        i := i + 1;
      }
    }

    method RefreshInteract()
      requires forall k :: 0 <= k < |tsleep| ==> tsleep[k] < |plist| && plist[tsleep[k]].sleepTo != 0
      modifies this
      ensures View() == old(View()).(interact := interact) && InteractOk(View())
      ensures queueIndex == old(queueIndex) && lastSwitch == old(lastSwitch) && given == old(given)
    {
      interact := 0;
      var i := 0;
      while i < |tsleep|
        invariant 0 <= i <= |tsleep|
        invariant View() == old(View()).(interact := interact)
        invariant queueIndex == old(queueIndex) && lastSwitch == old(lastSwitch) && given == old(given)
        invariant interact == 0 <==> i == 0
        invariant i > 0 ==> exists k :: 0 <= k < i && plist[tsleep[k]].sleepTo == interact
        invariant forall k :: 0 <= k < i ==> interact <= plist[tsleep[k]].sleepTo
      {
        if plist[tsleep[i]].sleepTo < interact || interact == 0 {
          interact := plist[tsleep[i]].sleepTo;
        }
        i := i + 1;
      }
    }

    // i_remove_from_g_tsleep_list, for the process in slot p.
    method RemoveFromTsleep(pid: nat, ghost p: nat)
      requires Structure(View()) && p < |plist| && plist[p].state != FRE && plist[p].pid == pid
      modifies this
      ensures View() == old(View()).(tsleep := tsleep, interact := interact)
      ensures Minus(tsleep, old(tsleep), p) && InteractOk(View())
      ensures queueIndex == old(queueIndex) && lastSwitch == old(lastSwitch) && given == old(given)
    {
      hide Structure, InteractOk;
      SleepersKnown(View());
      var i := 0;
      while i < |tsleep|
        invariant 0 <= i <= |tsleep|
        invariant View() == old(View()).(tsleep := tsleep)
        invariant queueIndex == old(queueIndex) && lastSwitch == old(lastSwitch) && given == old(given)
        invariant NoDup(tsleep) && forall x: nat :: x in tsleep ==> x in old(tsleep)
        invariant forall x: nat :: x in old(tsleep) && x != p ==> x in tsleep
        invariant forall k :: 0 <= k < i ==> tsleep[k] != p
        decreases |tsleep| - i
      {
        assert tsleep[i] in old(tsleep);
        if plist[tsleep[i]].pid == pid {
          SwapRemoveOk(tsleep, i);
          tsleep := SwapRemove(tsleep, i);
          i := i - 1;
        }
        i := i + 1;
      }
      forall k | 0 <= k < |tsleep| ensures tsleep[k] < |plist| && plist[tsleep[k]].sleepTo != 0 {
        assert tsleep[k] in old(tsleep);
      }
      RefreshInteract();
    }

    // One sleeper of the list is woken: entry i is overwritten by the last one.
    method AwakeAt(i: nat)
      requires Structure(View()) && FamilyOk(View()) && i < |tsleep|
      modifies this
      ensures Structure(View()) && FamilyOk(View())
      ensures old(tsleep[i]) < |old(plist)| && old(plist[tsleep[i]]).state == SLP && old(plist[tsleep[i]]).sleepTo != 0
      ensures View() == old(View()).(plist := old(plist)[old(tsleep[i]) := old(plist[tsleep[i]]).(state := INQ)],
                                     queue := old(queue) + [old(tsleep[i])], tsleep := SwapRemove(old(tsleep), i))
      ensures forall k :: 0 <= k < i ==> k < |tsleep| && tsleep[k] == old(tsleep)[k] != old(tsleep)[i]
      ensures queueIndex == old(queueIndex) && lastSwitch == old(lastSwitch) && given == old(given)
    {
      hide Structure, FamilyOk;
      ghost var s := View();
      SleepersKnown(s);
      var p := tsleep[i];
      assert p in tsleep;
      // a process of the list that does not sleep would be fatal
      QueueRoom(s, p);
      SwapRemoveOk(tsleep, i);
      plist := plist[p := plist[p].(state := INQ)];
      AddToQueue(p);
      tsleep := SwapRemove(tsleep, i);
      WakeKeeps(s, View(), p, s.plist[p].waitPid, s.plist[p].sleepTo);
      FamilyKeeps(s, View());
    }

    // i_tsleep_awake: wake everybody whose date has passed; the entry moved into a hole is
    // looked at again, so none is skipped.
    method TsleepAwake(ticks: nat)
      requires Inv(View())
      modifies this
      ensures Inv(View())
      ensures plist == AwakePl(old(plist), ticks)
      ensures interact == 0 || interact > ticks
      ensures current == old(current) && pidCount == old(pidCount) && needClean == old(needClean)
      ensures queueIndex == old(queueIndex) && lastSwitch == old(lastSwitch) && given == old(given)
    {
      hide Structure, InteractOk, FamilyOk, PartlyAwakened;
      ghost var pl0 := plist;
      PartlyStart(pl0, ticks);
      SleepersKnown(View());
      var i := 0;
      while i < |tsleep|
        invariant 0 <= i <= |tsleep|
        invariant Structure(View()) && FamilyOk(View())
        invariant current == old(current) && pidCount == old(pidCount) && needClean == old(needClean)
        invariant queueIndex == old(queueIndex) && lastSwitch == old(lastSwitch) && given == old(given)
        invariant PartlyAwakened(pl0, plist, ticks)
        invariant forall k :: 0 <= k < |tsleep| ==> tsleep[k] < |plist|
        invariant forall k :: 0 <= k < i ==> plist[tsleep[k]].sleepTo > ticks
        decreases |tsleep| - i
      {
        if plist[tsleep[i]].sleepTo > ticks {
          i := i + 1;
          continue;
        }
        ghost var pl := plist;
        ghost var p := tsleep[i];
        AwakeAt(i);
        PartlyStep(pl0, pl, plist, p, ticks);
        AllInList(tsleep);
      }
      RefreshAfter();
      InteractAhead(View(), ticks);
      NobodyOverslept(View(), ticks);
      PartlyEnd(old(View()), View(), ticks);
    }

    // i_refresh_tsleep_interact, from a state whose list is sound
    method RefreshAfter()
      requires Structure(View()) && FamilyOk(View())
      modifies this
      ensures View() == old(View()).(interact := interact)
      ensures Structure(View()) && FamilyOk(View()) && InteractOk(View())
      ensures queueIndex == old(queueIndex) && lastSwitch == old(lastSwitch) && given == old(given)
    {
      hide Structure, FamilyOk, InteractOk;
      SleepersKnown(View());
      assert forall k :: 0 <= k < |tsleep| ==> tsleep[k] in tsleep;
      ghost var s := View();
      RefreshInteract();
      InteractIrrelevant(s, View());
    }

    // i_free_process
    method FreeProcess(p: nat)
      requires Structure(View()) && p < |plist| && plist[p].state == ZMB
      modifies this
      ensures View() == old(View()).(plist := old(plist)[p := if old(plist[p]).hasDir then CleanedProc(old(plist), p)
                                                         else old(plist[p])])
      ensures queueIndex == old(queueIndex) && lastSwitch == old(lastSwitch) && given == old(given)
    {
      hide PidsOk, QueueOk, TsleepOk, RunOk, AlivePid, InteractOk;
      if !plist[p].hasDir {
        return;
      }
      plist := plist[p := plist[p].(hasDir := false)];
      var parent := PidToPlace(plist[p].ppid);
      ParentLookup(old(View()), p, plist, parent);
      if parent < 0 || plist[parent].state == ZMB || plist[parent].pid == 0 {
        plist := plist[p := plist[p].(state := FRE)];
      }
    }

    // i_clean_killed: every zombie but the current process gives up its memory.
    method CleanKilled()
      requires Inv(View())
      modifies this
      ensures Inv(View()) && plist == CleanPl(old(plist), current)
      ensures View() == old(View()).(plist := plist, needClean := needClean)
      ensures queueIndex == old(queueIndex) && lastSwitch == old(lastSwitch) && given == old(given)
    {
      hide Structure, InteractOk, FamilyOk, CleanedUpTo, CleanedProc;
      ghost var s0 := View();
      ShapeOf(s0);
      CleanedStart(s0);
      needClean := false;
      var i := 0;
      while i < PROCESS_MAX
        invariant 0 <= i <= PROCESS_MAX
        invariant View() == s0.(plist := plist, needClean := needClean)
        invariant CleanedUpTo(s0, plist, needClean, i)
        invariant queueIndex == old(queueIndex) && lastSwitch == old(lastSwitch) && given == old(given)
      {
        CleanedParts(s0, View(), i);
        if plist[i].state == ZMB && plist[i].hasDir {
          if plist[i].pid != plist[current].pid {
            ghost var s := View();
            FreeProcess(i);
            CleanedStep(s0, s.plist, plist, needClean, i);
          } else {
            CleanedSkip(s0, plist, needClean, true, i);
            needClean := true;
          }
        } else {
          CleanedSkip(s0, plist, needClean, needClean, i);
        }
        i := i + 1;
      }
      CleanedEnd(s0, View());
    }

    // schedule, called with ticks == 0 for the current date `now`, or from the timer.
    method Schedule(ticks: nat, now: nat)
      requires Inv(View()) && (ticks != 0 ==> Ready(View()))
      modifies this
      ensures Valid()
      ensures ticks != 0 && ticks - old(lastSwitch) < SCHEDULER_EVRY
              && (old(plist[current].state) != IDL || old(interact) > ticks) ==>
                View() == old(View())
      ensures !(ticks != 0 && ticks - old(lastSwitch) < SCHEDULER_EVRY
                && (old(plist[current].state) != IDL || old(interact) > ticks)) ==>
                var t := if ticks == 0 then now else ticks;
                (forall i :: 0 <= i < |plist| && plist[i].state == SLP && plist[i].sleepTo != 0 ==>
                   plist[i].sleepTo > t)
                && Scheduled(old(View()), View(), t) && lastSwitch == t
                && queueIndex == (if old(queueIndex) + 1 >= |queue| then 0 else old(queueIndex) + 1)
                && current == (if queue == [] then 1 else queue[queueIndex])
      ensures Rescheduled(old(View()), View())
    {
      hide Structure, InteractOk, FamilyOk, Rescheduled, TendedPl;
      ghost var s0 := View();
      RescheduledSame(s0);
      ShapeOf(s0);
      var t := ticks;
      if ticks == 0 {
        t := now;
      } else if ticks - lastSwitch < SCHEDULER_EVRY && (plist[current].state != IDL || interact > ticks) {
        return;
      }
      WakeAndClean(t);
      ghost var s1 := View();
      var next := PickNext();
      lastSwitch := t;
      NobodyOverslept(s1, t);
      if next == current {
        return;
      }
      Switch(next);
      RescheduledTrans(s0, s1, View());
    }

    // The sleepers and the killed are seen to before anyone is chosen.
    method WakeAndClean(t: nat)
      requires Inv(View())
      modifies this
      ensures Inv(View()) && Rescheduled(old(View()), View()) && (interact == 0 || interact > t)
      ensures plist == TendedPl(old(View()), t)
      ensures current == old(current) && queueIndex == old(queueIndex) && lastSwitch == old(lastSwitch)
    {
      hide Structure, InteractOk, FamilyOk, Rescheduled, AwakePl, CleanPl;
      ghost var s0 := View();
      RescheduledSame(s0);
      if interact != 0 && interact <= t {
        TsleepAwake(t);
        AwakenedReschedules(s0, View(), t);
      } else {
        NobodyDue(s0, t);
      }
      ghost var s1 := View();
      if needClean {
        CleanKilled();
        CleanedReschedules(s1, View());
        RescheduledTrans(s0, s1, View());
      }
    }

    // Round robin over the queue; the idle process when it is empty.
    method PickNext() returns (next: nat)
      requires Structure(View())
      modifies this`queueIndex
      ensures next < |plist| && plist[next].state in {INQ, RUN, IDL} && (plist[next].state == IDL ==> NoneReady(plist))
      ensures queueIndex == if old(queueIndex) + 1 >= |queue| then 0 else old(queueIndex) + 1
      ensures next == if queue == [] then 1 else queue[queueIndex]
    {
      hide Structure;
      QueueMembers(View());
      queueIndex := queueIndex + 1;
      if queueIndex >= |queue| {
        queueIndex := 0;
      }
      if |queue| == 0 {
        next := 1; // idle process
      } else {
        next := queue[queueIndex];
      }
    }

    // i_process_switch
    method Switch(next: nat)
      requires Inv(View()) && next < |plist| && next != current && plist[next].state in {INQ, RUN, IDL}
      modifies this
      ensures Valid() && current == next && interact == old(interact) && queue == old(queue)
      ensures Rescheduled(old(View()), View()) && plist == SwitchPl(old(plist), old(current), next)
      ensures queueIndex == old(queueIndex) && lastSwitch == old(lastSwitch) && given == old(given)
    {
      hide InteractOk, FamilyOk, Structure, Rescheduled, StatesOnly;
      ghost var s := View();
      OneRuns(s, next);
      if plist[current].state == RUN {
        plist := plist[current := plist[current].(state := INQ)];
        DemoteKeeps(s, View());
      }
      ghost var s1 := View();
      if plist[next].state != IDL {
        plist := plist[next := plist[next].(state := RUN)];
      }
      current := next;
      PromoteKeeps(s1, View(), next);
      SwitchStates(s, View(), next);
      FamilyKeepsStates(s, View());
      InteractKeeps(s, View());
      StatesReschedule(s, View());
    }

    // process_create_func (with memory and registers left aside)
    method Create() returns (ret: int)
      requires Valid()
      modifies this
      ensures Valid()
      ensures ret == -1 <==> forall i :: 0 <= i < PROCESS_MAX ==> old(plist[i].state) != FRE
      ensures ret == -1 ==> View() == old(View())
      ensures ret != -1 ==>
                && ret == old(pidCount) + 1 == pidCount && current == old(current)
                && exists p :: 0 <= p < PROCESS_MAX && old(plist[p].state) == FRE
                     && (old(plist[ret % PROCESS_MAX].state) == FRE ==> p == ret % PROCESS_MAX)
                     && plist == old(plist)[p := Proc(ret, old(plist[current].pid), SLP, 0, 0, true)]
    {
      hide Structure, InteractOk, FamilyOk, AlivePid;
      ghost var s := View();
      ShapeOf(s);
      var place := GetFreePlace(pidCount + 1);
      if place == -1 {
        return -1;
      }
      CurrentIsKnown(s);
      SlotsOfList(s);
      pidCount := pidCount + 1;
      plist := plist[place := Proc(pidCount, plist[current].pid, SLP, 0, 0, true)];
      CreateKeeps(s, View(), place, s.plist[current].pid);
      FamilyAfterCreate(s, View(), place, s.plist[current].pid);
      InteractKeeps(s, View());
      return pidCount;
    }

    // process_info with PROC_INFO_SET_PPID and 0: the process becomes a child of the kernel.
    method Reparent(pid: nat) returns (ret: int)
      requires Valid()
      modifies this`plist, this`given
      ensures Valid()
      ensures ret == -1 ==> View() == old(View())
      ensures ret == -1 <==> forall i :: 0 <= i < |plist| ==> !(old(plist[i]).state != FRE && old(plist[i]).pid == pid)
      ensures ret != -1 ==>
              ret == 0 && exists p :: 0 <= p < |old(plist)| && old(At(pid, p)) && View() == Reparented(old(View()), p)
    {
      hide Structure, InteractOk, FamilyOk;
      ghost var s := View();
      ShapeOf(s);
      var place := PidToPlace(pid);
      if place < 0 {
        return -1;
      }
      ReparentKeeps(s, place);
      InteractKeeps(s, Reparented(s, place));
      given := Reparented(s, place).given;
      plist := plist[place := plist[place].(ppid := 0)];
      return 0;
    }

    // What process_sleep, process_wakeup and process_kill refuse.
    ghost predicate Refused(pid: nat)
      reads this
    {
      forall i :: 0 <= i < |plist| && plist[i].pid == pid ==> plist[i].state in {FRE, ZMB, IDL}
    }

    ghost predicate At(pid: nat, p: nat)
      reads this
    {
      p < |plist| && plist[p].state != FRE && plist[p].pid == pid
    }

    // process_sleep; `now` is the timer, ms == 0xFFFFFFFF means for ever
    method Sleep(pid: nat, ms: nat, now: nat) returns (ret: int)
      requires Valid() && ms < WORD && now < WORD
      requires ms == 0 || ms == FOR_EVER || WakeDate(now, ms) != 0
      modifies this
      ensures Valid()
      ensures pidCount == old(pidCount) && given == old(given)
      ensures ret == if old(Refused(pid)) then -1 else 0
      ensures ret == -1 ==> View() == old(View())
      ensures ret == 0 && pid != old(plist[current].pid) && ms == 0 ==> View() == old(View())
      ensures ret == 0 && pid != old(plist[current].pid) && ms != 0 ==>
                forall p :: 0 <= p < PROCESS_MAX ==>
                  plist[p] == if old(At(pid, p)) then Asleep(old(plist[p]), now, ms) else old(plist[p])
      ensures ret == 0 && pid == old(plist[current].pid) ==>
                forall i :: 0 <= i < |plist| && plist[i].state == SLP && plist[i].sleepTo != 0 ==>
                  plist[i].sleepTo > now
      ensures ret == 0 && pid == old(plist[current].pid) && ms != 0 ==>
                var asleep := Asleep(old(plist[current]), now, ms);
                && Scheduled(old(View()).(plist := old(plist)[old(current) := asleep]), View(), now)
                && (asleep.sleepTo == 0 || asleep.sleepTo > now ==> plist[old(current)] == asleep)
      ensures ret == 0 && pid == old(plist[current].pid) && ms == 0 ==> Scheduled(old(View()), View(), now)
    {
      hide Structure, InteractOk, FamilyOk, AlivePid, Scheduled, WakeDate;
      ghost var s := View();
      ShapeOf(s);
      var place := PidToPlace(pid);
      if place < 0 {
        return -1;
      }
      OnlySlot(s, place);
      if plist[place].state == IDL {
        return -1;
      }
      if plist[place].state == ZMB {
        return -1;
      }
      if ms == 0 {
        if pid == plist[current].pid {
          Schedule(0, now);
        }
        return 0;
      }
      PutToSleep(place, if ms == FOR_EVER then 0 else WakeDate(now, ms));
      FamilyKeeps(s, View());
      if pid == plist[current].pid {
        ghost var asleep := View();
        Schedule(0, now);
        if asleep.plist[place].sleepTo == 0 || asleep.plist[place].sleepTo > now {
          SleeperStays(asleep, View(), now, place);
        }
        ScheduledFrom(asleep, s.(plist := asleep.plist), View(), now);
      }
      return 0;
    }

    // The middle of process_sleep: a date of 0 means for ever.
    method PutToSleep(p: nat, date: nat)
      requires Structure(View()) && InteractOk(View()) && p < |plist| && plist[p].state in {SLP, INQ, RUN}
      modifies this
      ensures Structure(View()) && InteractOk(View())
      ensures View() == old(View()).(plist := old(plist)[p := old(plist[p]).(state := SLP, sleepTo := date)],
                                     tsleep := tsleep, interact := interact, queue := queue)
      ensures SameFamily(old(plist), plist) && plist[p].waitPid == old(plist[p].waitPid)
      ensures queueIndex == old(queueIndex) && lastSwitch == old(lastSwitch) && given == old(given)
    {
      hide Structure, InteractOk, Minus, SameFamily;
      ghost var s := View();
      ListsKnown(s);
      LeaveTsleep(p);
      MinusParts(s, tsleep, p);
      ListRoom(s, tsleep, p);
      SetDate(p, date);
      ghost var u := View();
      RemoveFromQueue(p);
      InteractKeeps(u, View());
      SleepKeeps(s, View(), p, s.plist[p].waitPid, date);
    }

    // The process in slot p, if it sleeps with a date, is taken off the list of sleepers.
    method LeaveTsleep(p: nat)
      requires Structure(View()) && InteractOk(View()) && p < |plist| && plist[p].state != FRE
      modifies this
      ensures View() == old(View()).(tsleep := tsleep, interact := interact)
      ensures Minus(tsleep, old(tsleep), p) && InteractOk(View())
      ensures queueIndex == old(queueIndex) && lastSwitch == old(lastSwitch) && given == old(given)
    {
      hide Structure, InteractOk, Minus;
      if plist[p].state == SLP && plist[p].sleepTo != 0 {
        RemoveFromTsleep(plist[p].pid, p);
      } else {
        NotListed(View(), p);
      }
    }

    // The slot is marked asleep and, with a date, listed.
    method SetDate(p: nat, date: nat)
      requires InteractOk(View()) && p < |plist| && p !in tsleep && NoDup(tsleep) && Alive(plist[p])
               && |tsleep| < PROCESS_MAX
      requires forall k :: 0 <= k < |tsleep| ==> tsleep[k] < |plist| && plist[tsleep[k]].sleepTo != 0 && tsleep[k] != p
      modifies this
      ensures View() == old(View()).(plist := old(plist)[p := old(plist[p]).(state := SLP, sleepTo := date)],
                                     tsleep := tsleep, interact := interact)
      ensures tsleep == if date != 0 then old(tsleep) + [p] else old(tsleep)
      ensures NoDup(tsleep) && forall x: nat :: x in tsleep <==> x in old(tsleep) || (x == p && date != 0)
      ensures InteractOk(View()) && SameFamily(old(plist), plist)
      ensures queueIndex == old(queueIndex) && lastSwitch == old(lastSwitch) && given == old(given)
    {
      hide InteractOk, SameFamily;
      ghost var t := View();
      plist := plist[p := plist[p].(state := SLP, sleepTo := date)];
      SameFamilyUpdate(t.plist, p, plist[p]);
      if date != 0 {
        AppendNoDup(tsleep, p);
        tsleep := tsleep + [p];
        RefreshInteract();
      } else {
        InteractKeeps(t, View());
      }
    }

    // process_wakeup without handover
    method WakeupQuiet(pid: nat) returns (ret: int, ghost p: nat)
      requires Structure(View()) && InteractOk(View())
      modifies this
      ensures Structure(View()) && InteractOk(View())
      ensures ret == if exists q :: 0 <= q < |old(plist)| && old(plist)[q].state == SLP && old(plist)[q].pid == pid
                          then 0 else -1
      ensures ret == -1 ==> View() == old(View())
      ensures ret == 0 ==>
                && p < |old(plist)| && old(plist[p]).state == SLP && old(plist[p]).pid == pid
                && View() == old(View()).(plist := old(plist)[p := Awoken(old(plist[p]))],
                                          queue := old(queue) + [p], tsleep := tsleep, interact := interact)
                && SameFamily(old(plist), plist)
      ensures queueIndex == old(queueIndex) && lastSwitch == old(lastSwitch) && given == old(given)
    {
      hide Structure, InteractOk, Minus, SameFamily;
      p := 0;
      ghost var s := View();
      ShapeOf(s);
      var place := PidToPlace(pid);
      if place < 0 {
        return -1, p;
      }
      OnlySlot(s, place);
      if plist[place].state == IDL {
        return -1, p;
      }
      if plist[place].state == ZMB {
        return -1, p;
      }
      if plist[place].state != SLP {
        return -1, p;
      }
      p := place;
      LeaveTsleep(place);
      QueueRoom(s, place);
      MinusParts(s, tsleep, place);
      plist := plist[place := plist[place].(state := INQ, sleepTo := 0, waitPid := 0)];
      SameFamilyUpdate(s.plist, place, plist[place]);
      AddToQueue(place);
      WakeKeeps(s, View(), place, 0, 0);
      ghost var u := View();
      RefreshInteract();
      StructureInteract(u, View());
      return 0, p;
    }

    // process_wakeup; a process hands over to another by sleeping until that one dies
    method Wakeup(pid: nat, handover: bool, now: nat) returns (ret: int)
      requires Valid() && (handover ==> plist[current].state != IDL)
      modifies this
      ensures Valid()
      ensures pidCount == old(pidCount)
      ensures ret == if exists q :: 0 <= q < |old(plist)| && old(plist)[q].state == SLP && old(plist)[q].pid == pid
                          then 0 else -1
      ensures ret == -1 ==> View() == old(View())
      ensures ret == 0 ==> forall q :: 0 <= q < |plist| && old(At(pid, q)) ==>
                && plist[q].state in {INQ, RUN} && plist[q].sleepTo == 0 && plist[q].waitPid == 0
      ensures ret == 0 ==> forall q :: 0 <= q < |plist| ==>
                && plist[q].pid == old(plist[q]).pid && (Alive(plist[q]) <==> Alive(old(plist[q])))
                && (q == old(current) && handover ==> plist[q].waitPid == pid && plist[q].sleepTo == 0)
                && (!(q == old(current) && handover) && !old(At(pid, q)) ==> plist[q].waitPid == old(plist[q]).waitPid)
                && (!handover && !old(At(pid, q)) ==> plist[q] == old(plist[q]))
                && (q == old(current) && handover ==> plist[q].state == SLP)
      ensures !handover ==> current == old(current)
      ensures given == if ret == 0 && handover then Fresh(old(given), old(plist[current].pid)) else old(given)
      ensures ret == 0 ==>
                exists p :: 0 <= p < |old(plist)| && old(At(pid, p)) && old(plist)[p].state == SLP
                  && if handover then Scheduled(HandedOver(old(View()), p), View(), now)
                    else plist == old(plist)[p := Awoken(old(plist)[p])]
    {
      hide Structure, InteractOk, FamilyOk, SameFamily, Rescheduled, AlivePid, Scheduled;
      ghost var s := View();
      ghost var p;
      ret, p := WakeupQuiet(pid);
      if ret != 0 {
        return ret;
      }
      WokenKeepsFamily(s, View(), p);
      OnlySlot(s, p);
      ghost var t := View();
      QuietReady(t, p);
      if handover {
        Block(pid);
        ghost var v := View();
        Schedule(0, now);
        RescheduledParts(v, View());
        SleeperStays(v, View(), now, v.current);
        assert v.plist == HandedOver(s, p).plist;
        ScheduledFrom(v, HandedOver(s, p), View(), now);
      }
      return 0;
    }

    // The body of process_kill on slot `place`'s process, up to the final schedule. Only the
    // current process itself may be killed from inside its subtree.
    method KillTree(pid: nat, retcode: nat) returns (ret: int, ghost target: nat)
      requires Structure(View()) && InteractOk(View()) && CurrentSafe(View(), pid)
      modifies this
      ensures Structure(View()) && InteractOk(View())
      ensures ret == if pid == 0 || old(Refused(pid)) then -1 else 0
      ensures ret == -1 ==> View() == old(View())
      ensures ret == 0 ==>
                && target < |old(plist)| && old(plist[target]).pid == pid && Alive(old(plist[target]))
                && KillLoop(old(View()), View(), target, PROCESS_MAX, PROCESS_MAX)
                && plist[target] == Corpse(old(plist[target]), retcode)
                && Spared(old(plist), plist, target, PROCESS_MAX, PROCESS_MAX)
      ensures queueIndex == old(queueIndex) && lastSwitch == old(lastSwitch) && given == old(given)
      decreases |Living(plist)|, 0
    {
      hide Structure, InteractOk, FamilyOk, KillLoop, Living, CurrentSafe, Spared;
      target := 0;
      ghost var s0 := View();
      ShapeOf(s0);
      if pid == 0 {
        return -1, target;
      }
      var place := PidToPlace(pid);
      if place < 0 {
        return -1, target;
      }
      OnlySlot(s0, place);
      if plist[place].state == IDL {
        return -1, target;
      }
      if plist[place].state == ZMB {
        return -1, target;
      }
      target := place;
      KernelSlots(s0, place);
      MarkDead(place, retcode);
      var i := 0;
      while i < PROCESS_MAX
        invariant 0 <= i <= PROCESS_MAX && |plist| == PROCESS_MAX
        invariant Structure(View()) && InteractOk(View())
        invariant KillLoop(s0, View(), place, i, i) && Spared(s0.plist, plist, place, i, i)
        invariant plist[place] == Corpse(s0.plist[place], retcode)
        invariant |Living(plist)| < |Living(s0.plist)|
        invariant queueIndex == old(queueIndex) && lastSwitch == old(lastSwitch) && given == old(given)
      {
        if i == place {
          KillSelf(s0, View(), place);
          SparedSelf(s0.plist, plist, place);
          i := i + 1;
          continue;
        }
        ghost var s := View();
        WakeWaiter(s0, place, i);
        SameFamilyLiving(s.plist, plist);
        SeeChild(s0, place, i);
        i := i + 1;
        ShapeOf(View());
      }
      return 0, target;
    }

    // "kill children": what slot i holds, if it is a child of the dying process.
    method SeeChild(ghost s0: St, place: nat, i: nat)
      requires Structure(s0) && place < |s0.plist| == PROCESS_MAX && Alive(s0.plist[place])
               && CurrentSafe(s0, s0.plist[place].pid)
      requires Structure(View()) && InteractOk(View()) && |plist| == PROCESS_MAX && place < PROCESS_MAX
               && i < PROCESS_MAX && i != place
      requires KillLoop(s0, View(), place, i + 1, i) && Spared(s0.plist, plist, place, i + 1, i)
      requires s0.plist[place].pid > 1 && plist[place].state == ZMB
      requires plist[place].ppid < plist[place].pid == s0.plist[place].pid
      modifies this
      ensures Structure(View()) && InteractOk(View())
      ensures KillLoop(s0, View(), place, i + 1, i + 1) && Spared(s0.plist, plist, place, i + 1, i + 1)
      ensures |plist| == PROCESS_MAX && plist[place] == old(plist[place]) && |Living(plist)| <= |Living(old(plist))|
      ensures queueIndex == old(queueIndex) && lastSwitch == old(lastSwitch) && given == old(given)
      decreases |Living(plist)|, 1
    {
      hide Structure, InteractOk, FamilyOk, KillLoop, Living, CurrentSafe, Spared;
      ghost var t := View();
      if plist[i].ppid == plist[place].pid && plist[i].state != FRE {
        ChildCallOk(s0, t, place, i);
        if plist[i].state == ZMB {
          FreeChild(i);
          KillFreed(s0, t, View(), place, i);
          SparedFreedChild(s0, t, View(), place, i);
          FewerAlive(t.plist, plist);
        } else {
          ghost var child;
          var r;
          r, child := KillTree(plist[i].pid, 0);
          OnlySlot(t, i);
          PidsOf(s0);
          PidsOf(t);
          KillRecursed(s0, t, View(), place, i);
          SparedBelow(s0, t, View(), place, i);
          KillLiving(t, View(), i);
        }
      } else {
        KillSkip(s0, View(), place, i + 1, i);
        SparedNoChild(s0, View(), place, i);
      }
      ShapeOf(View());
    }

    // The target leaves the lists and becomes a zombie.
    method MarkDead(place: nat, retcode: nat)
      requires Structure(View()) && InteractOk(View()) && place < |plist| && plist[place].pid != 0
      requires Alive(plist[place]) && plist[place].state != IDL
      modifies this
      ensures Structure(View()) && InteractOk(View())
      ensures plist == old(plist)[place := Corpse(old(plist[place]), retcode)]
      ensures KillLoop(old(View()), View(), place, 0, 0) && |Living(plist)| < |Living(old(plist))|
      ensures Spared(old(plist), plist, place, 0, 0)
      ensures queueIndex == old(queueIndex) && lastSwitch == old(lastSwitch) && given == old(given)
    {
      hide Structure, InteractOk, Minus, KillLoop, Living, PidsOk, Spared;
      ghost var s0 := View();
      KernelSlots(s0, place);
      LeaveTsleep(place);
      ghost var t := View();
      MinusParts(s0, tsleep, place);
      ListsKnown(s0);
      plist := plist[place := Corpse(plist[place], retcode)];
      RemoveFromQueue(place);
      needClean := true;
      InteractKeeps(t, View());
      DieKeeps(s0, View(), place, retcode);
      PidsOf(s0);
      KillStart(s0, View(), place, retcode);
      SparedStart(s0.plist, plist, place, retcode);
      OneFewer(s0.plist, place, plist[place]);
    }

    // "wake up parent process that is waiting for this one", for slot i
    method WakeWaiter(ghost s0: St, place: nat, i: nat)
      requires Structure(View()) && InteractOk(View()) && i < PROCESS_MAX && place < |plist| == PROCESS_MAX
               && i != place
      requires KillLoop(s0, View(), place, i, i) && plist[place].pid > 1 && plist[place].state == ZMB
      requires Spared(s0.plist, plist, place, i, i) && Alive(s0.plist[place])
      modifies this
      ensures Structure(View()) && InteractOk(View())
      ensures KillLoop(s0, View(), place, i + 1, i) && Spared(s0.plist, plist, place, i + 1, i)
      ensures SameFamily(old(plist), plist) && plist[place] == old(plist[place])
      ensures queueIndex == old(queueIndex) && lastSwitch == old(lastSwitch) && given == old(given)
    {
      hide Structure, InteractOk, KillLoop, SameFamily, Spared;
      ghost var s := View();
      SameFamilySelf(plist);
      if plist[i].waitPid == plist[place].pid || (plist[i].waitPid == -1 && plist[i].pid == plist[place].ppid) {
        assert ToWake(s, place, i, i);
        WaiterAlive(s, i);
        plist := plist[i := plist[i].(waitPid := -(plist[place].pid as int))];
        WaitKeeps(s, View(), i, plist[i].waitPid);
        InteractKeeps(s, View());
        SameFamilyUpdate(s.plist, i, plist[i]);
        ghost var t := View();
        OnlySlot(t, i);
        var ret;
        ghost var p;
        ret, p := WakeupQuiet(plist[i].pid);
        SameFamilyTrans(s.plist, t.plist, plist);
      }
      ZombiesStay(s0, s, place, i);
      KillWoke(s0, s, View(), place, i);
      SparedNext(s0, s, View(), place, i);
    }

    // A zombie child of the dying process is freed on the spot.
    method FreeChild(i: nat)
      requires Structure(View()) && InteractOk(View()) && i < |plist| && plist[i].state == ZMB && i != current
      modifies this
      ensures Structure(View()) && InteractOk(View())
      ensures View() == old(View()).(plist := plist)
      ensures plist == old(plist)[i := old(plist[i]).(hasDir := false, state := FRE)]
      ensures queueIndex == old(queueIndex) && lastSwitch == old(lastSwitch) && given == old(given)
    {
      hide Structure, InteractOk, AlivePid;
      ghost var s := View();
      FreeProcess(i);
      plist := plist[i := plist[i].(state := FRE)];
      CleanKeeps(s, View(), i, plist[i]);
      InteractKeeps(s, View());
    }

    // process_kill. `killed` is the table before the processor is handed on.
    method Kill(pid: nat, retcode: nat, now: nat) returns (ret: int, ghost killed: seq<Proc>)
      requires Valid()
      requires Below(plist, current, pid) ==> plist[current].pid == pid
      modifies this
      ensures Valid()
      ensures pidCount == old(pidCount) && given == old(given)
      ensures ret == if pid == 0 || old(Refused(pid)) then -1 else 0
      ensures ret == -1 ==> View() == old(View())
      ensures ret == 0 ==> Killed(old(plist), killed, pid, retcode) && |killed| == PROCESS_MAX
      ensures ret == 0 && pid != old(plist[current].pid) ==> plist == killed && current == old(current)
      ensures ret == 0 && pid == old(plist[current].pid) ==>
                Scheduled(old(View()).(plist := killed, needClean := true), View(), now) && current != old(current)
      ensures ret == 0 ==> forall i: nat :: i < |plist| ==>
                (Alive(plist[i]) <==> Alive(old(plist[i])) && !Below(old(plist), i, pid))
      ensures ret == 0 ==> forall i: nat :: i < |plist| && old(At(pid, i)) ==>
                plist[i].sleepTo == retcode && (plist[i].ppid != 0 ==> plist[i].state == ZMB)
    {
      hide Structure, InteractOk, FamilyOk, KillLoop, Rescheduled, Scheduled, Below, CurrentSafe, Spared, Killed;
      ghost var s0 := View();
      ghost var target;
      killed := plist;
      ShapeOf(s0);
      SafeFromReady(s0, pid);
      ret, target := KillTree(pid, retcode);
      if ret != 0 {
        return;
      }
      killed := plist;
      ghost var s1 := View();
      OnlySlot(s0, target);
      KillDone(s0, s1, target);
      KilledTable(s0, s1, target, retcode);
      KillCurrent(s0, s1, target);
      if pid == plist[current].pid {
        OnlySlot(s0, current);
        Schedule(0, now);
        RescheduledParts(s1, View());
        ParentLives(s0, s1, target);
        ScheduledFrom(s1, s0.(plist := killed, needClean := true), View(), now);
      }
    }

    // The memory and the slot of a collected zombie child become free; nothing else changes.
    ghost predicate Collected(pl: seq<Proc>, i: nat)
      reads this
    {
      i < |pl| && plist == pl[i := pl[i].(hasDir := false, state := FRE)]
    }

    // "free the zombie and hand over its return code"
    method Collect(i: nat) returns (pid: nat, retcode: nat)
      requires Inv(View()) && Ready(View()) && i < |plist| && plist[i].state == ZMB
      modifies this
      ensures Valid() && current == old(current) && plist[current] == old(plist[current]) && Collected(old(plist), i)
      ensures pidCount == old(pidCount) && given == old(given)
      ensures pid == old(plist[i]).pid && retcode == old(plist[i]).sleepTo
      ensures queueIndex == old(queueIndex) && lastSwitch == old(lastSwitch) && given == old(given)
    {
      hide Structure, InteractOk, FamilyOk, AlivePid;
      retcode := plist[i].sleepTo;
      pid := plist[i].pid;
      ghost var s := View();
      ShapeOf(s);
      FreeChild(i);
      FamilyAfterClean(s, View(), i, plist[i]);
    }

    // The loop over the table for a dead child; -1 when there is none.
    method FindDeadChild() returns (i: int)
      requires |plist| == PROCESS_MAX && current < |plist|
      ensures -1 <= i < |plist|
      ensures i >= 0 ==> DeadChild(plist, current, i) && forall j: nat :: j < i ==> !DeadChild(plist, current, j)
      ensures i == -1 ==> forall j: nat :: !DeadChild(plist, current, j)
    {
      i := 0;
      while i < PROCESS_MAX
        invariant 0 <= i <= PROCESS_MAX && forall j: nat :: j < i ==> !DeadChild(plist, current, j)
      {
        if plist[i].state == ZMB && plist[i].ppid == plist[current].pid {
          return i;
        }
        i := i + 1;
      }
      return -1;
    }

    method HasLiveChild() returns (r: bool)
      requires |plist| == PROCESS_MAX && current < |plist|
      ensures r <==> AliveChild(plist, plist[current].pid)
    {
      var i := 0;
      while i < PROCESS_MAX
        invariant 0 <= i <= PROCESS_MAX
        invariant forall j :: 0 <= j < i ==> !(Alive(plist[j]) && plist[j].ppid == plist[current].pid)
      {
        if plist[i].ppid == plist[current].pid && plist[i].state != FRE && plist[i].state != ZMB {
          return true;
        }
        i := i + 1;
      }
      return false;
    }

    // process_wait up to its schedule: ret is a collected pid, -1, or 0 when not blocking;
    // when `blocked`, the process sleeps and WaitResume is the rest.
    method Wait(pid: int, block: bool, now: nat) returns (ret: int, retcode: nat, blocked: bool, ghost slot: nat)
      requires Valid() && plist[current].state != IDL
      modifies this
      ensures Valid()
      ensures pidCount == old(pidCount)
      ensures blocked ==> block && forall q :: 0 <= q < |plist| ==>
                && (Alive(plist[q]) <==> Alive(old(plist[q])))
                && plist[q].waitPid == (if q == old(current) then (if pid < 1 then -1 else pid)
                                        else old(plist[q]).waitPid)
                && (q == old(current) ==> plist[q].state == SLP && plist[q].sleepTo == 0)
      ensures given == if blocked then Fresh(old(given), old(plist[current].pid)) else old(given)
      ensures blocked ==>
                Scheduled(Blocked(old(View()), if pid < 1 then -1 else pid), View(), now)
      ensures blocked ==> if pid < 1 then AliveChild(old(plist), old(plist[current]).pid)
                          else AlivePid(old(plist), pid) && ChildOf(old(plist), pid, old(plist[current]).pid)
      ensures blocked ==> ret == 0
      ensures blocked && pid < 1 ==> forall j: nat :: !DeadChild(old(plist), old(current), j)
      ensures !blocked && ret > 0 && pid < 1 ==> forall j: nat :: j < slot ==> !DeadChild(old(plist), old(current), j)
      ensures !blocked && ret > 0 ==>
                && DeadChild(old(plist), old(current), slot) && old(plist[slot]).pid == ret
                  && retcode == old(plist[slot]).sleepTo
                && (pid >= 1 ==> ret == pid) && current == old(current) && Collected(old(plist), slot)
      ensures !blocked && ret <= 0 ==> View() == old(View())
      ensures !blocked && ret <= 0 && pid < 1 ==> forall j: nat :: !DeadChild(old(plist), old(current), j)
      ensures !blocked && ret == 0 ==> !block
      ensures !blocked ==> ret >= -1
      ensures !blocked && ret == -1 ==>
                if pid < 1 then !AliveChild(old(plist), old(plist[current]).pid)
                else forall j :: 0 <= j < |plist| && old(plist[j]).state != FRE && old(plist[j]).pid == pid ==>
                       old(plist[j]).ppid != old(plist[current]).pid
    {
      hide Structure, InteractOk, FamilyOk, AlivePid, AliveChild, Rescheduled, Scheduled;
      ghost var s := View();
      ShapeOf(s);
      retcode, blocked, slot := 0, false, 0;
      if pid < 1 {
        var i := FindDeadChild();
        if i >= 0 {
          slot := i;
          ZombiePid(s, i);
          ret, retcode := Collect(i);
          return;
        }
        var any := HasLiveChild();
        if !any {
          return -1, retcode, false, slot;
        }
      } else {
        var place := PidToPlace(pid);
        if place >= 0 { OnlySlot(s, place); }
        if place < 0 || plist[place].ppid != plist[current].pid {
          return -1, retcode, false, slot;
        }
        if plist[place].state == ZMB {
          slot := place;
          ret, retcode := Collect(place);
          return pid, retcode, false, slot;
        }
        AliveAt(s, place);
      }
      if !block {
        return 0, retcode, false, slot;
      }
      Block(if pid < 1 then -1 else pid);
      ghost var v := View();
      Schedule(0, now);
      RescheduledParts(v, View());
      SleeperStays(v, View(), now, v.current);
      ScheduledFrom(v, Blocked(s, v.plist[s.current].waitPid), View(), now);
      return 0, retcode, true, slot;
    }

    // The current process leaves the queue and sleeps without a date.
    method Block(waitPid: int)
      requires Valid() && plist[current].state != IDL
      requires waitPid > 0 ==> AlivePid(plist, waitPid)
      requires waitPid == -1 ==> AliveChild(plist, plist[current].pid)
      modifies this
      ensures Inv(View())
      ensures View() == old(View()).(queue := queue, given := Fresh(old(given), old(plist[current].pid)),
                  plist := old(plist)[current := old(plist[current]).(state := SLP, waitPid := waitPid, sleepTo := 0)])
      ensures queueIndex == old(queueIndex) && lastSwitch == old(lastSwitch)
    {
      hide Structure, InteractOk, FamilyOk, AlivePid, AliveChild;
      ghost var s := View();
      ShapeOf(s);
      ListsKnown(s);
      given := Fresh(given, plist[current].pid);
      plist := plist[current := plist[current].(state := SLP, waitPid := waitPid, sleepTo := 0)];
      RemoveFromQueue(current);
      SleepNoDate(s, View(), current, waitPid);
      BlockedDates(s, View(), s.current);
      OnlySlot(s, s.current);
      BlockedKeepsFamily(s, View(), s.current, waitPid);
    }

    // The rest of process_wait, once the process runs again. It takes the first dead child it
    // finds, whoever it named; finding none is fatal.
    method WaitResume() returns (ret: int, retcode: nat, fatal: bool, ghost slot: nat)
      requires Valid() && plist[current].state != IDL
      modifies this
      ensures Valid() && current == old(current) && plist[current] == old(plist[current]).(waitPid := 0)
      ensures fatal ==> ret == -1
      ensures fatal <==>
                && !(old(plist[current]).waitPid == -1 || old(plist[current]).waitPid > 0)
                && forall j: nat :: !DeadChild(old(plist), old(current), j)
      ensures pidCount == old(pidCount) && (fatal ==>
                                            plist == old(plist)[current := old(plist[current]).(waitPid := 0)])
      ensures old(plist[current]).waitPid == -1 || old(plist[current]).waitPid > 0 ==>
                ret == -1 && plist == old(plist)[current := old(plist[current]).(waitPid := 0)]
      ensures !fatal && !(old(plist[current]).waitPid == -1 || old(plist[current]).waitPid > 0) ==>
                && DeadChild(old(plist), old(current), slot)
                  && (forall j: nat :: j < slot ==> !DeadChild(old(plist), old(current), j))
                && ret == old(plist[slot]).pid && retcode == old(plist[slot]).sleepTo
                && Collected(old(plist)[old(current) := old(plist[current]).(waitPid := 0)], slot)
    {
      hide Structure, InteractOk, FamilyOk, AlivePid, AliveChild;
      ghost var s := View();
      ShapeOf(s);
      retcode, fatal, slot := 0, false, 0;
      var pid := plist[current].waitPid;
      plist := plist[current := plist[current].(waitPid := 0)];
      ClearedWait(s, View());
      if pid == -1 || pid > 0 {
        return -1, retcode, false, slot;
      }
      var i := FindDeadChild();
      if i >= 0 {
        slot := i;
        ret, retcode := Collect(i);
        return;
      }
      return -1, retcode, true, slot;
    }
  }

  lemma SleepersKnown(s: St)
    requires Structure(s)
    ensures NoDup(s.tsleep)
    ensures forall x: nat :: x in s.tsleep ==> x < |s.plist| && s.plist[x].state == SLP && s.plist[x].sleepTo != 0
    ensures forall x: nat, p: nat ::
              x in s.tsleep && p < |s.plist| && s.plist[p].state != FRE && s.plist[p].pid == s.plist[x].pid ==> x == p
  {
  }

  lemma QueueRoom(s: St, p: nat)
    requires Structure(s) && p < |s.plist| && s.plist[p].state !in {INQ, RUN}
    ensures p !in s.queue && |s.queue| < PROCESS_MAX
  {
    QueueHasRoom(s, p);
  }

  lemma InteractIrrelevant(s: St, s': St)
    requires Structure(s) && FamilyOk(s) && s' == s.(interact := s'.interact)
    ensures Structure(s') && FamilyOk(s')
  {
  }

  lemma InteractAhead(s: St, ticks: nat)
    requires InteractOk(s) && forall k :: 0 <= k < |s.tsleep| ==>
                                s.tsleep[k] < |s.plist| && s.plist[s.tsleep[k]].sleepTo > ticks
    ensures s.interact == 0 || s.interact > ticks
  {
  }

  lemma ParentLookup(s: St, p: nat, pl: seq<Proc>, parent: int)
    requires PidsOk(s) && Shape(s) && p < |s.plist| && s.plist[p].state == ZMB
    requires pl == s.plist[p := s.plist[p].(hasDir := false)]
    requires parent < 0 ==> forall i :: 0 <= i < |pl| && pl[i].state != FRE ==> pl[i].pid != pl[p].ppid
    requires parent >= 0 ==> parent < |pl| && pl[parent].pid == pl[p].ppid && pl[parent].state != FRE
    ensures (parent < 0 || pl[parent].state == ZMB || pl[parent].pid == 0) <==>
            !(s.plist[p].ppid != 0 && AlivePid(s.plist, s.plist[p].ppid))
  {
    var x := s.plist[p].ppid;
    if AlivePid(s.plist, x) {
      var i :| 0 <= i < |s.plist| && Alive(s.plist[i]) && s.plist[i].pid == x;
      assert i != p && pl[i] == s.plist[i];
    }
  }

  lemma ShapeOf(s: St)
    requires Structure(s)
    ensures |s.plist| == PROCESS_MAX && s.current < |s.plist| && s.plist[s.current].state != FRE
            && s.plist[1].state == IDL
  {
  }

  // ------------------------------------------------------------ cleaning, slot by slot

  // Slots below n are done; above, nothing has changed.
  ghost predicate CleanedUpTo(s0: St, pl: seq<Proc>, needClean: bool, n: nat) {
    && Structure(s0.(plist := pl, needClean := needClean)) && |pl| == |s0.plist|
    && (forall x :: AlivePid(pl, x) <==> AlivePid(s0.plist, x))
    && NoOrphans(pl)
    && (forall i: nat {:trigger Dangling(pl, i)} :: Dangling(pl, i) ==> Robbed(s0, i))
    && (forall i: nat {:trigger Loose(pl, needClean, i)} :: i < n && Loose(pl, needClean, i) ==> GivenDead(s0, i))
    && (forall j :: 0 <= j < |pl| ==>
          pl[j] == if j < n && s0.plist[j].state == ZMB && s0.plist[j].hasDir && j != s0.current
                   then CleanedProc(s0.plist, j) else s0.plist[j])
  }

  lemma CleanedStart(s0: St)
    requires Inv(s0)
    ensures CleanedUpTo(s0, s0.plist, false, 0)
  {
    hide Orphan, Dangling, Loose, AlivePid, AliveChild, InteractOk;
  }

  lemma CleanedParts(s0: St, s: St, i: nat)
    requires CleanedUpTo(s0, s.plist, s.needClean, i) && s == s0.(plist := s.plist, needClean := s.needClean)
             && i < PROCESS_MAX
    ensures Structure(s) && |s.plist| == |s0.plist| == PROCESS_MAX
    ensures s.plist[i] == s0.plist[i]
    ensures s.plist[i].state == ZMB ==> (s.plist[i].pid == s.plist[s.current].pid <==> i == s.current)
  {
  }

  // A zombie is cleaned.
  lemma CleanedStep(s0: St, pl: seq<Proc>, pl': seq<Proc>, needClean: bool, i: nat)
    requires CleanedUpTo(s0, pl, needClean, i) && i < |pl| && Inv(s0)
    requires s0.plist[i].state == ZMB && s0.plist[i].hasDir && i != s0.current && s0.current < |pl|
    requires pl' == pl[i := CleanedProc(pl, i)]
    ensures CleanedUpTo(s0, pl', needClean, i + 1)
  {
    hide AlivePid, AliveChild, Structure, InteractOk, FamilyOk;
    AliveAfterClean(pl, pl', i);
    CleanKeeps(s0.(plist := pl, needClean := needClean), s0.(plist := pl', needClean := needClean), i,
               CleanedProc(pl, i));
    forall j: nat
      ensures !Orphan(pl', j) && (Dangling(pl', j) ==> Robbed(s0, j))
              && (j < i + 1 && Loose(pl', needClean, j) ==> GivenDead(s0, j))
    {
      assert !Orphan(pl, j) && (Dangling(pl, j) ==> Robbed(s0, j));
      assert j < i && Loose(pl, needClean, j) ==> GivenDead(s0, j);
    }
  }

  // A slot that needs nothing, or the current process, which keeps the cleaning flag up.
  lemma CleanedSkip(s0: St, pl: seq<Proc>, needClean: bool, needClean': bool, i: nat)
    requires CleanedUpTo(s0, pl, needClean, i) && i < |pl| && Inv(s0) && s0.current < |pl|
    requires pl[i] == s0.plist[i]
    requires if pl[i].state == ZMB && pl[i].hasDir then i == s0.current && needClean' else needClean' == needClean
    ensures CleanedUpTo(s0, pl, needClean', i + 1)
  {
    hide AlivePid, AliveChild, Structure, InteractOk, CleanedProc;
    FlagIrrelevant(s0.(plist := pl, needClean := needClean), s0.(plist := pl, needClean := needClean'));
    forall j: nat ensures j < i + 1 && Loose(pl, needClean', j) ==> GivenDead(s0, j) {
      assert j < i && Loose(pl, needClean, j) ==> GivenDead(s0, j);
      FamilyAt(s0, j);
    }
  }

  lemma FlagIrrelevant(s: St, s': St)
    requires Structure(s) && s' == s.(needClean := s'.needClean)
    ensures Structure(s')
  {
  }

  lemma CleanedEnd(s0: St, s: St)
    requires Inv(s0) && CleanedUpTo(s0, s.plist, s.needClean, PROCESS_MAX)
             && s == s0.(plist := s.plist, needClean := s.needClean)
    ensures Inv(s) && s.plist == CleanPl(s0.plist, s0.current)
  {
    hide AlivePid, AliveChild, QueueOk, TsleepOk, RunOk, PidsOk, InteractOk;
    CleanedDates(s0, s);
  }

  lemma CleanedDates(s0: St, s: St)
    requires Structure(s0) && InteractOk(s0) && s == s0.(plist := s.plist, needClean := s.needClean)
             && |s.plist| == |s0.plist|
    requires forall j :: 0 <= j < |s.plist| ==> s.plist[j].sleepTo == s0.plist[j].sleepTo
    ensures InteractOk(s)
  {
  }

  // ------------------------------------------------------- what a schedule may change

  // Nobody is born, dies or changes parent or wait; a zombie that a live parent other than
  // the kernel may still ask for keeps its slot and its return code.
  ghost predicate Rescheduled(s: St, s': St) {
    && |s'.plist| == |s.plist| && s'.pidCount == s.pidCount && s'.given == s.given
    && (forall j :: 0 <= j < |s.plist| ==>
          var p, q := s.plist[j], s'.plist[j];
          && q.pid == p.pid && q.ppid == p.ppid && q.waitPid == p.waitPid && q.sleepTo == p.sleepTo
          && (Alive(q) <==> Alive(p)) && (p.state == FRE ==> q.state == FRE)
          && (p.state in {INQ, RUN} ==> q.state in {INQ, RUN})
          && (p.state == ZMB && p.ppid != 0 && AlivePid(s.plist, p.ppid) ==> q.state == ZMB))
    && (forall x :: AlivePid(s'.plist, x) <==> AlivePid(s.plist, x))
  }

  lemma RescheduledSame(s: St)
    ensures Rescheduled(s, s)
  {
  }

  lemma RescheduledTrans(s: St, t: St, u: St)
    requires Rescheduled(s, t) && Rescheduled(t, u)
    ensures Rescheduled(s, u)
  {
  }

  lemma AwakenedReschedules(s: St, s': St, ticks: nat)
    requires s'.plist == AwakePl(s.plist, ticks) && s'.pidCount == s.pidCount && s'.given == s.given
    ensures Rescheduled(s, s')
  {
  }

  lemma CleanedReschedules(s: St, s': St)
    requires s'.plist == CleanPl(s.plist, s.current) && s'.pidCount == s.pidCount && s'.given == s.given
    ensures Rescheduled(s, s')
  {
  }

  lemma OneRuns(s: St, next: nat)
    requires Structure(s) && next < |s.plist| && next != s.current
    ensures s.current < |s.plist| && s.plist[next].state != RUN
    ensures s.plist[s.current].state != RUN ==> forall i :: 0 <= i < |s.plist| ==> s.plist[i].state != RUN
  {
  }

  lemma SwitchStates(s: St, s': St, next: nat)
    requires s.current < |s.plist| && next < |s.plist| && next != s.current
    requires var pl := if s.plist[s.current].state == RUN then s.plist[s.current := s.plist[s.current].(state := INQ)]
             else s.plist;
             s'.plist == if s.plist[next].state == IDL then pl else pl[next := pl[next].(state := RUN)]
    requires s.plist[next].state in {INQ, IDL}
    requires s'.pidCount == s.pidCount && s'.needClean == s.needClean && s'.given == s.given
    ensures StatesOnly(s, s')
  {
  }

  // Processes only moved between the run queue and the processor.
  ghost predicate StatesOnly(s: St, s': St) {
    && |s'.plist| == |s.plist| && s'.pidCount == s.pidCount && s'.needClean == s.needClean && s'.given == s.given
    && forall j :: 0 <= j < |s.plist| ==>
         s'.plist[j] == s.plist[j].(state := s'.plist[j].state)
         && (s'.plist[j].state == s.plist[j].state
             || (s.plist[j].state in {INQ, RUN} && s'.plist[j].state in {INQ, RUN}))
  }

  lemma FamilyKeepsStates(s: St, s': St)
    requires FamilyOk(s) && StatesOnly(s, s')
    ensures FamilyOk(s')
  {
    hide AlivePid, AliveChild, FamilyOk;
    FamilyKeeps(s, s');
  }

  lemma StatesReschedule(s: St, s': St)
    requires StatesOnly(s, s')
    ensures Rescheduled(s, s')
  {
  }

  lemma QueueMembers(s: St)
    requires Structure(s)
    ensures forall k :: 0 <= k < |s.queue| ==> s.queue[k] < |s.plist| && s.plist[s.queue[k]].state in {INQ, RUN}
    ensures |s.plist| == PROCESS_MAX && s.plist[1].state == IDL && s.current < |s.plist|
    ensures forall i :: 0 <= i < |s.plist| && s.plist[i].state in {INQ, RUN} ==> |s.queue| > 0
  {
    assert forall k :: 0 <= k < |s.queue| ==> s.queue[k] in s.queue;
  }

  lemma CurrentIsKnown(s: St)
    requires Structure(s) && Ready(s)
    ensures AlivePid(s.plist, s.plist[s.current].pid) && s.plist[s.current].pid <= s.pidCount
  {
  }

  lemma SlotsOfList(s: St)
    requires Structure(s)
    ensures forall k :: 0 <= k < |s.tsleep| ==> s.tsleep[k] < |s.plist| && s.plist[s.tsleep[k]].state == SLP
  {
    assert forall k :: 0 <= k < |s.tsleep| ==> s.tsleep[k] in s.tsleep;
  }

  lemma OnlySlot(s: St, p: nat)
    requires Structure(s) && p < |s.plist| && s.plist[p].state != FRE
    ensures forall i :: 0 <= i < |s.plist| && s.plist[i].state != FRE && s.plist[i].pid == s.plist[p].pid ==> i == p
  {
  }

  lemma ListsKnown(s: St)
    requires Structure(s)
    ensures NoDup(s.queue) && NoDup(s.tsleep)
  {
  }

  lemma ListsKnownAt(s: St, p: nat)
    requires Structure(s) && p < |s.plist|
    ensures p in s.tsleep <==> s.plist[p].state == SLP && s.plist[p].sleepTo != 0
    ensures p in s.queue <==> s.plist[p].state in {INQ, RUN}
  {
  }

  lemma NotListed(s: St, p: nat)
    requires Structure(s) && p < |s.plist| && (s.plist[p].state != SLP || s.plist[p].sleepTo == 0)
    ensures Minus(s.tsleep, s.tsleep, p)
  {
  }

  lemma MinusParts(s: St, l: seq<nat>, p: nat)
    requires Structure(s) && Minus(l, s.tsleep, p)
    ensures NoDup(l) && p !in l
    ensures forall x: nat :: x in l <==> x in s.tsleep && x != p
    ensures forall k :: 0 <= k < |l| ==> l[k] < |s.plist| && s.plist[l[k]].sleepTo != 0 && l[k] != p
  {
    assert forall k :: 0 <= k < |l| ==> l[k] in l;
  }

  lemma ListRoom(s: St, l: seq<nat>, p: nat)
    requires Structure(s) && p < |s.plist| && NoDup(l) && p !in l && forall x: nat :: x in l ==> x in s.tsleep
    ensures |l| < PROCESS_MAX
  {
    TsleepHasRoom(s, l, p);
  }

  lemma SameFamilyUpdate(pl: seq<Proc>, p: nat, q: Proc)
    requires p < |pl| && q.pid == pl[p].pid && q.ppid == pl[p].ppid && q.hasDir == pl[p].hasDir
    requires Alive(q) && Alive(pl[p])
    ensures SameFamily(pl, pl[p := q])
  {
  }

  lemma AppendNoDup(l: seq<nat>, p: nat)
    requires NoDup(l) && p !in l
    ensures NoDup(l + [p]) && forall x: nat :: x in l + [p] <==> x in l || x == p
    ensures forall k :: 0 <= k < |l| ==> l[k] != p
  {
  }

  lemma StructureInteract(s: St, s': St)
    requires Structure(s) && s' == s.(interact := s'.interact)
    ensures Structure(s')
  {
  }

  lemma WokenKeepsFamily(s: St, s': St, p: nat)
    requires FamilyOk(s) && SameFamily(s.plist, s'.plist) && p < |s.plist|
    requires s'.needClean == s.needClean && s'.given == s.given
    requires s'.plist == s.plist[p := s.plist[p].(state := INQ, sleepTo := 0, waitPid := 0)]
    ensures FamilyOk(s')
  {
    hide AlivePid, AliveChild, FamilyOk, SameFamily;
    FamilyKeeps(s, s');
  }

  lemma QuietReady(s: St, p: nat)
    requires Structure(s) && p < |s.plist| && s.plist[p].state == INQ
    ensures s.current < |s.plist| && AlivePid(s.plist, s.plist[p].pid)
  {
  }

  // A live process falls asleep without a date, waiting for a live one.
  lemma BlockedKeepsFamily(s: St, s': St, p: nat, waitPid: int)
    requires FamilyOk(s) && p < |s.plist| && Alive(s.plist[p]) && s'.needClean == s.needClean
    requires s'.given == Fresh(s.given, s.plist[p].pid) && OthersDiffer(s, p)
    requires s'.plist == s.plist[p := s.plist[p].(state := SLP, waitPid := waitPid, sleepTo := 0)]
    requires waitPid > 0 ==> AlivePid(s.plist, waitPid)
    requires waitPid == -1 ==> AliveChild(s.plist, s.plist[p].pid)
    ensures FamilyOk(s')
  {
    hide AlivePid, AliveChild;
    SameFamilyAlive(s.plist, s'.plist);
    forall i: nat
      ensures !Orphan(s'.plist, i) && (Dangling(s'.plist, i) ==> Robbed(s', i))
              && (Loose(s'.plist, s'.needClean, i) ==> GivenDead(s', i))
    {
      FamilyAt(s, i);
    }
  }

  // Live processes in other slots have other pids.
  ghost predicate OthersDiffer(s: St, p: nat)
    requires p < |s.plist|
  {
    forall i :: 0 <= i < |s.plist| && i != p && Alive(s.plist[i]) ==> s.plist[i].pid != s.plist[p].pid
  }

  lemma BlockedDates(s: St, s': St, p: nat)
    requires Structure(s) && InteractOk(s) && p < |s.plist| && s.plist[p].state in {INQ, RUN}
    requires |s'.plist| == |s.plist| && s'.plist == s.plist[p := s'.plist[p]] && s'.tsleep == s.tsleep
             && s'.interact == s.interact
    ensures InteractOk(s')
  {
  }

  lemma RescheduledParts(s: St, s': St)
    requires Rescheduled(s, s')
    ensures |s'.plist| == |s.plist| && s'.pidCount == s.pidCount && s'.given == s.given
    ensures forall j :: 0 <= j < |s.plist| ==>
              var p, q := s.plist[j], s'.plist[j];
              && q.pid == p.pid && q.ppid == p.ppid && q.waitPid == p.waitPid && q.sleepTo == p.sleepTo
              && (Alive(q) <==> Alive(p)) && (p.state == FRE ==> q.state == FRE)
              && (p.state in {INQ, RUN} ==> q.state in {INQ, RUN})
              && (p.state == ZMB && p.ppid != 0 && AlivePid(s.plist, p.ppid) ==> q.state == ZMB)
  {
  }

  // Only the current process itself may be killed from inside its subtree; a dead current
  // process is an ancestor of whatever is still being killed.
  ghost predicate CurrentSafe(s: St, t: nat) {
    && s.current < |s.plist|
    && (Below(s.plist, s.current, t) ==> s.plist[s.current].pid == t)
    && (s.plist[s.current].state == ZMB ==> s.plist[s.current].ppid < t)
  }

  lemma PidsOf(s: St)
    requires Structure(s)
    ensures PidsOk(s)
    ensures forall i :: 0 <= i < |s.plist| && Alive(s.plist[i]) ==> s.plist[i].hasDir
  {
  }

  lemma SafeFromReady(s: St, t: nat)
    requires s.current < |s.plist| && Ready(s) && (Below(s.plist, s.current, t) ==> s.plist[s.current].pid == t)
    ensures CurrentSafe(s, t)
  {
  }

  lemma KernelSlots(s: St, place: nat)
    requires Structure(s) && place < |s.plist| && Alive(s.plist[place]) && s.plist[place].state != IDL
             && s.plist[place].pid != 0
    ensures 2 <= place && s.plist[place].pid > 1 && s.plist[place].ppid < s.plist[place].pid
  {
  }

  lemma SameFamilyLiving(pl: seq<Proc>, pl': seq<Proc>)
    requires SameFamily(pl, pl')
    ensures |Living(pl')| <= |Living(pl)|
  {
    FewerLiving(pl, pl');
  }

  lemma FewerAlive(pl: seq<Proc>, pl': seq<Proc>)
    requires |pl'| == |pl|
    requires forall i :: 0 <= i < |pl| ==>
               pl'[i].pid == pl[i].pid && pl'[i].ppid == pl[i].ppid && (Alive(pl'[i]) ==> Alive(pl[i]))
    ensures |Living(pl')| <= |Living(pl)|
  {
    FewerLiving(pl, pl');
  }

  lemma KillLiving(s: St, s': St, i: nat)
    requires KillLoop(s, s', i, PROCESS_MAX, PROCESS_MAX)
    ensures |Living(s'.plist)| <= |Living(s.plist)|
  {
    hide AlivePid, AliveChild, Below, Orphan, Dangling, Loose;
    FewerLiving(s.plist, s'.plist);
  }

  // The recursive call on a live child meets its own preconditions.
  lemma ChildCallOk(s0: St, s: St, place: nat, i: nat)
    requires Structure(s0) && Structure(s) && KillLoop(s0, s, place, i + 1, i) && i < |s.plist| && i != place
    requires place < |s0.plist| && Alive(s0.plist[place]) && CurrentSafe(s0, s0.plist[place].pid)
             && s.plist[place].pid > 1
    requires s.plist[place].state == ZMB && s.plist[place].ppid < s.plist[place].pid == s0.plist[place].pid
    requires s.plist[i].ppid == s.plist[place].pid && s.plist[i].state != FRE
    ensures i != s.current && s.plist[i].ppid < s.plist[i].pid && s.plist[i].state != IDL
    ensures Alive(s.plist[i]) ==> CurrentSafe(s, s.plist[i].pid)
  {
    hide QueueOk, TsleepOk, RunOk, AlivePid, AliveChild, Orphan, Dangling, Loose, Below;
    if Alive(s.plist[i]) {
      ChildBelow(s0.plist, i, place);
    }
    if Alive(s.plist[i]) && Below(s.plist, s.current, s.plist[i].pid) {
      BelowPid(s.plist, s.current, s.plist[i].pid);
      BelowEarlier(s0.plist, s.plist, s.current, s.plist[i].pid);
      BelowChild(s0.plist, s.current, i, place);
    }
  }

  lemma WaiterAlive(s: St, i: nat)
    requires Structure(s) && i < |s.plist| && s.plist[i].waitPid != 0
    ensures Alive(s.plist[i]) && i != 1
  {
  }

  lemma ZombiesStay(s0: St, s: St, place: nat, i: nat)
    requires Structure(s) && KillLoop(s0, s, place, i, i) && i < |s.plist|
    ensures s.plist[i].state == ZMB ==> s.plist[i].waitPid == 0
    ensures s0.plist[i].state == ZMB ==> s.plist[i].state != SLP
  {
  }

  lemma SameFamilySelf(pl: seq<Proc>)
    ensures SameFamily(pl, pl)
  {
  }

  lemma SameFamilyTrans(a: seq<Proc>, b: seq<Proc>, c: seq<Proc>)
    requires SameFamily(a, b) && SameFamily(b, c)
    ensures SameFamily(a, c)
  {
  }

  // A current process that was not the target can go on running.
  lemma KillCurrent(s0: St, s: St, target: nat)
    requires s0.current < |s0.plist| && Ready(s0) && KillLoop(s0, s, target, PROCESS_MAX, PROCESS_MAX)
    requires Below(s0.plist, s0.current, s0.plist[target].pid) ==> s0.plist[s0.current].pid == s0.plist[target].pid
    ensures s.current == s0.current && s.needClean && s.pidCount == s0.pidCount && |s.plist| == |s0.plist|
    ensures s0.plist[s0.current].pid != s0.plist[target].pid ==> Ready(s)
    ensures forall j :: 0 <= j < |s.plist| ==> s.plist[j].pid == s0.plist[j].pid && s.plist[j].ppid == s0.plist[j].ppid
  {
  }

  // The target's parent, if it is not the kernel, is still there to read the return code.
  lemma ParentLives(s0: St, s: St, target: nat)
    requires Structure(s0) && FamilyOk(s0) && target < |s0.plist| && s0.plist[target].pid != 0
             && Alive(s0.plist[target])
    requires KillLoop(s0, s, target, PROCESS_MAX, PROCESS_MAX)
    ensures AlivePid(s.plist, s0.plist[target].ppid)
  {
    hide QueueOk, TsleepOk, RunOk, AliveChild, Dangling, Loose, Below;
    assert !Orphan(s0.plist, target);
    var k :| 0 <= k < |s0.plist| && Alive(s0.plist[k]) && s0.plist[k].pid == s0.plist[target].ppid;
    if !Alive(s.plist[k]) {
      BelowPid(s0.plist, k, s0.plist[target].pid);
    }
  }

  lemma ZombiePid(s: St, i: nat)
    requires Structure(s) && i < |s.plist| && s.plist[i].state == ZMB
    ensures s.plist[i].pid > 0
  {
  }

  lemma AliveAt(s: St, i: nat)
    requires i < |s.plist| && Alive(s.plist[i])
    ensures AlivePid(s.plist, s.plist[i].pid)
  {
  }

  lemma SleepNoDate(s: St, s': St, p: nat, waitPid: int)
    requires Structure(s) && p < |s.plist| && s.plist[p].state in {INQ, RUN}
    requires s'.plist == s.plist[p := s.plist[p].(state := SLP, waitPid := waitPid, sleepTo := 0)]
    requires s'.current == s.current && s'.pidCount == s.pidCount && s'.tsleep == s.tsleep
    requires Minus(s'.queue, s.queue, p)
    ensures Structure(s')
  {
    hide Structure, Minus;
    ListsKnown(s);
    ListsKnownAt(s, p);
    SleepKeeps(s, s', p, waitPid, 0);
  }

  lemma ClearedWait(s: St, s': St)
    requires Inv(s) && s.current < |s.plist| && Ready(s) && s.current != 1
    requires s' == s.(plist := s.plist[s.current := s.plist[s.current].(waitPid := 0)])
    ensures Inv(s') && Ready(s')
    ensures forall j: nat :: DeadChild(s'.plist, s'.current, j) <==> DeadChild(s.plist, s.current, j)
  {
    hide Structure, InteractOk, FamilyOk, AlivePid, AliveChild;
    var p := s.current;
    WaitKeeps(s, s', p, 0);
    InteractKeeps(s, s');
    FamilyKeeps(s, s');
  }
}
