/**
  What the thread pool promises, over every interleaving and any number of restarts.
*/
module PoolTheorems {
  import opened PoolModel
  import opened PoolInvariant
  import opened PoolSafety

  /** The server gets to s from some valid settings. */
  ghost predicate Reachable(s: State) {
    exists threads: nat, port: nat, steps: seq<Step> ::
      ValidSettings(threads, port) && Possible(Init(threads, port), steps) && Run(Init(threads, port), steps) == s
  }

  lemma ReachableInv(s: State)
    requires Reachable(s)
    ensures Inv(s)
  {
    var threads: nat, port: nat, steps: seq<Step> :|
      ValidSettings(threads, port) && Possible(Init(threads, port), steps) && Run(Init(threads, port), steps) == s;
    InvReached(threads, port, steps);
  }

  /** s' is where these steps lead from s. */
  ghost predicate Leads(s: State, steps: seq<Step>, s': State) {
    Possible(s, steps) && Run(s, steps) == s'
  }

  lemma Prepend(s: State, step: Step, rest: seq<Step>, s': State)
    requires Enabled(s, step) && Leads(Next(s, step), rest, s')
    ensures Leads(s, [step] + rest, s')
  {
    assert ([step] + rest)[1..] == rest;
  }

  /** Taking one more step at the end of a run. */
  lemma {:induction false} RunThen(s: State, steps: seq<Step>, last: Step)
    requires Possible(s, steps) && Enabled(Run(s, steps), last)
    ensures Possible(s, steps + [last])
    ensures Run(s, steps + [last]) == Next(Run(s, steps), last)
    decreases |steps|
  {
    hide Next, Enabled;
    if steps == [] {
      assert steps + [last] == [last] && [last][1..] == [];
    } else {
      assert (steps + [last])[0] == steps[0] && (steps + [last])[1..] == steps[1..] + [last];
      RunThen(Next(s, steps[0]), steps[1..], last);
    }
  }

  lemma ReachStep(s: State, step: Step)
    requires Reachable(s) && Enabled(s, step)
    ensures Reachable(Next(s, step))
  {
    var threads: nat, port: nat, steps: seq<Step> :|
      ValidSettings(threads, port) && Possible(Init(threads, port), steps) && Run(Init(threads, port), steps) == s;
    RunThen(Init(threads, port), steps, step);
  }

  // ------------------------------------------------------------- accepting phase

  /** Between the creation of a pool and the start of its drain. */
  predicate InAcceptPhase(pc: MainPc) {
    || pc == Inner || pc == Waiting || pc.Testing? || pc == Accepting || pc.Scan?
    || pc.Claim? || pc.Fill? || pc.Release? || pc == Spend
  }

  /** No permit is created or destroyed, also while a slot is reused before its
      former worker has posted. */
  lemma PermitsConserved(s: State)
    requires Reachable(s)
    ensures InAcceptPhase(s.pc) ==>
      s.sem + Permit(s.pc) + s.lost + Busy(s.slots) + Posting(s.slots) == s.poolSize == |s.slots|
  {
    ReachableInv(s);
  }

  /** A mutex is unlocked exactly between the dispatch of its slot and its worker taking it. */
  lemma HandoffToken(s: State, k: nat)
    requires Reachable(s) && InAcceptPhase(s.pc) && k < |s.slots|
    ensures !s.slots[k].locked <==>
      && s.slots[k].busy
      && Home(s.slots[k].pc)
      && !((s.pc.Fill? || s.pc.Release?) && s.pc.i == k)
    ensures s.pc.Release? && s.pc.i == k ==> s.slots[k].locked
    ensures !s.slots[k].locked ==> Pending(s.conns, s.slots[k].fd, Place(s.gen, k))
  {
    ReachableInv(s);
    assert SlotOk(s.slots[k], RoleOf(s.pc, s.merged, k), s.conns, Place(s.gen, k));
  }

  /** A worker tests fd only after main has written it, and serves only sockets. */
  lemma NoUninitialisedFd(s: State, k: nat)
    requires Reachable(s) && k < |s.slots|
    ensures s.slots[k].pc == AtCheck ==> s.slots[k].fd != Unset
    ensures s.slots[k].pc == AtServe ==> s.slots[k].fd.Sock? && InService(s.conns, s.slots[k].fd, Place(s.gen, k))
  {
    ReachableInv(s);
    assert SlotOk(s.slots[k], RoleOf(s.pc, s.merged, k), s.conns, Place(s.gen, k));
  }

  /** Main never reads or writes past the allocated slots, whatever the handler has
      made of threads_number. */
  lemma MainStaysInBounds(s: State)
    requires Reachable(s)
    ensures s.pc != Fault && IndexInPool(s)
    ensures s.pc.Scan? && s.pc.i < s.threadsNumber ==> s.pc.i < |s.slots|
    ensures s.pc.DrainTest? && s.pc.i < s.poolSize ==> s.pc.i < |s.slots|
  {
    ReachableInv(s);
  }

  // ------------------------------------------------------------------- the scan

  function Mains(n: nat): seq<Step> { seq(n, _ => Main) }

  /** The first free slot from i on, or the number of slots. */
  function FirstFree(slots: seq<Slot>, i: nat): nat
    decreases |slots| - i
  {
    if i >= |slots| then |slots| else if !slots[i].busy then i else FirstFree(slots, i + 1)
  }

  /** The number of statements main spends in a scan from i whose first free slot is k. */
  function ScanLength(i: nat, k: nat, threads: nat): nat {
    if k < threads && i <= k then k - i + 1 else if i < threads then threads - i + 1 else 1
  }

  /** Main scans in every state of the run but perhaps the last, and signals come only
      if they may. */
  predicate ScanRun(s: State, steps: seq<Step>, signals: bool)
    requires Possible(s, steps)
    decreases |steps|
  {
    steps != [] ==>
      s.pc.Scan? && (steps[0].Hangup? ==> signals) && ScanRun(Next(s, steps[0]), steps[1..], signals)
  }

  /** Where the scan ends when main runs it alone: at the first free slot, which
      exists, if the live threads_number covers that slot, and otherwise the accepted
      connection is dropped together with its permit. */
  lemma ScanOutcome(s: State)
    requires Reachable(s) && s.pc.Scan?
    ensures
      var k := FirstFree(s.slots, s.pc.i);
      var scan := Mains(ScanLength(s.pc.i, k, s.threadsNumber));
      && s.pc.i <= k < |s.slots| && !s.slots[k].busy
      && Possible(s, scan) && ScanRun(s, scan, false)
      && Run(s, scan) == if k < s.threadsNumber then s.(pc := Claim(k, s.pc.conn))
                         else s.(pc := Inner, lost := s.lost + 1)
  {
    ReachableInv(s);
    FirstFreeBelow(s.slots, s.pc.i);
    ScanAlone(s, FirstFree(s.slots, s.pc.i));
  }

  lemma ScanStep(s: State)
    requires s.pc.Scan?
    ensures Enabled(s, Main)
    ensures Next(s, Main) ==
      if s.pc.i >= s.threadsNumber then s.(pc := Inner, lost := s.lost + 1)
      else if s.pc.i >= |s.slots| then s.(pc := Fault)
      else if s.slots[s.pc.i].busy then s.(pc := Scan(s.pc.i + 1, s.pc.conn))
      else s.(pc := Claim(s.pc.i, s.pc.conn))
  {
  }

  lemma {:induction false} ScanAlone(s: State, k: nat)
    requires s.pc.Scan? && s.pc.i <= k < |s.slots| && k == FirstFree(s.slots, s.pc.i) && !s.slots[k].busy
    ensures
      var scan := Mains(ScanLength(s.pc.i, k, s.threadsNumber));
      && Possible(s, scan) && ScanRun(s, scan, false)
      && Run(s, scan) == if k < s.threadsNumber then s.(pc := Claim(k, s.pc.conn))
                         else s.(pc := Inner, lost := s.lost + 1)
    decreases k - s.pc.i
  {
    hide Enabled, Next;
    var n := ScanLength(s.pc.i, k, s.threadsNumber);
    assert Mains(n)[0] == Main && Mains(n)[1..] == Mains(n - 1);
    ScanStep(s);
    var s' := Next(s, Main);
    if s'.pc.Scan? {
      assert ScanLength(s'.pc.i, k, s.threadsNumber) == n - 1;
      ScanAlone(s', k);
    } else {
      assert n == 1;
    }
  }

  lemma {:induction false} FirstFreeBelow(slots: seq<Slot>, i: nat)
    requires exists k: nat :: i <= k < |slots| && !slots[k].busy
    ensures i <= FirstFree(slots, i) < |slots| && !slots[FirstFree(slots, i)].busy
    decreases |slots| - i
  {
    var k: nat :| i <= k < |slots| && !slots[k].busy;
    if slots[i].busy {
      FirstFreeBelow(slots, i + 1);
    }
  }

  /** Slot j is free, main has not passed it, and the scan covers it. */
  predicate FreeAhead(s: State, j: nat) {
    s.pc.Scan? && s.pc.i <= j < |s.slots| && j < s.threadsNumber && !s.slots[j].busy
  }

  /** Workers free slots but never occupy them, so main finds this one or an earlier one;
      no valid setting uncovers slot 0. */
  lemma {:induction false} FreeAheadIsFound(s: State, steps: seq<Step>, signals: bool, j: nat)
    requires FreeAhead(s, j) && Possible(s, steps) && ScanRun(s, steps, signals) && (signals ==> j == 0)
    ensures var s' := Run(s, steps); FreeAhead(s', j) || s'.pc.Claim?
    decreases |steps|
  {
    if steps != [] {
      var s' := Next(s, steps[0]);
      if s'.pc.Scan? {
        FreeAheadIsFound(s', steps[1..], signals, j);
      } else {
        assert steps[1..] == [];
      }
    }
  }

  /** Some schedule of this scan drops the accepted connection. */
  ghost predicate CanDrop(s: State, signals: bool) {
    exists steps: seq<Step> :: Possible(s, steps) && ScanRun(s, steps, signals) && Run(s, steps).pc == Inner
  }

  lemma FoundNotDropped(s: State, signals: bool, j: nat)
    requires FreeAhead(s, j) && (signals ==> j == 0)
    ensures !CanDrop(s, signals)
  {
    forall steps: seq<Step> | Possible(s, steps) && ScanRun(s, steps, signals) ensures Run(s, steps).pc != Inner {
      FreeAheadIsFound(s, steps, signals, j);
    }
  }

  /** As long as no signal comes, a scan can drop its connection exactly when the first
      free slot ahead of it is not below threads_number.  If signals may come, the only
      scan that cannot is one that has still to look at slot 0 and finds it free. */
  lemma DropsIff(s: State)
    requires Reachable(s) && s.pc.Scan?
    ensures CanDrop(s, false) <==> FirstFree(s.slots, s.pc.i) >= s.threadsNumber
    ensures |s.slots| > 0
    ensures CanDrop(s, true) <==> s.pc.i > 0 || s.slots[0].busy
  {
    ReachableInv(s);
    FirstFreeBelow(s.slots, s.pc.i);
    var k := FirstFree(s.slots, s.pc.i);
    if k < s.threadsNumber {
      FoundNotDropped(s, false, k);
    } else {
      ScanAlone(s, k);
      assert CanDrop(s, false);
    }
    if s.pc.i == 0 && !s.slots[0].busy {
      FoundNotDropped(s, true, 0);
    } else {
      ReloadDrops(s);
    }
  }

  lemma ReloadDrops(s: State)
    requires s.pc.Scan? && ValidSettings(s.threadsNumber, s.portNumber) && |s.slots| > 0
    requires s.pc.i > 0 || s.slots[0].busy
    ensures CanDrop(s, true)
    decreases if s.pc.i == 0 then 1 else 0
  {
    var reload := Hangup(1, s.portNumber);
    var steps := [reload, Main];
    assert steps[1..] == [Main] && [Main][1..] == [];
    if s.pc.i > 0 {
      assert Possible(Next(s, reload), [Main]) && ScanRun(Next(s, reload), [Main], true);
      assert Possible(s, steps) && ScanRun(s, steps, true) && Run(s, steps).pc == Inner;
    } else {
      var s' := NextMain(s);
      ReloadDrops(s');
      var rest: seq<Step> :| Possible(s', rest) && ScanRun(s', rest, true) && Run(s', rest).pc == Inner;
      assert ([Main] + rest)[1..] == rest;
      assert Possible(s, [Main] + rest) && ScanRun(s, [Main] + rest, true);
    }
  }

  /** Every state of the run in which main scans has threads_number >= pool size. */
  predicate ScansCovered(s: State, steps: seq<Step>)
    requires Possible(s, steps)
    decreases |steps|
  {
    && (s.pc.Scan? ==> |s.slots| <= s.threadsNumber)
    && (steps != [] ==> ScansCovered(Next(s, steps[0]), steps[1..]))
  }

  /** No permit has leaked, and main holds every connection that is not dispatched. */
  ghost predicate AllPlaced(s: State) {
    && (InAcceptPhase(s.pc) ==> s.lost == 0)
    && (forall c: nat :: c < |s.conns| && s.conns[c] == UNTOUCHED ==> Holds(s.pc) && s.pc.conn == c)
  }

  lemma MainLosesNone(s: State)
    requires MainOk(s) && AllPlaced(s) && MainEnabled(s)
    requires s.pc.Scan? ==> |s.slots| <= s.threadsNumber
    ensures InAcceptPhase(NextMain(s).pc) ==> NextMain(s).lost == 0
  {
    hide Quiet, Draining, Unmatched, Carries, Accepted;
    if s.pc.Scan? {
      var k: nat :| s.pc.i <= k < |s.slots| && !s.slots[k].busy;
    } else if InAcceptPhase(s.pc) {
      hide MainOk;
    } else {
      hide HasFree, Open;
    }
  }

  lemma MainKeepsPlaced(s: State)
    requires MainOk(s) && AllPlaced(s) && MainEnabled(s)
    requires s.pc.Scan? ==> |s.slots| <= s.threadsNumber
    ensures AllPlaced(NextMain(s))
  {
    hide Quiet, Draining, Unmatched, Fresh, Accepted;
    MainLosesNone(s);
    var s' := NextMain(s);
    forall c: nat | c < |s'.conns| && s'.conns[c] == UNTOUCHED
      ensures Holds(s'.pc) && s'.pc.conn == c
    {
      if c < |s.conns| {
        assert s.conns[c] == UNTOUCHED;
      }
    }
  }

  lemma WorkerKeepsPlaced(s: State, k: nat)
    requires AllPlaced(s) && WorkerEnabled(s, k)
    ensures AllPlaced(NextWorker(s, k))
  {
    var s' := NextWorker(s, k);
    forall c: nat | c < |s'.conns| && s'.conns[c] == UNTOUCHED
      ensures Holds(s'.pc) && s'.pc.conn == c
    {
      assert s.conns[c] == UNTOUCHED;
    }
  }

  lemma StepKeepsPlaced(s: State, step: Step)
    requires Inv(s) && AllPlaced(s) && Enabled(s, step)
    requires s.pc.Scan? ==> |s.slots| <= s.threadsNumber
    ensures AllPlaced(Next(s, step))
  {
    match step
    case Main => MainKeepsPlaced(s);
    case Interrupted =>
    case Worker(k) => WorkerKeepsPlaced(s, k);
    case Hangup(_, _) =>
  }

  lemma {:induction false} RunKeepsPlaced(s: State, steps: seq<Step>)
    requires Inv(s) && AllPlaced(s) && Possible(s, steps) && ScansCovered(s, steps)
    ensures AllPlaced(Run(s, steps))
    decreases |steps|
  {
    if steps != [] {
      StepKeepsInv(s, steps[0]);
      StepKeepsPlaced(s, steps[0]);
      RunKeepsPlaced(Next(s, steps[0]), steps[1..]);
    }
  }

  /** While the live threads_number covers the pool during every scan, no accepted
      connection falls through, even though workers flip states mid-scan. */
  lemma NoConnectionDropped(threads: nat, port: nat, steps: seq<Step>)
    requires ValidSettings(threads, port) && Possible(Init(threads, port), steps)
    requires ScansCovered(Init(threads, port), steps)
    ensures
      var s := Run(Init(threads, port), steps);
      && (InAcceptPhase(s.pc) ==> s.sem + Permit(s.pc) + Busy(s.slots) + Posting(s.slots) == s.poolSize)
      && (forall c: nat :: c < |s.conns| ==> |s.conns[c].dispatched| == 1 || (Holds(s.pc) && s.pc.conn == c))
  {
    var s := Run(Init(threads, port), steps);
    InvReached(threads, port, steps);
    RunKeepsPlaced(Init(threads, port), steps);
    forall c: nat | c < |s.conns| ensures |s.conns[c].dispatched| == 1 || (Holds(s.pc) && s.pc.conn == c) {
      assert ConnOk(s, c);
    }
  }

  // -------------------------------------------------------- without that condition

  /** While accepting, a changed threads_number means a restart is due; a drop leaks one
      permit of a pool of two or more, after which main only gets as far as the test. */
  predicate DropOk(s: State) {
    InAcceptPhase(s.pc) ==>
      && (s.threadsNumber != |s.slots| ==> s.forceRestart)
      && (s.lost > 0 ==>
            && s.lost == 1 && s.forceRestart && |s.slots| >= 2
            && (s.pc == Inner || s.pc == Waiting || s.pc.Testing?))
  }

  lemma MainKeepsDropOk(s: State)
    requires MainOk(s) && ValidSettings(s.threadsNumber, s.portNumber) && DropOk(s) && MainEnabled(s)
    ensures DropOk(NextMain(s))
  {
    hide Quiet, Draining, Carries, Unmatched, Accepted;
    if s.pc.Scan? {
      var k: nat :| s.pc.i <= k < |s.slots| && !s.slots[k].busy;
    } else {
      hide HasFree;
    }
  }

  lemma StepKeepsDropOk(s: State, step: Step)
    requires MainOk(s) && ValidSettings(s.threadsNumber, s.portNumber) && DropOk(s) && Enabled(s, step)
    ensures DropOk(Next(s, step))
  {
    match step
    case Main => MainKeepsDropOk(s);
    case Interrupted =>
    case Worker(_) =>
    case Hangup(_, _) =>
  }

  lemma {:induction false} RunKeepsDropOk(s: State, steps: seq<Step>)
    requires Inv(s) && DropOk(s) && Possible(s, steps)
    ensures DropOk(Run(s, steps))
    decreases |steps|
  {
    hide DropOk, Enabled, Next, MainOk, SlotsOk, ConnsOk;
    if steps != [] {
      StepKeepsInv(s, steps[0]);
      StepKeepsDropOk(s, steps[0]);
      RunKeepsDropOk(Next(s, steps[0]), steps[1..]);
    }
  }

  lemma ReachableDropOk(s: State)
    requires Reachable(s)
    ensures DropOk(s)
  {
    var threads: nat, port: nat, steps: seq<Step> :|
      ValidSettings(threads, port) && Possible(Init(threads, port), steps) && Run(Init(threads, port), steps) == s;
    RunKeepsDropOk(Init(threads, port), steps);
  }

  /** Whatever the reloads, a generation drops one connection at most, and accepts no
      other after it. */
  lemma OneDropPerGeneration(s: State)
    requires Reachable(s) && InAcceptPhase(s.pc)
    ensures s.lost <= 1
    ensures s.lost == 1 ==> s.forceRestart && s.pc != Accepting && !Holds(s.pc) && s.pc != Spend
  {
    ReachableDropOk(s);
  }

  lemma {:induction false} SomeoneWorks(slots: seq<Slot>) returns (k: nat)
    requires Busy(slots) + Posting(slots) > 0
    ensures k < |slots| && (slots[k].busy || slots[k].pc == AtPost)
  {
    if slots[0].busy || slots[0].pc == AtPost {
      k := 0;
    } else {
      var j := SomeoneWorks(slots[1..]);
      k := j + 1;
    }
  }

  /** While accepting the server is never stuck: if main waits for a permit, some worker
      that will give one back can take a step. */
  lemma AcceptNotStuck(s: State)
    requires Reachable(s) && InAcceptPhase(s.pc)
    ensures MainEnabled(s) ||
      (s.pc == Waiting && exists k: nat :: WorkerEnabled(s, k) && (s.slots[k].busy || s.slots[k].pc == AtPost))
  {
    ReachableInv(s);
    ReachableDropOk(s);
    if s.pc == Waiting && s.sem == 0 {
      var k := SomeoneWorks(s.slots);
      assert SlotOk(s.slots[k], Normal, s.conns, Place(s.gen, k));
      assert WorkerEnabled(s, k);
    }
  }

  // ------------------------------------------------------------------- reloading

  /** A restart is due from the first state to the last. */
  predicate Forced(s: State, steps: seq<Step>)
    requires Possible(s, steps)
    decreases |steps|
  {
    s.forceRestart && (steps != [] ==> Forced(Next(s, steps[0]), steps[1..]))
  }

  /** While a restart is due main accepts no connection but the one it may be waiting for,
      whatever the scheduler does and however often the signal comes again. */
  lemma {:induction false} NoMoreAccepts(s: State, steps: seq<Step>)
    requires Possible(s, steps) && Forced(s, steps)
    ensures |s.conns| <= |Run(s, steps).conns| <= |s.conns| + if s.pc == Accepting then 1 else 0
    decreases |steps|
  {
    if steps != [] {
      NoMoreAccepts(Next(s, steps[0]), steps[1..]);
    }
  }

  /** Main passes through the start of a drain on this run. */
  ghost predicate Drains(s: State, steps: seq<Step>)
    requires Possible(s, steps)
    decreases |steps|
  {
    s.pc == DrainTest(0) || (steps != [] && Drains(Next(s, steps[0]), steps[1..]))
  }

  lemma {:induction false} BreaksSoon(s: State, steps: seq<Step>)
    requires Possible(s, steps) && Main in steps
    requires s.pc == DrainTest(0) || (s.pc.Testing? && s.forceRestart)
    ensures Drains(s, steps)
    decreases |steps|
  {
    if s.pc.Testing? && steps[0] != Main {
      BreaksSoon(Next(s, steps[0]), steps[1..]);
    }
  }

  /** A reload reaches a main that sleeps in sem_wait or accept: the call is interrupted,
      the next statement of main at the latest starts the drain, and no connection is
      accepted until the restart. */
  lemma InterruptedDrains(s: State, steps: seq<Step>)
    requires s.forceRestart && (s.pc == Waiting || s.pc == Accepting)
    ensures Enabled(s, Interrupted)
    ensures var s' := Next(s, Interrupted);
      Possible(s', steps) ==>
        && (Main in steps ==> Drains(s', steps))
        && (Forced(s', steps) ==> |Run(s', steps).conns| == |s.conns|)
  {
    var s' := Next(s, Interrupted);
    if Possible(s', steps) {
      if Main in steps {
        BreaksSoon(s', steps);
      }
      if Forced(s', steps) {
        NoMoreAccepts(s', steps);
      }
    }
  }

  /** While accepting with no restart due, the listening port is the one of the settings. */
  predicate PortOk(s: State) {
    InAcceptPhase(s.pc) && s.lastPort != s.portNumber ==> s.forceRestart
  }

  lemma {:induction false} RunKeepsPortOk(s: State, steps: seq<Step>)
    requires PortOk(s) && Possible(s, steps)
    ensures PortOk(Run(s, steps))
    decreases |steps|
  {
    if steps != [] {
      StepKeepsPortOk(s, steps[0]);
      hide Enabled, Next, PortOk;
      RunKeepsPortOk(Next(s, steps[0]), steps[1..]);
    }
  }

  lemma StepKeepsPortOk(s: State, step: Step)
    requires PortOk(s) && Enabled(s, step)
    ensures PortOk(Next(s, step))
  {
  }

  /** While accepting with no restart due, the pool is as large as the settings say, and
      listens on their port. */
  lemma SettingsInForce(s: State)
    requires Reachable(s) && InAcceptPhase(s.pc) && !s.forceRestart
    ensures |s.slots| == s.poolSize == s.threadsNumber && s.listening == multiset{s.portNumber as int}
  {
    ReachableInv(s);
    ReachableDropOk(s);
    var threads: nat, port: nat, steps: seq<Step> :|
      ValidSettings(threads, port) && Possible(Init(threads, port), steps) && Run(Init(threads, port), steps) == s;
    RunKeepsPortOk(Init(threads, port), steps);
  }

  predicate NoSignals(steps: seq<Step>) { forall i :: 0 <= i < |steps| ==> !steps[i].Hangup? }

  lemma {:induction false} SettingsStay(s: State, steps: seq<Step>)
    requires Possible(s, steps) && NoSignals(steps)
    ensures Run(s, steps).threadsNumber == s.threadsNumber && Run(s, steps).portNumber == s.portNumber
    decreases |steps|
  {
    if steps != [] {
      assert !steps[0].Hangup?;
      SettingsStay(Next(s, steps[0]), steps[1..]);
    }
  }

  lemma {:induction false} ReachRun(s: State, steps: seq<Step>)
    requires Reachable(s) && Possible(s, steps)
    ensures Reachable(Run(s, steps))
    decreases |steps|
  {
    hide Reachable, Next, Enabled;
    if steps != [] {
      ReachStep(s, steps[0]);
      ReachRun(Next(s, steps[0]), steps[1..]);
    }
  }

  /** After a reload with these settings, and no other one, main accepts either with the
      restart still due, or with a pool of that size on that port. */
  lemma ReloadTakesEffect(s: State, threads: nat, port: nat, steps: seq<Step>)
    requires Reachable(s) && Enabled(s, Hangup(threads, port))
    requires Possible(Next(s, Hangup(threads, port)), steps) && NoSignals(steps)
    ensures Next(s, Hangup(threads, port)).forceRestart
    ensures var s' := Run(Next(s, Hangup(threads, port)), steps);
      InAcceptPhase(s'.pc) && !s'.forceRestart ==>
        |s'.slots| == s'.poolSize == threads && s'.listening == multiset{port as int}
  {
    var s0 := Next(s, Hangup(threads, port));
    ReachStep(s, Hangup(threads, port));
    ReachRun(s0, steps);
    SettingsStay(s0, steps);
    var s' := Run(s0, steps);
    if InAcceptPhase(s'.pc) && !s'.forceRestart {
      SettingsInForce(s');
    }
  }

  /** Main accepts from the first state to the last. */
  predicate AcceptRun(s: State, steps: seq<Step>)
    requires Possible(s, steps)
    decreases |steps|
  {
    InAcceptPhase(s.pc) && (steps != [] ==> AcceptRun(Next(s, steps[0]), steps[1..]))
  }

  /** The steps the worker of slot k takes, and those of them that post. */
  function Own(steps: seq<Step>, k: nat): nat {
    if steps == [] then 0 else (if steps[0] == Worker(k) then 1 else 0) + Own(steps[1..], k)
  }

  function Posts(s: State, steps: seq<Step>, k: nat): nat
    requires Possible(s, steps)
    decreases |steps|
  {
    if steps == [] then 0
    else
      (if steps[0] == Worker(k) && s.slots[k].pc == AtPost then 1 else 0)
      + Posts(Next(s, steps[0]), steps[1..], k)
  }

  function ToPost(pc: WorkerPc): nat {
    match pc
    case AtLock => 6
    case AtCheck => 5
    case AtServe => 4
    case AtClearFd => 3
    case AtClearState => 2
    case AtPost => 1
    case Exited => 0
  }

  lemma OwnStep(s: State, step: Step, k: nat)
    requires Inv(s) && Enabled(s, step) && InAcceptPhase(s.pc) && InAcceptPhase(Next(s, step).pc) && k < |s.slots|
    ensures |Next(s, step).slots| == |s.slots| && ToPost(s.slots[k].pc) > 0
    ensures ToPost(Next(s, step).slots[k].pc) ==
      if step != Worker(k) then ToPost(s.slots[k].pc)
      else if s.slots[k].pc == AtPost then 6 else ToPost(s.slots[k].pc) - 1
  {
    assert SlotOk(s.slots[k], RoleOf(s.pc, s.merged, k), s.conns, Place(s.gen, k));
    hide SlotsOk, ConnsOk, PermitsOk, BudgetOk, MainOk;
  }

  /** While main accepts, a worker gives a permit back with every sixth step of its own,
      whatever the others do; a dispatched one within six. */
  lemma {:induction false} PostsEverySixth(s: State, steps: seq<Step>, k: nat)
    requires Inv(s) && Possible(s, steps) && AcceptRun(s, steps) && k < |s.slots|
    ensures var s' := Run(s, steps);
      && k < |s'.slots| && ToPost(s'.slots[k].pc) > 0
      && Own(steps, k) == 6 * Posts(s, steps, k) + ToPost(s.slots[k].pc) - ToPost(s'.slots[k].pc)
    ensures Own(steps, k) >= ToPost(s.slots[k].pc) ==> Posts(s, steps, k) >= 1
    decreases |steps|
  {
    hide Inv, Enabled, Next;
    if steps == [] {
      AcceptingWorker(s, k);
    } else {
      OwnStep(s, steps[0], k);
      StepKeepsInv(s, steps[0]);
      PostsEverySixth(Next(s, steps[0]), steps[1..], k);
    }
  }

  lemma AcceptingWorker(s: State, k: nat)
    requires Inv(s) && InAcceptPhase(s.pc) && k < |s.slots|
    ensures ToPost(s.slots[k].pc) > 0
  {
    assert SlotOk(s.slots[k], RoleOf(s.pc, s.merged, k), s.conns, Place(s.gen, k));
  }

  // ---------------------------------------------------------- service and restart

  /** At any time a connection has been dispatched, served and closed at most once,
      each time by the same worker, and two unfinished ones sit in different slots. */
  lemma ServedAtMostOnce(s: State, c: nat, d: nat)
    requires Reachable(s) && c < |s.conns| && d < |s.conns|
    ensures
      var h := s.conns[c];
      && |h.dispatched| <= 1
      && (h.served == [] || h.served == h.dispatched)
      && (h.closed == [] || h.closed == h.served)
    ensures
      var h, g := s.conns[c], s.conns[d];
      c != d && h.dispatched != [] && h.closed == [] && g.dispatched != [] && g.closed == []
      ==> h.dispatched[0].slot != g.dispatched[0].slot
  {
    ReachableInv(s);
    assert ConnOk(s, c) && ConnOk(s, d);
  }

  /** All joins of the last pool have returned. */
  predicate AllJoined(pc: MainPc) {
    pc == Freeing || pc == ClosePort || pc == Leave || pc == Reset || pc == Outer || pc == Done
  }

  /** After the joins every dispatched connection has been served and closed exactly
      once, and no worker is left to touch the freed array. */
  lemma PoolFinished(s: State)
    requires Reachable(s) && AllJoined(s.pc)
    ensures forall c: nat :: c < |s.conns| ==>
      s.conns[c] == UNTOUCHED ||
      (|s.conns[c].dispatched| == 1 && s.conns[c].served == s.conns[c].dispatched == s.conns[c].closed)
    ensures forall k: nat :: !WorkerEnabled(s, k)
  {
    ReachableInv(s);
    forall k: nat | k < |s.slots| ensures s.slots[k].fd == MinusOne && s.slots[k].pc == Exited {
      assert SlotOk(s.slots[k], Gone, s.conns, Place(s.gen, k));
    }
    forall c: nat | c < |s.conns|
      ensures s.conns[c] == UNTOUCHED ||
        (|s.conns[c].dispatched| == 1 && s.conns[c].served == s.conns[c].dispatched == s.conns[c].closed)
    {
      assert ConnOk(s, c);
    }
  }

  /** Dispatching is the only thing that spends the budget, across all generations. */
  lemma BudgetConserved(s: State)
    requires Reachable(s)
    ensures s.max + Dispatched(s.conns) == MAX_ACCEPT + if s.pc == Spend then 1 else 0
    ensures s.max >= 0
    ensures s.pc == Leave ==> (NextMain(s).pc == Done <==> s.max == 0)
    ensures s.pc == Outer ==> s.max > 0
    ensures s.pc == Done ==> Dispatched(s.conns) == MAX_ACCEPT
  {
    ReachableInv(s);
  }

  /** A pool starts with as many permits as slots, the setting read at its creation,
      all slots idle with their mutex held, and nothing of earlier pools running. */
  lemma FreshGeneration(s: State)
    requires Reachable(s) && s.pc == Binding
    ensures s.sem == |s.slots| == s.threadsNumber && !s.forceRestart
    ensures forall k :: 0 <= k < |s.slots| ==> s.slots[k] == Slot(false, Unset, true, AtLock)
    ensures forall c: nat :: c < |s.conns| ==>
      s.conns[c] == UNTOUCHED || s.conns[c].closed == s.conns[c].dispatched
    ensures NextMain(s).poolSize == |s.slots| && NextMain(s).lastPort == s.portNumber
  {
    ReachableInv(s);
    forall c: nat | c < |s.conns|
      ensures s.conns[c] == UNTOUCHED || s.conns[c].closed == s.conns[c].dispatched
    {
      assert ConnOk(s, c);
    }
  }

  /** While a pool lives there is exactly one listening socket, on last_port_number;
      before the next one is bound it is either that one, kept, or none. */
  lemma OneListener(s: State)
    requires Reachable(s)
    ensures InAcceptPhase(s.pc) ==> s.listening == multiset{s.lastPort} && 0 < s.lastPort <= MAX_PORT_NUMBER
    ensures s.pc == Binding ==>
      s.listening == if s.lastPort == s.portNumber then multiset{s.lastPort} else multiset{}
    ensures |s.listening| <= 1
  {
    ReachableInv(s);
  }
}
