/**
  Closing a pool down: when the joins return, and exactly when they do not.

  The drain unlocks every slot's mutex once.  If a slot was dispatched and its worker
  has not yet taken the mutex, the two unlocks merge: the worker serves, comes back to
  the lock and sleeps for ever, and so does main in pthread_join.  That can happen at a
  restart, and at the end of the server, where no signal is needed.
*/
module PoolDrain {
  import opened PoolModel
  import opened PoolInvariant
  import opened PoolSafety
  import opened PoolTheorems

  predicate InDrain(pc: MainPc) {
    pc.DrainTest? || pc.DrainClear? || pc.DrainUnlock? || pc.Join?
  }

  /** Main stays in this drain, from the first state to the last. */
  predicate DrainRun(s: State, steps: seq<Step>)
    requires Possible(s, steps)
    decreases |steps|
  {
    InDrain(s.pc) && (steps != [] ==> DrainRun(Next(s, steps[0]), steps[1..]))
  }

  /** The steps of main and of workers, not counting signals. */
  function Moves(steps: seq<Step>): nat {
    if steps == [] then 0 else (if steps[0].Hangup? then 0 else 1) + Moves(steps[1..])
  }

  // -------------------------------------------------------------------- progress

  function Rank(pc: WorkerPc): nat {
    match pc
    case AtCheck => 6
    case AtServe => 5
    case AtClearFd => 4
    case AtClearState => 3
    case AtPost => 2
    case AtLock => 1
    case Exited => 0
  }

  /** An unlocked mutex lets its worker go round once more. */
  function SlotWeight(w: Slot): nat { Rank(w.pc) + if w.locked then 0 else 8 }

  function MainWeight(pc: MainPc, n: nat): int {
    match pc
    case DrainTest(i) => 16 * (n - i) + 3
    case DrainClear(i) => 16 * (n - i) + 2
    case DrainUnlock(i) => 16 * (n - i) + 1
    case Join(i) => 16 * (n - i) - 9
    case _ => 0
  }

  function Measure(s: State): int {
    MainWeight(s.pc, |s.slots|) + Sum(s.slots, SlotWeight)
  }

  lemma WorkerMeasure(s: State, k: nat)
    requires WorkerEnabled(s, k)
    ensures Measure(NextWorker(s, k)) < Measure(s)
  {
    SumUpdate(s.slots, SlotWeight, k, NextSlot(s.slots[k]));
  }

  lemma MainMeasure(s: State)
    requires MainOk(s) && MainEnabled(s) && InDrain(s.pc) && InDrain(NextMain(s).pc)
    ensures Measure(NextMain(s)) < Measure(s)
  {
    var s' := NextMain(s);
    if s.pc.DrainClear? || s.pc.DrainUnlock? {
      SumUpdate(s.slots, SlotWeight, s.pc.i, s'.slots[s.pc.i]);
    }
  }

  lemma MeasureDecreases(s: State, step: Step)
    requires MainOk(s) && Enabled(s, step) && InDrain(s.pc) && InDrain(Next(s, step).pc)
    ensures Measure(Next(s, step)) + (if step.Hangup? then 0 else 1) <= Measure(s)
  {
    match step
    case Worker(k) => WorkerMeasure(s, k);
    case Main => MainMeasure(s);
    case _ =>
  }

  /** A drain takes at most Measure(s) steps, whatever the scheduler does. */
  lemma {:induction false} DrainBounded(s: State, steps: seq<Step>)
    requires Inv(s) && Possible(s, steps) && DrainRun(s, steps)
    ensures 0 <= Measure(Run(s, steps)) && Moves(steps) + Measure(Run(s, steps)) <= Measure(s)
    decreases |steps|
  {
    if steps != [] {
      MeasureDecreases(s, steps[0]);
      StepKeepsInv(s, steps[0]);
      DrainBounded(Next(s, steps[0]), steps[1..]);
    }
  }

  /** As long as no unlock has merged, main or the worker it waits for can move. */
  lemma DrainNotStuck(s: State)
    requires Inv(s) && InDrain(s.pc) && !s.merged
    ensures Enabled(s, Main) || Enabled(s, Worker(s.pc.i))
  {
    if s.pc.Join? {
      assert SlotOk(s.slots[s.pc.i], Joining(false), s.conns, Place(s.gen, s.pc.i));
    }
  }

  // --------------------------------------------------------------------- merging

  /** A drain unlock merges exactly when the slot is dispatched and still untaken. */
  lemma MergesExactlyWhenUntaken(s: State)
    requires Reachable(s) && s.pc.DrainUnlock?
    ensures s.pc.i < |s.slots|
    ensures NextMain(s).merged <==> s.slots[s.pc.i].busy && Home(s.slots[s.pc.i].pc)
  {
    ReachableInv(s);
    assert SlotOk(s.slots[s.pc.i], Unlocking, s.conns, Place(s.gen, s.pc.i));
  }

  lemma MergedStays(s: State, step: Step)
    requires Inv(s) && s.merged && Enabled(s, step)
    ensures Next(s, step).merged && Next(s, step).pc == s.pc
  {
    assert SlotOk(s.slots[s.pc.i], Joining(true), s.conns, Place(s.gen, s.pc.i));
  }

  /** After a merge main is in that pthread_join for ever. */
  lemma {:induction false} MergedNeverReturns(s: State, steps: seq<Step>)
    requires Inv(s) && s.merged && Possible(s, steps)
    ensures Run(s, steps).pc == s.pc && s.pc.Join?
    decreases |steps|
  {
    if steps != [] {
      MergedStays(s, steps[0]);
      StepKeepsInv(s, steps[0]);
      MergedNeverReturns(Next(s, steps[0]), steps[1..]);
    }
  }

  /** Every worker of the pool has taken its mutex since its last dispatch. */
  ghost predicate AllTaken(s: State) {
    forall k: nat :: k < |s.slots| ==> s.slots[k].locked
  }

  /** The mutexes main has still to unlock are locked. */
  ghost predicate RestTaken(s: State)
    requires InDrain(s.pc)
  {
    forall k: nat :: k < |s.slots| && (k > s.pc.i || (k == s.pc.i && !s.pc.Join?)) ==> s.slots[k].locked
  }

  lemma {:induction false} TakenNeverMerges(s: State, steps: seq<Step>)
    requires Inv(s) && Possible(s, steps) && DrainRun(s, steps)
    requires InDrain(s.pc) && RestTaken(s) && !s.merged
    ensures !Run(s, steps).merged
    decreases |steps|
  {
    if steps != [] {
      TakenStep(s, steps[0]);
      StepKeepsInv(s, steps[0]);
      TakenNeverMerges(Next(s, steps[0]), steps[1..]);
    }
  }

  lemma TakenStep(s: State, step: Step)
    requires Enabled(s, step) && InDrain(s.pc) && InDrain(Next(s, step).pc)
    requires RestTaken(s) && !s.merged
    ensures RestTaken(Next(s, step)) && !Next(s, step).merged
  {
  }

  lemma {:induction false} DrainAppend(s: State, first: seq<Step>, second: seq<Step>)
    requires Possible(s, first) && Possible(Run(s, first), second)
    requires DrainRun(s, first) && DrainRun(Run(s, first), second)
    ensures Possible(s, first + second) && Run(s, first + second) == Run(Run(s, first), second)
    ensures DrainRun(s, first + second)
    decreases |first|
  {
    hide Next, Enabled, InDrain;
    if first == [] {
      assert first + second == second;
    } else {
      assert (first + second)[1..] == first[1..] + second;
      DrainAppend(Next(s, first[0]), first[1..], second);
    }
  }

  ghost predicate SameAfter(s: State, s': State, i: nat) {
    |s'.slots| == |s.slots| && forall j :: i < j < |s.slots| ==> s'.slots[j] == s.slots[j]
  }

  /** Main or the worker it waits for takes one step towards leaving slot i. */
  lemma DrainOneStep(s: State, i: nat) returns (step: Step)
    requires Inv(s) && InDrain(s.pc) && !s.merged && i < |s.slots| && s.pc.i == i
    ensures Enabled(s, step) && InDrain(Next(s, step).pc) && !step.Hangup?
    ensures var s' := Next(s, step);
      (s'.pc == DrainTest(i + 1) || s'.pc.i == i) && SameAfter(s, s', i)
  {
    DrainNotStuck(s);
    step := if MainEnabled(s) then Main else Worker(i);
  }

  /** Main and the worker of slot i, scheduled alone, get main past that slot or merge,
      and leave the later slots as they are. */
  lemma {:induction false} DrainOneSlot(s: State, i: nat) returns (steps: seq<Step>)
    requires Inv(s) && InDrain(s.pc) && !s.merged && i < |s.slots|
    requires s.pc == DrainTest(i + 1) || s.pc.i == i
    ensures Possible(s, steps) && DrainRun(s, steps) && NoSignals(steps)
    ensures var s' := Run(s, steps);
      Inv(s') && SameAfter(s, s', i) && (s'.merged || s'.pc == DrainTest(i + 1))
    decreases Measure(s)
  {
    hide Enabled, Next, SlotsOk, ConnsOk, PermitsOk, BudgetOk, MainOk;
    if s.pc == DrainTest(i + 1) {
      steps := [];
    } else {
      var step := DrainOneStep(s, i);
      var s' := Next(s, step);
      StepKeepsInv(s, step);
      MeasureDecreases(s, step);
      DrainBounded(s', []);
      var rest := [];
      if !s'.merged {
        rest := DrainOneSlot(s', i);
      }
      steps := [step] + rest;
      assert steps[1..] == rest;
    }
  }

  /** With an untaken slot ahead, some schedule merges, without any signal. */
  lemma {:induction false} UntakenCanMerge(s: State, i: nat, k: nat) returns (steps: seq<Step>)
    requires Inv(s) && s.pc == DrainTest(i) && !s.merged && i <= k < |s.slots| && !s.slots[k].locked
    ensures Possible(s, steps) && DrainRun(s, steps) && NoSignals(steps) && Run(s, steps).merged
    decreases k - i
  {
    if i < k {
      var first := DrainOneSlot(s, i);
      var s' := Run(s, first);
      if s'.merged {
        steps := first;
      } else {
        var second := UntakenCanMerge(s', i + 1, k);
        DrainAppend(s, first, second);
        steps := first + second;
      }
    } else {
      assert SlotOk(s.slots[k], Normal, s.conns, Place(s.gen, k));
      steps := [Main, Main];
      assert steps[1..] == [Main] && [Main][1..] == [];
      var s1 := NextMain(s);
      assert s1.pc == DrainUnlock(k);
      assert Possible(s1, [Main]) && Run(s1, [Main]).merged;
    }
  }

  lemma {:induction false} LastInDrain(s: State, steps: seq<Step>)
    requires Possible(s, steps) && DrainRun(s, steps)
    ensures InDrain(Run(s, steps).pc)
    decreases |steps|
  {
    if steps != [] {
      LastInDrain(Next(s, steps[0]), steps[1..]);
    }
  }

  /** Main, or the worker whose exit it waits for, can take a step of the drain. */
  predicate CanMove(s: State) {
    InDrain(s.pc) && (Enabled(s, Main) || Enabled(s, Worker(s.pc.i)))
  }

  /** The drain has neither merged two unlocks nor got stuck, and is this much shorter. */
  predicate OnTheWay(s: State, steps: seq<Step>)
    requires Possible(s, steps)
  {
    !Run(s, steps).merged && CanMove(Run(s, steps)) && Moves(steps) <= Measure(s)
  }

  lemma TakenDrain(s: State, steps: seq<Step>)
    requires Inv(s) && s.pc == DrainTest(0) && AllTaken(s)
    requires Possible(s, steps) && DrainRun(s, steps)
    ensures OnTheWay(s, steps)
  {
    TakenNeverMerges(s, steps);
    DrainBounded(s, steps);
    RunKeepsInv(s, steps);
    LastInDrain(s, steps);
    DrainNotStuck(Run(s, steps));
  }

  /** The drain is certain to end exactly when, at its start, every worker has taken
      its mutex.  Then no schedule merges, some step is always possible, and only
      Measure(s) are left; otherwise some schedule leaves main joining for ever. */
  lemma DrainEndsIffTaken(s: State)
    requires Reachable(s) && s.pc == DrainTest(0)
    ensures AllTaken(s) ==>
      forall steps: seq<Step> :: Possible(s, steps) && DrainRun(s, steps) ==> OnTheWay(s, steps)
    ensures !AllTaken(s) ==>
      exists steps: seq<Step> :: Possible(s, steps) && DrainRun(s, steps) && NeverReturns(Run(s, steps))
  {
    ReachableInv(s);
    if AllTaken(s) {
      forall steps: seq<Step> | Possible(s, steps) && DrainRun(s, steps) ensures OnTheWay(s, steps) {
        TakenDrain(s, steps);
      }
    } else {
      var k: nat :| k < |s.slots| && !s.slots[k].locked;
      var steps := UntakenCanMerge(s, 0, k);
      RunKeepsInv(s, steps);
      MergedIsFinal(Run(s, steps));
    }
  }

  /** Whatever happens next, main stays in the pthread_join it is in. */
  ghost predicate NeverReturns(s: State) {
    s.pc.Join? && forall steps: seq<Step> :: Possible(s, steps) ==> Run(s, steps).pc == s.pc
  }

  lemma MergedIsFinal(s: State)
    requires Inv(s) && s.merged
    ensures NeverReturns(s)
  {
    forall steps: seq<Step> | Possible(s, steps) ensures Run(s, steps).pc == s.pc {
      MergedNeverReturns(s, steps);
    }
  }

  // ------------------------------------------------------------------- restarting

  /** A signal may land whenever main accepts or takes a pool down, and leave any settings
      that are valid. */
  lemma SignalAnywhere(s: State, threads: nat, port: nat)
    requires InAcceptPhase(s.pc) || InDrain(s.pc) || s.pc == Freeing || s.pc == ClosePort
    requires 1 <= threads <= 256 && 1 <= port <= 65535
    ensures Enabled(s, Hangup(threads, port))
  {
  }

  /** What a drain leaves alone. */
  predicate SameServer(s: State, s': State) {
    s'.connFd == s.connFd && s'.max == s.max && s'.gen == s.gen && s'.merged == s.merged
  }

  lemma DrainStep(s: State) returns (step: Step)
    requires Inv(s) && InDrain(s.pc) && RestTaken(s) && !s.merged
    ensures Enabled(s, step) && !step.Hangup?
    ensures var s' := Next(s, step);
      SameServer(s, s') && (s'.pc == Freeing || (InDrain(s'.pc) && RestTaken(s')))
  {
    hide SlotsOk, ConnsOk, PermitsOk, BudgetOk;
    DrainNotStuck(s);
    step := if MainEnabled(s) then Main else Worker(s.pc.i);
    if InDrain(Next(s, step).pc) {
      TakenStep(s, step);
    }
  }

  lemma {:induction false} DrainCompletes(s: State) returns (steps: seq<Step>)
    requires Inv(s) && InDrain(s.pc) && RestTaken(s) && !s.merged
    ensures Possible(s, steps) && NoSignals(steps)
    ensures Run(s, steps).pc == Freeing && SameServer(s, Run(s, steps))
    decreases Measure(s)
  {
    var step := DrainStep(s);
    hide Enabled, Next, SlotsOk, ConnsOk, PermitsOk, BudgetOk, MainOk, RestTaken, Measure;
    var s' := Next(s, step);
    var rest := [];
    if s'.pc != Freeing {
      StepKeepsInv(s, step);
      MeasureDecreases(s, step);
      DrainBounded(s', []);
      rest := DrainCompletes(s');
    }
    steps := [step] + rest;
    assert steps[1..] == rest;
  }

  /** The way from a drained pool back to accepting. */
  predicate Restarting(s: State) {
    match s.pc
    case Freeing => s.connFd == MinusOne && s.max > 0
    case ClosePort => s.connFd == MinusOne && s.max > 0
    case Leave => s.connFd == MinusOne && s.max > 0
    case Reset => s.max > 0
    case Outer => s.max > 0 && !s.forceRestart
    case Creating(i) => s.max > 0 && !s.forceRestart
    case Binding => s.max > 0 && !s.forceRestart
    case _ => false
  }

  function SetUpRank(s: State): nat {
    match s.pc
    case Freeing => s.threadsNumber + 8
    case ClosePort => s.threadsNumber + 7
    case Leave => s.threadsNumber + 6
    case Reset => s.threadsNumber + 5
    case Outer => s.threadsNumber + 4
    case Creating(i) => if i <= s.threadsNumber then s.threadsNumber - i + 2 else 2
    case _ => 0
  }

  /** The generation of the pool that is set up next, or is being set up. */
  function ComingGen(s: State): nat {
    if s.pc.Creating? || s.pc == Binding || s.pc == Inner then s.gen else s.gen + 1
  }

  lemma RestartStep(s: State)
    requires Restarting(s)
    ensures Enabled(s, Main)
    ensures var s' := Next(s, Main);
      && s'.max == s.max && ComingGen(s') == ComingGen(s)
      && if s'.pc == Inner then !s'.forceRestart else Restarting(s') && SetUpRank(s') < SetUpRank(s)
  {
  }

  lemma {:induction false} SetUpCompletes(s: State) returns (steps: seq<Step>)
    requires Restarting(s)
    ensures Possible(s, steps) && NoSignals(steps)
    ensures var s' := Run(s, steps);
      s'.pc == Inner && !s'.forceRestart && s'.max == s.max && s'.gen == ComingGen(s)
    decreases SetUpRank(s)
  {
    RestartStep(s);
    hide Enabled, Next, Restarting, SetUpRank;
    var s' := Next(s, Main);
    var rest := [];
    if s'.pc != Inner {
      rest := SetUpCompletes(s');
    }
    steps := [Main] + rest;
    assert steps[1..] == rest;
  }

  /** A restart whose drain starts with every mutex taken can be completed: main accepts
      again, with a new pool as large as the settings say, on their port, and with as
      many connections left to accept. */
  lemma RestartCompletes(s: State) returns (steps: seq<Step>)
    requires Reachable(s) && s.pc == DrainTest(0) && AllTaken(s) && s.connFd == MinusOne
    ensures Possible(s, steps) && NoSignals(steps)
    ensures var s' := Run(s, steps);
      && s'.pc == Inner && !s'.forceRestart && s'.gen == s.gen + 1 && s'.max == s.max
      && |s'.slots| == s.threadsNumber && s'.listening == multiset{s.portNumber as int}
  {
    ReachableInv(s);
    var first := DrainCompletes(s);
    var freeing := Run(s, first);
    hide Enabled, Next, Inv, Reachable;
    ReachRun(s, first);
    MaxLeft(s);
    var second := SetUpCompletes(freeing);
    LeadsOn(s, first, freeing, second, Run(freeing, second));
    steps := first + second;
    ReachRun(s, steps);
    SettingsStay(s, steps);
    SettingsInForce(Run(s, steps));
  }

  lemma MaxLeft(s: State)
    requires Reachable(s) && s.pc == DrainTest(0) && s.connFd == MinusOne
    ensures s.max > 0
  {
    ReachableInv(s);
  }

  // ------------------------------------------------------------------- witnesses

  lemma {:induction false} LeadsOn(s: State, first: seq<Step>, middle: State, second: seq<Step>, s': State)
    requires Leads(s, first, middle) && Leads(middle, second, s')
    ensures Leads(s, first + second, s')
    decreases |first|
  {
    hide Next, Enabled;
    if first == [] {
      assert first + second == second;
    } else {
      LeadsOn(Next(s, first[0]), first[1..], middle, second, s');
      Prepend(s, first[0], first[1..] + second, s');
      assert first + second == [first[0]] + (first[1..] + second);
    }
  }

  lemma MainsOn(s: State, m: nat, middle: State, n: nat, s': State)
    requires Leads(s, Mains(m), middle) && Leads(middle, Mains(n), s')
    ensures Leads(s, Mains(m + n), s')
  {
    LeadsOn(s, Mains(m), middle, Mains(n), s');
    assert Mains(m) + Mains(n) == Mains(m + n);
  }

  lemma MainLeads(s: State, s': State)
    requires MainEnabled(s) && NextMain(s) == s'
    ensures Leads(s, Mains(1), s')
  {
    assert Leads(s', [], s');
    Prepend(s, Main, [], s');
    assert [Main] + [] == Mains(1);
  }

  const IDLE_SLOT := Slot(false, Unset, true, AtLock)

  const PORT: nat := 8888

  /** A server that is creating its slots. */
  function Starting(threads: nat, i: nat): State {
    Init(threads, PORT).(pc := Creating(i), sem := threads, slots := seq(i, _ => IDLE_SLOT), gen := 1)
  }

  /** Main waits for a permit after d dispatches, none of which a worker has noticed. */
  function Serving(threads: nat, d: nat): State
    requires d <= threads
  {
    Init(threads, PORT).(
      pc := Waiting, sem := threads - d, max := MAX_ACCEPT - d, gen := 1, poolSize := threads,
      lastPort := PORT, listening := multiset{PORT as int}, connFd := if d == 0 then Unset else Sock(d - 1),
      slots := seq(threads, j => if 0 <= j < d then Slot(true, Sock(j), false, AtLock) else IDLE_SLOT),
      conns := seq(d, j requires 0 <= j => History([Place(1, j)], [], [])))
  }

  /** The next connection is accepted, and main scans for a slot. */
  function Scanning(threads: nat, d: nat): State
    requires d < threads
  {
    var s := Serving(threads, d);
    s.(pc := Scan(0, d), sem := threads - d - 1, connFd := Sock(d), conns := s.conns + [UNTOUCHED])
  }

  /** The connection is in slot d, whose mutex is still locked. */
  function Filled(threads: nat, d: nat): State
    requires d < threads
  {
    var s := Scanning(threads, d);
    s.(pc := Release(d, d), slots := s.slots[d := Slot(true, Sock(d), true, AtLock)])
  }

  lemma {:induction false} CreatingLeads(threads: nat, i: nat)
    requires i <= threads
    ensures Leads(Starting(threads, i), Mains(threads - i), Starting(threads, threads))
    decreases threads - i
  {
    if i < threads {
      var s' := NextMain(Starting(threads, i));
      assert s'.slots == Starting(threads, i + 1).slots;
      MainLeads(Starting(threads, i), Starting(threads, i + 1));
      CreatingLeads(threads, i + 1);
      MainsOn(Starting(threads, i), 1, Starting(threads, i + 1), threads - i - 1, Starting(threads, threads));
    }
  }

  lemma ServingStarts(threads: nat) returns (n: nat)
    requires threads > 0
    ensures Leads(Init(threads, PORT), Mains(n), Serving(threads, 0))
  {
    var s := Init(threads, PORT);
    assert Starting(threads, 0).slots == [];
    MainLeads(s, Starting(threads, 0));
    CreatingLeads(threads, 0);
    MainsOn(s, 1, Starting(threads, 0), threads, Starting(threads, threads));
    var s1 := NextMain(Starting(threads, threads));
    var s2 := NextMain(s1);
    assert multiset{} + multiset{PORT as int} == multiset{PORT as int};
    var s3 := NextMain(s2);
    assert s3.slots == Serving(threads, 0).slots && s3.conns == Serving(threads, 0).conns;
    MainLeads(Starting(threads, threads), s1);
    MainLeads(s1, s2);
    MainLeads(s2, s3);
    MainsOn(s1, 1, s2, 1, s3);
    MainsOn(Starting(threads, threads), 1, s1, 2, s3);
    MainsOn(s, threads + 1, Starting(threads, threads), 3, s3);
    n := threads + 4;
  }

  lemma AcceptLeads(threads: nat, d: nat)
    requires d < threads
    ensures Leads(Serving(threads, d), Mains(3), Scanning(threads, d))
  {
    var s := Serving(threads, d);
    var s1 := NextMain(s);
    var s2 := NextMain(s1);
    var s3 := NextMain(s2);
    assert s3 == Scanning(threads, d);
    MainLeads(s, s1);
    MainLeads(s1, s2);
    MainLeads(s2, s3);
    MainsOn(s1, 1, s2, 1, s3);
    MainsOn(s, 1, s1, 2, s3);
  }

  lemma {:induction false} FirstFreeIs(slots: seq<Slot>, i: nat, k: nat)
    requires i <= k < |slots| && !slots[k].busy && forall j :: i <= j < k ==> slots[j].busy
    ensures FirstFree(slots, i) == k
    decreases k - i
  {
    if i < k {
      FirstFreeIs(slots, i + 1, k);
    }
  }

  /** The scan has found slot d. */
  function Claimed(threads: nat, d: nat): State
    requires d < threads
  {
    Scanning(threads, d).(pc := Claim(d, d))
  }

  lemma ScanLeads(threads: nat, d: nat)
    requires d < threads
    ensures Leads(Scanning(threads, d), Mains(d + 1), Claimed(threads, d))
  {
    hide Enabled, Next;
    var s := Scanning(threads, d);
    FirstFreeIs(s.slots, 0, d);
    ScanAlone(s, d);
  }

  lemma FillLeads(threads: nat, d: nat)
    requires d < threads
    ensures Leads(Claimed(threads, d), Mains(2), Filled(threads, d))
  {
    var s := Claimed(threads, d);
    var s1 := NextMain(s);
    var s2 := NextMain(s1);
    assert s2.slots == Filled(threads, d).slots;
    MainLeads(s, s1);
    MainLeads(s1, s2);
    MainsOn(s, 1, s1, 1, s2);
  }

  lemma ReleaseLeads(threads: nat, d: nat)
    requires d < threads && d + 1 < MAX_ACCEPT
    ensures Leads(Filled(threads, d), Mains(3), Serving(threads, d + 1))
  {
    var s := Filled(threads, d);
    var s1 := NextMain(s);
    var s2 := NextMain(s1);
    var s3 := NextMain(s2);
    assert [] + [Place(1, d)] == [Place(1, d)];
    assert s3.slots == Serving(threads, d + 1).slots && s3.conns == Serving(threads, d + 1).conns;
    MainLeads(s, s1);
    MainLeads(s1, s2);
    MainLeads(s2, s3);
    MainsOn(s1, 1, s2, 1, s3);
    MainsOn(s, 1, s1, 2, s3);
  }

  lemma {:induction false} ServingLeads(threads: nat, d: nat) returns (n: nat)
    requires threads > 0 && d <= threads && d < MAX_ACCEPT
    ensures Leads(Init(threads, PORT), Mains(n), Serving(threads, d))
    decreases d
  {
    hide NextMain, MainEnabled, Leads;
    if d == 0 {
      n := ServingStarts(threads);
    } else {
      var m := FilledLeads(threads, d - 1);
      ReleaseLeads(threads, d - 1);
      MainsOn(Init(threads, PORT), m, Filled(threads, d - 1), 3, Serving(threads, d));
      n := m + 3;
    }
  }

  /** With main running alone, the first d + 1 connections go to the first slots. */
  lemma {:induction false} FilledLeads(threads: nat, d: nat) returns (n: nat)
    requires d < threads && d < MAX_ACCEPT
    ensures Leads(Init(threads, PORT), Mains(n), Filled(threads, d))
    decreases d + 1, 0
  {
    hide NextMain, MainEnabled, Leads;
    var m := ServingLeads(threads, d);
    AcceptLeads(threads, d);
    ScanLeads(threads, d);
    FillLeads(threads, d);
    MainsOn(Scanning(threads, d), d + 1, Claimed(threads, d), 2, Filled(threads, d));
    MainsOn(Serving(threads, d), 3, Scanning(threads, d), d + 3, Filled(threads, d));
    MainsOn(Init(threads, PORT), m, Serving(threads, d), d + 6, Filled(threads, d));
    n := m + d + 6;
  }

  lemma LedIsReachable(threads: nat, n: nat, s: State)
    requires 0 < threads <= MAX_THREADS_NUM && Leads(Init(threads, PORT), Mains(n), s)
    ensures Reachable(s)
  {
  }

  lemma RestartMerges(s0: State) returns (s: State)
    requires Reachable(s0) && s0.pc == Testing(false) && s0.forceRestart && s0.poolSize == 1
    requires |s0.slots| == 1 && s0.slots[0].busy && !s0.slots[0].locked
    ensures Reachable(s) && s.merged && s.threadsNumber == s0.threadsNumber && s.conns == s0.conns
  {
    hide Reachable;
    ReachStep(s0, Main);
    var s1 := NextMain(s0);
    ReachStep(s1, Main);
    var s2 := NextMain(s1);
    ReachStep(s2, Main);
    s := NextMain(s2);
  }

  /** One slot, one dispatched connection, and a SIGHUP before its worker runs: the
      two unlocks of the slot's mutex merge and the restart never happens. */
  lemma MergeIsReachable() returns (s: State)
    ensures Reachable(s) && s.merged && NeverReturns(s)
    ensures s.threadsNumber == 1 && |s.conns| == 1
  {
    hide Leads, NeverReturns, Reachable;
    var n := ServingLeads(1, 1);
    var s0 := Serving(1, 1);
    LedIsReachable(1, n, s0);
    ReachStep(s0, Hangup(1, PORT));
    var s1 := Next(s0, Hangup(1, PORT));
    ReachStep(s1, Interrupted);
    s := RestartMerges(Next(s1, Interrupted));
    ReachableInv(s);
    MergedIsFinal(s);
  }

  lemma LastDispatchDrains(s: State) returns (s': State)
    requires Reachable(s) && s.pc.Release? && s.max == 1
    ensures Leads(s, Mains(3), s') && Inv(s') && !s'.merged && s'.pc == DrainTest(0)
    ensures s.pc.i < |s'.slots| && !s'.slots[s.pc.i].locked
  {
    ReachableInv(s);
    hide SlotsOk, ConnsOk, PermitsOk, BudgetOk;
    var s1 := NextMain(s);
    var s2 := NextMain(s1);
    s' := NextMain(s2);
    MainLeads(s, s1);
    MainLeads(s1, s2);
    MainLeads(s2, s');
    MainsOn(s1, 1, s2, 1, s');
    MainsOn(s, 1, s1, 2, s');
    RunKeepsInv(s, Mains(3));
  }

  /** The server's ordinary end can hang as well: the last dispatch is followed at once by
      the drain, and its worker may not yet have taken the mutex. */
  lemma LastDispatchCanHang(s: State) returns (steps: seq<Step>)
    requires Reachable(s) && s.pc.Release? && s.max == 1
    ensures NoSignals(steps) && Possible(s, steps) && NeverReturns(Run(s, steps))
  {
    hide Next, Enabled, NextMain, Inv, NeverReturns;
    var drain := LastDispatchDrains(s);
    var rest := UntakenCanMerge(drain, 0, s.pc.i);
    RunKeepsInv(drain, rest);
    MergedIsFinal(Run(drain, rest));
    LeadsOn(s, Mains(3), drain, rest, Run(drain, rest));
    steps := Mains(3) + rest;
  }

  /** Which needs no signal from the start of the server to its end. */
  lemma EndHangIsReachable() returns (steps: seq<Step>)
    ensures NoSignals(steps) && Possible(Init(10, PORT), steps) && NeverReturns(Run(Init(10, PORT), steps))
  {
    hide NextMain, MainEnabled, NeverReturns;
    var n := FilledLeads(10, 9);
    var s := Filled(10, 9);
    LedIsReachable(10, n, s);
    var rest := LastDispatchCanHang(s);
    LeadsOn(Init(10, PORT), Mains(n), s, rest, Run(s, rest));
    steps := Mains(n) + rest;
  }

  /** Two slots and a reload to one thread in the middle of the second scan: the
      accepted connection is never dispatched and its permit is gone, although slot 1
      is free.  NoConnectionDropped therefore needs its condition on threads_number. */
  lemma DropIsReachable() returns (s: State)
    ensures Reachable(s) && s.pc == Inner && |s.conns| == 2 && s.conns[1] == UNTOUCHED
    ensures s.lost == 1 && |s.slots| == 2 && !s.slots[1].busy
  {
    var n := ServingLeads(2, 1);
    AcceptLeads(2, 1);
    MainsOn(Init(2, PORT), n, Serving(2, 1), 3, Scanning(2, 1));
    var s0 := Scanning(2, 1);
    LedIsReachable(2, n + 3, s0);
    ReachStep(s0, Main);
    var s1 := NextMain(s0);
    ReachStep(s1, Hangup(1, PORT));
    var s2 := Next(s1, Hangup(1, PORT));
    ReachStep(s2, Main);
    s := NextMain(s2);
  }
}
