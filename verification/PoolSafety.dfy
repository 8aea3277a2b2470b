/**
  Every step of every thread keeps the invariant, so every run does.
*/
module PoolSafety {
  import opened PoolModel
  import opened PoolInvariant

  // ------------------------------------------------------------------- counting

  lemma {:induction false} SumUpdate(slots: seq<Slot>, weight: Slot -> nat, k: nat, w: Slot)
    requires k < |slots|
    ensures Sum(slots[k := w], weight) + weight(slots[k]) == Sum(slots, weight) + weight(w)
  {
    if k == 0 {
      assert slots[k := w][1..] == slots[1..];
    } else {
      assert slots[k := w][1..] == slots[1..][k - 1 := w];
      SumUpdate(slots[1..], weight, k - 1, w);
    }
  }

  lemma {:induction false} SumAppend(slots: seq<Slot>, weight: Slot -> nat, w: Slot)
    ensures Sum(slots + [w], weight) == Sum(slots, weight) + weight(w)
  {
    if slots == [] {
      assert slots + [w] == [w];
    } else {
      assert (slots + [w])[1..] == slots[1..] + [w];
      SumAppend(slots[1..], weight, w);
    }
  }

  /** Fewer busy slots than slots: one of them is free. */
  lemma {:induction false} FreeSlotExists(slots: seq<Slot>) returns (k: nat)
    requires Busy(slots) < |slots|
    ensures k < |slots| && !slots[k].busy
  {
    if !slots[0].busy {
      k := 0;
    } else {
      var j := FreeSlotExists(slots[1..]);
      k := j + 1;
    }
  }

  lemma {:induction false} DispatchedUpdate(conns: seq<History>, c: nat, h: History)
    requires c < |conns|
    ensures Dispatched(conns[c := h]) + |conns[c].dispatched| == Dispatched(conns) + |h.dispatched|
  {
    var n := |conns| - 1;
    if c == n {
      assert conns[c := h][..n] == conns[..n];
    } else {
      assert conns[c := h][..n] == conns[..n][c := h];
      DispatchedUpdate(conns[..n], c, h);
    }
  }

  lemma DispatchedAppend(conns: seq<History>, h: History)
    ensures Dispatched(conns + [h]) == Dispatched(conns) + |h.dispatched|
  {
    assert (conns + [h])[..|conns|] == conns;
  }

  lemma CountUpdate(slots: seq<Slot>, k: nat, w: Slot)
    requires k < |slots|
    ensures Busy(slots[k := w]) + BusyWeight(slots[k]) == Busy(slots) + BusyWeight(w)
    ensures Posting(slots[k := w]) + PostingWeight(slots[k]) == Posting(slots) + PostingWeight(w)
  {
    SumUpdate(slots, BusyWeight, k, w);
    SumUpdate(slots, PostingWeight, k, w);
  }

  // ---------------------------------------------------------------- main thread

  /** A slot's shape survives any change to a connection it does not carry. */
  lemma OtherConnection(w: Slot, role: Role, conns: seq<History>, conns': seq<History>, here: Place, c: int)
    requires SlotOk(w, role, conns, here)
    requires |conns| <= |conns'|
    requires forall d :: 0 <= d < |conns| && d != c ==> conns'[d] == conns[d]
    requires w.fd.Sock? ==> w.fd.conn != c
    ensures SlotOk(w, role, conns', here)
  {
  }

  /** The two quantified parts of the invariant, when only main's counter and plain
      variables change and no slot changes role. */
  lemma Frame(s: State, s': State)
    requires SlotsOk(s) && ConnsOk(s)
    requires s'.slots == s.slots && s'.gen == s.gen
    requires |s.conns| <= |s'.conns| && s'.conns[..|s.conns|] == s.conns
    requires forall c :: |s.conns| <= c < |s'.conns| ==> s'.conns[c] == UNTOUCHED
    requires forall k: nat :: k < |s.slots| ==>
      RoleOf(s'.pc, s'.merged, k) == RoleOf(s.pc, s.merged, k)
    ensures SlotsOk(s') && ConnsOk(s')
  {
    assert forall c :: 0 <= c < |s.conns| ==> s'.conns[c] == s.conns[c];
    forall k: nat | k < |s'.slots|
      ensures SlotOk(s'.slots[k], RoleOf(s'.pc, s'.merged, k), s'.conns, Place(s'.gen, k))
    {
      assert SlotOk(s.slots[k], RoleOf(s.pc, s.merged, k), s.conns, Place(s.gen, k));
      OtherConnection(s.slots[k], RoleOf(s.pc, s.merged, k), s.conns, s'.conns, Place(s.gen, k), -1);
    }
    forall c: nat | c < |s'.conns| ensures ConnOk(s', c) {
      if c < |s.conns| { assert ConnOk(s, c); }
    }
  }

  lemma SetUpKeepsInv(s: State)
    requires Inv(s) && MainEnabled(s) && (s.pc == Outer || s.pc.Creating? || s.pc == Binding)
    ensures Inv(NextMain(s))
  {
    var s' := NextMain(s);
    if s.pc.Creating? && s.pc.i < s.threadsNumber {
      SumAppend(s.slots, BusyWeight, Slot(false, Unset, true, AtLock));
      SumAppend(s.slots, PostingWeight, Slot(false, Unset, true, AtLock));
    }
    forall c: nat | c < |s'.conns| ensures ConnOk(s', c) {
      assert ConnOk(s, c);
    }
  }

  /** The same for the statements of main that touch neither slot nor connection. */
  lemma LoopKeepsSlots(s: State)
    requires SlotsOk(s) && ConnsOk(s) && MainEnabled(s)
    requires s.pc == Inner || s.pc == Waiting || s.pc.Testing? || s.pc == Accepting || s.pc == Spend
      || (s.pc.Scan? && NextMain(s).pc != Fault)
    ensures SlotsOk(NextMain(s)) && ConnsOk(NextMain(s))
  {
    Frame(s, NextMain(s));
  }

  lemma LoopKeepsInv(s: State)
    requires Inv(s) && MainEnabled(s)
    requires s.pc == Inner || s.pc == Waiting || s.pc.Testing?
    ensures Inv(NextMain(s))
  {
    LoopKeepsSlots(s);
  }

  lemma AcceptKeepsInv(s: State)
    requires Inv(s) && MainEnabled(s) && s.pc == Accepting
    ensures Inv(NextMain(s))
  {
    LoopKeepsSlots(s);
    AcceptKeepsMain(s);
  }

  /** A permit in main's hand means a slot that is not busy. */
  lemma AcceptKeepsMain(s: State)
    requires PermitsOk(s) && BudgetOk(s) && MainOk(s) && s.pc == Accepting
    ensures var s' := NextMain(s); PermitsOk(s') && BudgetOk(s') && MainOk(s')
  {
    DispatchedAppend(s.conns, UNTOUCHED);
    var k := FreeSlotExists(s.slots);
  }

  lemma ScanKeepsInv(s: State)
    requires Inv(s) && MainEnabled(s) && s.pc.Scan?
    ensures Inv(NextMain(s))
  {
    ScanKeepsMain(s);
    LoopKeepsSlots(s);
  }

  /** The free slot the scan is after is still ahead of it. */
  lemma ScanKeepsMain(s: State)
    requires s.pc.Scan? && Open(s) && Accepted(s) && HasFree(s, s.pc.i) && Carries(s, 0, s.pc.conn)
    ensures MainOk(NextMain(s))
  {
    var s', i := NextMain(s), s.pc.i;
    var j: nat :| i <= j < |s.slots| && !s.slots[j].busy;
    if s'.pc.Scan? {
      assert i + 1 <= j && !s'.slots[j].busy;
      assert HasFree(s', i + 1);
    }
  }

  /** The quantified parts again, when slot k and at most one connection change. */
  lemma FrameBut(s: State, s': State, k: nat, c: int)
    requires SlotsOk(s) && ConnsOk(s)
    requires k < |s.slots| == |s'.slots| && s'.gen == s.gen
    requires s'.slots == s.slots[k := s'.slots[k]]
    requires |s'.conns| == |s.conns|
    requires forall d :: 0 <= d < |s.conns| && d != c ==> s'.conns[d] == s.conns[d]
    requires forall j: nat :: j < |s.slots| && j != k ==>
      RoleOf(s'.pc, s'.merged, j) == RoleOf(s.pc, s.merged, j) &&
      (s.slots[j].fd.Sock? ==> s.slots[j].fd.conn != c)
    requires SlotOk(s'.slots[k], RoleOf(s'.pc, s'.merged, k), s'.conns, Place(s.gen, k))
    requires 0 <= c < |s.conns| ==> ConnOk(s', c)
    requires s'.slots[k].fd != s.slots[k].fd && s.slots[k].fd.Sock? && s.slots[k].fd.conn < |s.conns| ==>
      s.conns[s.slots[k].fd.conn].closed != []
    ensures SlotsOk(s') && ConnsOk(s')
  {
    forall j: nat | j < |s'.slots|
      ensures SlotOk(s'.slots[j], RoleOf(s'.pc, s'.merged, j), s'.conns, Place(s'.gen, j))
    {
      if j != k {
        assert SlotOk(s.slots[j], RoleOf(s.pc, s.merged, j), s.conns, Place(s.gen, j));
        OtherConnection(s.slots[j], RoleOf(s.pc, s.merged, j), s.conns, s'.conns, Place(s.gen, j), c);
      }
    }
    forall d: nat | d < |s'.conns| ensures ConnOk(s', d) {
      if d != c {
        assert ConnOk(s, d);
      }
    }
  }

  /** The slots other than k do not carry the connection slot k carries. */
  lemma OneCarrier(s: State, k: nat, j: nat)
    requires Inv(s) && k < |s.slots| && j < |s.slots| && j != k
    requires s.slots[k].fd.Sock? && !RoleOf(s.pc, s.merged, j).Releasing?
    ensures s.slots[j].fd != s.slots[k].fd
  {
    assert SlotOk(s.slots[k], RoleOf(s.pc, s.merged, k), s.conns, Place(s.gen, k));
    assert SlotOk(s.slots[j], RoleOf(s.pc, s.merged, j), s.conns, Place(s.gen, j));
  }

  lemma ClaimKeepsInv(s: State)
    requires Inv(s) && MainEnabled(s) && s.pc.Claim?
    ensures Inv(NextMain(s))
  {
    var s', k := NextMain(s), s.pc.i;
    CountUpdate(s.slots, k, s'.slots[k]);
    FrameBut(s, s', k, -1);
  }

  lemma FillKeepsInv(s: State)
    requires Inv(s) && MainEnabled(s) && s.pc.Fill?
    ensures Inv(NextMain(s))
  {
    var s', k := NextMain(s), s.pc.i;
    CountUpdate(s.slots, k, s'.slots[k]);
    FrameBut(s, s', k, -1);
  }

  lemma ReleaseKeepsInv(s: State)
    requires Inv(s) && MainEnabled(s) && s.pc.Release?
    ensures Inv(NextMain(s))
  {
    var s', k, c := NextMain(s), s.pc.i, s.pc.conn;
    CountUpdate(s.slots, k, s'.slots[k]);
    DispatchedUpdate(s.conns, c, s'.conns[c]);
    forall j: nat | j < |s.slots| && j != k ensures s.slots[j].fd != Sock(c) {
      OneCarrier(s, k, j);
    }
    FrameBut(s, s', k, c);
  }

  lemma SpendKeepsInv(s: State)
    requires Inv(s) && MainEnabled(s) && s.pc == Spend
    ensures Inv(NextMain(s))
  {
    LoopKeepsSlots(s);
  }

  lemma DrainTestKeepsInv(s: State)
    requires Inv(s) && MainEnabled(s) && s.pc.DrainTest?
    ensures Inv(NextMain(s))
  {
    var s' := NextMain(s);
    if s.pc.i == |s.slots| {
      Frame(s, s');
    } else {
      FrameBut(s, s', s.pc.i, -1);
    }
  }

  lemma DrainSlotKeepsInv(s: State)
    requires Inv(s) && MainEnabled(s) && (s.pc.DrainClear? || s.pc.DrainUnlock?)
    ensures Inv(NextMain(s))
  {
    var s', k := NextMain(s), s.pc.i;
    CountUpdate(s.slots, k, s'.slots[k]);
    FrameBut(s, s', k, -1);
  }

  lemma JoinKeepsInv(s: State)
    requires Inv(s) && MainEnabled(s) && s.pc.Join?
    ensures Inv(NextMain(s))
  {
    FrameBut(s, NextMain(s), s.pc.i, -1);
  }

  lemma ClosePortKeepsInv(s: State)
    requires Inv(s) && MainEnabled(s) && s.pc == ClosePort
    ensures Inv(NextMain(s))
  {
    assert multiset{s.lastPort} - multiset{s.lastPort} == multiset{};
    Frame(s, NextMain(s));
  }

  lemma RestartKeepsInv(s: State)
    requires Inv(s) && MainEnabled(s) && (s.pc == Freeing || s.pc == Leave || s.pc == Reset)
    ensures Inv(NextMain(s))
  {
    Frame(s, NextMain(s));
  }

  lemma MainKeepsInv(s: State)
    requires Inv(s) && MainEnabled(s)
    ensures Inv(NextMain(s))
  {
    hide Inv, NextMain;
    match s.pc
    case Outer => SetUpKeepsInv(s);
    case Creating(_) => SetUpKeepsInv(s);
    case Binding => SetUpKeepsInv(s);
    case Inner => LoopKeepsInv(s);
    case Waiting => LoopKeepsInv(s);
    case Testing(_) => LoopKeepsInv(s);
    case Accepting => AcceptKeepsInv(s);
    case Scan(_, _) => ScanKeepsInv(s);
    case Claim(_, _) => ClaimKeepsInv(s);
    case Fill(_, _) => FillKeepsInv(s);
    case Release(_, _) => ReleaseKeepsInv(s);
    case Spend => SpendKeepsInv(s);
    case DrainTest(_) => DrainTestKeepsInv(s);
    case DrainClear(_) => DrainSlotKeepsInv(s);
    case DrainUnlock(_) => DrainSlotKeepsInv(s);
    case Join(_) => JoinKeepsInv(s);
    case ClosePort => ClosePortKeepsInv(s);
    case _ => RestartKeepsInv(s);
  }

  lemma InterruptedKeepsInv(s: State)
    requires Inv(s) && InterruptedEnabled(s)
    ensures Inv(NextInterrupted(s))
  {
    Frame(s, NextInterrupted(s));
  }

  lemma HangupKeepsInv(s: State, threads: nat, port: nat)
    requires Inv(s) && HangupEnabled(s, threads, port)
    ensures Inv(NextHangup(s, threads, port))
  {
    Frame(s, NextHangup(s, threads, port));
  }

  // -------------------------------------------------------------------- workers

  lemma WorkerSlot(w: Slot, role: Role, conns: seq<History>, here: Place)
    requires SlotOk(w, role, conns, here)
    requires w.pc != Exited && (w.pc == AtLock ==> !w.locked)
    ensures SlotOk(NextSlot(w), role, NextConns(conns, w, here), here)
  {
    match w.pc
    case AtLock =>
    case AtCheck =>
    case AtServe =>
    case AtClearFd =>
    case AtClearState =>
    case AtPost =>
  }

  /** A worker step that changes the connections changes only the one in its slot,
      and clears the slot's fd only when that connection is closed. */
  lemma WorkerConn(w: Slot, role: Role, conns: seq<History>, here: Place)
    requires SlotOk(w, role, conns, here) && w.pc != Exited
    ensures
      || NextConns(conns, w, here) == conns
      || (&& w.fd.Sock? && w.fd.conn < |conns|
          && var h := NextConns(conns, w, here)[w.fd.conn];
             && NextConns(conns, w, here) == conns[w.fd.conn := h]
             && NextSlot(w).fd == w.fd
             && conns[w.fd.conn].dispatched == [here]
             && h.dispatched == [here] && h.served == [here] && (h.closed == [] || h.closed == [here]))
    ensures NextSlot(w).fd != w.fd && w.fd.Sock? ==> w.fd.conn < |conns| && conns[w.fd.conn].closed != []
  {
  }

  /** Main's part of the invariant: workers only free slots, and an untouched
      connection stays untouched. */
  lemma WorkerKeepsMain(s: State, k: nat)
    requires SlotsOk(s) && MainOk(s) && WorkerEnabled(s, k)
    ensures MainOk(NextWorker(s, k))
  {
    var s' := NextWorker(s, k);
    assert SlotOk(s.slots[k], RoleOf(s.pc, s.merged, k), s.conns, Place(s.gen, k));
    if s.pc.Scan? {
      var j: nat :| s.pc.i <= j < |s.slots| && !s.slots[j].busy;
      assert !s'.slots[j].busy;
    }
  }

  lemma WorkerKeepsPermits(s: State, k: nat)
    requires PermitsOk(s) && SlotsOk(s) && WorkerEnabled(s, k)
    ensures PermitsOk(NextWorker(s, k))
  {
    var w := s.slots[k];
    CountUpdate(s.slots, k, NextSlot(w));
    assert SlotOk(w, RoleOf(s.pc, s.merged, k), s.conns, Place(s.gen, k));
  }

  /** The worker of slot k starts serving or closes the connection in its slot. */
  lemma WorkerTouches(s: State, s': State, k: nat, c: nat)
    requires Inv(s) && k < |s.slots| && c < |s.conns| && s.slots[k].fd == Sock(c)
    requires |s'.slots| == |s.slots| && |s'.conns| == |s.conns|
    requires s' == s.(slots := s.slots[k := s'.slots[k]], conns := s.conns[c := s'.conns[c]], sem := s'.sem)
    requires SlotOk(s'.slots[k], RoleOf(s.pc, s.merged, k), s'.conns, Place(s.gen, k))
    requires s'.slots[k].fd == Sock(c)
    requires var h := s'.conns[c];
      var here := Place(s.gen, k);
      h.dispatched == [here] && h.served == [here] && (h.closed == [] || h.closed == [here])
    requires s.conns[c].dispatched == [Place(s.gen, k)]
    ensures SlotsOk(s') && ConnsOk(s')
    ensures Dispatched(s'.conns) == Dispatched(s.conns)
  {
    DispatchedUpdate(s.conns, c, s'.conns[c]);
    forall j: nat | j < |s.slots| && j != k ensures s.slots[j].fd != Sock(c) {
      if RoleOf(s.pc, s.merged, j).Releasing? {
        assert SlotOk(s.slots[j], RoleOf(s.pc, s.merged, j), s.conns, Place(s.gen, j));
      } else {
        OneCarrier(s, k, j);
      }
    }
    FrameBut(s, s', k, c);
  }

  lemma WorkerKeepsSlots(s: State, k: nat)
    requires Inv(s) && WorkerEnabled(s, k)
    ensures SlotsOk(NextWorker(s, k)) && ConnsOk(NextWorker(s, k))
    ensures Dispatched(NextWorker(s, k).conns) == Dispatched(s.conns)
  {
    var s', w, here := NextWorker(s, k), s.slots[k], Place(s.gen, k);
    var role := RoleOf(s.pc, s.merged, k);
    assert SlotOk(w, role, s.conns, here);
    WorkerSlot(w, role, s.conns, here);
    WorkerConn(w, role, s.conns, here);
    if s.conns == s'.conns {
      FrameBut(s, s', k, -1);
    } else {
      WorkerTouches(s, s', k, w.fd.conn);
    }
  }

  lemma WorkerKeepsInv(s: State, k: nat)
    requires Inv(s) && WorkerEnabled(s, k)
    ensures Inv(NextWorker(s, k))
  {
    WorkerKeepsSlots(s, k);
    WorkerKeepsPermits(s, k);
    WorkerKeepsMain(s, k);
  }

  // ----------------------------------------------------------------------- runs

  lemma StepKeepsInv(s: State, step: Step)
    requires Inv(s) && Enabled(s, step)
    ensures Inv(Next(s, step))
  {
    hide Inv, MainEnabled, InterruptedEnabled, WorkerEnabled, HangupEnabled, NextMain, NextInterrupted, NextWorker;
    match step
    case Main => MainKeepsInv(s);
    case Interrupted => InterruptedKeepsInv(s);
    case Worker(k) => WorkerKeepsInv(s, k);
    case Hangup(threads, port) => HangupKeepsInv(s, threads, port);
  }

  lemma {:induction false} RunKeepsInv(s: State, steps: seq<Step>)
    requires Inv(s) && Possible(s, steps)
    ensures Inv(Run(s, steps))
    decreases |steps|
  {
    hide Inv, Enabled, Next;
    if steps != [] {
      StepKeepsInv(s, steps[0]);
      RunKeepsInv(Next(s, steps[0]), steps[1..]);
    }
  }

  lemma InvReached(threads: nat, port: nat, steps: seq<Step>)
    requires ValidSettings(threads, port) && Possible(Init(threads, port), steps)
    ensures Inv(Run(Init(threads, port), steps))
  {
    RunKeepsInv(Init(threads, port), steps);
  }
}
