/**
  The invariant of the thread pool.  `Role` says what main is doing with a slot;
  `SlotOk` lists the shapes slot, mutex and worker can then have.
*/
module PoolInvariant {
  import opened PoolModel

  datatype Role =
    | Normal
    | Filling           // state is 1, fd not yet written
    | Releasing(conn: nat)
    | Unlocking         // fd cleared if the slot was free
    | Joining(merged: bool)
    | Gone              // joined

  function RoleOf(pc: MainPc, merged: bool, k: nat): Role {
    match pc
    case Fill(i, _) => if k == i then Filling else Normal
    case Release(i, c) => if k == i then Releasing(c) else Normal
    case DrainTest(i) => if k < i then Gone else Normal
    case DrainClear(i) => if k < i then Gone else Normal
    case DrainUnlock(i) => if k < i then Gone else if k == i then Unlocking else Normal
    case Join(i) => if k < i then Gone else if k == i then Joining(merged) else Normal
    case Freeing => Gone
    case ClosePort => Gone
    case Leave => Gone
    case Reset => Gone
    case Outer => Gone
    case Done => Gone
    case _ => Normal
  }

  predicate Home(pc: WorkerPc) { pc == AtLock || pc == AtPost }

  /** fd is a connection dispatched here and nowhere else, not yet looked at. */
  predicate Pending(conns: seq<History>, fd: Fd, here: Place) {
    fd.Sock? && fd.conn < |conns| && conns[fd.conn] == History([here], [], [])
  }

  predicate InService(conns: seq<History>, fd: Fd, here: Place) {
    fd.Sock? && fd.conn < |conns| && conns[fd.conn] == History([here], [here], [])
  }

  predicate Finished(conns: seq<History>, fd: Fd, here: Place) {
    fd.Sock? && fd.conn < |conns| && conns[fd.conn] == History([here], [here], [here])
  }

  predicate ServingOk(w: Slot, conns: seq<History>, here: Place) {
    match w.pc
    case AtServe => w.busy && InService(conns, w.fd, here)
    case AtClearFd => w.busy && Finished(conns, w.fd, here)
    case AtClearState => w.busy && w.fd == MinusOne
    case _ => false
  }

  predicate NormalOk(w: Slot, unlocking: bool, conns: seq<History>, here: Place) {
    if Home(w.pc) then
      if w.busy then !w.locked && Pending(conns, w.fd, here)
      else
        && w.locked
        && !w.fd.Sock?
        && (w.pc == AtPost || unlocking ==> w.fd == MinusOne)
    else if w.pc == AtCheck then w.busy && w.locked && Pending(conns, w.fd, here)
    else w.locked && ServingOk(w, conns, here)
  }

  predicate JoiningOk(w: Slot, merged: bool, conns: seq<History>, here: Place) {
    if w.pc == Exited then !merged && !w.busy && w.fd == MinusOne
    else if merged then
      if Home(w.pc) && !w.busy then w.locked && w.fd == MinusOne else NormalOk(w, false, conns, here)
    else if Home(w.pc) then !w.busy && !w.locked && w.fd == MinusOne
    else if w.pc == AtCheck then
      (!w.busy && w.fd == MinusOne) || (w.busy && !w.locked && Pending(conns, w.fd, here))
    else !w.locked && ServingOk(w, conns, here)
  }

  predicate SlotOk(w: Slot, role: Role, conns: seq<History>, here: Place) {
    match role
    case Normal => NormalOk(w, false, conns, here)
    case Unlocking => NormalOk(w, true, conns, here)
    case Filling => w.busy && w.locked && !w.fd.Sock? && Home(w.pc) && (w.pc == AtPost ==> w.fd == MinusOne)
    case Releasing(c) => w.busy && w.locked && w.fd == Sock(c) && Home(w.pc)
    case Joining(merged) => JoiningOk(w, merged, conns, here)
    case Gone => w.pc == Exited && !w.busy && w.fd == MinusOne
  }

  ghost predicate SlotsOk(s: State) {
    forall k: nat :: k < |s.slots| ==> SlotOk(s.slots[k], RoleOf(s.pc, s.merged, k), s.conns, Place(s.gen, k))
  }

  /** A connection has one place at most, and until it is closed it sits there. */
  predicate ConnOk(s: State, c: nat)
    requires c < |s.conns|
  {
    var h := s.conns[c];
    || h == UNTOUCHED
    || (&& |h.dispatched| == 1
        && (h.served == [] || h.served == h.dispatched)
        && (h.closed == [] || (h.closed == h.dispatched && h.served == h.dispatched))
        && (h.closed == [] ==>
              && h.dispatched[0].gen == s.gen
              && h.dispatched[0].slot < |s.slots|
              && s.slots[h.dispatched[0].slot].fd == Sock(c)))
  }

  ghost predicate ConnsOk(s: State) {
    forall c: nat :: c < |s.conns| ==> ConnOk(s, c)
  }

  predicate Holds(pc: MainPc) { pc.Scan? || pc.Claim? || pc.Fill? || pc.Release? }

  function Capacity(s: State): nat {
    if s.pc.Creating? then s.threadsNumber else |s.slots|
  }

  predicate PermitsOk(s: State) {
    s.sem + Permit(s.pc) + s.lost + Busy(s.slots) + Posting(s.slots) == Capacity(s)
  }

  predicate BudgetOk(s: State) {
    s.max + Dispatched(s.conns) == MAX_ACCEPT + if s.pc == Spend then 1 else 0
  }

  /** Set-up, with the listening socket still to be matched to the port setting. */
  predicate Quiet(s: State) {
    && s.max > 0
    && !s.forceRestart
    && Unmatched(s)
  }

  predicate Unmatched(s: State) {
    s.listening == if s.lastPort == s.portNumber then multiset{s.lastPort} else multiset{}
  }

  ghost predicate Fresh(s: State) {
    && s.lost == 0
    && s.sem == s.threadsNumber
    && (forall k :: 0 <= k < |s.slots| ==> s.slots[k] == Slot(false, Unset, true, AtLock))
  }

  predicate Open(s: State) {
    && s.poolSize == |s.slots|
    && s.poolSize > 0
    && s.listening == multiset{s.lastPort}
    && 0 < s.lastPort <= MAX_PORT_NUMBER
  }

  predicate Accepted(s: State) { s.max > 0 && s.connFd != MinusOne }

  predicate Draining(s: State, i: nat) {
    && Open(s)
    && i <= |s.slots|
    && s.max >= 0
    && (s.connFd == MinusOne <==> s.max > 0)
  }

  ghost predicate HasFree(s: State, i: nat) {
    exists k: nat :: i <= k < |s.slots| && !s.slots[k].busy
  }

  predicate Carries(s: State, i: nat, c: nat) {
    i < |s.slots| && c < |s.conns| && s.conns[c] == UNTOUCHED && s.connFd == Sock(c)
  }

  ghost predicate MainOk(s: State) {
    match s.pc
    case Outer => Quiet(s)
    case Creating(i) => Quiet(s) && Fresh(s) && i == |s.slots| <= s.threadsNumber && s.connFd == Unset
    case Binding => Quiet(s) && Fresh(s) && |s.slots| == s.threadsNumber && s.connFd == Unset
    case Inner => Open(s) && s.connFd != MinusOne && s.max >= 0 && (s.max == 0 ==> s.connFd.Sock?)
    case Waiting => Open(s) && Accepted(s)
    case Testing(permit) => Open(s) && Accepted(s) && (!permit ==> s.forceRestart)
    case Accepting => Open(s) && Accepted(s)
    case Scan(i, c) => Open(s) && Accepted(s) && HasFree(s, i) && Carries(s, 0, c)
    case Claim(i, c) => Open(s) && Accepted(s) && Carries(s, i, c) && !s.slots[i].busy
    case Fill(i, c) => Open(s) && Accepted(s) && Carries(s, i, c)
    case Release(i, c) => Open(s) && Accepted(s) && Carries(s, i, c)
    case Spend => Open(s) && Accepted(s) && s.connFd.Sock?
    case DrainTest(i) => Draining(s, i)
    case DrainClear(i) => Draining(s, i) && i < |s.slots| && !s.slots[i].busy
    case DrainUnlock(i) => Draining(s, i) && i < |s.slots|
    case Join(i) => Draining(s, i) && i < |s.slots|
    case Freeing => Draining(s, |s.slots|)
    case ClosePort => Draining(s, |s.slots|)
    case Leave => s.max >= 0 && (s.connFd == MinusOne <==> s.max > 0) && Unmatched(s)
    case Reset => s.max > 0 && Unmatched(s)
    case Done => s.max == 0 && Unmatched(s)
    case Fault => false
  }

  ghost predicate Inv(s: State) {
    && ValidSettings(s.threadsNumber, s.portNumber)
    && (s.merged ==> s.pc.Join?)
    && SlotsOk(s)
    && ConnsOk(s)
    && PermitsOk(s)
    && BudgetOk(s)
    && MainOk(s)
  }
}
