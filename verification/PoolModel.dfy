/**
  The Linux server's thread pool as an interleaving transition system: the main
  thread (accept, scan, dispatch, drain, restart), one worker per slot, the
  counting semaphore, one mutex per slot and the SIGHUP handler.

  Every program counter names the statement its thread executes next, so one step
  is one statement on shared data.  A slot's mutex is a binary token that any
  thread may give back, which is how the program uses it.
*/
module PoolModel {
  const MAX_ACCEPT: int := 10
  const MAX_THREADS_NUM: int := 256
  const MAX_PORT_NUMBER: int := 65535

  /** The `fd` field: never written, -1, or the socket of an accepted connection.
      Connections are numbered in the order they are accepted, because the kernel
      may hand out the same descriptor again. */
  datatype Fd = Unset | MinusOne | Sock(conn: nat)

  datatype WorkerPc =
    | AtLock        // waits for the slot's mutex
    | AtCheck       // tests fd against -1
    | AtServe       // authentication, the request, then shutdown and close
    | AtClearFd
    | AtClearState
    | AtPost        // sem_post
    | Exited

  datatype Slot = Slot(busy: bool, fd: Fd, locked: bool, pc: WorkerPc)

  datatype MainPc =
    | Outer                     // while (max), sem_init, Malloc
    | Creating(i: nat)          // the creation loop
    | Binding                   // opening the listening socket
    | Inner                     // while (max)
    | Waiting                   // sem_wait
    | Testing(permit: bool)     // force_restart
    | Accepting                 // accept
    | Scan(i: nat, conn: nat)   // 0 == threads[i].state
    | Claim(i: nat, conn: nat)  // threads[i].state = 1
    | Fill(i: nat, conn: nat)   // threads[i].fd = conn_fd
    | Release(i: nat, conn: nat) // unlock threads[i].mutex
    | Spend                     // max--
    | DrainTest(i: nat)
    | DrainClear(i: nat)
    | DrainUnlock(i: nat)
    | Join(i: nat)
    | Freeing
    | ClosePort
    | Leave                     // if (-1 != conn_fd) break
    | Reset                     // sem_destroy, force_restart = false
    | Done
    | Fault                     // an access outside the allocated array

  /** Which worker: the slot of a pool generation. */
  datatype Place = Place(gen: nat, slot: nat)

  /** What has happened to one accepted connection so far, and by whom. */
  datatype History = History(dispatched: seq<Place>, served: seq<Place>, closed: seq<Place>)

  const UNTOUCHED := History([], [], [])

  datatype State = State(
    pc: MainPc,
    max: int,
    sem: nat,
    slots: seq<Slot>,
    poolSize: nat,          // threads_number_temp
    connFd: Fd,             // conn_fd of main
    lastPort: int,
    listening: multiset<int>, // ports of the open listening sockets
    threadsNumber: nat,     // the settings, which the handler may rewrite
    portNumber: nat,
    forceRestart: bool,
    // history, read by no step
    gen: nat,
    conns: seq<History>,
    lost: nat,              // permits of this generation that main took and will not use
    merged: bool            // a drain unlock hit an unlocked mutex
  )

  /** Main runs its next statement; Interrupted is sem_wait or accept failing with
      EINTR; Worker(k) is the worker of slot k; Hangup is the SIGHUP handler, on any
      thread, leaving the settings with these values. */
  datatype Step = Main | Interrupted | Worker(k: nat) | Hangup(threads: nat, port: nat)

  predicate ValidSettings(threads: nat, port: nat) {
    0 < threads <= MAX_THREADS_NUM && 0 < port <= MAX_PORT_NUMBER
  }

  function Init(threads: nat, port: nat): State {
    State(Outer, MAX_ACCEPT, 0, [], 0, Unset, -1, multiset{}, threads, port, false, 0, [], 0, false)
  }

  // ---------------------------------------------------------------- main thread

  /** The slot index a main statement uses without testing it again. */
  predicate IndexInPool(s: State) {
    match s.pc
    case Claim(i, _) => i < |s.slots|
    case Fill(i, _) => i < |s.slots|
    case Release(i, c) => i < |s.slots| && c < |s.conns|
    case DrainClear(i) => i < |s.slots|
    case DrainUnlock(i) => i < |s.slots|
    case Join(i) => i < |s.slots|
    case _ => true
  }

  predicate MainEnabled(s: State) {
    && IndexInPool(s)
    && s.pc != Done
    && s.pc != Fault
    && (s.pc == Waiting ==> s.sem > 0)
    && (s.pc.Join? ==> s.slots[s.pc.i].pc == Exited)
  }

  function NextMain(s: State): State
    requires MainEnabled(s)
  {
    match s.pc
    case Outer =>
      if s.max == 0 then s.(pc := Done)
      else s.(pc := Creating(0), sem := s.threadsNumber, slots := [], gen := s.gen + 1, lost := 0, connFd := Unset)
    case Creating(i) =>
      if i < s.threadsNumber
      then s.(pc := Creating(i + 1), slots := s.slots + [Slot(false, Unset, true, AtLock)])
      else s.(pc := Binding)
    case Binding =>
      var bound := if s.lastPort != s.portNumber
                   then s.(lastPort := s.portNumber, listening := s.listening + multiset{s.portNumber as int})
                   else s;
      bound.(pc := Inner, poolSize := s.threadsNumber)
    case Inner => s.(pc := if s.max == 0 then DrainTest(0) else Waiting)
    case Waiting => s.(pc := Testing(true), sem := s.sem - 1)
    case Testing(permit) => if s.forceRestart then Break(s, permit) else s.(pc := Accepting)
    case Accepting =>
      s.(pc := Scan(0, |s.conns|), connFd := Sock(|s.conns|), conns := s.conns + [UNTOUCHED])
    case Scan(i, c) =>
      if i >= s.threadsNumber then s.(pc := Inner, lost := s.lost + 1)
      else if i >= |s.slots| then s.(pc := Fault)
      else if s.slots[i].busy then s.(pc := Scan(i + 1, c))
      else s.(pc := Claim(i, c))
    case Claim(i, c) => s.(pc := Fill(i, c), slots := s.slots[i := s.slots[i].(busy := true)])
    case Fill(i, c) => s.(pc := Release(i, c), slots := s.slots[i := s.slots[i].(fd := Sock(c))])
    case Release(i, c) =>
      s.(pc := Spend,
         slots := s.slots[i := s.slots[i].(locked := false)],
         conns := s.conns[c := s.conns[c].(dispatched := s.conns[c].dispatched + [Place(s.gen, i)])])
    case Spend => s.(pc := Inner, max := s.max - 1)
    case DrainTest(i) =>
      if i >= s.poolSize then s.(pc := Freeing)
      else if i >= |s.slots| then s.(pc := Fault)
      else s.(pc := if s.slots[i].busy then DrainUnlock(i) else DrainClear(i))
    case DrainClear(i) => s.(pc := DrainUnlock(i), slots := s.slots[i := s.slots[i].(fd := MinusOne)])
    case DrainUnlock(i) =>
      s.(pc := Join(i),
         slots := s.slots[i := s.slots[i].(locked := false)],
         merged := s.merged || !s.slots[i].locked)
    case Join(i) => s.(pc := DrainTest(i + 1))
    case Freeing => s.(pc := ClosePort)
    case ClosePort =>
      s.(pc := Leave,
         listening := if s.lastPort != s.portNumber then s.listening - multiset{s.lastPort} else s.listening)
    case Leave => s.(pc := if s.connFd != MinusOne then Done else Reset)
    case Reset => s.(pc := Outer, forceRestart := false)
  }

  /** Leaving the accept loop for a restart; a permit taken by sem_wait is not given back. */
  function Break(s: State, permit: bool): State {
    s.(pc := DrainTest(0), connFd := MinusOne, lost := s.lost + if permit then 1 else 0)
  }

  /** sem_wait and accept are interrupted only by a SIGHUP, whose handler has then run. */
  predicate InterruptedEnabled(s: State) {
    s.forceRestart && (s.pc == Waiting || s.pc == Accepting)
  }

  function NextInterrupted(s: State): State
    requires InterruptedEnabled(s)
  {
    if s.pc == Waiting then s.(pc := Testing(false)) else Break(s, true)
  }

  /** No signal lands while a pool is set up, nor between the test that closes the
      old listening socket and the one that opens the next. */
  predicate HangupEnabled(s: State, threads: nat, port: nat) {
    && ValidSettings(threads, port)
    && !(s.pc in {Outer, Binding, Leave, Reset, Done})
    && !s.pc.Creating?
  }

  function NextHangup(s: State, threads: nat, port: nat): State {
    s.(threadsNumber := threads, portNumber := port, forceRestart := true)
  }

  // -------------------------------------------------------------------- workers

  predicate WorkerEnabled(s: State, k: nat) {
    && k < |s.slots|
    && s.slots[k].pc != Exited
    && (s.slots[k].pc == AtLock ==> !s.slots[k].locked)
  }

  function NextWorker(s: State, k: nat): State
    requires WorkerEnabled(s, k)
  {
    var w := s.slots[k];
    s.(slots := s.slots[k := NextSlot(w)],
       conns := NextConns(s.conns, w, Place(s.gen, k)),
       sem := if w.pc == AtPost then s.sem + 1 else s.sem)
  }

  function NextSlot(w: Slot): Slot {
    match w.pc
    case AtLock => w.(locked := true, pc := AtCheck)
    case AtCheck => w.(pc := if w.fd == MinusOne then Exited else AtServe)
    case AtServe => w.(pc := AtClearFd)
    case AtClearFd => w.(fd := MinusOne, pc := AtClearState)
    case AtClearState => w.(busy := false, pc := AtPost)
    case AtPost => w.(pc := AtLock)
    case Exited => w
  }

  function NextConns(conns: seq<History>, w: Slot, here: Place): seq<History> {
    if w.pc == AtCheck then Served(conns, w.fd, here)
    else if w.pc == AtServe then Closed(conns, w.fd, here)
    else conns
  }

  function Served(conns: seq<History>, fd: Fd, who: Place): seq<History> {
    if fd.Sock? && fd.conn < |conns|
    then conns[fd.conn := conns[fd.conn].(served := conns[fd.conn].served + [who])] else conns
  }

  function Closed(conns: seq<History>, fd: Fd, who: Place): seq<History> {
    if fd.Sock? && fd.conn < |conns|
    then conns[fd.conn := conns[fd.conn].(closed := conns[fd.conn].closed + [who])] else conns
  }

  // ----------------------------------------------------------------------- runs

  predicate Enabled(s: State, step: Step) {
    match step
    case Main => MainEnabled(s)
    case Interrupted => InterruptedEnabled(s)
    case Worker(k) => WorkerEnabled(s, k)
    case Hangup(threads, port) => HangupEnabled(s, threads, port)
  }

  function Next(s: State, step: Step): State
    requires Enabled(s, step)
  {
    match step
    case Main => NextMain(s)
    case Interrupted => NextInterrupted(s)
    case Worker(k) => NextWorker(s, k)
    case Hangup(threads, port) => NextHangup(s, threads, port)
  }

  /** The steps can be taken one after the other from s. */
  predicate Possible(s: State, steps: seq<Step>)
    decreases |steps|
  {
    steps == [] || (Enabled(s, steps[0]) && Possible(Next(s, steps[0]), steps[1..]))
  }

  function Run(s: State, steps: seq<Step>): State
    requires Possible(s, steps)
    decreases |steps|
  {
    if steps == [] then s else Run(Next(s, steps[0]), steps[1..])
  }

  // ------------------------------------------------------------------- counting

  function Sum(slots: seq<Slot>, weight: Slot -> nat): nat {
    if slots == [] then 0 else weight(slots[0]) + Sum(slots[1..], weight)
  }

  function BusyWeight(w: Slot): nat { if w.busy then 1 else 0 }

  function PostingWeight(w: Slot): nat { if w.pc == AtPost then 1 else 0 }

  /** Slots whose state is 1. */
  function Busy(slots: seq<Slot>): nat { Sum(slots, BusyWeight) }

  /** Workers between `state = 0` and sem_post. */
  function Posting(slots: seq<Slot>): nat { Sum(slots, PostingWeight) }

  /** 1 exactly when main holds a permit it has not yet turned into a busy slot. */
  function Permit(pc: MainPc): nat {
    match pc
    case Testing(permit) => if permit then 1 else 0
    case Accepting => 1
    case Scan(_, _) => 1
    case Claim(_, _) => 1
    case _ => 0
  }

  function Dispatched(conns: seq<History>): nat {
    if conns == [] then 0 else |conns[|conns| - 1].dispatched| + Dispatched(conns[..|conns| - 1])
  }
}
