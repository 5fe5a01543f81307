/**
 CoMutex::lock and unlock at the grain of single shared-memory accesses: every fiber has a program
 counter, and any fiber may take the next step.
 */
module CoMutexes {
  import opened Basics

  type Fiber = nat

  datatype PC =
    | Out                        // outside, not holding the lock
    | Check                      // lock(): about to compare fiber_id_ with its own id
    | Try1 | Try2                // about to trylock, in the loop head and in the loop
    | SetId                      // trylock succeeded, about to store its id
    | PushGuard                  // about to take guard_
    | PushQueue                  // guard_ taken, about to enqueue itself
    | PushDone                   // enqueued, about to release guard_
    | Parked                     // about to yield, or yielded
    | In                         // lock() returned
    | PopGuard                   // unlock(): about to take guard_
    | ClearId                    // guard_ taken, about to store 0
    | PopQueue                   // about to dequeue a waiter
    | Release(w: Option<Fiber>)  // about to release the spin lock
    | PopDone(w: Option<Fiber>)  // about to release guard_
    | Wake(g: Fiber)             // about to submit the dequeued waiter
  {
    /** Between taking and releasing the spin lock. */
    predicate Owns() { SetId? || In? || PopGuard? || ClearId? || PopQueue? || Release? }
    predicate Guards() { PushQueue? || PushDone? || ClearId? || PopQueue? || Release? || PopDone? }
    /** The id a holder stored is still there. */
    predicate Stored() { In? || PopGuard? || ClearId? }
    predicate Waiting() { PushDone? || Parked? }
    function Hand(): Option<Fiber> {
      match this
      case Release(w) => w
      case PopDone(w) => w
      case Wake(g) => Some(g)
      case _ => None
    }
  }

  /** Where the queue entry of a waiting fiber is; bookkeeping only. */
  datatype Place = Nowhere | Queued | HandOf(u: Fiber) | Submitted

  datatype State = State(
    pc: map<Fiber, PC>,
    owner: Option<Fiber>,        // None: the spin lock is free
    guard: Option<Fiber>,        // None: guard_ is free
    fiberId: nat,
    queue: seq<Fiber>,
    ready: set<Fiber>,           // submitted to the scheduler, not resumed yet
    place: map<Fiber, Place>)

  function Init(fibers: set<Fiber>, id: nat): State {
    State(map f | f in fibers :: Out, None, None, id, [], {}, map f | f in fibers :: Nowhere)
  }

  function Goto(s: State, f: Fiber, p: PC): State { s.(pc := s.pc[f := p]) }

  /** f's next step; None when it is blocked. */
  function Next(s: State, f: Fiber): Option<State>
    requires f in s.pc
  {
    match s.pc[f]
    case Out => Some(Goto(s, f, Check))
    case Check => Some(Goto(s, f, if s.fiberId == f then In else Try1))
    case Try1 => Some(if s.owner == None then Goto(s, f, SetId).(owner := Some(f)) else Goto(s, f, Try2))
    case Try2 => Some(if s.owner == None then Goto(s, f, SetId).(owner := Some(f)) else Goto(s, f, PushGuard))
    case SetId => Some(Goto(s, f, In).(fiberId := f))
    case PushGuard => if s.guard == None then Some(Goto(s, f, PushQueue).(guard := Some(f))) else None
    case PushQueue =>
      Some(Goto(s, f, PushDone).(queue := s.queue + [f], place := s.place[f := Queued]))
    case PushDone => Some(Goto(s, f, Parked).(guard := None))
    case Parked =>
      if f in s.ready then Some(Goto(s, f, Try1).(ready := s.ready - {f}, place := s.place[f := Nowhere])) else None
    case In => Some(Goto(s, f, PopGuard))
    case PopGuard => if s.guard == None then Some(Goto(s, f, ClearId).(guard := Some(f))) else None
    case ClearId => Some(Goto(s, f, PopQueue).(fiberId := 0))
    case PopQueue =>
      if s.queue == [] then Some(Goto(s, f, Release(None)))
      else Some(Goto(s, f, Release(Some(s.queue[0]))).(
                  queue := s.queue[1..], place := s.place[s.queue[0] := HandOf(f)]))
    case Release(w) => Some(Goto(s, f, PopDone(w)).(owner := None))
    case PopDone(w) => Some(Goto(s, f, if w.Some? then Wake(w.value) else Out).(guard := None))
    case Wake(g) => Some(Goto(s, f, Out).(ready := s.ready + {g}, place := s.place[g := Submitted]))
  }

  /** A run is the sequence of fibers that take the steps. */
  ghost predicate Reaches(s: State, run: seq<Fiber>, s': State)
    decreases |run|
  {
    if run == [] then s' == s
    else run[0] in s.pc && Next(s, run[0]).Some? && Reaches(Next(s, run[0]).value, run[1..], s')
  }

  // ---- mutual exclusion ---------------------------------------------------------------------

  /** Exactly the fiber between taking and releasing the spin lock owns it. */
  predicate SpinOk(s: State) {
    && (s.owner.Some? ==> s.owner.value in s.pc && s.pc[s.owner.value].Owns())
    && (forall f | f in s.pc && s.pc[f].Owns() :: s.owner == Some(f))
  }

  predicate GuardOk(s: State) {
    && (s.guard.Some? ==> s.guard.value in s.pc && s.pc[s.guard.value].Guards())
    && (forall f | f in s.pc && s.pc[f].Guards() :: s.guard == Some(f))
  }

  /** fiber_id_ names a participant only while that participant holds the lock. */
  predicate IdOk(s: State) {
    && (s.fiberId in s.pc ==> s.pc[s.fiberId].Stored())
    && 0 !in s.pc
  }

  predicate Exclusive(s: State) { SpinOk(s) && GuardOk(s) && IdOk(s) }

  lemma SpinStep(s: State, f: Fiber)
    requires SpinOk(s) && f in s.pc && Next(s, f).Some? && (s.pc[f] == Check ==> s.fiberId != f)
    ensures SpinOk(Next(s, f).value)
  {
  }

  lemma GuardStep(s: State, f: Fiber)
    requires GuardOk(s) && f in s.pc && Next(s, f).Some?
    ensures GuardOk(Next(s, f).value)
  {
    hide GuardOk;
    var s' := Next(s, f).value;
    match s.pc[f]
    case PushGuard => GuardTaken(s, f, s');
    case PopGuard => GuardTaken(s, f, s');
    case PushDone => GuardFreed(s, f, s');
    case PopDone(_) => GuardFreed(s, f, s');
    case _ => GuardKept(s, f, s');
  }

  lemma GuardKept(s: State, f: Fiber, s': State)
    requires GuardOk(s) && f in s.pc && f in s'.pc && s'.pc == s.pc[f := s'.pc[f]]
    requires s'.guard == s.guard && s'.pc[f].Guards() == s.pc[f].Guards()
    ensures GuardOk(s')
  {
  }

  lemma GuardTaken(s: State, f: Fiber, s': State)
    requires GuardOk(s) && f in s.pc && f in s'.pc && s'.pc == s.pc[f := s'.pc[f]]
    requires s.guard == None && s'.guard == Some(f) && s'.pc[f].Guards()
    ensures GuardOk(s')
  {
  }

  lemma GuardFreed(s: State, f: Fiber, s': State)
    requires GuardOk(s) && f in s.pc && f in s'.pc && s'.pc == s.pc[f := s'.pc[f]]
    requires s.pc[f].Guards() && s'.guard == None && !s'.pc[f].Guards()
    ensures GuardOk(s')
  {
  }

  lemma IdStep(s: State, f: Fiber)
    requires SpinOk(s) && IdOk(s) && f in s.pc && Next(s, f).Some?
    ensures IdOk(Next(s, f).value)
  {
  }

  lemma ExclusiveStep(s: State, f: Fiber)
    requires Exclusive(s) && f in s.pc && Next(s, f).Some?
    ensures Exclusive(Next(s, f).value) && Next(s, f).value.pc.Keys == s.pc.Keys
  {
    SpinStep(s, f);
    GuardStep(s, f);
    IdStep(s, f);
    assert Next(s, f).value.pc.Keys == s.pc.Keys;
  }

  // ---- every waiter is woken by exactly one unlock ------------------------------------------

  /** The queue holds exactly the fibers placed in it, each once. */
  predicate QueueOk(s: State) {
    && s.place.Keys == s.pc.Keys
    && (forall i | 0 <= i < |s.queue| :: s.queue[i] in s.place && s.place[s.queue[i]] == Queued)
    && (forall i, j | 0 <= i < j < |s.queue| :: s.queue[i] != s.queue[j])
    && (forall f | f in s.place && s.place[f] == Queued :: f in s.queue)
  }

  predicate ReadyOk(s: State) {
    && (forall f | f in s.ready :: f in s.place && s.place[f] == Submitted)
    && (forall f | f in s.place && s.place[f] == Submitted :: f in s.ready)
  }

  /** An unlocker holds a waiter exactly when the waiter's entry is in its hand. */
  predicate HandOk(s: State) {
    && (forall u | u in s.pc && s.pc[u].Hand().Some? ::
          s.pc[u].Hand().value in s.place && s.place[s.pc[u].Hand().value] == HandOf(u))
    && (forall f | f in s.place && s.place[f].HandOf? ::
          s.place[f].u in s.pc && s.pc[s.place[f].u].Hand() == Some(f))
  }

  /** A fiber waits exactly when its entry is somewhere. */
  predicate WaitOk(s: State) {
    forall f | f in s.pc :: f in s.place && (s.pc[f].Waiting() <==> s.place[f] != Nowhere)
  }

  predicate Tracked(s: State) { QueueOk(s) && ReadyOk(s) && HandOk(s) && WaitOk(s) }

  /** Most steps touch neither queue nor entries. */
  lemma QuietStep(s: State, f: Fiber, s': State)
    requires Tracked(s) && f in s.pc && f in s'.pc && s'.pc == s.pc[f := s'.pc[f]]
    requires s'.pc[f].Hand() == s.pc[f].Hand() && s'.pc[f].Waiting() == s.pc[f].Waiting()
    requires s'.queue == s.queue && s'.ready == s.ready && s'.place == s.place
    ensures Tracked(s')
  {
    assert s'.pc.Keys == s.pc.Keys;
  }

  lemma PushStep(s: State, f: Fiber, s': State)
    requires Tracked(s) && f in s.pc && s.pc[f] == PushQueue
    requires s' == Goto(s, f, PushDone).(queue := s.queue + [f], place := s.place[f := Queued])
    ensures Tracked(s')
  {
    assert s.place[f] == Nowhere;
    PushQueueOk(s, f, s');
    assert ReadyOk(s') && HandOk(s') && WaitOk(s');
  }

  lemma PushQueueOk(s: State, f: Fiber, s': State)
    requires QueueOk(s) && f in s.pc && s.place[f] == Nowhere
    requires s'.pc == s.pc[f := PushDone] && s'.queue == s.queue + [f]
    requires s'.place == s.place[f := Queued]
    ensures QueueOk(s')
  {
    assert s'.pc.Keys == s.pc.Keys && s'.place.Keys == s.place.Keys;
    forall g | g in s'.place && s'.place[g] == Queued ensures g in s'.queue {
      if g == f { assert s'.queue[|s.queue|] == f; } else { assert g in s.queue; }
    }
  }

  lemma ResumeStep(s: State, f: Fiber, s': State)
    requires Tracked(s) && f in s.pc && s.pc[f] == Parked && f in s.ready
    requires s' == Goto(s, f, Try1).(ready := s.ready - {f}, place := s.place[f := Nowhere])
    ensures Tracked(s')
  {
    assert s'.pc.Keys == s.pc.Keys && s'.place.Keys == s.place.Keys;
    assert QueueOk(s') && ReadyOk(s') && HandOk(s') && WaitOk(s');
  }

  lemma PopStep(s: State, f: Fiber, g: Fiber, s': State)
    requires Tracked(s) && f in s.pc && s.pc[f] == PopQueue && s.queue != [] && g == s.queue[0]
    requires s' == Goto(s, f, Release(Some(g))).(
                     queue := s.queue[1..], place := s.place[g := HandOf(f)])
    ensures Tracked(s')
  {
    assert s.place[g] == Queued && s.pc[g].Waiting();
    PopQueueOk(s, f, g, s');
    PopHandOk(s, f, g, s');
  }

  lemma PopQueueOk(s: State, f: Fiber, g: Fiber, s': State)
    requires QueueOk(s) && f in s.pc && s.queue != [] && g == s.queue[0]
    requires s'.pc == s.pc[f := Release(Some(g))] && s'.queue == s.queue[1..]
    requires s'.place == s.place[g := HandOf(f)]
    ensures QueueOk(s')
  {
    assert s'.pc.Keys == s.pc.Keys && s'.place.Keys == s.place.Keys;
    forall h | h in s'.place && s'.place[h] == Queued ensures h in s'.queue {
      var i :| 0 <= i < |s.queue| && s.queue[i] == h;
      assert s'.queue[i - 1] == h;
    }
  }

  lemma PopHandOk(s: State, f: Fiber, g: Fiber, s': State)
    requires HandOk(s) && ReadyOk(s) && WaitOk(s) && f in s.pc && s.pc[f] == PopQueue
    requires g in s.pc && s.place[g] == Queued && s.pc[g].Waiting()
    requires s'.pc == s.pc[f := Release(Some(g))] && s'.place == s.place[g := HandOf(f)] && s'.ready == s.ready
    ensures HandOk(s') && ReadyOk(s') && WaitOk(s')
  {
    assert s'.pc[f].Hand() == Some(g);
  }

  lemma WakeStep(s: State, f: Fiber, g: Fiber, s': State)
    requires Tracked(s) && f in s.pc && s.pc[f] == Wake(g)
    requires s' == Goto(s, f, Out).(ready := s.ready + {g}, place := s.place[g := Submitted])
    ensures Tracked(s') && g !in s.ready
  {
    hide QueueOk, WaitOk;
    assert s.pc[f].Hand() == Some(g) && s.place[g] == HandOf(f);
    WakeWaitOk(s, f, g, s');
    WakeQueueOk(s, f, g, s');
    assert ReadyOk(s') && HandOk(s');
  }

  lemma WakeQueueOk(s: State, f: Fiber, g: Fiber, s': State)
    requires QueueOk(s) && f in s.pc && g in s.place && s.place[g] == HandOf(f)
    requires s' == Goto(s, f, Out).(ready := s.ready + {g}, place := s.place[g := Submitted])
    ensures QueueOk(s')
  {
    assert s'.pc.Keys == s.pc.Keys && s'.place.Keys == s.place.Keys;
  }

  lemma WakeWaitOk(s: State, f: Fiber, g: Fiber, s': State)
    requires WaitOk(s) && f in s.pc && s.pc[f] == Wake(g) && g in s.place && s.place[g] == HandOf(f)
    requires s' == Goto(s, f, Out).(ready := s.ready + {g}, place := s.place[g := Submitted])
    ensures WaitOk(s')
  {
  }

  lemma TrackedStep(s: State, f: Fiber)
    requires Tracked(s) && f in s.pc && Next(s, f).Some?
    ensures Tracked(Next(s, f).value)
  {
    hide Tracked;
    var s' := Next(s, f).value;
    match s.pc[f]
    case PushQueue => PushStep(s, f, s');
    case Parked => ResumeStep(s, f, s');
    case PopQueue => if s.queue != [] { PopStep(s, f, s.queue[0], s'); } else { QuietStep(s, f, s'); }
    case Wake(g) => WakeStep(s, f, g, s');
    case _ => QuietStep(s, f, s');
  }

  // ---- over all runs ------------------------------------------------------------------------

  lemma InitOk(fibers: set<Fiber>, id: nat)
    requires 0 !in fibers && id !in fibers
    ensures Exclusive(Init(fibers, id)) && Tracked(Init(fibers, id)) && Drained(Init(fibers, id)) && Attended(Init(fibers, id))
  {
  }

  lemma {:induction false} InvariantRun(s: State, run: seq<Fiber>, s': State)
    requires Exclusive(s) && Tracked(s) && Reaches(s, run, s')
    ensures Exclusive(s') && Tracked(s') && s'.pc.Keys == s.pc.Keys
    decreases |run|
  {
    hide Exclusive, Tracked, Next;
    if run != [] {
      ExclusiveStep(s, run[0]);
      TrackedStep(s, run[0]);
      InvariantRun(Next(s, run[0]).value, run[1..], s');
    }
  }

  // ---- the way of a waiter ------------------------------------------------------------------

  /** What can happen to a waiter in a step. */
  datatype Event = Joined | Left | Woken | Resumed

  /** The step of fiber f is that event for waiter x. */
  predicate Happens(s: State, f: Fiber, x: Fiber, e: Event)
    requires f in s.pc
  {
    match e
    case Joined => f == x && s.pc[f] == PushQueue
    case Left => s.pc[f] == PopQueue && s.queue != [] && s.queue[0] == x
    case Woken => s.pc[f] == Wake(x)
    case Resumed => f == x && s.pc[f] == Parked
  }

  /** How often the event happens to x in a run. */
  ghost function Count(s: State, run: seq<Fiber>, x: Fiber, e: Event): nat
    decreases |run|
  {
    if run == [] || run[0] !in s.pc || Next(s, run[0]).None? then 0
    else One(Happens(s, run[0], x, e)) + Count(Next(s, run[0]).value, run[1..], x, e)
  }

  /** The fibers that join the queue in a run, in order, and those taken off it. */
  ghost function JoinOrder(s: State, run: seq<Fiber>): seq<Fiber>
    decreases |run|
  {
    if run == [] || run[0] !in s.pc || Next(s, run[0]).None? then []
    else (if s.pc[run[0]] == PushQueue then [run[0]] else []) + JoinOrder(Next(s, run[0]).value, run[1..])
  }

  ghost function LeaveOrder(s: State, run: seq<Fiber>): seq<Fiber>
    decreases |run|
  {
    if run == [] || run[0] !in s.pc || Next(s, run[0]).None? then []
    else (if s.pc[run[0]] == PopQueue && s.queue != [] then [s.queue[0]] else [])
         + LeaveOrder(Next(s, run[0]).value, run[1..])
  }

  lemma QueueStep(s: State, f: Fiber)
    requires f in s.pc && Next(s, f).Some?
    ensures s.queue + (if s.pc[f] == PushQueue then [f] else [])
         == (if s.pc[f] == PopQueue && s.queue != [] then [s.queue[0]] else []) + Next(s, f).value.queue
  {
  }

  lemma Chain(q: seq<Fiber>, join: seq<Fiber>, j: seq<Fiber>, leave: seq<Fiber>, l: seq<Fiber>, q1: seq<Fiber>, q2: seq<Fiber>)
    requires q + join == leave + q1 && q1 + j == l + q2
    ensures q + (join + j) == (leave + l) + q2
  {
    calc {
      q + (join + j);
      (q + join) + j;
      leave + (q1 + j);
      (leave + l) + q2;
    }
  }

  lemma {:induction false} QueueRun(s: State, run: seq<Fiber>, s': State)
    requires Reaches(s, run, s')
    ensures s.queue + JoinOrder(s, run) == LeaveOrder(s, run) + s'.queue
    decreases |run|
  {
    hide Next;
    if run != [] {
      var f, next := run[0], Next(s, run[0]).value;
      QueueStep(s, f);
      QueueRun(next, run[1..], s');
      Chain(s.queue, if s.pc[f] == PushQueue then [f] else [], JoinOrder(next, run[1..]),
            if s.pc[f] == PopQueue && s.queue != [] then [s.queue[0]] else [], LeaveOrder(next, run[1..]), next.queue, s'.queue);
    }
  }

  /** Every joining was followed by one leaving, unless the entry is still queued; every leaving by one
      submission, unless it is in an unlocker's hand; every submission by one resumption, unless it is due. */
  ghost predicate Accounted(s: State, run: seq<Fiber>, s': State, x: Fiber) {
    x in s.place && x in s'.place &&
    var p, p' := s.place[x], s'.place[x];
    && One(p == Queued) + Count(s, run, x, Joined) == Count(s, run, x, Left) + One(p' == Queued)
    && One(p.HandOf?) + Count(s, run, x, Left) == Count(s, run, x, Woken) + One(p'.HandOf?)
    && One(p == Submitted) + Count(s, run, x, Woken) == Count(s, run, x, Resumed) + One(p' == Submitted)
  }

  /** Where an entry is before the step that moves it. */
  lemma PlaceBefore(s: State, f: Fiber)
    requires Tracked(s) && f in s.pc
    ensures s.pc[f] == PushQueue ==> f in s.place && s.place[f] == Nowhere
    ensures s.pc[f] == Parked && f in s.ready ==> f in s.place && s.place[f] == Submitted
    ensures s.pc[f] == PopQueue && s.queue != [] ==> s.queue[0] in s.place && s.place[s.queue[0]] == Queued
    ensures s.pc[f].Wake? ==> s.pc[f].g in s.place && s.place[s.pc[f].g] == HandOf(f)
  {
    if s.pc[f].Wake? {
      assert s.pc[f].Hand() == Some(s.pc[f].g);
    }
  }

  lemma PlaceStep(s: State, f: Fiber, x: Fiber)
    requires Tracked(s) && f in s.pc && x in s.place && Next(s, f).Some?
    ensures var s' := Next(s, f).value;
            x in s'.place &&
            var p, p' := s.place[x], s'.place[x];
            && One(p == Queued) + One(Happens(s, f, x, Joined)) == One(Happens(s, f, x, Left)) + One(p' == Queued)
            && One(p.HandOf?) + One(Happens(s, f, x, Left)) == One(Happens(s, f, x, Woken)) + One(p'.HandOf?)
            && One(p == Submitted) + One(Happens(s, f, x, Woken)) == One(Happens(s, f, x, Resumed)) + One(p' == Submitted)
  {
    hide Tracked;
    PlaceBefore(s, f);
  }

  lemma {:induction false} AccountedRun(s: State, run: seq<Fiber>, s': State, x: Fiber)
    requires Tracked(s) && x in s.place && Reaches(s, run, s')
    ensures Accounted(s, run, s', x)
    decreases |run|
  {
    hide Tracked, Next;
    if run != [] {
      PlaceStep(s, run[0], x);
      TrackedStep(s, run[0]);
      AccountedRun(Next(s, run[0]).value, run[1..], s', x);
    }
  }

  /** Two fibers are in the critical section together. */
  ghost predicate Overlap(s: State) {
    exists f, g | f in s.pc && g in s.pc :: f != g && s.pc[f].In? && s.pc[g].In?
  }

  /** With nonzero fiber ids, none of them the start value of fiber_id_: at most one fiber is inside, it
      owns the spin lock, fiber_id_ never names anyone else, waiters leave the queue in the order they
      joined it, and each waiting fiber's entry is in exactly one place on its way to being submitted. */
  lemma MutexSafety(fibers: set<Fiber>, id: nat, run: seq<Fiber>, s: State)
    requires 0 !in fibers && id !in fibers
    requires Reaches(Init(fibers, id), run, s)
    ensures !Overlap(s)
    ensures forall f | f in s.pc && s.pc[f].In? :: s.owner == Some(f)
    ensures s.fiberId in fibers ==> s.owner == Some(s.fiberId)
    ensures JoinOrder(Init(fibers, id), run) == LeaveOrder(Init(fibers, id), run) + s.queue
    ensures forall x | x in fibers :: Accounted(Init(fibers, id), run, s, x)
    ensures Tracked(s)
  {
    var s0 := Init(fibers, id);
    InitOk(fibers, id);
    InvariantRun(s0, run, s);
    hide Reaches, Next, Tracked, Count, JoinOrder, LeaveOrder, Accounted;
    QueueRun(s0, run, s);
    forall x | x in fibers ensures Accounted(s0, run, s, x) {
      AccountedRun(s0, run, s, x);
    }
  }

  // ---- and not otherwise --------------------------------------------------------------------

  lemma {:induction false} ReachesConcat(s: State, run: seq<Fiber>, mid: State, more: seq<Fiber>, s': State)
    requires Reaches(s, run, mid) && Reaches(mid, more, s')
    ensures Reaches(s, run + more, s')
    decreases |run|
  {
    hide Next;
    if run == [] {
      assert run + more == more;
    } else {
      ReachesConcat(Next(s, run[0]).value, run[1..], mid, more, s');
      assert (run + more)[1..] == run[1..] + more;
    }
  }

  lemma ReachesOne(s: State, f: Fiber, mid: State, more: seq<Fiber>, s': State)
    requires f in s.pc && Next(s, f) == Some(mid) && Reaches(mid, more, s')
    ensures Reaches(s, [f] + more, s')
  {
    hide Next;
    assert ([f] + more)[1..] == more;
  }

  function Locked(s: State, g: Fiber): State { Goto(s, g, In).(owner := Some(g), fiberId := g) }

  /** A fiber that finds the lock free and no other id stored gets in, in five steps. */
  lemma LockFree(s: State, g: Fiber) returns (run: seq<Fiber>)
    requires g in s.pc && s.pc[g] == Out && s.owner == None && s.fiberId != g
    ensures Reaches(s, run, Locked(s, g))
  {
    var s1 := Goto(s, g, Check);
    var s2 := Goto(s1, g, Try1);
    var s3 := Goto(s2, g, SetId).(owner := Some(g));
    var s4 := Goto(s3, g, In).(fiberId := g);
    assert s4 == Locked(s, g);
    ReachesOne(s3, g, s4, [], s4);
    ReachesOne(s2, g, s3, [g] + [], s4);
    ReachesOne(s1, g, s2, [g] + ([g] + []), s4);
    ReachesOne(s, g, s1, [g] + ([g] + ([g] + [])), s4);
    run := [g] + ([g] + ([g] + ([g] + [])));
  }

  function Clearing(s: State, g: Fiber): State { Goto(s, g, PopQueue).(guard := Some(g), fiberId := 0) }

  ghost predicate OnlyBy(run: seq<Fiber>, g: Fiber) { forall i | 0 <= i < |run| :: run[i] == g }

  lemma UnlockBegin(s: State, g: Fiber) returns (run: seq<Fiber>)
    requires g in s.pc && s.pc[g] == In && s.guard == None
    ensures Reaches(s, run, Clearing(s, g)) && OnlyBy(run, g)
  {
    var s1 := Goto(s, g, PopGuard);
    var s2 := Goto(s1, g, ClearId).(guard := Some(g));
    var s3 := Goto(s2, g, PopQueue).(fiberId := 0);
    assert s3 == Clearing(s, g);
    ReachesOne(s2, g, s3, [], s3);
    ReachesOne(s1, g, s2, [g] + [], s3);
    ReachesOne(s, g, s1, [g] + ([g] + []), s3);
    run := [g] + ([g] + ([g] + []));
  }

  lemma UnlockEnd(s: State, g: Fiber) returns (run: seq<Fiber>)
    requires g in s.pc && s.pc[g] == PopQueue && s.queue == []
    ensures Reaches(s, run, Goto(s, g, Out).(owner := None, guard := None))
  {
    var s1 := Goto(s, g, Release(None));
    var s2 := Goto(s1, g, PopDone(None)).(owner := None);
    var s3 := Goto(s2, g, Out).(guard := None);
    assert s3 == Goto(s, g, Out).(owner := None, guard := None);
    ReachesOne(s2, g, s3, [], s3);
    ReachesOne(s1, g, s2, [g] + [], s3);
    ReachesOne(s, g, s1, [g] + ([g] + []), s3);
    run := [g] + ([g] + ([g] + []));
  }

  /** The holder leaves a mutex nobody waits for, and fiber_id_ becomes 0. */
  lemma UnlockFree(s: State, g: Fiber) returns (run: seq<Fiber>)
    requires g in s.pc && s.pc[g] == In && s.owner == Some(g) && s.guard == None && s.queue == []
    ensures Reaches(s, run, Goto(s, g, Out).(owner := None, fiberId := 0))
  {
    hide Reaches, Next;
    var first := UnlockBegin(s, g);
    var mid := Clearing(s, g);
    var second := UnlockEnd(mid, g);
    var s' := Goto(mid, g, Out).(owner := None, guard := None);
    assert s' == Goto(s, g, Out).(owner := None, fiberId := 0);
    ReachesConcat(s, first, mid, second, s');
    run := first + second;
  }

  /** The unlocked mutex with its first waiter submitted. */
  function HandedOver(s: State, g: Fiber): State
    requires s.queue != []
  {
    Goto(s, g, Out).(owner := None, guard := None, fiberId := 0, queue := s.queue[1..],
                     ready := s.ready + {s.queue[0]}, place := s.place[s.queue[0] := Submitted])
  }

  /** The unlocker has taken the first waiter off the queue and released the spin lock. */
  function TakenOff(s: State, g: Fiber): State
    requires s.queue != []
  {
    Goto(s, g, PopDone(Some(s.queue[0]))).(owner := None, queue := s.queue[1..], place := s.place[s.queue[0] := HandOf(g)])
  }

  lemma TakeOff(s: State, g: Fiber) returns (run: seq<Fiber>)
    requires g in s.pc && s.pc[g] == PopQueue && s.queue != []
    ensures Reaches(s, run, TakenOff(s, g)) && OnlyBy(run, g)
  {
    var f := s.queue[0];
    var s1 := Goto(s, g, Release(Some(f))).(queue := s.queue[1..], place := s.place[f := HandOf(g)]);
    var s2 := Goto(s1, g, PopDone(Some(f))).(owner := None);
    assert s2 == TakenOff(s, g);
    ReachesOne(s1, g, s2, [], s2);
    ReachesOne(s, g, s1, [g] + [], s2);
    run := [g] + ([g] + []);
  }

  lemma SubmitTaken(s: State, g: Fiber, f: Fiber) returns (run: seq<Fiber>)
    requires g in s.pc && s.pc[g] == PopDone(Some(f))
    ensures Reaches(s, run, Goto(s, g, Out).(guard := None, ready := s.ready + {f}, place := s.place[f := Submitted]))
    ensures OnlyBy(run, g)
  {
    var s1 := Goto(s, g, Wake(f)).(guard := None);
    var s2 := Goto(s1, g, Out).(ready := s.ready + {f}, place := s.place[f := Submitted]);
    assert s2 == Goto(s, g, Out).(guard := None, ready := s.ready + {f}, place := s.place[f := Submitted]);
    ReachesOne(s1, g, s2, [], s2);
    ReachesOne(s, g, s1, [g] + [], s2);
    run := [g] + ([g] + []);
  }

  lemma UnlockPop(s: State, g: Fiber) returns (run: seq<Fiber>)
    requires g in s.pc && s.pc[g] == PopQueue && s.queue != [] && s.fiberId == 0
    ensures Reaches(s, run, HandedOver(s, g)) && OnlyBy(run, g)
  {
    hide Reaches, Next;
    var first := TakeOff(s, g);
    var mid := TakenOff(s, g);
    var second := SubmitTaken(mid, g, s.queue[0]);
    assert Goto(mid, g, Out).(guard := None, ready := mid.ready + {s.queue[0]}, place := mid.place[s.queue[0] := Submitted])
        == HandedOver(s, g);
    ReachesConcat(s, first, mid, second, HandedOver(s, g));
    run := first + second;
  }

  /** The holder's unlock, by its own steps alone, returns with the lock free and the first waiter submitted. */
  lemma HandOver(s: State, g: Fiber, f: Fiber, rest: seq<Fiber>) returns (run: seq<Fiber>, s': State)
    requires g in s.pc && s.pc[g] == In && s.owner == Some(g) && s.guard == None && s.queue == [f] + rest
    ensures Reaches(s, run, s') && OnlyBy(run, g)
    ensures s'.pc == s.pc[g := Out] && s'.owner == None && s'.guard == None && s'.fiberId == 0
    ensures s'.queue == rest && s'.ready == s.ready + {f}
  {
    hide Reaches, Next;
    var first := UnlockBegin(s, g);
    var mid := Clearing(s, g);
    var second := UnlockPop(mid, g);
    s' := HandedOver(mid, g);
    ReachesConcat(s, first, mid, second, s');
    run := first + second;
    assert s'.pc == s.pc[g := Out];
  }

  /** A submitted waiter that finds the lock free gets in, by its own steps alone. */
  lemma WokenGetsIn(s: State, f: Fiber) returns (run: seq<Fiber>, s': State)
    requires f in s.pc && s.pc[f] == Parked && f in s.ready && s.owner == None
    ensures Reaches(s, run, s') && OnlyBy(run, f)
    ensures s'.pc == s.pc[f := In] && s'.owner == Some(f) && s'.fiberId == f
    ensures s'.queue == s.queue && s'.guard == s.guard && s'.ready == s.ready - {f}
  {
    var s1 := Goto(s, f, Try1).(ready := s.ready - {f}, place := s.place[f := Nowhere]);
    var s2 := Goto(s1, f, SetId).(owner := Some(f));
    var s3 := Goto(s2, f, In).(fiberId := f);
    ReachesOne(s2, f, s3, [], s3);
    ReachesOne(s1, f, s2, [f] + [], s3);
    ReachesOne(s, f, s1, [f] + ([f] + []), s3);
    run, s' := [f] + ([f] + ([f] + [])), s3;
    assert s'.pc == s.pc[f := In];
  }

  /** A fiber is held up only by the guard being taken, or by nobody having submitted it. */
  lemma BlockedIff(s: State, f: Fiber)
    requires f in s.pc
    ensures Next(s, f).None? <==>
            ((s.pc[f].PushGuard? || s.pc[f].PopGuard?) && s.guard.Some?) || (s.pc[f].Parked? && f !in s.ready)
  {
  }

  /** A fiber whose id is the stored one walks in, and does not keep the next one out. */
  lemma Intrude(s: State, f: Fiber, g: Fiber) returns (run: seq<Fiber>, s': State)
    requires f in s.pc && g in s.pc && f != g && s.pc[f] == Out && s.pc[g] == Out
    requires s.owner == None && s.fiberId == f
    ensures Reaches(s, run, s') && Overlap(s')
  {
    var s1 := Goto(s, f, Check);
    var s2 := Goto(s1, f, In);
    ReachesOne(s1, f, s2, [], s2);
    ReachesOne(s, f, s1, [f] + [], s2);
    var more := LockFree(s2, g);
    s' := Locked(s2, g);
    run := ([f] + ([f] + [])) + more;
    ReachesConcat(s, [f] + ([f] + []), s2, more, s');
    assert s'.pc[f].In? && s'.pc[g].In?;
  }

  /** The usage condition is exact: among two fibers or more, some run puts two of them inside together if
      one of them has id 0 or the id fiber_id_ happens to start with. */
  lemma MutexExact(fibers: set<Fiber>, id: nat, f: Fiber, g: Fiber) returns (run: seq<Fiber>, s: State)
    requires f in fibers && g in fibers && f != g && (f == 0 || f == id)
    ensures Reaches(Init(fibers, id), run, s) && Overlap(s)
  {
    var s0 := Init(fibers, id);
    if f == id {
      run, s := Intrude(s0, f, g);
    } else if g == id {
      run, s := Intrude(s0, g, f);
    } else {
      var lock := LockFree(s0, g);
      var s1 := Locked(s0, g);
      var unlock := UnlockFree(s1, g);
      var s2 := Goto(s1, g, Out).(owner := None, fiberId := 0);
      var more;
      more, s := Intrude(s2, f, g);
      ReachesConcat(s1, unlock, s2, more, s);
      ReachesConcat(s0, lock, s1, unlock + more, s);
      run := lock + (unlock + more);
    }
  }

  ghost predicate CanOverlap(s: State) {
    exists run, s' :: Reaches(s, run, s') && Overlap(s')
  }

  /** Two fibers can come to be inside together if and only if some fiber's id is 0 or the start value. */
  lemma MutexIff(fibers: set<Fiber>, id: nat)
    requires exists f, g | f in fibers && g in fibers :: f != g
    ensures CanOverlap(Init(fibers, id)) <==> 0 in fibers || id in fibers
  {
    var s0 := Init(fibers, id);
    if 0 in fibers || id in fibers {
      var f := if 0 in fibers then 0 else id;
      var g := Another(fibers, f);
      var run, s := MutexExact(fibers, id, f, g);
      assert Reaches(s0, run, s) && Overlap(s);
    } else {
      forall run, s | Reaches(s0, run, s) ensures !Overlap(s) {
        MutexSafety(fibers, id, run, s);
      }
    }
  }

  lemma Another(fibers: set<Fiber>, f: Fiber) returns (g: Fiber)
    requires exists a, b | a in fibers && b in fibers :: a != b
    ensures g in fibers && g != f
  {
    var a, b :| a in fibers && b in fibers && a != b;
    g := if a == f then b else a;
  }

  // ---- waiters left asleep ------------------------------------------------------------------

  /** A fiber that will try the lock without further help, or that is about to wake one that will. */
  predicate Rescuer(s: State, g: Fiber)
    requires g in s.pc
  {
    s.pc[g].Try1? || s.pc[g].Try2? || s.pc[g].Hand().Some? || g in s.ready
  }

  ghost predicate SomeRescuer(s: State) {
    exists g | g in s.pc :: Rescuer(s, g)
  }

  /** The owner has still to look at the queue. */
  predicate OwnerWillPop(s: State) {
    s.owner.Some? && s.owner.value in s.pc && !s.pc[s.owner.value].Release?
  }

  /** Whoever waits in the queue has somebody on the way. */
  ghost predicate Attended(s: State) {
    s.queue != [] ==> OwnerWillPop(s) || SomeRescuer(s)
  }

  /** An unlock that found the queue empty still keeps everybody out of it. */
  predicate Drained(s: State) {
    forall u | u in s.pc && (s.pc[u] == Release(None) || s.pc[u] == PopDone(None)) :: s.queue == []
  }

  /** Joining the queue of a lock that is free again, with nobody on the way. */
  ghost predicate Strands(s: State, f: Fiber)
    requires f in s.pc
  {
    s.pc[f] == PushQueue && s.owner == None && !SomeRescuer(s)
  }

  lemma DrainedStep(s: State, f: Fiber)
    requires Exclusive(s) && Drained(s) && f in s.pc && Next(s, f).Some?
    ensures Drained(Next(s, f).value)
  {
  }

  lemma AttendedPush(s: State, f: Fiber, s': State)
    requires Exclusive(s) && f in s.pc && s.pc[f] == PushQueue && Next(s, f) == Some(s')
    ensures Attended(s') <==> !Strands(s, f)
  {
    if s.owner.Some? {
      assert OwnerWillPop(s');
    }
    forall g | g in s.pc ensures g in s'.pc && (Rescuer(s', g) <==> Rescuer(s, g)) {
    }
    assert forall g | g in s'.pc :: g in s.pc;
  }

  lemma AttendedBy(s: State, g: Fiber)
    requires g in s.pc && Rescuer(s, g)
    ensures Attended(s)
  {
  }

  /** A step of a fiber nobody in the queue depends on. */
  lemma AttendedQuiet(s: State, f: Fiber, s': State)
    requires Attended(s) && f in s.pc && f in s'.pc && s'.pc == s.pc[f := s'.pc[f]]
    requires s'.owner == s.owner && s'.queue == s.queue && s'.ready == s.ready
    requires !s.pc[f].Try1? && !s.pc[f].Try2? && s.pc[f].Hand() == None && !s'.pc[f].Release?
    ensures Attended(s')
  {
    if SomeRescuer(s) {
      var g :| g in s.pc && Rescuer(s, g);
      assert Rescuer(s', g);
    }
  }

  lemma AttendedTry(s: State, f: Fiber, s': State)
    requires Exclusive(s) && Drained(s) && f in s.pc && (s.pc[f] == Try1 || s.pc[f] == Try2) && Next(s, f) == Some(s')
    ensures Attended(s')
  {
    if s.owner == None {
      assert OwnerWillPop(s');
    } else if s.pc[f] == Try1 {
      AttendedBy(s', f);
    } else {
      var o := s.owner.value;
      if s.pc[o].Release? && s.pc[o].w.Some? {
        AttendedBy(s', o);
      }
    }
  }

  /** Exactly the stranding steps leave a waiter unattended. */
  lemma AttendedStep(s: State, f: Fiber)
    requires Exclusive(s) && Tracked(s) && Drained(s) && Attended(s) && f in s.pc && Next(s, f).Some?
    ensures Attended(Next(s, f).value) <==> !Strands(s, f)
  {
    hide Attended, Drained, Tracked, Exclusive, SomeRescuer;
    var s' := Next(s, f).value;
    match s.pc[f]
    case PushQueue => AttendedPush(s, f, s');
    case Check => NotStored(s, f); AttendedBy(s', f);
    case Try1 => AttendedTry(s, f, s');
    case Try2 => AttendedTry(s, f, s');
    case Parked => AttendedBy(s', f);
    case PopQueue => if s.queue == [] { EmptyAttended(s'); } else { AttendedBy(s', f); }
    case Release(w) => if w.Some? { AttendedBy(s', f); } else { DrainedEmpty(s, f); EmptyAttended(s'); }
    case PopDone(w) => if w.Some? { AttendedBy(s', f); } else { DrainedEmpty(s, f); EmptyAttended(s'); }
    case Wake(g) => HandKnown(s, f); AttendedBy(s', g);
    case _ => AttendedQuiet(s, f, s');
  }

  lemma NotStored(s: State, f: Fiber)
    requires Exclusive(s) && f in s.pc && s.pc[f] == Check
    ensures s.fiberId != f
  {
  }

  lemma HandKnown(s: State, f: Fiber)
    requires Tracked(s) && f in s.pc && s.pc[f].Hand().Some?
    ensures s.pc[f].Hand().value in s.pc
  {
  }

  lemma EmptyAttended(s: State)
    requires s.queue == []
    ensures Attended(s)
  {
  }

  lemma DrainedEmpty(s: State, u: Fiber)
    requires Drained(s) && u in s.pc && (s.pc[u] == Release(None) || s.pc[u] == PopDone(None))
    ensures s.queue == []
  {
  }

  ghost predicate NeverStrands(s: State, run: seq<Fiber>)
    decreases |run|
  {
    run == [] ||
    (run[0] in s.pc && Next(s, run[0]).Some? && !Strands(s, run[0]) && NeverStrands(Next(s, run[0]).value, run[1..]))
  }

  ghost predicate AttendedAlong(s: State, run: seq<Fiber>)
    decreases |run|
  {
    Attended(s) &&
    (run == [] || (run[0] in s.pc && Next(s, run[0]).Some? && AttendedAlong(Next(s, run[0]).value, run[1..])))
  }

  lemma {:induction false} AttendedRun(s: State, run: seq<Fiber>, s': State)
    requires Exclusive(s) && Tracked(s) && Drained(s) && Attended(s) && Reaches(s, run, s')
    ensures AttendedAlong(s, run) <==> NeverStrands(s, run)
    decreases |run|
  {
    hide Exclusive, Tracked, Drained, Attended, Strands, Next;
    if run != [] {
      var next := Next(s, run[0]).value;
      ExclusiveStep(s, run[0]);
      TrackedStep(s, run[0]);
      DrainedStep(s, run[0]);
      AttendedStep(s, run[0]);
      if Strands(s, run[0]) {
        assert !AttendedAlong(next, run[1..]);
      } else {
        AttendedRun(next, run[1..], s');
      }
    }
  }

  /** In every state of a run everyone queued has an owner that will look at the queue or a fiber on its way
      to the lock, if and only if no fiber of the run joins the queue while the lock is free and nobody is
      on the way to it. */
  lemma AttendedIff(fibers: set<Fiber>, id: nat, run: seq<Fiber>, s: State)
    requires 0 !in fibers && id !in fibers
    requires Reaches(Init(fibers, id), run, s)
    ensures AttendedAlong(Init(fibers, id), run) <==> NeverStrands(Init(fibers, id), run)
  {
    hide Exclusive, Tracked, Drained, Attended;
    InitOk(fibers, id);
    AttendedRun(Init(fibers, id), run, s);
  }

  /** As long as nobody was stranded, somebody can take a step. */
  lemma Progress(s: State) returns (f: Fiber)
    requires Exclusive(s) && Tracked(s) && Attended(s) && s.pc != map[]
    ensures f in s.pc && Next(s, f).Some?
  {
    hide Next, Tracked, Attended;
    f := SomebodyUp(s);
    if s.guard.Some? {
      f := s.guard.value;
    }
    BlockedIff(s, f);
  }

  lemma SomebodyUp(s: State) returns (f: Fiber)
    requires Exclusive(s) && Tracked(s) && Attended(s) && s.pc != map[]
    ensures f in s.pc && !(s.pc[f].Parked? && f !in s.ready)
  {
    assert s.pc.Keys != {};
    f :| f in s.pc.Keys;
    if forall g | g in s.pc :: s.pc[g].Parked? && g !in s.ready {
      AsleepQueued(s, f);
      assert false;
    } else {
      f :| f in s.pc && !(s.pc[f].Parked? && f !in s.ready);
    }
  }

  /** If everybody sleeps, everybody is in the queue. */
  lemma AsleepQueued(s: State, f: Fiber)
    requires Tracked(s) && f in s.pc && forall g | g in s.pc :: s.pc[g].Parked? && g !in s.ready
    ensures s.queue != []
  {
    assert s.place[f] != Nowhere && s.place[f] != Submitted;
    assert !s.place[f].HandOf?;
    assert f in s.queue;
  }

  lemma {:induction false} AttendedEnd(s: State, run: seq<Fiber>, s': State)
    requires AttendedAlong(s, run) && Reaches(s, run, s')
    ensures Attended(s')
    decreases |run|
  {
    hide Attended, Next;
    if run != [] {
      AttendedEnd(Next(s, run[0]).value, run[1..], s');
    }
  }

  /** A run that never strands anybody does not get stuck. */
  lemma NoDeadlock(fibers: set<Fiber>, id: nat, run: seq<Fiber>, s: State) returns (f: Fiber)
    requires 0 !in fibers && id !in fibers && fibers != {}
    requires Reaches(Init(fibers, id), run, s) && NeverStrands(Init(fibers, id), run)
    ensures f in s.pc && Next(s, f).Some?
  {
    var s0 := Init(fibers, id);
    InitOk(fibers, id);
    hide Reaches, Next, Attended, AttendedAlong, NeverStrands, Exclusive, Tracked;
    InvariantRun(s0, run, s);
    AttendedIff(fibers, id, run, s);
    AttendedEnd(s0, run, s);
    assert s.pc.Keys == fibers;
    f := Progress(s);
  }

  /** f has tried the lock twice in vain and is about to queue up. */
  lemma TryInVain(s: State, f: Fiber) returns (run: seq<Fiber>)
    requires f in s.pc && s.pc[f] == Out && s.owner.Some? && s.fiberId != f
    ensures Reaches(s, run, Goto(s, f, PushGuard))
  {
    var s1 := Goto(s, f, Check);
    var s2 := Goto(s1, f, Try1);
    var s3 := Goto(s2, f, Try2);
    var s4 := Goto(s3, f, PushGuard);
    assert s4 == Goto(s, f, PushGuard);
    ReachesOne(s3, f, s4, [], s4);
    ReachesOne(s2, f, s3, [f] + [], s4);
    ReachesOne(s1, f, s2, [f] + ([f] + []), s4);
    ReachesOne(s, f, s1, [f] + ([f] + ([f] + [])), s4);
    run := [f] + ([f] + ([f] + ([f] + [])));
  }

  function QueuedUp(s: State, f: Fiber): State {
    Goto(s, f, Parked).(queue := s.queue + [f], place := s.place[f := Queued])
  }

  lemma QueueUp(s: State, f: Fiber) returns (run: seq<Fiber>)
    requires f in s.pc && s.pc[f] == PushGuard && s.guard == None
    ensures Reaches(s, run, QueuedUp(s, f))
  {
    var s1 := Goto(s, f, PushQueue).(guard := Some(f));
    var s2 := Goto(s1, f, PushDone).(queue := s.queue + [f], place := s.place[f := Queued]);
    var s3 := Goto(s2, f, Parked).(guard := None);
    assert s3 == QueuedUp(s, f);
    ReachesOne(s2, f, s3, [], s3);
    ReachesOne(s1, f, s2, [f] + [], s3);
    ReachesOne(s, f, s1, [f] + ([f] + []), s3);
    run := [f] + ([f] + ([f] + []));
  }

  /** It does happen, to any two fibers: f sleeps in the queue of a free mutex that everybody else has left. */
  lemma SleepsOnFreeLock(fibers: set<Fiber>, id: nat, f: Fiber, g: Fiber) returns (run: seq<Fiber>, s: State)
    requires 0 !in fibers && id !in fibers && f in fibers && g in fibers && f != g
    ensures Reaches(Init(fibers, id), run, s) && !Attended(s)
    ensures s.pc == (map h | h in fibers :: if h == f then Parked else Out)
    ensures s.queue == [f] && s.owner == None && s.guard == None && s.ready == {}
  {
    hide Reaches, Next;
    var s0 := Init(fibers, id);
    var r1 := LockFree(s0, g);
    var s1 := Locked(s0, g);
    var r2 := TryInVain(s1, f);
    var s2 := Goto(s1, f, PushGuard);
    var r3 := UnlockFree(s2, g);
    var s3 := Goto(s2, g, Out).(owner := None, fiberId := 0);
    var r4 := QueueUp(s3, f);
    s := QueuedUp(s3, f);
    ReachesConcat(s2, r3, s3, r4, s);
    ReachesConcat(s1, r2, s2, r3 + r4, s);
    ReachesConcat(s0, r1, s1, r2 + (r3 + r4), s);
    run := r1 + (r2 + (r3 + r4));
    assert s.pc == (map h | h in fibers :: if h == f then Parked else Out);
  }
}
