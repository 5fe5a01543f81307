/**
 ChannelImpl over CoMutex and two CoCondVars, as a step system. One step is one critical section of one
 fiber: from taking the channel's lock to releasing it, which is where push, pop and waitFor either
 return or park. Which waiting fiber a notify wakes is left open. A woken fiber is taken to get the
 channel's lock when it is resumed: that it may instead be left asleep in CoMutex is not seen here but in
 module CoMutexes.
 */
module Channels {
  import opened Basics

  type Fiber = nat

  datatype State<T> = State(
    capacity: nat,
    queue: seq<T>,
    closed: bool,
    senders: map<Fiber, T>,       // parked on pushCv, each with the value it wants to push
    wokenSenders: map<Fiber, T>,  // notified, not resumed yet
    receivers: set<Fiber>,        // parked on popCv by pop
    timed: set<Fiber>,            // parked on popCv by waitFor
    wokenReceivers: set<Fiber>,
    wokenTimed: set<Fiber>,
    pushed: seq<T>,               // values of successful pushes so far, in order
    popped: seq<T>)               // values returned by successful pops so far, in order
  {
    predicate Idle(f: Fiber) {
      f !in senders && f !in wokenSenders && f !in receivers && f !in timed && f !in wokenReceivers && f !in wokenTimed
    }

    function WokenReaders(): nat { |wokenReceivers| + |wokenTimed| }
  }

  function Init<T>(capacity: nat): State<T> {
    State(capacity, [], false, map[], map[], {}, {}, {}, {}, [], [])
  }

  datatype Step<T> =
    | Push(f: Fiber, t: T, wake: Option<Fiber>)
    | PushResume(f: Fiber, wake: Option<Fiber>)
    | Pop(f: Fiber, wake: Option<Fiber>)
    | PopResume(f: Fiber, wake: Option<Fiber>)
    | WaitFor(f: Fiber, wake: Option<Fiber>)
    | WaitForResume(f: Fiber, wake: Option<Fiber>)
    | Timeout(f: Fiber)                              // the timer of a waitFor fires first
    | Close

  predicate Enabled<T>(s: State<T>, step: Step<T>) {
    match step
    case Push(f, _, wake) => s.Idle(f) && WakesReader(s, wake)
    case PushResume(f, wake) => f in s.wokenSenders && WakesReader(s, wake)
    case Pop(f, wake) => s.Idle(f) && WakesSender(s, wake)
    case PopResume(f, wake) => f in s.wokenReceivers && WakesSender(s, wake)
    case WaitFor(f, wake) => s.Idle(f) && WakesSender(s, wake)
    case WaitForResume(f, wake) => f in s.wokenTimed && WakesSender(s, wake)
    case Timeout(f) => f in s.timed || f in s.wokenTimed
    case Close => true
  }

  predicate WakesReader<T>(s: State<T>, wake: Option<Fiber>) {
    match wake
    case None => s.receivers == {} && s.timed == {}
    case Some(g) => g in s.receivers || g in s.timed
  }

  predicate WakesSender<T>(s: State<T>, wake: Option<Fiber>) {
    match wake
    case None => s.senders == map[]
    case Some(g) => g in s.senders
  }

  function NotifyReader<T>(s: State<T>, wake: Option<Fiber>): State<T> {
    match wake
    case None => s
    case Some(g) =>
      if g in s.receivers
      then s.(receivers := s.receivers - {g}, wokenReceivers := s.wokenReceivers + {g})
      else s.(timed := s.timed - {g}, wokenTimed := s.wokenTimed + {g})
  }

  function NotifySender<T>(s: State<T>, wake: Option<Fiber>): State<T> {
    match wake
    case None => s
    case Some(g) =>
      if g in s.senders
      then s.(senders := s.senders - {g}, wokenSenders := s.wokenSenders[g := s.senders[g]])
      else s
  }

  /** From holding the lock with a value to push: return false, park, or enqueue and notify. */
  function TryPush<T>(s: State<T>, f: Fiber, t: T, wake: Option<Fiber>): State<T> {
    if s.closed then s
    else if |s.queue| >= s.capacity then s.(senders := s.senders[f := t])
    else NotifyReader(s.(queue := s.queue + [t], pushed := s.pushed + [t]), wake)
  }

  function Take<T>(s: State<T>, wake: Option<Fiber>): State<T>
    requires s.queue != []
  {
    NotifySender(s.(queue := s.queue[1..], popped := s.popped + [s.queue[0]]), wake)
  }

  function TryPop<T>(s: State<T>, f: Fiber, timed: bool, wake: Option<Fiber>): State<T> {
    if s.closed then s
    else if s.queue == [] then
      if timed then s.(timed := s.timed + {f}) else s.(receivers := s.receivers + {f})
    else Take(s, wake)
  }

  function Apply<T>(s: State<T>, step: Step<T>): State<T>
    requires Enabled(s, step)
  {
    match step
    case Push(f, t, wake) => TryPush(s, f, t, wake)
    case PushResume(f, wake) => TryPush(s.(wokenSenders := s.wokenSenders - {f}), f, s.wokenSenders[f], wake)
    case Pop(f, wake) => TryPop(s, f, false, wake)
    case PopResume(f, wake) => TryPop(s.(wokenReceivers := s.wokenReceivers - {f}), f, false, wake)
    case WaitFor(f, wake) => TryPop(s, f, true, wake)
    case WaitForResume(f, wake) => TryPop(s.(wokenTimed := s.wokenTimed - {f}), f, true, wake)
    case Timeout(f) => s.(timed := s.timed - {f}, wokenTimed := s.wokenTimed - {f})
    case Close =>
      if s.closed then s
      else s.(closed := true, queue := [],
              senders := map[], wokenSenders := s.wokenSenders + s.senders,
              receivers := {}, wokenReceivers := s.wokenReceivers + s.receivers,
              timed := {}, wokenTimed := s.wokenTimed + s.timed)
  }

  /** s' is reached from s by this run. */
  ghost predicate Reaches<T(!new)>(s: State<T>, run: seq<Step<T>>, s': State<T>)
    decreases |run|
  {
    if run == [] then s' == s
    else Enabled(s, run[0]) && Reaches(Apply(s, run[0]), run[1..], s')
  }

  // ---- safety -------------------------------------------------------------------------------

  /** FIFO, capacity, and nothing parked or queued behind a closed channel. */
  predicate Safe<T(==)>(s: State<T>) {
    && |s.queue| <= s.capacity
    && (!s.closed ==> s.popped + s.queue == s.pushed)
    && (s.closed ==> s.popped <= s.pushed && s.queue == [])
    && (s.closed ==> s.senders == map[] && s.receivers == {} && s.timed == {})
  }

  predicate Kept<T(==)>(s: State<T>, s': State<T>) {
    s'.capacity == s.capacity &&
    (s.closed ==> s'.closed && s'.pushed == s.pushed && s'.popped == s.popped)
  }

  lemma SafePush<T>(s: State<T>, f: Fiber, t: T, wake: Option<Fiber>)
    requires Safe(s)
    ensures Safe(TryPush(s, f, t, wake)) && Kept(s, TryPush(s, f, t, wake))
  {
    assert s.popped + (s.queue + [t]) == s.popped + s.queue + [t];
  }

  lemma SafePop<T>(s: State<T>, f: Fiber, timed: bool, wake: Option<Fiber>)
    requires Safe(s)
    ensures Safe(TryPop(s, f, timed, wake)) && Kept(s, TryPop(s, f, timed, wake))
  {
    if s.queue != [] {
      assert s.popped + [s.queue[0]] + s.queue[1..] == s.popped + s.queue;
    }
  }

  lemma SafeStep<T>(s: State<T>, step: Step<T>)
    requires Safe(s) && Enabled(s, step)
    ensures Safe(Apply(s, step)) && Kept(s, Apply(s, step))
  {
    hide TryPush, TryPop;
    match step
    case Push(f, t, wake) => SafePush(s, f, t, wake);
    case PushResume(f, wake) => SafePush(s.(wokenSenders := s.wokenSenders - {f}), f, s.wokenSenders[f], wake);
    case Pop(f, wake) => SafePop(s, f, false, wake);
    case PopResume(f, wake) => SafePop(s.(wokenReceivers := s.wokenReceivers - {f}), f, false, wake);
    case WaitFor(f, wake) => SafePop(s, f, true, wake);
    case WaitForResume(f, wake) => SafePop(s.(wokenTimed := s.wokenTimed - {f}), f, true, wake);
    case Timeout(_) =>
    case Close =>
  }

  lemma {:induction false} SafeRun<T(!new)>(s: State<T>, run: seq<Step<T>>, s': State<T>)
    requires Safe(s) && Reaches(s, run, s')
    ensures Safe(s') && Kept(s, s')
    decreases |run|
  {
    hide Safe, Apply;
    if run != [] {
      SafeStep(s, run[0]);
      SafeRun(Apply(s, run[0]), run[1..], s');
    }
  }

  /** Over every interleaving: pops return the pushed values in order, the queue is the rest and within
      capacity; a closed channel stays closed, its history is final and no fiber is parked on it. */
  lemma ChannelSafety<T(!new)>(capacity: nat, run: seq<Step<T>>, s: State<T>, more: seq<Step<T>>, s': State<T>)
    requires Reaches(Init(capacity), run, s) && Reaches(s, more, s')
    ensures |s.queue| <= capacity
    ensures !s.closed ==> PopsOf(Init(capacity), run) + s.queue == PushesOf(Init(capacity), run)
    ensures s.closed ==> PopsOf(Init(capacity), run) <= PushesOf(Init(capacity), run)
    ensures s.closed ==> PushesOf(s, more) == [] && PopsOf(s, more) == []
    ensures s.closed ==> s'.closed && s'.pushed == s.pushed && s'.popped == s.popped
    ensures s.closed ==> s'.queue == [] && s'.senders == map[] && s'.receivers == {} && s'.timed == {}
  {
    var s0: State<T> := Init(capacity);
    hide Reaches, Apply, PushesOf, PopsOf;
    SafeRun(s0, run, s);
    SafeRun(s, more, s');
    HistoryRun(s0, run, s);
    HistoryRun(s, more, s');
    assert s.pushed == PushesOf(s0, run) && s.popped == PopsOf(s0, run);
  }

  // ---- what each call does, and that nobody is forgotten --------------------------------------

  predicate Pushes<T>(step: Step<T>) { step.Push? || step.PushResume? }

  predicate Pops<T>(step: Step<T>) { step.Pop? || step.PopResume? || step.WaitFor? || step.WaitForResume? }

  /** The value a push step brings. */
  function Offer<T>(s: State<T>, step: Step<T>): T
    requires Enabled(s, step) && Pushes(step)
  {
    if step.Push? then step.t else s.wokenSenders[step.f]
  }

  /** The call of the fiber that took the step has returned. */
  ghost predicate Returned<T>(s: State<T>, step: Step<T>, s': State<T>)
    requires !step.Close?
  {
    s'.Idle(step.f) && s'.closed == s.closed && s'.capacity == s.capacity
  }

  /** A push returns false on a closed channel, parks with its value on a full one, and else appends the value
      and wakes the reader chosen. */
  lemma PushDoes<T>(s: State<T>, step: Step<T>)
    requires Separate(s) && Enabled(s, step) && Pushes(step)
    ensures var s', f, t := Apply(s, step), step.f, Offer(s, step);
            if s.closed then
              Returned(s, step, s') && s'.queue == s.queue && s'.pushed == s.pushed && s'.popped == s.popped
            else if |s.queue| >= s.capacity then
              && f in s'.senders && s'.senders[f] == t && f !in s'.wokenSenders
              && s'.queue == s.queue && s'.pushed == s.pushed && s'.popped == s.popped
            else
              && Returned(s, step, s') && s'.queue == s.queue + [t] && s'.pushed == s.pushed + [t] && s'.popped == s.popped
              && (step.wake.Some? ==>
                    step.wake.value in s'.wokenReceivers + s'.wokenTimed && step.wake.value !in s'.receivers + s'.timed)
  {
  }

  /** A pop returns false on a closed channel, parks on an empty one, and else takes the oldest value and wakes
      the sender chosen. */
  lemma PopDoes<T>(s: State<T>, step: Step<T>)
    requires Separate(s) && Enabled(s, step) && Pops(step)
    ensures var s', f := Apply(s, step), step.f;
            if s.closed then
              Returned(s, step, s') && s'.queue == s.queue && s'.pushed == s.pushed && s'.popped == s.popped
            else if s.queue == [] then
              && (if step.WaitFor? || step.WaitForResume? then f in s'.timed && f !in s'.wokenTimed
                  else f in s'.receivers && f !in s'.wokenReceivers)
              && s'.queue == s.queue && s'.pushed == s.pushed && s'.popped == s.popped
            else
              && Returned(s, step, s') && s.queue == [s.queue[0]] + s'.queue
              && s'.popped == s.popped + [s.queue[0]] && s'.pushed == s.pushed
              && (step.wake.Some? ==> step.wake.value in s'.wokenSenders && step.wake.value !in s'.senders)
  {
  }

  /** A timeout ends the call and touches nothing else. */
  lemma TimeoutDoes<T>(s: State<T>, f: Fiber)
    requires Separate(s) && Enabled(s, Timeout(f))
    ensures var s' := Apply(s, Timeout(f));
            Returned(s, Timeout(f), s') && s'.queue == s.queue && s'.pushed == s.pushed && s'.popped == s.popped
  {
  }

  /** Whoever is parked stays parked or is woken, whoever is woken stays woken, a sender with its value. */
  predicate Remembered<T(==)>(s: State<T>, s': State<T>, g: Fiber) {
    && (g in s.senders ==>
          || (g in s'.senders && s'.senders[g] == s.senders[g])
          || (g in s'.wokenSenders && s'.wokenSenders[g] == s.senders[g]))
    && (g in s.wokenSenders ==> g in s'.wokenSenders && s'.wokenSenders[g] == s.wokenSenders[g])
    && (g in s.receivers ==> g in s'.receivers || g in s'.wokenReceivers)
    && (g in s.wokenReceivers ==> g in s'.wokenReceivers)
    && (g in s.timed ==> g in s'.timed || g in s'.wokenTimed)
    && (g in s.wokenTimed ==> g in s'.wokenTimed)
  }

  predicate By<T>(step: Step<T>, g: Fiber) { !step.Close? && step.f == g }

  lemma RememberedStep<T>(s: State<T>, step: Step<T>, g: Fiber)
    requires Separate(s) && Enabled(s, step) && !By(step, g)
    ensures Remembered(s, Apply(s, step), g)
  {
  }

  /** Closing empties the queue and wakes everybody parked; each of them can then go on, and its call returns. */
  lemma CloseReleases<T>(s: State<T>, g: Fiber)
    requires Safe(s) && Separate(s)
    ensures var s' := Apply(s, Close);
            && s'.closed && s'.queue == [] && s'.pushed == s.pushed && s'.popped == s.popped
            && (g in s.senders || g in s.wokenSenders ==>
                  Enabled(s', PushResume(g, None)) && Apply(s', PushResume(g, None)).Idle(g))
            && (g in s.receivers || g in s.wokenReceivers ==>
                  Enabled(s', PopResume(g, None)) && Apply(s', PopResume(g, None)).Idle(g))
            && (g in s.timed || g in s.wokenTimed ==>
                  Enabled(s', WaitForResume(g, None)) && Apply(s', WaitForResume(g, None)).Idle(g))
  {
  }

  lemma SeparateStep<T>(s: State<T>, step: Step<T>)
    requires Separate(s) && Enabled(s, step)
    ensures Separate(Apply(s, step))
  {
    hide TryPush, TryPop;
    match step
    case Push(f, t, wake) => PushSeparate(s, f, t, wake);
    case Pop(f, wake) => PopSeparate(s, f, false, wake);
    case WaitFor(f, wake) => PopSeparate(s, f, true, wake);
    case PushResume(f, wake) => PushSeparate(s.(wokenSenders := s.wokenSenders - {f}), f, s.wokenSenders[f], wake);
    case PopResume(f, wake) => PopSeparate(s.(wokenReceivers := s.wokenReceivers - {f}), f, false, wake);
    case WaitForResume(f, wake) => PopSeparate(s.(wokenTimed := s.wokenTimed - {f}), f, true, wake);
    case Timeout(_) =>
    case Close =>
  }

  /** Over any run in which fiber g takes no step, g is not forgotten. */
  lemma {:induction false} RememberedRun<T(!new)>(s: State<T>, run: seq<Step<T>>, s': State<T>, g: Fiber)
    requires Separate(s) && Reaches(s, run, s') && forall i | 0 <= i < |run| :: !By(run[i], g)
    ensures Separate(s') && Remembered(s, s', g)
    decreases |run|
  {
    hide Separate, Apply, Enabled;
    if run != [] {
      var next := Apply(s, run[0]);
      SeparateStep(s, run[0]);
      RememberedStep(s, run[0], g);
      RememberedRun(next, run[1..], s', g);
    }
  }

  /** The values of the successful pushes of a run, in order, read off the run. */
  ghost function PushesOf<T(!new)>(s: State<T>, run: seq<Step<T>>): seq<T>
    decreases |run|
  {
    if run == [] || !Enabled(s, run[0]) then []
    else
      (if Pushes(run[0]) && !s.closed && |s.queue| < s.capacity then [Offer(s, run[0])] else [])
      + PushesOf(Apply(s, run[0]), run[1..])
  }

  /** The values the successful pops of a run return. */
  ghost function PopsOf<T(!new)>(s: State<T>, run: seq<Step<T>>): seq<T>
    decreases |run|
  {
    if run == [] || !Enabled(s, run[0]) then []
    else
      (if Pops(run[0]) && !s.closed && s.queue != [] then [s.queue[0]] else [])
      + PopsOf(Apply(s, run[0]), run[1..])
  }

  lemma {:induction false} HistoryRun<T(!new)>(s: State<T>, run: seq<Step<T>>, s': State<T>)
    requires Separate(s) && Reaches(s, run, s')
    ensures s'.pushed == s.pushed + PushesOf(s, run) && s'.popped == s.popped + PopsOf(s, run)
    ensures Separate(s')
    decreases |run|
  {
    hide Separate, Apply, Enabled;
    if run != [] {
      var next := Apply(s, run[0]);
      SeparateStep(s, run[0]);
      HistoryStep(s, run[0]);
      HistoryRun(next, run[1..], s');
    }
  }

  lemma HistoryStep<T>(s: State<T>, step: Step<T>)
    requires Separate(s) && Enabled(s, step)
    ensures var s' := Apply(s, step);
            && s'.pushed == s.pushed + (if Pushes(step) && !s.closed && |s.queue| < s.capacity then [Offer(s, step)] else [])
            && s'.popped == s.popped + (if Pops(step) && !s.closed && s.queue != [] then [s.queue[0]] else [])
  {
    hide Apply;
    if Pushes(step) {
      PushDoes(s, step);
    } else if Pops(step) {
      PopDoes(s, step);
    } else if step.Timeout? {
      TimeoutDoes(s, step.f);
    } else {
      CloseHistory(s);
    }
  }

  lemma CloseHistory<T>(s: State<T>)
    ensures Apply(s, Close).pushed == s.pushed && Apply(s, Close).popped == s.popped
  {
  }

  /** Anybody not waiting can call, and anybody woken can go on. */
  lemma CanStep<T(!new)>(s: State<T>, f: Fiber, t: T)
    ensures s.Idle(f) ==> exists wake :: Enabled(s, Push(f, t, wake))
    ensures s.Idle(f) ==> exists wake :: Enabled(s, Step<T>.Pop(f, wake)) && Enabled(s, Step<T>.WaitFor(f, wake))
    ensures f in s.wokenSenders ==> exists wake :: Enabled(s, Step<T>.PushResume(f, wake))
    ensures f in s.wokenReceivers ==> exists wake :: Enabled(s, Step<T>.PopResume(f, wake))
    ensures f in s.wokenTimed ==> exists wake :: Enabled(s, Step<T>.WaitForResume(f, wake))
    ensures f in s.timed || f in s.wokenTimed ==> Enabled(s, Step<T>.Timeout(f))
    ensures Enabled(s, Step<T>.Close)
  {
    var reader := SomeReader(s);
    var sender := SomeSender(s);
    assert s.Idle(f) ==> Enabled(s, Push(f, t, reader));
    assert s.Idle(f) ==> Enabled(s, Step<T>.Pop(f, sender)) && Enabled(s, Step<T>.WaitFor(f, sender));
    assert f in s.wokenSenders ==> Enabled(s, Step<T>.PushResume(f, reader));
    assert f in s.wokenReceivers ==> Enabled(s, Step<T>.PopResume(f, sender));
    assert f in s.wokenTimed ==> Enabled(s, Step<T>.WaitForResume(f, sender));
  }

  lemma SomeReader<T>(s: State<T>) returns (wake: Option<Fiber>)
    ensures WakesReader(s, wake)
  {
    wake := None;
    if s.receivers != {} {
      var g :| g in s.receivers;
      wake := Some(g);
    } else if s.timed != {} {
      var g :| g in s.timed;
      wake := Some(g);
    }
  }

  lemma SomeSender<T>(s: State<T>) returns (wake: Option<Fiber>)
    ensures WakesSender(s, wake)
  {
    wake := None;
    if s.senders != map[] {
      assert s.senders.Keys != {};
      var g :| g in s.senders.Keys;
      wake := Some(g);
    }
  }

  // ---- no lost wakeup -----------------------------------------------------------------------

  predicate Separate<T>(s: State<T>) {
    && s.senders.Keys !! s.wokenSenders.Keys
    && s.receivers !! s.wokenReceivers
    && s.timed !! s.wokenTimed
    && (forall f | f in s.senders.Keys + s.wokenSenders.Keys ::
          f !in s.receivers && f !in s.timed && f !in s.wokenReceivers && f !in s.wokenTimed)
    && (forall f | f in s.receivers + s.wokenReceivers :: f !in s.timed && f !in s.wokenTimed)
  }

  /** A parked receiver leaves no more items than woken readers (and `r` others) will look at; dually for
      senders. */
  predicate Awake<T>(s: State<T>, r: nat, w: nat) {
    && (s.receivers != {} || s.timed != {} ==> |s.queue| <= s.WokenReaders() + r)
    && (s.senders != map[] ==> s.capacity - |s.queue| <= |s.wokenSenders| + w)
  }

  predicate Sound<T(==)>(s: State<T>) { Safe(s) && Separate(s) && Awake(s, 0, 0) }

  /** A step that spends a notification on a fiber that then gives up. */
  predicate Wasteful<T>(s: State<T>, step: Step<T>) {
    step.Timeout? && step.f in s.wokenTimed
  }

  /** ... while some reader is parked and the woken readers were just enough for the items. */
  predicate Losing<T>(s: State<T>, step: Step<T>) {
    Wasteful(s, step) && (s.receivers != {} || s.timed != {}) && |s.queue| >= s.WokenReaders()
  }

  lemma PushSeparate<T>(s: State<T>, f: Fiber, t: T, wake: Option<Fiber>)
    requires Separate(s) && s.Idle(f) && WakesReader(s, wake)
    ensures Separate(TryPush(s, f, t, wake))
  {
    if !s.closed && |s.queue| >= s.capacity {
      assert s.senders[f := t].Keys == s.senders.Keys + {f};
    }
  }

  /** A fiber that holds the lock with a value may be one of the woken senders counted on. */
  lemma PushAwake<T>(s: State<T>, f: Fiber, t: T, wake: Option<Fiber>)
    requires Safe(s) && Separate(s) && Awake(s, 0, 1) && s.Idle(f) && WakesReader(s, wake)
    ensures Awake(TryPush(s, f, t, wake), 0, 0)
  {
    var s' := TryPush(s, f, t, wake);
    if !s.closed && |s.queue| < s.capacity && wake.Some? {
      OneMore(s.wokenReceivers, s.wokenTimed, wake.value);
    }
  }

  lemma OneMore(a: set<Fiber>, b: set<Fiber>, g: Fiber)
    ensures g !in a ==> |a + {g}| == |a| + 1
    ensures g !in b ==> |b + {g}| == |b| + 1
  {
  }

  lemma PopSeparate<T>(s: State<T>, f: Fiber, timed: bool, wake: Option<Fiber>)
    requires Separate(s) && s.Idle(f) && WakesSender(s, wake)
    ensures Separate(TryPop(s, f, timed, wake))
  {
    hide Separate, Take;
    if !s.closed {
      if s.queue == [] {
        ParkSeparate(s, f);
      } else {
        TakeSeparate(s, wake);
      }
    }
  }

  lemma ParkSeparate<T>(s: State<T>, f: Fiber)
    requires Separate(s) && s.Idle(f)
    ensures Separate(s.(timed := s.timed + {f})) && Separate(s.(receivers := s.receivers + {f}))
  {
  }

  lemma TakeSeparate<T>(s: State<T>, wake: Option<Fiber>)
    requires Separate(s) && WakesSender(s, wake) && s.queue != []
    ensures Separate(Take(s, wake))
  {
    if wake.Some? {
      MoveSender(s, wake.value);
    }
  }

  lemma MoveSender<T>(s: State<T>, g: Fiber)
    requires g in s.senders && g !in s.wokenSenders
    ensures (s.senders - {g}).Keys == s.senders.Keys - {g}
    ensures s.wokenSenders[g := s.senders[g]].Keys == s.wokenSenders.Keys + {g}
    ensures |s.wokenSenders[g := s.senders[g]]| == |s.wokenSenders| + 1
  {
    var m := s.wokenSenders[g := s.senders[g]];
    assert m.Keys == s.wokenSenders.Keys + {g};
    assert |m.Keys| == |s.wokenSenders.Keys| + 1;
  }

  lemma PopAwake<T>(s: State<T>, f: Fiber, timed: bool, wake: Option<Fiber>)
    requires Safe(s) && Separate(s) && Awake(s, 1, 0) && s.Idle(f) && WakesSender(s, wake)
    ensures Awake(TryPop(s, f, timed, wake), 0, 0)
  {
    if !s.closed && s.queue != [] && wake.Some? {
      MoveSender(s, wake.value);
    }
  }

  lemma CloseAwake<T>(s: State<T>)
    requires Sound(s)
    ensures Separate(Apply(s, Close)) && Awake(Apply(s, Close), 0, 0)
  {
  }

  /** From a state in which no wakeup is lost, exactly the losing steps lose one. */
  lemma SoundStep<T>(s: State<T>, step: Step<T>)
    requires Sound(s) && Enabled(s, step)
    ensures Safe(Apply(s, step)) && Separate(Apply(s, step))
    ensures Awake(Apply(s, step), 0, 0) <==> !Losing(s, step)
  {
    hide Separate, Awake, TryPush, TryPop;
    SafeStep(s, step);
    match step
    case Push(f, t, wake) =>
      Slack(s);
      PushSeparate(s, f, t, wake);
      PushAwake(s, f, t, wake);
    case Pop(f, wake) =>
      Slack(s);
      PopSeparate(s, f, false, wake);
      PopAwake(s, f, false, wake);
    case WaitFor(f, wake) =>
      Slack(s);
      PopSeparate(s, f, true, wake);
      PopAwake(s, f, true, wake);
    case PushResume(f, wake) =>
      var held := s.(wokenSenders := s.wokenSenders - {f});
      ResumeSender(s, f);
      PushSeparate(held, f, s.wokenSenders[f], wake);
      PushAwake(held, f, s.wokenSenders[f], wake);
    case PopResume(f, wake) =>
      var held := s.(wokenReceivers := s.wokenReceivers - {f});
      ResumeReceiver(s, f);
      PopSeparate(held, f, false, wake);
      PopAwake(held, f, false, wake);
    case WaitForResume(f, wake) =>
      var held := s.(wokenTimed := s.wokenTimed - {f});
      ResumeTimed(s, f);
      PopSeparate(held, f, true, wake);
      PopAwake(held, f, true, wake);
    case Timeout(f) => if f in s.wokenTimed { WasteTimed(s, f); } else { DropTimed(s, f); }
    case Close => CloseAwake(s);
  }

  lemma Slack<T>(s: State<T>)
    requires Awake(s, 0, 0)
    ensures Awake(s, 0, 1) && Awake(s, 1, 0)
  {
  }

  lemma ResumeSender<T>(s: State<T>, f: Fiber)
    requires Sound(s) && f in s.wokenSenders
    ensures var s' := s.(wokenSenders := s.wokenSenders - {f});
            Safe(s') && Separate(s') && Awake(s', 0, 1) && s'.Idle(f)
  {
    assert (s.wokenSenders - {f}).Keys == s.wokenSenders.Keys - {f};
    assert |(s.wokenSenders - {f}).Keys| == |s.wokenSenders.Keys| - 1;
  }

  lemma ResumeReceiver<T>(s: State<T>, f: Fiber)
    requires Sound(s) && f in s.wokenReceivers
    ensures var s' := s.(wokenReceivers := s.wokenReceivers - {f});
            Safe(s') && Separate(s') && Awake(s', 1, 0) && s'.Idle(f)
  {
    assert |s.wokenReceivers - {f}| == |s.wokenReceivers| - 1;
  }

  lemma ResumeTimed<T>(s: State<T>, f: Fiber)
    requires Sound(s) && f in s.wokenTimed
    ensures var s' := s.(wokenTimed := s.wokenTimed - {f});
            Safe(s') && Separate(s') && Awake(s', 1, 0) && s'.Idle(f)
  {
    assert |s.wokenTimed - {f}| == |s.wokenTimed| - 1;
  }

  lemma DropTimed<T>(s: State<T>, f: Fiber)
    requires Sound(s) && f in s.timed && f !in s.wokenTimed
    ensures var s' := s.(timed := s.timed - {f}, wokenTimed := s.wokenTimed - {f});
            Separate(s') && Awake(s', 0, 0)
  {
    assert s.wokenTimed - {f} == s.wokenTimed;
  }

  /** A notified waitFor gives up. */
  lemma WasteTimed<T>(s: State<T>, f: Fiber)
    requires Sound(s) && f in s.wokenTimed
    ensures var s' := Apply(s, Timeout(f));
            Separate(s') && (Awake(s', 0, 0) <==> !Losing(s, Timeout(f)))
  {
    assert s.timed - {f} == s.timed;
    assert |s.wokenTimed - {f}| == |s.wokenTimed| - 1;
  }

  /** No step of the run is a losing one. */
  ghost predicate Thrifty<T(!new)>(s: State<T>, run: seq<Step<T>>)
    decreases |run|
  {
    run == [] || (Enabled(s, run[0]) && !Losing(s, run[0]) && Thrifty(Apply(s, run[0]), run[1..]))
  }

  /** In every state of the run the usable items and slots are covered by woken fibers. */
  ghost predicate AwakeAlong<T(!new)>(s: State<T>, run: seq<Step<T>>)
    decreases |run|
  {
    Awake(s, 0, 0) && (run == [] || (Enabled(s, run[0]) && AwakeAlong(Apply(s, run[0]), run[1..])))
  }

  lemma {:induction false} SoundRun<T(!new)>(s: State<T>, run: seq<Step<T>>, s': State<T>)
    requires Sound(s) && Reaches(s, run, s')
    ensures AwakeAlong(s, run) <==> Thrifty(s, run)
    ensures Thrifty(s, run) ==> Sound(s') && s'.capacity == s.capacity
    decreases |run|
  {
    hide Awake, Apply, Losing, Safe, Separate;
    if run != [] {
      var next := Apply(s, run[0]);
      SoundStep(s, run[0]);
      SafeStep(s, run[0]);
      UnpackKept(s, next);
      if Losing(s, run[0]) {
        assert !AwakeAlong(next, run[1..]);
      } else {
        SoundRun(next, run[1..], s');
      }
    }
  }

  lemma UnpackKept<T>(s: State<T>, s': State<T>)
    requires Kept(s, s')
    ensures s'.capacity == s.capacity
  {
  }

  /** No wakeup is lost in any state of a run if and only if no step of it is a notified waitFor timing out
      while a reader is parked and the woken readers are just enough for the queued items. */
  lemma WakeupIff<T(!new)>(capacity: nat, run: seq<Step<T>>, s: State<T>)
    requires Reaches(Init(capacity), run, s)
    ensures AwakeAlong(Init(capacity), run) <==> Thrifty(Init(capacity), run)
  {
    SoundRun(Init(capacity), run, s);
  }

  /** What that means at the end of such a run: items a parked receiver could take are covered by woken
      readers, free slots a parked sender could use by woken senders; so with room for one item, receivers and
      senders are never both parked with nobody about to run. */
  lemma NoLostWakeup<T(!new)>(capacity: nat, run: seq<Step<T>>, s: State<T>)
    requires Reaches(Init(capacity), run, s) && Thrifty(Init(capacity), run)
    ensures s.receivers != {} || s.timed != {} ==> |s.queue| <= s.WokenReaders()
    ensures s.senders != map[] ==> capacity - |s.queue| <= |s.wokenSenders|
    ensures capacity >= 1 && s.senders != map[] && (s.receivers != {} || s.timed != {}) ==>
              s.WokenReaders() > 0 || |s.wokenSenders| > 0
  {
    SoundRun(Init(capacity), run, s);
  }

  /** Losing steps are within reach of any three fibers, whatever the capacity: f waits with a timeout, g
      without, h pushes and wakes f, and f times out. */
  lemma TimeoutLosesWakeup<T(!new)>(capacity: nat, f: Fiber, g: Fiber, h: Fiber, x: T) returns (run: seq<Step<T>>, s: State<T>)
    requires capacity >= 1 && f != g && g != h && f != h
    ensures Reaches(Init(capacity), run, s) && !Thrifty(Init(capacity), run)
    ensures s.receivers == {g} && s.queue == [x] && s.WokenReaders() == 0 && s.wokenSenders == map[]
  {
    var s0: State<T> := Init(capacity);
    var s1 := Apply(s0, WaitFor(f, None));
    var s2 := Apply(s1, Pop(g, None));
    var s3 := Apply(s2, Push(h, x, Some(f)));
    s := Apply(s3, Timeout(f));
    run := [WaitFor(f, None)] + ([Pop(g, None)] + ([Push(h, x, Some(f))] + ([Timeout(f)] + [])));
    ReachesOne(s3, Timeout(f), [], s);
    ReachesOne(s2, Push(h, x, Some(f)), [Timeout(f)] + [], s);
    ReachesOne(s1, Pop(g, None), [Push(h, x, Some(f))] + ([Timeout(f)] + []), s);
    ReachesOne(s0, WaitFor(f, None), run[1..], s);
    if Thrifty(s0, run) {
      NoLostWakeup(capacity, run, s);
    }
  }

  lemma ReachesOne<T(!new)>(s: State<T>, step: Step<T>, more: seq<Step<T>>, s': State<T>)
    requires Enabled(s, step) && Reaches(Apply(s, step), more, s')
    ensures Reaches(s, [step] + more, s')
  {
    assert ([step] + more)[1..] == more;
  }
}
