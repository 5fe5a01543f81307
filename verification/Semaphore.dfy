/**
 CoSemaphore as a step system: one step is one critical section of wait or notify. A woken fiber is taken to get
 the semaphore's lock when it is resumed.
 */
module Semaphores {
  import opened Basics

  type Fiber = nat

  datatype State = State(
    num: nat, used: nat,
    parked: set<Fiber>,     // waiting on the condition variable
    woken: set<Fiber>)      // notified, not resumed yet

  function Init(num: nat): State { State(num, 0, {}, {}) }

  datatype Step = Wait(f: Fiber) | WaitResume(f: Fiber) | Notify(wake: Option<Fiber>)

  predicate Enabled(s: State, step: Step) {
    match step
    case Wait(f) => f !in s.parked && f !in s.woken
    case WaitResume(f) => f in s.woken
    case Notify(None) => s.parked == {}
    case Notify(Some(g)) => g in s.parked
  }

  /** With the lock held: park while no permit is free, else take one. */
  function TryWait(s: State, f: Fiber): State {
    if s.used >= s.num then s.(parked := s.parked + {f})
    else s.(used := s.used + 1)
  }

  function Release(s: State): State {
    if s.used > 0 then s.(used := s.used - 1) else s
  }

  function Apply(s: State, step: Step): State
    requires Enabled(s, step)
  {
    match step
    case Wait(f) => TryWait(s, f)
    case WaitResume(f) => TryWait(s.(woken := s.woken - {f}), f)
    case Notify(None) => Release(s)
    case Notify(Some(g)) => Release(s).(parked := s.parked - {g}, woken := s.woken + {g})
  }

  ghost predicate Reaches(s: State, run: seq<Step>, s': State)
    decreases |run|
  {
    if run == [] then s' == s else Enabled(s, run[0]) && Reaches(Apply(s, run[0]), run[1..], s')
  }

  // ---- what each call does ------------------------------------------------------------------

  /** A wait that finds a permit takes it and returns; one that finds none parks. */
  lemma WaitDoes(s: State, step: Step)
    requires Enabled(s, step) && !step.Notify? && s.parked !! s.woken
    ensures var s' := Apply(s, step);
            && s'.num == s.num && s'.woken == s.woken - {step.f}
            && (s.used < s.num ==> s'.used == s.used + 1 && s'.parked == s.parked && step.f !in s'.parked)
            && (s.used >= s.num ==> s'.used == s.used && s'.parked == s.parked + {step.f})
  {
  }

  /** A notify frees a permit if one is taken, and wakes the parked fiber chosen if there is one. */
  lemma NotifyDoes(s: State, wake: Option<Fiber>)
    requires Enabled(s, Notify(wake))
    ensures var s' := Apply(s, Notify(wake));
            && s'.num == s.num
            && (s.used > 0 ==> s'.used == s.used - 1) && (s.used == 0 ==> s'.used == 0)
            && (wake.None? ==> s'.parked == s.parked && s'.woken == s.woken)
            && (wake.Some? ==> s'.parked == s.parked - {wake.value} && s'.woken == s.woken + {wake.value})
  {
  }

  /** Anybody not waiting can call wait, anybody woken can go on, and anybody can notify. */
  lemma CanStep(s: State, f: Fiber)
    ensures f !in s.parked && f !in s.woken ==> Enabled(s, Wait(f))
    ensures f in s.woken ==> Enabled(s, WaitResume(f))
    ensures exists wake :: Enabled(s, Notify(wake))
  {
    if s.parked == {} {
      assert Enabled(s, Notify(None));
    } else {
      var g :| g in s.parked;
      assert Enabled(s, Notify(Some(g)));
    }
  }

  // ---- over all runs ------------------------------------------------------------------------

  /** How many waits of the run got a permit, read off the run. */
  ghost function Completed(s: State, run: seq<Step>): nat
    decreases |run|
  {
    if run == [] || !Enabled(s, run[0]) then 0
    else One(!run[0].Notify? && s.used < s.num) + Completed(Apply(s, run[0]), run[1..])
  }

  /** How many notifies of the run freed one. */
  ghost function Effective(s: State, run: seq<Step>): nat
    decreases |run|
  {
    if run == [] || !Enabled(s, run[0]) then 0
    else One(run[0].Notify? && s.used > 0) + Effective(Apply(s, run[0]), run[1..])
  }

  predicate Sound(s: State) {
    && s.used <= s.num
    && s.parked !! s.woken
    && (s.parked != {} ==> s.num - s.used <= |s.woken|)
  }

  lemma SoundStep(s: State, step: Step)
    requires Sound(s) && Enabled(s, step)
    ensures Sound(Apply(s, step)) && Apply(s, step).num == s.num
  {
    hide Apply;
    if step.Notify? {
      NotifyDoes(s, step.wake);
      if step.wake.Some? {
        assert |s.woken + {step.wake.value}| == |s.woken| + 1;
      }
    } else {
      WaitDoes(s, step);
      if step.f in s.woken {
        assert |s.woken - {step.f}| == |s.woken| - 1;
      } else {
        assert s.woken - {step.f} == s.woken;
      }
    }
  }

  /** A parked fiber stays parked or is woken by a step of somebody else; a woken one stays woken. */
  lemma RememberedStep(s: State, step: Step, g: Fiber)
    requires Sound(s) && Enabled(s, step) && (step.Notify? || step.f != g)
    ensures g in s.parked ==> g in Apply(s, step).parked || g in Apply(s, step).woken
    ensures g in s.woken ==> g in Apply(s, step).woken
  {
  }

  lemma {:induction false} SoundRun(s: State, run: seq<Step>, s': State)
    requires Sound(s) && Reaches(s, run, s')
    ensures Sound(s') && s'.num == s.num
    ensures s'.used == s.used + Completed(s, run) - Effective(s, run)
    decreases |run|
  {
    hide Apply;
    if run != [] {
      SoundStep(s, run[0]);
      if run[0].Notify? { NotifyDoes(s, run[0].wake); } else { WaitDoes(s, run[0]); }
      SoundRun(Apply(s, run[0]), run[1..], s');
    }
  }

  /** Over any run in which fiber g takes no step, g is not forgotten. */
  lemma {:induction false} RememberedRun(s: State, run: seq<Step>, s': State, g: Fiber)
    requires Sound(s) && Reaches(s, run, s')
    requires forall i | 0 <= i < |run| :: run[i].Notify? || run[i].f != g
    ensures g in s.parked ==> g in s'.parked || g in s'.woken
    ensures g in s.woken ==> g in s'.woken
    decreases |run|
  {
    hide Apply, Sound;
    if run != [] {
      SoundStep(s, run[0]);
      RememberedStep(s, run[0], g);
      RememberedRun(Apply(s, run[0]), run[1..], s', g);
    }
  }

  /** Never more permits out than there are; the count is completed waits less effective notifies; and a
      parked fiber means every free permit is spoken for by a woken one. */
  lemma SemaphoreBound(num: nat, run: seq<Step>, s: State)
    requires Reaches(Init(num), run, s)
    ensures s.used <= num && s.used == Completed(Init(num), run) - Effective(Init(num), run)
    ensures s.parked != {} ==> num - s.used <= |s.woken|
    ensures s.parked != {} && s.used < num ==> s.woken != {}
  {
    SoundRun(Init(num), run, s);
  }
}
