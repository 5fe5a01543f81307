/** TimerManager: an ordered set of timers keyed by deadline and address, and what its methods do to it. */
module Timers {
  import opened Basics
  import opened Bytes

  type Addr = nat        // the address of a Timer object
  type Callback = nat

  datatype Timer = Timer(ms: nat, next: nat, callback: Option<Callback>, recurring: bool)

  type Table = map<Addr, Timer>

  // ---- Timer::Comparator and the std::set operations it drives -------------------------------

  predicate Less(t: Table, a: Addr, b: Addr)
    requires a in t && b in t
  {
    t[a].next < t[b].next || (t[a].next == t[b].next && a < b)
  }

  predicate Known(t: Table, q: seq<Addr>) { forall i | 0 <= i < |q| :: q[i] in t }

  predicate Sorted(t: Table, q: seq<Addr>) {
    Known(t, q) && forall i, j | 0 <= i < j < |q| :: Less(t, q[i], q[j])
  }

  /** How many leading elements compare less than a. */
  function LowerBound(t: Table, q: seq<Addr>, a: Addr): (k: nat)
    requires Known(t, q) && a in t
    ensures k <= |q| && forall i | 0 <= i < k :: Less(t, q[i], a)
    ensures k < |q| ==> !Less(t, q[k], a)
  {
    if q == [] || !Less(t, q[0], a) then 0 else 1 + LowerBound(t, q[1..], a)
  }

  /** std::set::find, by comparison only: the index of the element equivalent to a, or |q| for end. */
  function Find(t: Table, q: seq<Addr>, a: Addr): (k: nat)
    requires Known(t, q) && a in t
    ensures k <= |q|
  {
    var k := LowerBound(t, q, a);
    if k < |q| && !Less(t, a, q[k]) then k else |q|
  }

  /** std::set::insert: nothing happens when an equivalent element is there. */
  function Insert(t: Table, q: seq<Addr>, a: Addr): seq<Addr>
    requires Known(t, q) && a in t
  {
    if Find(t, q, a) < |q| then q
    else
      var k := LowerBound(t, q, a);
      q[..k] + [a] + q[k..]
  }

  /** upper_bound of a probe timer with deadline `now` at address `probe`. */
  function UpperBound(t: Table, q: seq<Addr>, now: nat, probe: Addr): (k: nat)
    requires Known(t, q)
    ensures k <= |q| && forall i | 0 <= i < k :: !After(t[q[i]].next, q[i], now, probe)
    ensures k < |q| ==> After(t[q[k]].next, q[k], now, probe)
  {
    if q == [] || After(t[q[0]].next, q[0], now, probe) then 0 else 1 + UpperBound(t, q[1..], now, probe)
  }

  predicate After(next: nat, a: Addr, now: nat, probe: Addr) {
    now < next || (now == next && probe < a)
  }

  /** In a sorted set, find by comparison finds exactly the members. */
  lemma FindMember(t: Table, q: seq<Addr>, a: Addr)
    requires Sorted(t, q) && a in t
    ensures Find(t, q, a) < |q| <==> a in q
    ensures Find(t, q, a) < |q| ==> q[Find(t, q, a)] == a
  {
    var k := LowerBound(t, q, a);
    if a in q {
      var i :| 0 <= i < |q| && q[i] == a;
      assert k <= i;
    }
  }

  lemma InsertAt(t: Table, q: seq<Addr>, a: Addr, k: nat)
    requires Sorted(t, q) && a in t && k <= |q|
    requires forall i | 0 <= i < k :: Less(t, q[i], a)
    requires forall i | k <= i < |q| :: Less(t, a, q[i])
    ensures Sorted(t, q[..k] + [a] + q[k..])
  {
    hide Less;
    var r := q[..k] + [a] + q[k..];
    assert forall i | 0 <= i < |r| :: r[i] == if i < k then q[i] else if i == k then a else q[i - 1];
  }

  lemma InsertMembers(q: seq<Addr>, a: Addr, k: nat)
    requires k <= |q|
    ensures forall x :: x in q[..k] + [a] + q[k..] <==> x in q || x == a
  {
    assert q == q[..k] + q[k..];
  }

  lemma InsertSorted(t: Table, q: seq<Addr>, a: Addr)
    requires Sorted(t, q) && a in t && a !in q
    ensures Sorted(t, Insert(t, q, a))
    ensures forall x :: x in Insert(t, q, a) <==> x in q || x == a
  {
    hide LowerBound;
    FindMember(t, q, a);
    var k := LowerBound(t, q, a);
    forall i | k <= i < |q| ensures Less(t, a, q[i]) {
      assert !Less(t, q[k], a) && q[k] != a;
    }
    InsertAt(t, q, a, k);
    InsertMembers(q, a, k);
  }

  lemma EraseSorted(t: Table, q: seq<Addr>, k: nat)
    requires Sorted(t, q) && k < |q|
    ensures Sorted(t, Removed(q, k))
    ensures forall x :: x in Removed(q, k) <==> x in q && x != q[k]
  {
    var r := Removed(q, k);
    forall x ensures x in r <==> x in q && x != q[k] {
      if x in q && x != q[k] {
        var i :| 0 <= i < |q| && q[i] == x;
        assert x == if i < k then r[i] else r[i - 1];
      }
      if x in r {
        var i :| 0 <= i < |r| && r[i] == x;
        assert x == if i < k then q[i] else q[i + 1];
        assert i < k ==> Less(t, q[i], q[k]);
        assert i >= k ==> Less(t, q[k], q[i + 1]);
      }
    }
  }

  /** The order of a set depends on the deadlines of its members only. */
  lemma SortedFrame(t: Table, t': Table, q: seq<Addr>)
    requires Sorted(t, q) && forall x | x in q :: x in t' && t'[x].next == t[x].next
    ensures Sorted(t', q)
  {
  }

  // ---- operations ---------------------------------------------------------------------------

  /** `clock` is the latest time any call has read. */
  datatype State = State(table: Table, queue: seq<Addr>, clock: nat) {
    predicate Valid() { Known(table, queue) }
  }

  datatype Op =
    | Add(a: Addr, ms: nat, callback: Callback, recurring: bool)
    | Cancel(a: Addr)
    | Refresh(a: Addr)
    | Reset(a: Addr, ms: nat, fromNow: bool)
    | Expire(probe: Addr)

  /** Callers hold the timer they name; a new object has a new address; deadlines fit 64 bits. Refresh and
      reset read the time under the lock, so it does not run back; addTimer and an expiry pass read it before
      they get the lock, and may come with a time other calls have overtaken. */
  predicate Enabled(s: State, op: Op, now: nat) {
    now < U64 &&
    match op
    case Add(a, ms, _, _) => a !in s.table && now + ms < U64
    case Cancel(a) => a in s.table
    case Refresh(a) => s.clock <= now && a in s.table && now + s.table[a].ms < U64
    case Reset(a, ms, _) => s.clock <= now && a in s.table && now + ms < U64
    case Expire(probe) => probe !in s.table && forall x | x in s.table :: now + s.table[x].ms < U64
  }

  function Later(clock: nat, now: nat): nat { if clock < now then now else clock }

  function Added(t: Table, a: Addr, ms: nat, callback: Callback, recurring: bool, now: nat): Table {
    t[a := Timer(ms, now + ms, Some(callback), recurring)]
  }

  /** callback_ = nullptr. */
  function Cancelled(t: Table, a: Addr): Table
    requires a in t
  {
    t[a := t[a].(callback := None)]
  }

  function Moved(t: Table, a: Addr, now: nat): Table
    requires a in t
  {
    t[a := t[a].(next := now + t[a].ms)]
  }

  /** start = from_now ? now : next_ - ms, next_ = start + ms, in 64-bit unsigned arithmetic. */
  function Restarted(t: Table, a: Addr, ms: nat, fromNow: bool, now: nat): Table
    requires a in t
  {
    var start := if fromNow then now else (t[a].next - ms) % U64;
    t[a := t[a].(ms := ms, next := (start + ms) % U64)]
  }

  /** One round of the hand-out loop. */
  function HandedOut(t: Table, a: Addr, now: nat): (r: Table)
    requires a in t
    ensures r.Keys == t.Keys
  {
    t[a := if t[a].recurring then t[a].(next := now + t[a].ms) else t[a].(callback := None)]
  }

  function HandOut(t: Table, q: seq<Addr>, expired: seq<Addr>, now: nat): (r: (Table, seq<Addr>))
    requires Known(t, q) && Known(t, expired)
    ensures r.0.Keys == t.Keys && Known(r.0, r.1)
    decreases |expired|
  {
    if expired == [] then (t, q)
    else
      var a, t' := expired[0], HandedOut(t, expired[0], now);
      assert t'.Keys == t.Keys;
      HandOut(t', if t[a].recurring then Insert(t', q, a) else q, expired[1..], now)
  }

  function AddStep(s: State, a: Addr, ms: nat, callback: Callback, recurring: bool, now: nat): (r: State)
    requires s.Valid() && a !in s.table
  {
    var t := Added(s.table, a, ms, callback, recurring, now);
    State(t, Insert(t, s.queue, a), Later(s.clock, now))
  }

  /** Timer::cancel. None is erase(end()), which C++ leaves undefined. */
  function CancelStep(s: State, a: Addr): Option<State>
    requires s.Valid() && a in s.table
  {
    if s.table[a].callback == None then Some(s)
    else
      var t := Cancelled(s.table, a);
      var k := Find(t, s.queue, a);
      if k == |s.queue| then None else Some(State(t, Removed(s.queue, k), s.clock))
  }

  function RefreshStep(s: State, a: Addr, now: nat): State
    requires s.Valid() && a in s.table
  {
    var k := Find(s.table, s.queue, a);
    if s.table[a].callback == None || k == |s.queue| then s.(clock := now)
    else
      var t := Moved(s.table, a, now);
      State(t, Insert(t, Removed(s.queue, k), a), now)
  }

  function ResetStep(s: State, a: Addr, ms: nat, fromNow: bool, now: nat): State
    requires s.Valid() && a in s.table
  {
    if (s.table[a].ms == ms && !fromNow) || s.table[a].callback == None then s.(clock := now)
    else
      var k := Find(s.table, s.queue, a);
      var q := if k < |s.queue| then Removed(s.queue, k) else s.queue;
      var t := Restarted(s.table, a, ms, fromNow, now);
      State(t, Insert(t, q, a), now)
  }

  /** TimerManager::listOverTimeCallback with its probe timer at address `probe`. */
  function ExpireStep(s: State, probe: Addr, now: nat): State
    requires s.Valid()
  {
    var k := UpperBound(s.table, s.queue, now, probe);
    var (t, q) := HandOut(s.table, s.queue[k..], s.queue[..k], now);
    State(t, q, Later(s.clock, now))
  }

  /** One method call at time `now`. */
  function Step(s: State, op: Op, now: nat): Option<State>
    requires s.Valid() && Enabled(s, op, now)
  {
    match op
    case Add(a, ms, callback, recurring) => Some(AddStep(s, a, ms, callback, recurring, now))
    case Cancel(a) => CancelStep(s, a)
    case Refresh(a) => Some(RefreshStep(s, a, now))
    case Reset(a, ms, fromNow) => Some(ResetStep(s, a, ms, fromNow, now))
    case Expire(probe) => Some(ExpireStep(s, probe, now))
  }

  // ---- the invariant ------------------------------------------------------------------------

  /** The set is strictly ordered, and a timer is in it exactly while its callback is set. */
  predicate Inv(s: State) {
    && Sorted(s.table, s.queue)
    && (forall a | a in s.table :: a in s.queue <==> s.table[a].callback.Some?)
    && (forall a | a in s.table :: s.table[a].next < U64)
  }

  /** Putting a timer with a fresh key into the set of the others. */
  lemma InsertInv(t: Table, q: seq<Addr>, a: Addr, clock: nat)
    requires Sorted(t, q) && a in t && a !in q && t[a].callback.Some?
    requires forall x | x in t && x != a :: x in q <==> t[x].callback.Some?
    requires forall x | x in t :: t[x].next < U64
    ensures Inv(State(t, Insert(t, q, a), clock))
  {
    hide Insert, Sorted;
    InsertSorted(t, q, a);
  }

  lemma AddInv(s: State, a: Addr, ms: nat, callback: Callback, recurring: bool, now: nat)
    requires Inv(s) && Enabled(s, Add(a, ms, callback, recurring), now)
    ensures Inv(AddStep(s, a, ms, callback, recurring, now))
  {
    hide Insert;
    var t := Added(s.table, a, ms, callback, recurring, now);
    SortedFrame(s.table, t, s.queue);
    InsertInv(t, s.queue, a, Later(s.clock, now));
  }

  /** The erase in cancel never meets end(). */
  lemma CancelInv(s: State, a: Addr)
    requires Inv(s) && a in s.table
    ensures CancelStep(s, a).Some? && Inv(CancelStep(s, a).value)
  {
    hide Find, Removed;
    if s.table[a].callback.Some? {
      var t := Cancelled(s.table, a);
      SortedFrame(s.table, t, s.queue);
      FindMember(t, s.queue, a);
      EraseSorted(t, s.queue, Find(t, s.queue, a));
    }
  }

  /** Take a out, change its record, put it back. */
  lemma RekeyInv(s: State, a: Addr, t: Table, k: nat, now: nat)
    requires Inv(s) && a in s.table && s.table[a].callback.Some?
    requires k == Find(s.table, s.queue, a)
    requires a in t && t == s.table[a := t[a]] && t[a].callback.Some? && t[a].next < U64
    ensures k < |s.queue| && a !in Removed(s.queue, k) && Known(t, Removed(s.queue, k))
    ensures Inv(State(t, Insert(t, Removed(s.queue, k), a), now))
  {
    hide Find, Removed, Insert;
    FindMember(s.table, s.queue, a);
    EraseSorted(s.table, s.queue, k);
    SortedFrame(s.table, t, Removed(s.queue, k));
    InsertInv(t, Removed(s.queue, k), a, now);
  }

  lemma RefreshInv(s: State, a: Addr, now: nat)
    requires Inv(s) && Enabled(s, Refresh(a), now)
    ensures Inv(RefreshStep(s, a, now))
  {
    hide Find, Removed, Insert;
    if s.table[a].callback.Some? {
      RekeyInv(s, a, Moved(s.table, a, now), Find(s.table, s.queue, a), now);
    }
  }

  lemma ResetInv(s: State, a: Addr, ms: nat, fromNow: bool, now: nat)
    requires Inv(s) && Enabled(s, Reset(a, ms, fromNow), now)
    ensures Inv(ResetStep(s, a, ms, fromNow, now))
    ensures !fromNow ==> ResetStep(s, a, ms, fromNow, now).table[a].next == s.table[a].next
  {
    hide Find, Removed, Insert;
    ResetNext(s.table, a, ms, fromNow, now);
    if s.table[a].callback.Some? {
      RekeyInv(s, a, Restarted(s.table, a, ms, fromNow, now), Find(s.table, s.queue, a), now);
    }
  }

  /** Without from_now the deadline does not move, whatever the new interval. */
  lemma ResetNext(t: Table, a: Addr, ms: nat, fromNow: bool, now: nat)
    requires a in t && t[a].next < U64 && now + ms < U64
    ensures Restarted(t, a, ms, fromNow, now)[a].next == if fromNow then now + ms else t[a].next
  {
  }

  // ---- expiry -------------------------------------------------------------------------------

  /** Before the hand-out loop goes on with `expired`, the rest of the set being q. */
  predicate Halfway(t: Table, q: seq<Addr>, expired: seq<Addr>) {
    && Sorted(t, q) && Known(t, expired)
    && (forall i, j | 0 <= i < j < |expired| :: expired[i] != expired[j])
    && (forall a | a in t :: (a in q || a in expired) <==> t[a].callback.Some?)
    && (forall a | a in expired :: a !in q)
    && (forall a | a in t :: t[a].next < U64)
  }

  lemma TailMembers(expired: seq<Addr>)
    requires expired != [] && forall i, j | 0 <= i < j < |expired| :: expired[i] != expired[j]
    ensures forall x :: x in expired[1..] <==> x in expired && x != expired[0]
  {
    var a, rest := expired[0], expired[1..];
    forall x | x in rest ensures x in expired && x != a {
      var i :| 0 <= i < |rest| && rest[i] == x;
      assert expired[i + 1] == x;
    }
    forall x | x in expired && x != a ensures x in rest {
      var i :| 0 <= i < |expired| && expired[i] == x;
      assert rest[i - 1] == x;
    }
  }

  lemma HalfwayStep(t: Table, q: seq<Addr>, expired: seq<Addr>, now: nat)
    requires Halfway(t, q, expired) && expired != [] && forall x | x in t :: now + t[x].ms < U64
    ensures var a, t' := expired[0], HandedOut(t, expired[0], now);
            && Known(t', q)
            && Halfway(t', if t[a].recurring then Insert(t', q, a) else q, expired[1..])
            && forall x | x in t' :: now + t'[x].ms < U64
  {
    hide Insert, Less;
    var a, t' := expired[0], HandedOut(t, expired[0], now);
    assert a in expired;
    SortedFrame(t, t', q);
    InsertSorted(t', q, a);
    TailMembers(expired);
  }

  lemma {:induction false} HandOutInv(t: Table, q: seq<Addr>, expired: seq<Addr>, now: nat, clock: nat)
    requires Halfway(t, q, expired) && forall x | x in t :: now + t[x].ms < U64
    ensures var (t', q') := HandOut(t, q, expired, now); Inv(State(t', q', clock))
    decreases |expired|
  {
    hide Insert, HandedOut;
    if expired != [] {
      HalfwayStep(t, q, expired, now);
      var a, t' := expired[0], HandedOut(t, expired[0], now);
      HandOutInv(t', if t[a].recurring then Insert(t', q, a) else q, expired[1..], now, clock);
    }
  }

  /** What the loop leaves of each timer: handed-out ones once updated, the others untouched. */
  lemma {:induction false} HandOutEffect(t: Table, q: seq<Addr>, expired: seq<Addr>, now: nat, a: Addr)
    requires Known(t, q) && Known(t, expired) && a in t
    requires forall i, j | 0 <= i < j < |expired| :: expired[i] != expired[j]
    ensures HandOut(t, q, expired, now).0[a] == if a in expired then HandedOut(t, a, now)[a] else t[a]
    decreases |expired|
  {
    hide Insert;
    if expired != [] {
      var b, t', rest := expired[0], HandedOut(t, expired[0], now), expired[1..];
      assert Known(t', q) && Known(t', rest);
      var q' := if t[b].recurring then Insert(t', q, b) else q;
      assert Known(t', q') by { KnownInsert(t', q, b); }
      HandOutEffect(t', q', rest, now, a);
      assert a in rest ==> a != b by {
        if a in rest { var i :| 0 <= i < |rest| && rest[i] == a; assert expired[i + 1] == a; }
      }
      assert a in expired && a != b ==> a in rest by {
        if a in expired && a != b { var i :| 0 <= i < |expired| && expired[i] == a; assert rest[i - 1] == a; }
      }
    }
  }

  lemma KnownInsert(t: Table, q: seq<Addr>, a: Addr)
    requires Known(t, q) && a in t
    ensures Known(t, Insert(t, q, a))
  {
  }

  lemma ExpireInv(s: State, probe: Addr, now: nat)
    requires Inv(s) && Enabled(s, Expire(probe), now)
    ensures Inv(ExpireStep(s, probe, now))
  {
    hide UpperBound, HandOut;
    var k := UpperBound(s.table, s.queue, now, probe);
    var clock := Later(s.clock, now);
    HalfwayStart(s, k);
    HandOutInv(s.table, s.queue[k..], s.queue[..k], now, clock);
  }

  lemma HalfwayStart(s: State, k: nat)
    requires Inv(s) && k <= |s.queue|
    ensures Halfway(s.table, s.queue[k..], s.queue[..k])
  {
    assert s.queue == s.queue[..k] + s.queue[k..];
    Ordered(s.table, s.queue);
  }

  lemma Ordered(t: Table, q: seq<Addr>)
    requires Sorted(t, q)
    ensures forall i, j | 0 <= i < j < |q| :: q[i] != q[j] && t[q[i]].next <= t[q[j]].next
  {
    forall i, j | 0 <= i < j < |q| ensures q[i] != q[j] && t[q[i]].next <= t[q[j]].next {
      assert Less(t, q[i], q[j]);
    }
  }

  lemma StepInv(s: State, op: Op, now: nat)
    requires Inv(s) && Enabled(s, op, now)
    ensures Step(s, op, now).Some? && Inv(Step(s, op, now).value)
  {
    hide Inv, AddStep, CancelStep, RefreshStep, ResetStep, ExpireStep;
    match op
    case Add(a, ms, callback, recurring) => AddInv(s, a, ms, callback, recurring, now);
    case Cancel(a) => CancelInv(s, a);
    case Refresh(a) => RefreshInv(s, a, now);
    case Reset(a, ms, fromNow) => ResetInv(s, a, ms, fromNow, now);
    case Expire(probe) => ExpireInv(s, probe, now);
  }

  datatype Timed = Timed(op: Op, now: nat)

  /** s' is reached from s by these calls, each with the time it read. */
  ghost predicate Reaches(s: State, run: seq<Timed>, s': State)
    decreases |run|
  {
    if run == [] then s' == s
    else
      var c := run[0];
      s.Valid() && Enabled(s, c.op, c.now) &&
      match Step(s, c.op, c.now)
      case None => false
      case Some(next) => Reaches(next, run[1..], s')
  }

  lemma {:induction false} InvRun(s: State, run: seq<Timed>, s': State)
    requires Inv(s) && Reaches(s, run, s')
    ensures Inv(s')
    decreases |run|
  {
    hide Inv, Step, Enabled;
    if run != [] {
      StepInv(s, run[0].op, run[0].now);
      InvRun(Step(s, run[0].op, run[0].now).value, run[1..], s');
    }
  }

  // ---- one-shot timers go off once ----------------------------------------------------------

  /** The call hands out a. */
  ghost predicate Fires(s: State, c: Timed, a: Addr)
    requires s.Valid()
  {
    c.op.Expire? && a in s.queue[..UpperBound(s.table, s.queue, c.now, c.op.probe)]
  }

  /** The call is a cancel of a that succeeds. */
  predicate Cancels(s: State, c: Timed, a: Addr) {
    c.op == Cancel(a) && a in s.table && s.table[a].callback.Some?
  }

  /** Hand-outs of a in a run, read off the run, and successful cancels. */
  ghost function HandOuts(s: State, run: seq<Timed>, a: Addr): nat
    decreases |run|
  {
    if run == [] || !s.Valid() || !Enabled(s, run[0].op, run[0].now) then 0
    else
      match Step(s, run[0].op, run[0].now)
      case None => 0
      case Some(next) => One(Fires(s, run[0], a)) + HandOuts(next, run[1..], a)
  }

  ghost function CancelsOf(s: State, run: seq<Timed>, a: Addr): nat
    decreases |run|
  {
    if run == [] || !s.Valid() || !Enabled(s, run[0].op, run[0].now) then 0
    else
      match Step(s, run[0].op, run[0].now)
      case None => 0
      case Some(next) => One(Cancels(s, run[0], a)) + CancelsOf(next, run[1..], a)
  }

  /** The timer was added and has no callback any more. */
  predicate Spent(s: State, a: Addr) { a in s.table && s.table[a].callback == None }

  /** A call spends a one-shot timer exactly by handing it out or cancelling it, a recurring one only by the
      latter; the kind of a timer never changes. */
  lemma SpentStep(s: State, c: Timed, a: Addr)
    requires Inv(s) && Enabled(s, c.op, c.now)
    ensures Step(s, c.op, c.now).Some?
    ensures var s' := Step(s, c.op, c.now).value;
            && (a in s.table ==> a in s'.table && s'.table[a].recurring == s.table[a].recurring)
            && (a in s'.table ==>
                  One(Spent(s, a)) + One(Cancels(s, c, a)) + (if s'.table[a].recurring then 0 else One(Fires(s, c, a)))
                    == One(Spent(s', a)))
  {
    hide HandOut, UpperBound, Insert, Find, Removed;
    StepInv(s, c.op, c.now);
    if c.op.Expire? {
      ExpireSpends(s, c.op.probe, c.now, a);
    }
  }

  lemma ExpireSpends(s: State, probe: Addr, now: nat, a: Addr)
    requires Inv(s) && Enabled(s, Expire(probe), now)
    ensures var s', k := ExpireStep(s, probe, now), UpperBound(s.table, s.queue, now, probe);
            && s'.table.Keys == s.table.Keys
            && (a in s.table ==>
                  && s'.table[a].recurring == s.table[a].recurring
                  && (a in s.queue[..k] ==> !Spent(s, a) && (Spent(s', a) <==> !s.table[a].recurring))
                  && (a !in s.queue[..k] ==> s'.table[a] == s.table[a]))
  {
    hide HandOut, UpperBound, Sorted;
    ExpiryEffect(s, probe, now);
  }

  lemma {:induction false} SpentRun(s: State, run: seq<Timed>, s': State, a: Addr)
    requires Inv(s) && Reaches(s, run, s')
    ensures a in s.table ==> a in s'.table && s'.table[a].recurring == s.table[a].recurring
    ensures a in s'.table ==>
              One(Spent(s, a)) + CancelsOf(s, run, a) + (if s'.table[a].recurring then 0 else HandOuts(s, run, a))
                == One(Spent(s', a))
    decreases |run|
  {
    hide Step, Enabled, Inv, Fires, Cancels;
    if run != [] {
      SpentStep(s, run[0], a);
      StepInv(s, run[0].op, run[0].now);
      var next := Step(s, run[0].op, run[0].now).value;
      SpentRun(next, run[1..], s', a);
      if a !in next.table {
        Unknown(s, run[0], a);
      }
    }
  }

  /** Nothing happens to a timer that has not been added. */
  lemma Unknown(s: State, c: Timed, a: Addr)
    requires Inv(s) && a !in s.table
    ensures !Fires(s, c, a) && !Cancels(s, c, a)
  {
    hide UpperBound;
  }

  /** In every reachable state: the set is strictly ordered and holds exactly the timers whose callback is set
      (so find finds them and no call is undefined); a one-shot timer that left it was handed out once or
      cancelled once in the run, never both, and one still in it neither. */
  lemma TimerMembership(run: seq<Timed>, s: State)
    requires Reaches(State(map[], [], 0), run, s)
    ensures Sorted(s.table, s.queue)
    ensures forall a | a in s.table :: a in s.queue <==> s.table[a].callback.Some?
    ensures forall a | a in s.table && !s.table[a].recurring ::
              HandOuts(State(map[], [], 0), run, a) + CancelsOf(State(map[], [], 0), run, a) == if a in s.queue then 0 else 1
    ensures forall a | a in s.table && s.table[a].recurring ::
              CancelsOf(State(map[], [], 0), run, a) == if a in s.queue then 0 else 1
    ensures forall op, now | Enabled(s, op, now) :: Step(s, op, now).Some?
  {
    hide Step, Enabled, Reaches, HandOuts, CancelsOf;
    var s0 := State(map[], [], 0);
    InvRun(s0, run, s);
    forall op, now | Enabled(s, op, now) ensures Step(s, op, now).Some? { StepInv(s, op, now); }
    forall a | a in s.table
      ensures !s.table[a].recurring ==> HandOuts(s0, run, a) + CancelsOf(s0, run, a) == if a in s.queue then 0 else 1
      ensures s.table[a].recurring ==> CancelsOf(s0, run, a) == if a in s.queue then 0 else 1
    {
      SpentRun(s0, run, s, a);
    }
  }

  // ---- and none goes off early --------------------------------------------------------------

  /** The timer was started at time t or later with interval ms. */
  predicate Armed(s: State, a: Addr, ms: nat, t: nat) {
    && a in s.table && s.table[a].ms == ms && t <= s.clock
    && (s.table[a].callback.Some? ==> t + ms <= s.table[a].next)
  }

  lemma ArmedStep(s: State, c: Timed, a: Addr, ms: nat, t: nat)
    requires Inv(s) && Enabled(s, c.op, c.now) && Armed(s, a, ms, t) && !(c.op.Reset? && c.op.a == a)
    ensures Step(s, c.op, c.now).Some? && Armed(Step(s, c.op, c.now).value, a, ms, t)
  {
    hide HandOut, UpperBound, Insert, Find, Removed, Sorted;
    StepInv(s, c.op, c.now);
    if c.op.Expire? {
      ExpirySelects(s, c.op.probe, c.now);
      ExpireArmed(s, c.op.probe, c.now, a);
    }
  }

  lemma ExpireArmed(s: State, probe: Addr, now: nat, a: Addr)
    requires Inv(s) && Enabled(s, Expire(probe), now) && a in s.table
    ensures var k := UpperBound(s.table, s.queue, now, probe);
            a in s.queue[..k] ==> s.table[a].next <= now && s.table[a].callback.Some?
  {
    hide HandOut, UpperBound;
    var k := UpperBound(s.table, s.queue, now, probe);
    ExpiryBounds(s.table, s.queue, now, probe);
    if a in s.queue[..k] {
      var i :| 0 <= i < k && s.queue[i] == a;
      assert a in s.queue;
    }
  }

  /** No reset of a among the calls. */
  predicate NotReset(run: seq<Timed>, a: Addr) {
    forall i | 0 <= i < |run| :: !(run[i].op.Reset? && run[i].op.a == a)
  }

  lemma {:induction false} ArmedRun(s: State, run: seq<Timed>, s': State, a: Addr, ms: nat, t: nat)
    requires Inv(s) && Armed(s, a, ms, t) && Reaches(s, run, s') && NotReset(run, a)
    ensures Inv(s') && Armed(s', a, ms, t)
    decreases |run|
  {
    hide Step, Enabled, Inv, Armed;
    if run != [] {
      ArmedStep(s, run[0], a, ms, t);
      StepInv(s, run[0].op, run[0].now);
      ArmedRun(Step(s, run[0].op, run[0].now).value, run[1..], s', a, ms, t);
    }
  }

  /** A timer added at time t, and not reset since, is not handed out before t plus its interval. */
  lemma NeverEarly(s: State, a: Addr, ms: nat, callback: Callback, recurring: bool, t: nat,
                   run: seq<Timed>, s': State, later: Timed)
    requires Inv(s) && Enabled(s, Add(a, ms, callback, recurring), t)
    requires Reaches(AddStep(s, a, ms, callback, recurring, t), run, s') && NotReset(run, a)
    requires s'.Valid() && Enabled(s', later.op, later.now) && Fires(s', later, a)
    ensures later.now >= t + ms
  {
    hide Insert, Find, HandOut, UpperBound, Reaches;
    var s1 := AddStep(s, a, ms, callback, recurring, t);
    AddInv(s, a, ms, callback, recurring, t);
    assert Armed(s1, a, ms, t);
    ArmedRun(s1, run, s', a, ms, t);
    ExpireArmed(s', later.op.probe, later.now, a);
  }

  /** Two hand-outs of a recurring timer that is not reset in between are at least its interval apart. */
  lemma RecurringGap(s: State, first: Timed, a: Addr, run: seq<Timed>, s': State, second: Timed)
    requires Inv(s) && Enabled(s, first.op, first.now) && Fires(s, first, a) && a in s.table && s.table[a].recurring
    requires Reaches(ExpireStep(s, first.op.probe, first.now), run, s') && NotReset(run, a)
    requires s'.Valid() && Enabled(s', second.op, second.now) && Fires(s', second, a)
    ensures second.now - first.now >= s.table[a].ms
  {
    hide Insert, Find, HandOut, UpperBound, Reaches;
    var s1 := ExpireStep(s, first.op.probe, first.now);
    ExpireInv(s, first.op.probe, first.now);
    ExpirySelects(s, first.op.probe, first.now);
    assert Armed(s1, a, s.table[a].ms, first.now);
    ArmedRun(s1, run, s', a, s.table[a].ms, first.now);
    ExpireArmed(s', second.op.probe, second.now, a);
  }

  // ---- which timers an expiry pass hands out ------------------------------------------------

  /** Which timers an expiry pass hands out: all that are past their deadline, none before it, in deadline
      order; the others keep their records. */
  lemma ExpirySelects(s: State, probe: Addr, now: nat)
    requires Inv(s) && Enabled(s, Expire(probe), now)
    ensures var k := UpperBound(s.table, s.queue, now, probe);
            var s' := ExpireStep(s, probe, now);
            && (forall i | 0 <= i < |s.queue| && s.table[s.queue[i]].next < now :: i < k)
            && (forall i | 0 <= i < k :: s.table[s.queue[i]].next <= now)
            && (forall i, j | 0 <= i < j < k :: s.table[s.queue[i]].next <= s.table[s.queue[j]].next)
            && s'.table.Keys == s.table.Keys
            && (forall a | a in s.table :: a in s.queue[..k] ==>
                  s'.table[a] == if s.table[a].recurring then s.table[a].(next := now + s.table[a].ms)
                                 else s.table[a].(callback := None))
            && (forall a | a in s.table :: a !in s.queue[..k] ==> s'.table[a] == s.table[a])
  {
    hide HandedOut, HandOut, Inv, UpperBound;
    UnpackInv(s);
    ExpiryBounds(s.table, s.queue, now, probe);
    ExpiryEffect(s, probe, now);
  }

  lemma ExpiryBounds(t: Table, q: seq<Addr>, now: nat, probe: Addr)
    requires Sorted(t, q)
    ensures var k := UpperBound(t, q, now, probe);
            && (forall i | 0 <= i < |q| && t[q[i]].next < now :: i < k)
            && (forall i | 0 <= i < k :: t[q[i]].next <= now)
            && (forall i, j | 0 <= i < j < k :: t[q[i]].next <= t[q[j]].next)
  {
    hide UpperBound;
    Ordered(t, q);
    var k := UpperBound(t, q, now, probe);
    assert k < |q| ==> t[q[k]].next >= now;
  }

  lemma ExpiryEffect(s: State, probe: Addr, now: nat)
    requires Inv(s) && Enabled(s, Expire(probe), now)
    ensures var k := UpperBound(s.table, s.queue, now, probe);
            var s' := ExpireStep(s, probe, now);
            && s'.table.Keys == s.table.Keys
            && (forall a | a in s.table :: a in s.queue[..k] ==>
                  s'.table[a] == if s.table[a].recurring then s.table[a].(next := now + s.table[a].ms)
                                 else s.table[a].(callback := None))
            && (forall a | a in s.table :: a !in s.queue[..k] ==> s'.table[a] == s.table[a])
  {
    hide HandOut, Inv, UpperBound;
    UnpackInv(s);
    var k := UpperBound(s.table, s.queue, now, probe);
    forall a | a in s.table
      ensures a in ExpireStep(s, probe, now).table
      ensures a in s.queue[..k] ==>
                ExpireStep(s, probe, now).table[a] == if s.table[a].recurring then s.table[a].(next := now + s.table[a].ms)
                                                      else s.table[a].(callback := None)
      ensures a !in s.queue[..k] ==> ExpireStep(s, probe, now).table[a] == s.table[a]
    {
      HandOutEffect(s.table, s.queue[k..], s.queue[..k], now, a);
    }
  }

  lemma UnpackInv(s: State)
    requires Inv(s)
    ensures Sorted(s.table, s.queue)
  {
  }

  // ---- the object ---------------------------------------------------------------------------

  /** TimerManager with the fields of its Timer objects gathered in `table`; `now` is the time a call reads. */
  class TimerManager {
    var table: Table
    var timers: seq<Addr>   // timers_, in set order

    ghost var clock: nat    // the latest time read so far

    ghost function Abs(): State
      reads this
    {
      State(table, timers, clock)
    }

    constructor ()
      ensures Abs() == State(map[], [], 0)
    {
      table, timers, clock := map[], [], 0;
    }

    /** A key may change only while its timer is out of the set. */
    method SetRecord(a: Addr, r: Timer)
      requires a !in timers
      modifies this`table
      ensures table == old(table)[a := r]
    {
      table := table[a := r];
    }

    method AddTimer(a: Addr, ms: nat, callback: Callback, recurring: bool, now: nat) returns (atFront: bool)
      requires Inv(Abs()) && Enabled(Abs(), Add(a, ms, callback, recurring), now)
      modifies this
      ensures Inv(Abs()) && Abs() == AddStep(old(Abs()), a, ms, callback, recurring, now)
      ensures table == old(table)[a := Timer(ms, now + ms, Some(callback), recurring)]
      ensures atFront <==> forall x | x in timers && x != a :: Less(table, a, x)
    {
      AddInv(Abs(), a, ms, callback, recurring, now);
      SetRecord(a, Timer(ms, now + ms, Some(callback), recurring));
      timers := Insert(table, timers, a);
      clock := Later(clock, now);
      atFront := timers[0] == a;
      Front(table, timers, a);
    }

    method Cancel(a: Addr) returns (ok: bool)
      requires Inv(Abs()) && a in table
      modifies this
      ensures Inv(Abs()) && Some(Abs()) == CancelStep(old(Abs()), a)
      ensures ok <==> old(table[a].callback.Some?)
      ensures ok ==> table == old(table)[a := old(table[a]).(callback := None)] && a !in timers
      ensures !ok ==> table == old(table) && timers == old(timers)
    {
      CancelInv(Abs(), a);
      if table[a].callback.Some? {
        table := Cancelled(table, a);
        var it := Find(table, timers, a);
        timers := Removed(timers, it);
        return true;
      }
      return false;
    }

    method Refresh(a: Addr, now: nat) returns (ok: bool)
      requires Inv(Abs()) && Enabled(Abs(), Op.Refresh(a), now)
      modifies this
      ensures Inv(Abs()) && Abs() == RefreshStep(old(Abs()), a, now)
      ensures ok <==> old(table[a].callback.Some?)
      ensures ok ==> table == old(table)[a := old(table[a]).(next := now + old(table[a].ms))]
      ensures !ok ==> table == old(table) && timers == old(timers)
    {
      hide Find, Removed, Insert;
      RefreshInv(Abs(), a, now);
      if table[a].callback == None {
        clock := now;
        return false;
      }
      RekeyInv(Abs(), a, Moved(table, a, now), Find(table, timers, a), now);
      clock := now;
      var it := Find(table, timers, a);
      if it == |timers| {
        return false;
      }
      timers := Removed(timers, it);
      SetRecord(a, table[a].(next := now + table[a].ms));
      timers := Insert(table, timers, a);
      return true;
    }

    method Reset(a: Addr, ms: nat, fromNow: bool, now: nat) returns (ok: bool)
      requires Inv(Abs()) && Enabled(Abs(), Op.Reset(a, ms, fromNow), now)
      modifies this
      ensures Inv(Abs()) && Abs() == ResetStep(old(Abs()), a, ms, fromNow, now)
      ensures ok <==> old((table[a].ms == ms && !fromNow) || table[a].callback.Some?)
      ensures old(table[a].callback.Some?) && (fromNow || old(table[a].ms) != ms) ==>
                table == old(table)[a := old(table[a]).(ms := ms, next := if fromNow then now + ms else old(table[a].next))]
      ensures old(table[a].callback.None?) || (!fromNow && old(table[a].ms) == ms) ==>
                table == old(table) && timers == old(timers)
    {
      hide Find, Removed, Insert;
      ResetInv(Abs(), a, ms, fromNow, now);
      if table[a].ms == ms && !fromNow {
        clock := now;
        return true;
      }
      if table[a].callback == None {
        clock := now;
        return false;
      }
      ResetNext(table, a, ms, fromNow, now);
      RekeyInv(Abs(), a, Restarted(table, a, ms, fromNow, now), Find(table, timers, a), now);
      clock := now;
      var it := Find(table, timers, a);
      if it != |timers| {
        timers := Removed(timers, it);
      }
      var start := if fromNow then now else (table[a].next - ms) % U64;
      SetRecord(a, table[a].(ms := ms, next := (start + ms) % U64));
      timers := Insert(table, timers, a);
      return true;
    }

    /** Milliseconds until the earliest deadline; the largest 64-bit number when there is none. */
    method GetNextTimerTime(now: nat) returns (wait: nat)
      requires Inv(Abs())
      ensures timers == [] ==> wait == U64 - 1
      ensures forall a | a in timers :: now + wait <= table[a].next || wait == 0
      ensures timers != [] ==> exists a | a in timers :: if table[a].next <= now then wait == 0 else now + wait == table[a].next
    {
      if timers == [] {
        return U64 - 1;
      }
      Ordered(table, timers);
      var first := timers[0];
      assert first in timers;
      wait := if now >= table[first].next then 0 else table[first].next - now;
    }

    method ListOverTimeCallback(probe: Addr, now: nat) returns (cb: seq<Callback>)
      requires Inv(Abs()) && Enabled(Abs(), Expire(probe), now)
      modifies this
      ensures Inv(Abs()) && Abs() == ExpireStep(old(Abs()), probe, now)
      ensures var k := UpperBound(old(table), old(timers), now, probe);
              && |cb| == k && (forall i | 0 <= i < k :: Some(cb[i]) == old(table[timers[i]].callback))
              && table.Keys == old(table).Keys
              && (forall x | x in table ::
                    table[x] == if x !in old(timers)[..k] then old(table)[x]
                                else if old(table)[x].recurring then old(table)[x].(next := now + old(table)[x].ms)
                                else old(table)[x].(callback := None))
    {
      hide UpperBound, HandOut, Halfway;
      ExpireInv(Abs(), probe, now);
      ExpiryEffect(Abs(), probe, now);
      clock := Later(clock, now);
      var k := UpperBound(table, timers, now, probe);
      var expired := timers[..k];
      HalfwayStart(Abs(), k);
      timers := timers[k..];
      cb := HandOutAll(expired, now);
    }

    /** The loop over the expired timers: collect the callback, then rearm or retire the timer. */
    method HandOutAll(expired: seq<Addr>, now: nat) returns (cb: seq<Callback>)
      requires Halfway(table, timers, expired) && forall x | x in table :: now + table[x].ms < U64
      modifies this`table, this`timers
      ensures (table, timers) == HandOut(old(table), old(timers), expired, now)
      ensures |cb| == |expired| && forall i | 0 <= i < |cb| :: Some(cb[i]) == old(table)[expired[i]].callback
    {
      hide HandedOut, Insert, Halfway;
      HalfwayKnown(table, timers, expired);
      cb := [];
      var i := 0;
      assert expired[0..] == expired;
      while i < |expired|
        invariant 0 <= i <= |expired| && |cb| == i
        invariant Halfway(table, timers, expired[i..]) && forall x | x in table :: now + table[x].ms < U64
        invariant Known(table, timers) && Known(table, expired[i..])
        invariant HandOut(table, timers, expired[i..], now) == HandOut(old(table), old(timers), expired, now)
        invariant forall j | i <= j < |expired| :: expired[j] in table && table[expired[j]] == old(table)[expired[j]]
        invariant forall j | 0 <= j < i :: Some(cb[j]) == old(table)[expired[j]].callback
      {
        var a := expired[i];
        assert expired[i..][0] == a && expired[i..][1..] == expired[i + 1..];
        HalfwayKnown(table, timers, expired[i..]);
        HalfwayStep(table, timers, expired[i..], now);
        OneRound(table, timers, expired, i, now);
        cb := cb + [table[a].callback.value];
        var recurring := table[a].recurring;
        table := HandedOut(table, a, now);
        if recurring {
          timers := Insert(table, timers, a);
        }
        HalfwayKnown(table, timers, expired[i + 1..]);
        i := i + 1;
      }
    }
  }

  lemma HalfwayKnown(t: Table, q: seq<Addr>, expired: seq<Addr>)
    requires Halfway(t, q, expired)
    ensures Known(t, q) && Known(t, expired)
    ensures forall i | 0 <= i < |expired| :: t[expired[i]].callback.Some?
  {
    forall i | 0 <= i < |expired| ensures t[expired[i]].callback.Some? { assert expired[i] in expired; }
  }

  lemma OneRound(t: Table, q: seq<Addr>, expired: seq<Addr>, i: nat, now: nat)
    requires i < |expired| && Halfway(t, q, expired[i..])
    ensures forall j | i < j < |expired| :: expired[j] in t && HandedOut(t, expired[i], now)[expired[j]] == t[expired[j]]
  {
    forall j | i < j < |expired| ensures expired[j] in t && HandedOut(t, expired[i], now)[expired[j]] == t[expired[j]] {
      assert expired[i..][0] == expired[i] && expired[i..][j - i] == expired[j];
    }
  }

  lemma Front(t: Table, q: seq<Addr>, a: Addr)
    requires Sorted(t, q) && a in q
    ensures q[0] == a <==> forall x | x in q && x != a :: Less(t, a, x)
  {
    if q[0] != a {
      var i :| 0 <= i < |q| && q[i] == a;
      assert Less(t, q[0], q[i]);
      assert q[0] in q;
    }
  }
}
