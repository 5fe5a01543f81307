/**
 IOManager: the descriptor contexts, the table that finds them, the pending-event counter, and where waiters
 go. A method of the class is one critical section: callers look a context up, then work on it, and anything
 may happen in between.
 */
module IoManagers {
  import opened Basics

  /** The callback or fiber waiting for an event. */
  type Waiter = nat

  datatype Event = READ | WRITE

  /** `events` is the mask; `read` and `write` are the two event slots. `listed` says whether the table still
      points to this context: a resize to a smaller size drops pointers without freeing what they point to. */
  datatype FdContext = FdContext(
    fd: nat, listed: bool, events: set<Event>, read: Option<Waiter>, write: Option<Waiter>)

  /** Every context ever allocated, and fdContext_ as indices into them. */
  datatype Store = Store(contexts: seq<FdContext>, table: seq<nat>)

  /** What a call comes to; `Aborted` is a failed assertion or a call through a null scheduler. */
  datatype Outcome = Done | Refused | Aborted

  function Slot(c: FdContext, e: Event): Option<Waiter> {
    if e == READ then c.read else c.write
  }

  function SetSlot(c: FdContext, e: Event, w: Option<Waiter>): FdContext {
    if e == READ then c.(read := w) else c.(write := w)
  }

  /** The context with the event's bit and slot replaced. */
  function Put(c: FdContext, e: Event, bit: bool, w: Option<Waiter>): FdContext {
    SetSlot(c.(events := if bit then c.events + {e} else c.events - {e}), e, w)
  }

  /** Only registered events hold a waiter. */
  predicate Sound(c: FdContext) {
    (c.read.Some? ==> READ in c.events) && (c.write.Some? ==> WRITE in c.events)
  }

  /** An event holds a waiter exactly when it is registered. */
  predicate Exact(c: FdContext) {
    (c.read.Some? <==> READ in c.events) && (c.write.Some? <==> WRITE in c.events)
  }

  /** The event is registered and somebody waits for it. */
  predicate Ready(c: FdContext, e: Event) { e in c.events && Slot(c, e).Some? }

  // ---- counting over the contexts -----------------------------------------------------------

  /** What is counted: set bits; those of contexts in the table; those of contexts cut off; set bits nobody
      waits for; contexts cut off; slots that hold a given waiter. */
  datatype Measure = Bit | ListedBit | CutBit | Phantom | Orphan | Holding(w: Waiter)

  function Bits(c: FdContext): nat { One(READ in c.events) + One(WRITE in c.events) }

  function Amount(c: FdContext, m: Measure): nat {
    match m
    case Bit => Bits(c)
    case ListedBit => if c.listed then Bits(c) else 0
    case CutBit => if c.listed then 0 else Bits(c)
    case Phantom => One(READ in c.events && c.read.None?) + One(WRITE in c.events && c.write.None?)
    case Orphan => One(!c.listed)
    case Holding(w) => One(c.read == Some(w)) + One(c.write == Some(w))
  }

  function Total(cs: seq<FdContext>, m: Measure): nat {
    if cs == [] then 0 else Total(cs[..|cs| - 1], m) + Amount(cs[|cs| - 1], m)
  }

  lemma {:induction false} TotalUpdate(cs: seq<FdContext>, i: nat, c: FdContext, m: Measure)
    requires i < |cs|
    ensures Total(cs[i := c], m) == Total(cs, m) - Amount(cs[i], m) + Amount(c, m)
  {
    hide Amount;
    var n := |cs| - 1;
    if i < n {
      TotalUpdate(cs[..n], i, c, m);
      assert cs[i := c][..n] == cs[..n][i := c];
    } else {
      assert cs[i := c][..n] == cs[..n];
    }
  }

  lemma TotalAppend(cs: seq<FdContext>, c: FdContext, m: Measure)
    ensures Total(cs + [c], m) == Total(cs, m) + Amount(c, m)
  {
    assert (cs + [c])[..|cs|] == cs;
  }

  lemma {:induction false} TotalZero(cs: seq<FdContext>, m: Measure)
    ensures Total(cs, m) == 0 <==> forall i | 0 <= i < |cs| :: Amount(cs[i], m) == 0
  {
    hide Amount;
    if cs != [] {
      var n := |cs| - 1;
      TotalZero(cs[..n], m);
      assert forall i | 0 <= i < n :: cs[..n][i] == cs[i];
    }
  }

  /** Every set bit is on a context in the table or on one cut off. */
  lemma {:induction false} BitsSplit(cs: seq<FdContext>)
    ensures Total(cs, Bit) == Total(cs, ListedBit) + Total(cs, CutBit)
  {
    if cs != [] { BitsSplit(cs[..|cs| - 1]); }
  }

  lemma NoEvents(c: FdContext)
    ensures Bits(c) == 0 <==> c.events == {}
  {
    if Bits(c) == 0 {
      forall e: Event ensures e !in c.events {
        match e case READ => case WRITE =>
      }
    }
  }

  // ---- the table ----------------------------------------------------------------------------

  predicate InBounds(st: Store) {
    forall i | 0 <= i < |st.table| :: st.table[i] < |st.contexts|
  }

  /** The table points, for each descriptor, to the one listed context of that descriptor. */
  predicate Linked(st: Store) {
    && InBounds(st)
    && (forall i | 0 <= i < |st.table| :: st.contexts[st.table[i]].listed && st.contexts[st.table[i]].fd == i)
    && (forall id | 0 <= id < |st.contexts| && st.contexts[id].listed ::
          st.contexts[id].fd < |st.table| && st.table[st.contexts[id].fd] == id)
  }

  function Fresh(fd: nat): FdContext { FdContext(fd, true, {}, None, None) }

  /** One context allocated behind the end of the table. */
  function Pushed(st: Store): Store {
    Store(st.contexts + [Fresh(|st.table|)], st.table + [|st.contexts|])
  }

  /** The last pointer dropped. */
  function Popped(st: Store): Store
    requires InBounds(st) && st.table != []
  {
    var n := |st.table| - 1;
    var id := st.table[n];
    Store(st.contexts[id := st.contexts[id].(listed := false)], st.table[..n])
  }

  function Distance(a: nat, b: nat): nat { if a < b then b - a else a - b }

  /** After contextResize. */
  function Resized(st: Store, size: nat): (r: Store)
    requires InBounds(st)
    ensures InBounds(r) && |r.table| == size
    ensures forall i | 0 <= i < size && i < |st.table| :: r.table[i] == st.table[i]
    decreases Distance(|st.table|, size)
  {
    if |st.table| < size then Resized(Pushed(st), size)
    else if |st.table| > size then Resized(Popped(st), size)
    else st
  }

  lemma PoppedLinked(st: Store)
    requires Linked(st) && st.table != []
    ensures Linked(Popped(st))
  {
  }

  lemma PushedLinked(st: Store)
    requires Linked(st)
    ensures Linked(Pushed(st))
  {
  }

  /** One event's bit and slot replaced in context `id`. */
  function Set(st: Store, id: nat, e: Event, bit: bool, w: Option<Waiter>): Store
    requires id < |st.contexts|
  {
    st.(contexts := st.contexts[id := Put(st.contexts[id], e, bit, w)])
  }

  /** What a resize does to each context: the old ones stay as they are, apart from being cut off at and
      above the new size; the new ones are empty. */
  lemma {:induction false} ResizedContexts(st: Store, size: nat)
    requires Linked(st)
    ensures var r := Resized(st, size);
            && Linked(r) && |r.contexts| >= |st.contexts|
            && (forall id | 0 <= id < |st.contexts| ::
                  r.contexts[id] == st.contexts[id].(listed := st.contexts[id].listed && st.contexts[id].fd < size))
            && (forall i | |st.table| <= i < size :: r.table[i] >= |st.contexts|)
            && (forall id | |st.contexts| <= id < |r.contexts| :: r.contexts[id].events == {})
    decreases Distance(|st.table|, size)
  {
    if |st.table| < size {
      PushedLinked(st);
      ResizedContexts(Pushed(st), size);
      assert Resized(Pushed(st), size).table[|st.table|] == |st.contexts|;
    } else if |st.table| > size {
      PoppedLinked(st);
      ResizedContexts(Popped(st), size);
    }
  }

  lemma PoppedBits(st: Store)
    requires Linked(st) && st.table != []
    ensures var c := st.contexts[st.table[|st.table| - 1]];
            && Total(Popped(st).contexts, ListedBit) == Total(st.contexts, ListedBit) - Bits(c)
            && (Bits(c) == 0 <==> c.events == {})
  {
    hide Total;
    var id := st.table[|st.table| - 1];
    TotalUpdate(st.contexts, id, st.contexts[id].(listed := false), ListedBit);
    NoEvents(st.contexts[id]);
  }

  lemma PoppedOthers(st: Store)
    requires Linked(st) && st.table != []
    ensures var st' := Popped(st);
            InBounds(st') && forall i | 0 <= i < |st'.table| :: st'.contexts[st'.table[i]] == st.contexts[st.table[i]]
  {
  }

  /** A resize keeps the set bits in the table iff no context it cuts off has a registered event. */
  lemma {:induction false} ResizeKeepsBits(st: Store, size: nat)
    requires Linked(st)
    ensures Total(Resized(st, size).contexts, ListedBit) <= Total(st.contexts, ListedBit)
    ensures Total(Resized(st, size).contexts, ListedBit) == Total(st.contexts, ListedBit)
            <==> forall i | size <= i < |st.table| :: st.contexts[st.table[i]].events == {}
    decreases Distance(|st.table|, size)
  {
    hide Total, Bits;
    if |st.table| < size {
      PushedLinked(st);
      TotalAppend(st.contexts, Fresh(|st.table|), ListedBit);
      NoEvents(Fresh(|st.table|));
      ResizeKeepsBits(Pushed(st), size);
    } else if |st.table| > size {
      PoppedLinked(st);
      PoppedBits(st);
      PoppedOthers(st);
      ResizeKeepsBits(Popped(st), size);
    }
  }

  /** The size addEvent asks for when the descriptor is not in the table: fd * 1.5, truncated. */
  function GrownSize(fd: nat): (n: nat)
    ensures 2 * n <= 3 * fd < 2 * n + 2
  {
    fd * 3 / 2
  }

  /** Two callers both look before either resizes; the first resizes and registers, then the second resizes.
      The first registration is still in the table if and only if its descriptor is below the size the second
      caller asks for, and no other registration can be cut off. */
  lemma StaleResize(st: Store, fd1: nat, fd2: nat, e: Event, w: Waiter)
    requires Linked(st) && |st.table| <= fd1 && |st.table| <= fd2 && 64 <= fd1 && 64 <= fd2
    ensures var st1 := Resized(st, GrownSize(fd1));
            fd1 < |st1.table| &&
            var id := st1.table[fd1];
            var st2 := Set(st1, id, e, true, Some(w));
            var st3 := Resized(st2, GrownSize(fd2));
            && id < |st3.contexts| && (st3.contexts[id].listed <==> fd1 < GrownSize(fd2))
            && (Total(st3.contexts, ListedBit) == Total(st2.contexts, ListedBit) <==> fd1 < GrownSize(fd2))
  {
    hide Total, Resized;
    var st1 := Resized(st, GrownSize(fd1));
    ResizedContexts(st, GrownSize(fd1));
    var id := st1.table[fd1];
    var st2 := Set(st1, id, e, true, Some(w));
    PutLinked(st1, id, e, true, Some(w));
    ResizedContexts(st2, GrownSize(fd2));
    ResizeKeepsBits(st2, GrownSize(fd2));
    assert e in st2.contexts[id].events;
    forall i | GrownSize(fd2) <= i < |st2.table| && i != fd1 ensures st2.contexts[st2.table[i]].events == {} {
      assert st2.table[i] >= |st.contexts|;
    }
  }

  // ---- one event of one context -------------------------------------------------------------

  lemma PutLinked(st: Store, id: nat, e: Event, bit: bool, w: Option<Waiter>)
    requires Linked(st) && id < |st.contexts|
    ensures Linked(Set(st, id, e, bit, w))
  {
  }

  lemma PutAmount(c: FdContext, e: Event, bit: bool, w: Option<Waiter>)
    ensures var c' := Put(c, e, bit, w);
            && Amount(c', Bit) == Amount(c, Bit) - One(e in c.events) + One(bit)
            && Amount(c', Phantom) == Amount(c, Phantom) - One(e in c.events && Slot(c, e).None?) + One(bit && w.None?)
            && Amount(c', Orphan) == Amount(c, Orphan)
            && forall x: Waiter :: Amount(c', Holding(x)) ==
                                   Amount(c, Holding(x)) - One(Slot(c, e) == Some(x)) + One(w == Some(x))
  {
  }

  /** What replacing one event's bit and slot does to the totals. */
  lemma Replace(cs: seq<FdContext>, id: nat, e: Event, bit: bool, w: Option<Waiter>)
    requires id < |cs|
    ensures var c, cs' := cs[id], cs[id := Put(cs[id], e, bit, w)];
            && Total(cs', Bit) == Total(cs, Bit) - One(e in c.events) + One(bit)
            && Total(cs', Phantom) == Total(cs, Phantom) - One(e in c.events && Slot(c, e).None?) + One(bit && w.None?)
            && Total(cs', Orphan) == Total(cs, Orphan)
            && forall x: Waiter :: Total(cs', Holding(x)) ==
                                   Total(cs, Holding(x)) - One(Slot(c, e) == Some(x)) + One(w == Some(x))
  {
    hide Total, Amount, Put;
    var c' := Put(cs[id], e, bit, w);
    PutAmount(cs[id], e, bit, w);
    TotalUpdate(cs, id, c', Bit);
    TotalUpdate(cs, id, c', Phantom);
    TotalUpdate(cs, id, c', Orphan);
    forall x: Waiter
      ensures Total(cs[id := c'], Holding(x)) ==
              Total(cs, Holding(x)) - One(Slot(cs[id], e) == Some(x)) + One(w == Some(x))
    {
      TotalUpdate(cs, id, c', Holding(x));
    }
  }

  // ---- the account --------------------------------------------------------------------------

  /** What has happened so far: waiters accepted, handed to the scheduler, and discarded by delEvent;
      registrations whose epoll_ctl failed, and deletions of such; contexts cut off by resizes. */
  datatype Ledger = Ledger(
    registered: seq<Waiter>, submitted: seq<Waiter>, dropped: seq<Waiter>,
    failed: nat, removed: nat, cut: nat)

  function Occurs(ws: seq<Waiter>, x: Waiter): nat { multiset(ws)[x] }

  lemma OccursAppend(ws: seq<Waiter>, w: Waiter)
    ensures forall x :: Occurs(ws + [w], x) == Occurs(ws, x) + One(w == x)
  {
    assert multiset(ws + [w]) == multiset(ws) + multiset{w};
  }

  /** Each waiter is in a slot, submitted or dropped as often as it was registered; the counter falls short
      of the set bits by the registrations that failed. */
  ghost predicate Balanced(st: Store, pending: int, l: Ledger) {
    && Linked(st)
    && (forall id | 0 <= id < |st.contexts| :: Sound(st.contexts[id]))
    && pending == Total(st.contexts, Bit) - l.failed
    && Total(st.contexts, Phantom) + l.removed == l.failed
    && Total(st.contexts, Orphan) == l.cut
    && forall x :: Occurs(l.registered, x) ==
                   Total(st.contexts, Holding(x)) + Occurs(l.submitted, x) + Occurs(l.dropped, x)
  }

  ghost predicate Accounted(st: Store, pending: int, l: Ledger) {
    |st.table| >= 64 && Balanced(st, pending, l)
  }

  /** In every reachable state the counter is the number of set bits in the table if and only if the failed
      registrations make up for the bits cut off; as long as no resize has made the table smaller, if and only
      if no registration has failed. Every bit has its waiter if and only if each failed registration has been
      deleted again. */
  lemma CounterExact(st: Store, pending: int, l: Ledger)
    requires Accounted(st, pending, l)
    ensures pending == Total(st.contexts, ListedBit) <==> l.failed == Total(st.contexts, CutBit)
    ensures l.cut == 0 ==> (pending == Total(st.contexts, ListedBit) <==> l.failed == 0)
    ensures (forall id | 0 <= id < |st.contexts| :: Exact(st.contexts[id])) <==> l.failed == l.removed
    ensures l.failed == 0 ==> pending >= 0
  {
    BitsSplit(st.contexts);
    TotalZero(st.contexts, Orphan);
    TotalZero(st.contexts, CutBit);
    TotalZero(st.contexts, Phantom);
    hide Total;
    forall id | 0 <= id < |st.contexts|
      ensures Amount(st.contexts[id], Phantom) == 0 <==> Exact(st.contexts[id])
    {
      assert Sound(st.contexts[id]);
    }
  }

  lemma PopBalanced(st: Store, pending: int, l: Ledger)
    requires Balanced(st, pending, l) && st.table != []
    ensures Balanced(Popped(st), pending, l.(cut := l.cut + 1))
  {
    hide Total, Occurs;
    var id := st.table[|st.table| - 1];
    var c' := st.contexts[id].(listed := false);
    PoppedLinked(st);
    TotalUpdate(st.contexts, id, c', Bit);
    TotalUpdate(st.contexts, id, c', Phantom);
    TotalUpdate(st.contexts, id, c', Orphan);
    forall x: Waiter ensures Total(st.contexts[id := c'], Holding(x)) == Total(st.contexts, Holding(x)) {
      TotalUpdate(st.contexts, id, c', Holding(x));
    }
  }

  lemma PushBalanced(st: Store, pending: int, l: Ledger)
    requires Balanced(st, pending, l)
    ensures Balanced(Pushed(st), pending, l)
  {
    hide Total, Occurs;
    var c := Fresh(|st.table|);
    PushedLinked(st);
    TotalAppend(st.contexts, c, Bit);
    TotalAppend(st.contexts, c, Phantom);
    TotalAppend(st.contexts, c, Orphan);
    forall x: Waiter ensures Total(st.contexts + [c], Holding(x)) == Total(st.contexts, Holding(x)) {
      TotalAppend(st.contexts, c, Holding(x));
    }
  }

  /** The ledger after a resize: contexts above the new size are cut off. */
  function Cut(l: Ledger, size: nat, newSize: nat): Ledger {
    l.(cut := l.cut + if newSize < size then size - newSize else 0)
  }

  lemma {:induction false} ResizeBalanced(st: Store, size: nat, pending: int, l: Ledger)
    requires Balanced(st, pending, l)
    ensures Balanced(Resized(st, size), pending, Cut(l, |st.table|, size))
    decreases Distance(|st.table|, size)
  {
    hide Balanced;
    assert Linked(st) by { UnpackBalanced(st, pending, l); }
    if |st.table| < size {
      PushBalanced(st, pending, l);
      ResizeBalanced(Pushed(st), size, pending, l);
    } else if |st.table| > size {
      PopBalanced(st, pending, l);
      ResizeBalanced(Popped(st), size, pending, l.(cut := l.cut + 1));
    }
  }

  lemma UnpackBalanced(st: Store, pending: int, l: Ledger)
    requires Balanced(st, pending, l)
    ensures Linked(st)
  {
  }

  lemma AddBalanced(st: Store, id: nat, e: Event, w: Waiter, pending: int, l: Ledger)
    requires Accounted(st, pending, l) && id < |st.contexts| && e !in st.contexts[id].events
    ensures Accounted(Set(st, id, e, true, Some(w)), pending + 1, l.(registered := l.registered + [w]))
  {
    hide Total, Occurs;
    PutLinked(st, id, e, true, Some(w));
    Replace(st.contexts, id, e, true, Some(w));
    OccursAppend(l.registered, w);
  }

  lemma FailBalanced(st: Store, id: nat, e: Event, pending: int, l: Ledger)
    requires Accounted(st, pending, l) && id < |st.contexts| && e !in st.contexts[id].events
    ensures Accounted(Set(st, id, e, true, None), pending, l.(failed := l.failed + 1))
  {
    hide Total, Occurs;
    PutLinked(st, id, e, true, None);
    Replace(st.contexts, id, e, true, None);
  }

  function Submit(l: Ledger, w: Waiter): Ledger { l.(submitted := l.submitted + [w]) }

  function Drop(l: Ledger, w: Option<Waiter>): Ledger {
    if w.Some? then l.(dropped := l.dropped + [w.value]) else l.(removed := l.removed + 1)
  }

  lemma SubmitBalanced(st: Store, id: nat, e: Event, pending: int, l: Ledger)
    requires Accounted(st, pending, l) && id < |st.contexts| && Ready(st.contexts[id], e)
    ensures Accounted(Set(st, id, e, false, None), pending - 1, Submit(l, Slot(st.contexts[id], e).value))
  {
    hide Total, Occurs;
    PutLinked(st, id, e, false, None);
    Replace(st.contexts, id, e, false, None);
    OccursAppend(l.submitted, Slot(st.contexts[id], e).value);
  }

  lemma DropBalanced(st: Store, id: nat, e: Event, pending: int, l: Ledger)
    requires Accounted(st, pending, l) && id < |st.contexts| && e in st.contexts[id].events
    ensures Accounted(Set(st, id, e, false, None), pending - 1, Drop(l, Slot(st.contexts[id], e)))
  {
    hide Total, Occurs;
    PutLinked(st, id, e, false, None);
    Replace(st.contexts, id, e, false, None);
    if Slot(st.contexts[id], e).Some? {
      OccursAppend(l.dropped, Slot(st.contexts[id], e).value);
    }
  }

  /** Registering an event in a context of the table adds one to the bits of the table. */
  lemma SetListed(st: Store, id: nat, e: Event, w: Waiter)
    requires id < |st.contexts| && st.contexts[id].listed && e !in st.contexts[id].events
    ensures Total(Set(st, id, e, true, Some(w)).contexts, ListedBit) == Total(st.contexts, ListedBit) + 1
  {
    var c' := Put(st.contexts[id], e, true, Some(w));
    TotalUpdate(st.contexts, id, c', ListedBit);
    PutAmount(st.contexts[id], e, true, Some(w));
  }

  /** Two addEvent calls on new descriptors that both look before either resizes, from an exact state and with
      every epoll_ctl succeeding: the counter is exact afterwards if and only if the first descriptor is below
      the size the second caller asks for. */
  lemma RacingCallers(st: Store, pending: int, l: Ledger, fd1: nat, e1: Event, w1: Waiter, fd2: nat, e2: Event, w2: Waiter)
    requires Accounted(st, pending, l) && l.failed == 0 && l.cut == 0 && |st.table| <= fd1 && |st.table| <= fd2
    ensures var st1 := Resized(st, GrownSize(fd1));
            fd1 < |st1.table| && e1 !in st1.contexts[st1.table[fd1]].events &&
            var st2 := Set(st1, st1.table[fd1], e1, true, Some(w1));
            var st3 := Resized(st2, GrownSize(fd2));
            fd2 < |st3.table| &&
            (e2 !in st3.contexts[st3.table[fd2]].events ==>
               var st4 := Set(st3, st3.table[fd2], e2, true, Some(w2));
               pending + 2 == Total(st4.contexts, ListedBit) <==> fd1 < GrownSize(fd2))
  {
    hide Total, Resized, Put;
    CounterExact(st, pending, l);
    ResizedContexts(st, GrownSize(fd1));
    ResizeKeepsBits(st, GrownSize(fd1));
    var st1 := Resized(st, GrownSize(fd1));
    var id1 := st1.table[fd1];
    SetListed(st1, id1, e1, w1);
    StaleResize(st, fd1, fd2, e1, w1);
    var st2 := Set(st1, id1, e1, true, Some(w1));
    PutLinked(st1, id1, e1, true, Some(w1));
    ResizedContexts(st2, GrownSize(fd2));
    var st3 := Resized(st2, GrownSize(fd2));
    if e2 !in st3.contexts[st3.table[fd2]].events {
      SetListed(st3, st3.table[fd2], e2, w2);
    }
  }

  // ---- the object ---------------------------------------------------------------------------

  class IoManager {
    var store: Store
    var pending: int          // pendingEventCount_ before reduction to size_t
    ghost var ledger: Ledger

    ghost predicate Valid()
      reads this
    {
      Accounted(store, pending, ledger)
    }

    constructor ()
      ensures Valid() && pending == 0 && ledger == Ledger([], [], [], 0, 0, 0)
      ensures store == Resized(Store([], []), 64)
    {
      store, pending, ledger := Store([], []), 0, Ledger([], [], [], 0, 0, 0);
      new;
      ResizeBalanced(store, 64, pending, ledger);
      ContextResize(64);
    }

    method ContextResize(size: nat)
      requires InBounds(store)
      modifies this`store
      ensures store == Resized(old(store), size)
    {
      while |store.table| > size
        invariant InBounds(store) && Resized(store, size) == Resized(old(store), size)
        decreases |store.table|
      {
        store := Popped(store);
      }
      while |store.table| < size
        invariant InBounds(store) && |store.table| <= size && Resized(store, size) == Resized(old(store), size)
        decreases size - |store.table|
      {
        store := Pushed(store);
      }
    }

    /** The read-locked lookup every operation begins with. */
    method Look(fd: nat) returns (id: Option<nat>)
      requires Valid()
      ensures if fd < |store.table| then id == Some(store.table[fd]) && store.table[fd] < |store.contexts|
              else id == None && fd >= 64
    {
      if |store.table| > fd {
        return Some(store.table[fd]);
      }
      return None;
    }

    /** The write-locked part of addEvent for a descriptor that was not in the table when it looked. */
    method ResizeFor(fd: nat) returns (id: nat)
      requires Valid() && fd >= 64
      modifies this`store, this`ledger
      ensures Valid() && store == Resized(old(store), GrownSize(fd))
      ensures ledger == Cut(old(ledger), |old(store).table|, GrownSize(fd))
      ensures fd < |store.table| && id == store.table[fd] && id < |store.contexts|
    {
      hide Total, Occurs, Resized;
      ResizeBalanced(store, GrownSize(fd), pending, ledger);
      ledger := Cut(ledger, |store.table|, GrownSize(fd));
      ContextResize(GrownSize(fd));
      id := store.table[fd];
    }

    /** The rest of addEvent, under the context's lock; `granted` is whether epoll_ctl succeeds. The bit is
        set before that is known. */
    method Register(id: nat, event: Event, w: Waiter, granted: bool) returns (out: Outcome)
      requires Valid() && id < |store.contexts|
      modifies this
      ensures Valid()
      ensures if event in old(store).contexts[id].events then
                out == Aborted && store == old(store) && pending == old(pending) && ledger == old(ledger)
              else if granted then
                && out == Done && pending == old(pending) + 1
                && store == Set(old(store), id, event, true, Some(w))
                && ledger == old(ledger).(registered := old(ledger).registered + [w])
              else
                && out == Refused && pending == old(pending)
                && store == Set(old(store), id, event, true, None)
                && ledger == old(ledger).(failed := old(ledger).failed + 1)
    {
      hide Total, Occurs, Linked;
      var c := store.contexts[id];
      if event in c.events {
        return Aborted;
      }
      AddBalanced(store, id, event, w, pending, ledger);
      FailBalanced(store, id, event, pending, ledger);
      assert Slot(c, event) == None;
      c := c.(events := c.events + {event});
      if !granted {
        store := store.(contexts := store.contexts[id := c]);
        ledger := ledger.(failed := ledger.failed + 1);
        return Refused;
      }
      pending := pending + 1;
      store := store.(contexts := store.contexts[id := SetSlot(c, event, Some(w))]);
      ledger := ledger.(registered := ledger.registered + [w]);
      return Done;
    }

    /** addEvent when nobody else comes in between its sections. */
    method AddEvent(fd: nat, event: Event, w: Waiter, granted: bool) returns (out: Outcome)
      requires Valid()
      modifies this
      ensures Valid() && pending == old(pending) + One(out == Done)
      ensures ledger == if out == Done then old(ledger).(registered := old(ledger).registered + [w])
                        else if out == Refused then old(ledger).(failed := old(ledger).failed + 1)
                        else old(ledger)
      ensures var base := if fd < |old(store).table| then old(store) else Resized(old(store), GrownSize(fd));
              fd < |base.table| &&
              var id := base.table[fd];
              id < |base.contexts|
              && if event in base.contexts[id].events then out == Aborted && store == base
                 else if granted then out == Done && store == Set(base, id, event, true, Some(w))
                 else out == Refused && store == Set(base, id, event, true, None)
    {
      hide Accounted, Resized;
      var found := Look(fd);
      var id;
      if found.Some? {
        id := found.value;
      } else {
        id := ResizeFor(fd);
      }
      out := Register(id, event, w, granted);
    }

    /** delEvent on the context it found: the waiter is discarded. */
    method DelEvent(id: nat, event: Event, granted: bool) returns (ok: bool)
      requires Valid() && id < |store.contexts|
      modifies this
      ensures Valid()
      ensures ok <==> event in old(store).contexts[id].events && granted
      ensures !ok ==> store == old(store) && pending == old(pending) && ledger == old(ledger)
      ensures ok ==> && store == Set(old(store), id, event, false, None)
                     && pending == old(pending) - 1
                     && ledger == (match Slot(old(store).contexts[id], event)
                                   case Some(w) => old(ledger).(dropped := old(ledger).dropped + [w])
                                   case None => old(ledger).(removed := old(ledger).removed + 1))
    {
      hide Total, Occurs, Linked;
      var c := store.contexts[id];
      if event !in c.events {
        return false;
      }
      var newEvents := c.events - {event};
      if !granted {
        return false;
      }
      DropBalanced(store, id, event, pending, ledger);
      ledger := Drop(ledger, Slot(c, event));
      pending := pending - 1;
      store := store.(contexts := store.contexts[id := SetSlot(c.(events := newEvents), event, None)]);
      return true;
    }

    /** triggerEvent: the caller still has to take the event off the counter. */
    method TriggerEvent(id: nat, event: Event) returns (ok: bool)
      requires Valid() && id < |store.contexts|
      modifies this`store, this`ledger
      ensures ok <==> Ready(old(store).contexts[id], event)
      ensures !ok ==> store == old(store) && ledger == old(ledger)
      ensures ok ==> && Accounted(store, pending - 1, ledger)
                     && store == Set(old(store), id, event, false, None)
                     && ledger.submitted == old(ledger).submitted + [Slot(old(store).contexts[id], event).value]
                     && ledger == old(ledger).(submitted := ledger.submitted)
    {
      hide Total, Occurs, Linked;
      var c := store.contexts[id];
      if event !in c.events || Slot(c, event).None? {
        return false;
      }
      SubmitBalanced(store, id, event, pending, ledger);
      ledger := Submit(ledger, Slot(c, event).value);
      store := store.(contexts := store.contexts[id := SetSlot(c.(events := c.events - {event}), event, None)]);
      return true;
    }

    /** cancelEvent on the context it found: the waiter is submitted. */
    method CancelEvent(id: nat, event: Event, granted: bool) returns (out: Outcome)
      requires Valid() && id < |store.contexts|
      modifies this
      ensures Valid()
      ensures out == Refused <==> !(event in old(store).contexts[id].events && granted)
      ensures out == Done ==> && Ready(old(store).contexts[id], event)
                              && store == Set(old(store), id, event, false, None)
                              && pending == old(pending) - 1
                              && ledger.submitted == old(ledger).submitted + [Slot(old(store).contexts[id], event).value]
                              && ledger == old(ledger).(submitted := ledger.submitted)
      ensures out == Aborted ==> !Exact(old(store).contexts[id])
      ensures out != Done ==> store == old(store) && pending == old(pending) && ledger == old(ledger)
    {
      hide Accounted;
      if event !in store.contexts[id].events || !granted {
        return Refused;
      }
      var ok := TriggerEvent(id, event);
      if !ok {
        return Aborted;
      }
      pending := pending - 1;
      return Done;
    }

    /** Triggers the events asked for, reading first, counting each off; stops at one that aborts. */
    method TriggerEach(id: nat, r: bool, w: bool) returns (ok: bool)
      requires Valid() && id < |store.contexts|
      modifies this
      ensures Valid() && |store.contexts| == |old(store).contexts|
      ensures ok <==> (r ==> Ready(old(store).contexts[id], READ)) && (w ==> Ready(old(store).contexts[id], WRITE))
      ensures ok ==> var c := old(store).contexts[id];
                     var st1 := if r then Set(old(store), id, READ, false, None) else old(store);
                     var l1 := if r then Submit(old(ledger), c.read.value) else old(ledger);
                     && store == (if w then Set(st1, id, WRITE, false, None) else st1)
                     && ledger == (if w then Submit(l1, c.write.value) else l1)
                     && pending == old(pending) - One(r) - One(w)
    {
      hide Accounted;
      if r {
        ok := TriggerEvent(id, READ);
        if !ok {
          return false;
        }
        pending := pending - 1;
      }
      if w {
        ok := TriggerEvent(id, WRITE);
        if !ok {
          return false;
        }
        pending := pending - 1;
      }
      return true;
    }

    /** cancelAllEvent on the context it found: both waiters are submitted, the reader first, and the context
        is left empty. */
    method CancelAllEvent(id: nat, granted: bool) returns (out: Outcome)
      requires Valid() && id < |store.contexts|
      modifies this
      ensures Valid()
      ensures out == Refused <==> !(old(store).contexts[id].events != {} && granted)
      ensures out == Refused ==> store == old(store) && pending == old(pending) && ledger == old(ledger)
      ensures out == Done ==> var c := old(store).contexts[id];
                              var r, w := READ in c.events, WRITE in c.events;
                              && (r ==> c.read.Some?) && (w ==> c.write.Some?)
                              && store == old(store).(contexts := old(store).contexts[id := Emptied(c)])
                              && pending == old(pending) - One(r) - One(w)
                              && ledger == old(ledger).(submitted := old(ledger).submitted
                                   + (if r then [c.read.value] else []) + (if w then [c.write.value] else []))
      ensures out == Aborted ==> !Exact(old(store).contexts[id])
    {
      hide Total, Occurs, Linked;
      var c := store.contexts[id];
      if c.events == {} || !granted {
        return Refused;
      }
      AllPut(c);
      var ok := TriggerEach(id, READ in c.events, WRITE in c.events);
      return if ok then Done else Aborted;
    }

    /** One reported descriptor in Wait, by the pointer epoll gives back: errors count as every registered
        event; the events reported are triggered and removed. An event that is reported without being
        registered is an abort. */
    method Fire(id: nat, readable: bool, writable: bool, error: bool, granted: bool) returns (out: Outcome)
      requires Valid() && id < |store.contexts|
      modifies this
      ensures Valid()
      ensures var c := old(store).contexts[id];
              var r := readable || (error && READ in c.events);
              var w := writable || (error && WRITE in c.events);
              var hit := (r && READ in c.events) || (w && WRITE in c.events);
              && (out == Refused <==> !(hit && granted))
              && (out == Refused ==> store == old(store) && pending == old(pending) && ledger == old(ledger))
              && (out == Done ==>
                    && (r ==> Ready(c, READ)) && (w ==> Ready(c, WRITE))
                    && pending == old(pending) - One(r) - One(w)
                    && ledger.submitted == old(ledger).submitted
                         + (if r then [c.read.value] else []) + (if w then [c.write.value] else [])
                    && store == (if r && w then Set(Set(old(store), id, READ, false, None), id, WRITE, false, None)
                                 else Set(old(store), id, if r then READ else WRITE, false, None)))
              && (Exact(c) && (r ==> READ in c.events) && (w ==> WRITE in c.events) ==> out != Aborted)
    {
      hide Accounted;
      var c := store.contexts[id];
      var r := readable || (error && READ in c.events);
      var w := writable || (error && WRITE in c.events);
      if !(r && READ in c.events) && !(w && WRITE in c.events) {
        return Refused;
      }
      if !granted {
        return Refused;
      }
      var ok := TriggerEach(id, r, w);
      return if ok then Done else Aborted;
    }
  }

  function Emptied(c: FdContext): FdContext { FdContext(c.fd, c.listed, {}, None, None) }

  /** Removing every registered event empties a sound context. */
  lemma AllPut(c: FdContext)
    requires Sound(c)
    ensures var c1 := if READ in c.events then Put(c, READ, false, None) else c;
            (if WRITE in c.events then Put(c1, WRITE, false, None) else c1) == Emptied(c)
  {
    var c1 := if READ in c.events then Put(c, READ, false, None) else c;
    var c2 := if WRITE in c.events then Put(c1, WRITE, false, None) else c1;
    NoEvents(c2);
  }
}
