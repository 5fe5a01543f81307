/** RPCServiceRegistry: the service multimap and the reverse index of iterators into it. */
module Registries {
  import opened Basics

  type Name = string
  type Address = string

  /** A node of the multimap; `id` is its identity, which is what an iterator holds. */
  datatype Entry = Entry(id: nat, name: Name, addr: Address)

  datatype Event = Registered(name: Name, addr: Address) | Unregistered(addr: Address)

  datatype Found = Success(addr: Address) | NoMethod

  // ---- what the history says ----------------------------------------------------------------

  /** Registration number i has not been followed by an unregistration of its address. */
  predicate Survives(h: seq<Event>, i: nat)
    requires i < |h|
  {
    h[i].Registered? && forall j | i < j < |h| :: h[j] != Unregistered(h[i].addr)
  }

  /** The surviving ones among the first n events, in order. */
  function Survivors(h: seq<Event>, n: nat): seq<Event>
    requires n <= |h|
  {
    if n == 0 then [] else Survivors(h, n - 1) + (if Survives(h, n - 1) then [h[n - 1]] else [])
  }

  /** The addresses registered under a name. */
  function AddressesOf(es: seq<Event>, name: Name): seq<Address> {
    if es == [] then []
    else
      var e := es[|es| - 1];
      AddressesOf(es[..|es| - 1], name) + (if e.Registered? && e.name == name then [e.addr] else [])
  }

  function Without(es: seq<Event>, addr: Address): seq<Event> {
    if es == [] then []
    else
      var e := es[|es| - 1];
      Without(es[..|es| - 1], addr) + (if e.addr == addr then [] else [e])
  }

  lemma {:induction false} SurvivorsRegister(h: seq<Event>, e: Event, n: nat)
    requires n <= |h| && e.Registered?
    ensures Survivors(h + [e], n) == Survivors(h, n)
  {
    if n > 0 {
      SurvivorsRegister(h, e, n - 1);
      assert Survives(h + [e], n - 1) <==> Survives(h, n - 1) by {
        var h' := h + [e];
        assert forall j | 0 <= j < |h| :: h'[j] == h[j];
      }
    }
  }

  lemma {:induction false} SurvivorsUnregister(h: seq<Event>, addr: Address, n: nat)
    requires n <= |h|
    ensures Survivors(h + [Unregistered(addr)], n) == Without(Survivors(h, n), addr)
  {
    if n > 0 {
      var h' := h + [Unregistered(addr)];
      SurvivorsUnregister(h, addr, n - 1);
      assert forall j | 0 <= j < |h| :: h'[j] == h[j];
      assert h'[|h|] == Unregistered(addr);
      assert Survives(h', n - 1) <==> Survives(h, n - 1) && h[n - 1].addr != addr;
      if Survives(h, n - 1) {
        var es := Survivors(h, n);
        assert es[..|es| - 1] == Survivors(h, n - 1) && es[|es| - 1] == h[n - 1];
      } else {
        assert Survivors(h, n) == Survivors(h, n - 1);
        assert Survivors(h', n) == Survivors(h', n - 1);
      }
    }
  }

  lemma LastUnregister(h: seq<Event>, addr: Address)
    ensures var h' := h + [Unregistered(addr)];
            Survivors(h', |h'|) == Without(Survivors(h, |h|), addr)
  {
    var h' := h + [Unregistered(addr)];
    SurvivorsUnregister(h, addr, |h|);
    assert Survivors(h', |h'|) == Survivors(h', |h|);
  }

  /** The registrations of an address under a name among the first n events that still stand. */
  ghost function Stands(h: seq<Event>, n: nat, name: Name, addr: Address): set<nat>
    requires n <= |h|
  {
    set i: nat | i < n && Survives(h, i) && h[i] == Registered(name, addr)
  }

  ghost function Standing(h: seq<Event>, n: nat, name: Name, addr: Address): nat
    requires n <= |h|
  {
    |Stands(h, n, name, addr)|
  }

  /** How often an address is found under a name. */
  ghost function Times(es: seq<Event>, name: Name, addr: Address): nat {
    multiset(AddressesOf(es, name))[addr]
  }

  lemma StandingNone(h: seq<Event>, name: Name, addr: Address)
    ensures Standing(h, 0, name, addr) == 0
  {
    assert Stands(h, 0, name, addr) == {};
  }

  lemma StandingNext(h: seq<Event>, n: nat, name: Name, addr: Address)
    requires n < |h|
    ensures Standing(h, n + 1, name, addr)
         == Standing(h, n, name, addr) + One(Survives(h, n) && h[n] == Registered(name, addr))
  {
    hide Survives;
    var before, after := Stands(h, n, name, addr), Stands(h, n + 1, name, addr);
    assert after == before + if Survives(h, n) && h[n] == Registered(name, addr) then {n} else {};
  }

  lemma TimesNext(es: seq<Event>, e: Event, name: Name, addr: Address)
    requires e.Registered?
    ensures Times(es + [e], name, addr) == Times(es, name, addr) + One(e == Registered(name, addr))
  {
    assert (es + [e])[..|es|] == es;
  }

  /** An address is found under a name as often as it was registered under it since its last unregistration. */
  lemma {:induction false} FoundAsOften(h: seq<Event>, n: nat, name: Name, addr: Address)
    requires n <= |h|
    ensures Times(Survivors(h, n), name, addr) == Standing(h, n, name, addr)
    decreases n
  {
    hide Times, Standing;
    if n == 0 {
      StandingNone(h, name, addr);
      TimesNone(name, addr);
    } else {
      FoundAsOften(h, n - 1, name, addr);
      StandingNext(h, n - 1, name, addr);
      if Survives(h, n - 1) {
        TimesNext(Survivors(h, n - 1), h[n - 1], name, addr);
      } else {
        assert Survivors(h, n) == Survivors(h, n - 1);
      }
    }
  }

  lemma TimesNone(name: Name, addr: Address)
    ensures Times([], name, addr) == 0
  {
  }

  // ---- the two maps -------------------------------------------------------------------------

  /** The multimap's nodes under one address, as iterators, oldest first. */
  function IdsOf(s: seq<Entry>, addr: Address): seq<nat> {
    if s == [] then []
    else IdsOf(s[..|s| - 1], addr) + (if s[|s| - 1].addr == addr then [s[|s| - 1].id] else [])
  }

  function EventsOf(s: seq<Entry>): (es: seq<Event>)
    ensures |es| == |s|
  {
    seq(|s|, i requires 0 <= i < |s| => Registered(s[i].name, s[i].addr))
  }

  function Others(s: seq<Entry>, addr: Address): seq<Entry> {
    if s == [] then []
    else Others(s[..|s| - 1], addr) + (if s[|s| - 1].addr == addr then [] else [s[|s| - 1]])
  }

  predicate Increasing(s: seq<Entry>) {
    forall i, j | 0 <= i < j < |s| :: s[i].id < s[j].id
  }

  lemma {:induction false} OthersEvents(s: seq<Entry>, addr: Address)
    ensures EventsOf(Others(s, addr)) == Without(EventsOf(s), addr)
  {
    if s != [] {
      OthersEvents(s[..|s| - 1], addr);
      assert EventsOf(s)[..|s| - 1] == EventsOf(s[..|s| - 1]);
    }
  }

  /** Every entry under an address is among that address's iterators, and only those. */
  lemma {:induction false} IdsOfMembers(s: seq<Entry>, addr: Address)
    ensures forall i | 0 <= i < |s| && s[i].addr == addr :: s[i].id in IdsOf(s, addr)
    ensures forall id | id in IdsOf(s, addr) :: exists i :: 0 <= i < |s| && s[i].id == id && s[i].addr == addr
  {
    if s != [] {
      var t := s[..|s| - 1];
      IdsOfMembers(t, addr);
      forall i | 0 <= i < |s| && s[i].addr == addr ensures s[i].id in IdsOf(s, addr) {
        if i < |t| { assert t[i] == s[i]; }
      }
      forall id | id in IdsOf(s, addr) ensures exists i :: 0 <= i < |s| && s[i].id == id && s[i].addr == addr {
        if id in IdsOf(t, addr) {
          var i :| 0 <= i < |t| && t[i].id == id && t[i].addr == addr;
          assert s[i] == t[i];
        } else {
          assert s[|s| - 1].id == id;
        }
      }
    }
  }

  lemma {:induction false} NoneLeft(s: seq<Entry>, addr: Address)
    requires IdsOf(s, addr) == []
    ensures Others(s, addr) == s
  {
    if s != [] {
      NoneLeft(s[..|s| - 1], addr);
      assert s == s[..|s| - 1] + [s[|s| - 1]];
    }
  }

  lemma {:induction false} IdsOfConcat(s: seq<Entry>, t: seq<Entry>, addr: Address)
    ensures IdsOf(s + t, addr) == IdsOf(s, addr) + IdsOf(t, addr)
    decreases |t|
  {
    if t == [] {
      assert s + t == s;
    } else {
      IdsOfConcat(s, t[..|t| - 1], addr);
      assert (s + t)[..|s + t| - 1] == s + t[..|t| - 1];
    }
  }

  lemma {:induction false} OthersConcat(s: seq<Entry>, t: seq<Entry>, addr: Address)
    ensures Others(s + t, addr) == Others(s, addr) + Others(t, addr)
    decreases |t|
  {
    if t == [] {
      assert s + t == s;
    } else {
      OthersConcat(s, t[..|t| - 1], addr);
      assert (s + t)[..|s + t| - 1] == s + t[..|t| - 1];
    }
  }

  lemma SplitAt(s: seq<Entry>, k: nat, addr: Address)
    requires k < |s|
    ensures IdsOf(s, addr) == IdsOf(s[..k], addr) + IdsOf([s[k]], addr) + IdsOf(s[k + 1..], addr)
    ensures Others(s, addr) == Others(s[..k], addr) + Others([s[k]], addr) + Others(s[k + 1..], addr)
  {
    hide IdsOf, Others;
    assert s == s[..k] + [s[k]] + s[k + 1..];
    IdsOfConcat(s[..k] + [s[k]], s[k + 1..], addr);
    IdsOfConcat(s[..k], [s[k]], addr);
    OthersConcat(s[..k] + [s[k]], s[k + 1..], addr);
    OthersConcat(s[..k], [s[k]], addr);
  }

  lemma Single(e: Entry, addr: Address)
    ensures IdsOf([e], addr) == if e.addr == addr then [e.id] else []
    ensures Others([e], addr) == if e.addr == addr then [] else [e]
  {
  }

  /** Entries before k have smaller identities. */
  lemma BeforeSmaller(s: seq<Entry>, k: nat, addr: Address)
    requires Increasing(s) && k < |s| && IdsOf(s[..k], addr) != []
    ensures IdsOf(s[..k], addr)[0] < s[k].id
  {
    var p := s[..k];
    IdsOfMembers(p, addr);
    var first := IdsOf(p, addr)[0];
    assert first in IdsOf(p, addr);
    var i :| 0 <= i < |p| && p[i].id == first && p[i].addr == addr;
    assert p[i] == s[i];
  }

  ghost predicate IdsAscend(ids: seq<nat>) {
    forall j, k | 0 <= j < k < |ids| :: ids[j] < ids[k]
  }

  lemma {:induction false} IdsOfAscend(s: seq<Entry>, addr: Address)
    requires Increasing(s)
    ensures IdsAscend(IdsOf(s, addr))
  {
    if s != [] {
      var t, last := s[..|s| - 1], s[|s| - 1];
      IdsOfAscend(t, addr);
      IdsOfMembers(t, addr);
      assert IdsOf(s, addr) == IdsOf(t, addr) + (if last.addr == addr then [last.id] else []);
      forall j | 0 <= j < |IdsOf(t, addr)| ensures IdsOf(t, addr)[j] < last.id {
        assert IdsOf(t, addr)[j] in IdsOf(t, addr);
      }
    }
  }

  /** Erasing the oldest entry of an address takes exactly its iterator off that address's list. */
  lemma RemoveFirst(s: seq<Entry>, k: nat, addr: Address)
    requires k < |s| && s[k].addr == addr && Increasing(s)
    requires IdsOf(s, addr) != [] && IdsOf(s, addr)[0] == s[k].id
    ensures IdsOf(Removed(s, k), addr) == IdsOf(s, addr)[1..]
    ensures Others(Removed(s, k), addr) == Others(s, addr)
    ensures Increasing(Removed(s, k))
  {
    hide IdsOf, Others;
    var p, r := s[..k], s[k + 1..];
    SplitAt(s, k, addr);
    Single(s[k], addr);
    IdsOfConcat(p, r, addr);
    OthersConcat(p, r, addr);
    if IdsOf(p, addr) != [] {
      BeforeSmaller(s, k, addr);
    }
  }

  /** An address's iterators are unaffected by entries of other addresses. */
  lemma {:induction false} OthersIds(s: seq<Entry>, addr: Address, other: Address)
    ensures IdsOf(Others(s, addr), other) == if other == addr then [] else IdsOf(s, other)
    ensures forall i | 0 <= i < |Others(s, addr)| :: Others(s, addr)[i] in s
  {
    if s != [] {
      var t, e := s[..|s| - 1], s[|s| - 1];
      OthersIds(t, addr, other);
      assert Others(s, addr) == Others(t, addr) + (if e.addr == addr then [] else [e]);
      IdsOfConcat(Others(t, addr), [e], other);
      Single(e, other);
      assert Others(t, addr) + [] == Others(t, addr);
    }
  }

  class Registry {
    var service: seq<Entry>                  // service_: nodes in insertion order, also within a name
    var iters: map<Address, seq<nat>>        // iters_
    var fresh_: nat                          // identity of the next node
    ghost var history: seq<Event>

    /** Every entry is referenced exactly once, under its own address, no reference dangles, and the
        entries are what the history leaves. */
    ghost predicate Valid()
      reads this
    {
      && Increasing(service)
      && (forall i | 0 <= i < |service| :: service[i].id < fresh_)
      && (forall i | 0 <= i < |service| :: service[i].addr in iters)
      && (forall a | a in iters :: iters[a] == IdsOf(service, a))
      && EventsOf(service) == Survivors(history, |history|)
    }

    constructor ()
      ensures Valid() && history == []
    {
      service, iters, fresh_, history := [], map[], 0, [];
    }

    /** handleServiceRegister. */
    method Register(name: Name, addr: Address)
      requires Valid()
      modifies this
      ensures Valid() && history == old(history) + [Registered(name, addr)]
    {
      var it := Entry(fresh_, name, addr);
      NewIds(service, it);
      NoOrphans(addr);
      service := service + [it];
      fresh_ := fresh_ + 1;
      iters := iters[addr := (if addr in iters then iters[addr] else []) + [it.id]];
      SurvivorsRegister(history, Registered(name, addr), |history|);
      history := history + [Registered(name, addr)];
      assert EventsOf(service) == Survivors(history, |history|);
    }

    /** An address without a list has no entries. */
    lemma NoOrphans(addr: Address)
      requires Valid()
      ensures addr !in iters ==> IdsOf(service, addr) == []
    {
      IdsOfMembers(service, addr);
      if IdsOf(service, addr) != [] {
        var id := IdsOf(service, addr)[0];
        assert id in IdsOf(service, addr);
      }
    }

    /** Each entry is referenced once, from its own address, and no reference dangles. */
    lemma ReferencedOnce()
      requires Valid()
      ensures forall a, id | a in iters && id in iters[a] ::
                exists i :: 0 <= i < |service| && service[i].id == id && service[i].addr == a
      ensures forall i | 0 <= i < |service| :: service[i].id in iters[service[i].addr]
      ensures forall i, a | 0 <= i < |service| && a in iters && service[i].id in iters[a] :: a == service[i].addr
      ensures forall a, j, k | a in iters && 0 <= j < k < |iters[a]| :: iters[a][j] != iters[a][k]
    {
      hide IdsOf;
      forall a ensures IdsAscend(IdsOf(service, a)) {
        IdsOfAscend(service, a);
      }
      forall a | a in iters
        ensures forall i | 0 <= i < |service| && service[i].addr == a :: service[i].id in iters[a]
        ensures forall id | id in iters[a] ::
                  exists i :: 0 <= i < |service| && service[i].id == id && service[i].addr == a
      {
        IdsOfMembers(service, a);
      }
      forall i, a | 0 <= i < |service| && a in iters && service[i].id in iters[a] ensures a == service[i].addr {
        var k :| 0 <= k < |service| && service[k].id == service[i].id && service[k].addr == a;
      }
    }

    /** handleServiceDiscover: the addresses registered under the name since their last unregistration. */
    method Discover(name: Name) returns (result: seq<Found>)
      requires Valid()
      ensures var found := AddressesOf(Survivors(history, |history|), name);
              if found == [] then result == [NoMethod]
              else |result| == |found| && forall i | 0 <= i < |found| :: result[i] == Success(found[i])
    {
      result := [];
      ghost var es := EventsOf(service);
      ghost var found: seq<Address> := [];
      var i := 0;
      assert es[..0] == [];
      while i < |service|
        invariant 0 <= i <= |service| && found == AddressesOf(es[..i], name)
        invariant |result| == |found| && forall j | 0 <= j < |found| :: result[j] == Success(found[j])
      {
        assert es[..i + 1][..i] == es[..i] && es[..i + 1][i] == es[i];
        if service[i].name == name {
          result := result + [Success(service[i].addr)];
          found := found + [service[i].addr];
        }
        i := i + 1;
      }
      assert es[..i] == es;
      if result == [] {
        result := [NoMethod];
      }
    }

    /** service_.erase(it): the iterator must refer to a node of the map. */
    method EraseEntry(id: nat, ghost addr: Address)
      requires Increasing(service) && IdsOf(service, addr) != [] && IdsOf(service, addr)[0] == id
      modifies this`service
      ensures IdsOf(service, addr) == old(IdsOf(service, addr))[1..]
      ensures Others(service, addr) == old(Others(service, addr)) && Increasing(service)
    {
      IdsOfMembers(service, addr);
      assert id in IdsOf(service, addr);
      var k := 0;
      while service[k].id != id
        invariant 0 <= k < |service|
        invariant exists i :: k <= i < |service| && service[i].id == id && service[i].addr == addr
      {
        k := k + 1;
      }
      assert service[k].addr == addr;
      RemoveFirst(service, k, addr);
      service := Removed(service, k);
    }

    /** The loop over the iterators of one address. */
    method EraseAll(its: seq<nat>, ghost addr: Address)
      requires Increasing(service) && its == IdsOf(service, addr)
      modifies this`service
      ensures Increasing(service) && service == Others(old(service), addr)
    {
      hide IdsOf, Others;
      var i := 0;
      while i < |its|
        invariant 0 <= i <= |its| && IdsOf(service, addr) == its[i..]
        invariant Others(service, addr) == Others(old(service), addr) && Increasing(service)
      {
        EraseEntry(its[i], addr);
        i := i + 1;
      }
      NoneLeft(service, addr);
    }

    /** handleUnregisterService. */
    method Unregister(addr: Address)
      requires Valid()
      modifies this
      ensures Valid() && history == old(history) + [Unregistered(addr)]
      ensures addr !in iters && forall i | 0 <= i < |service| :: service[i].addr != addr
    {
      hide IdsOf, Others, Survivors, EventsOf;
      Forget(addr);
      if addr !in iters {
        NoOrphans(addr);
        NoneLeft(service, addr);
      } else {
        var its := iters[addr];
        EraseAll(its, addr);
        iters := iters - {addr};
      }
      history := history + [Unregistered(addr)];
    }

    lemma Forget(addr: Address)
      requires Valid()
      ensures var left, h := Others(service, addr), history + [Unregistered(addr)];
              && EventsOf(left) == Survivors(h, |h|)
              && (forall a :: IdsOf(left, a) == if a == addr then [] else IdsOf(service, a))
              && (forall i | 0 <= i < |left| :: left[i] in service && left[i].addr != addr)
    {
      hide IdsOf, Others, EventsOf, Survivors;
      var left := Others(service, addr);
      OthersEvents(service, addr);
      LastUnregister(history, addr);
      OthersIds(service, addr, addr);
      forall a ensures IdsOf(left, a) == if a == addr then [] else IdsOf(service, a) {
        OthersIds(service, addr, a);
      }
      IdsOfMembers(left, addr);
    }
  }

  lemma NewIds(s: seq<Entry>, e: Entry)
    ensures forall a :: IdsOf(s + [e], a) == IdsOf(s, a) + (if e.addr == a then [e.id] else [])
  {
    assert (s + [e])[..|s|] == s;
  }
}
