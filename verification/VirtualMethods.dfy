/**
 Virtual methods: the slots that the methods of a class are given, and what a call through a slot runs. Single
 inheritance, no explicit overrides.
 */
module VirtualMethods {
  import opened Options
  import opened MethodSignatures

  class MethodDef {
    const key: Key // by which it is compared with others
    const isVirtual: bool
    const isNewSlot: bool
    var vTableOfs: nat

    constructor (key: Key, isVirtual: bool, isNewSlot: bool)
      ensures this.key == key && this.isVirtual == isVirtual && this.isNewSlot == isNewSlot
    {
      this.key, this.isVirtual, this.isNewSlot := key, isVirtual, isNewSlot;
    }
  }

  // A class and those it is derived from, each with its own methods.
  datatype Hierarchy = NoClass | Derived(parent: Hierarchy, methods: seq<MethodDef>)

  // ---------------------------------------------------------------- slots

  // The last of the first n with that key, if any.
  function LastWith(table: seq<MethodDef>, n: nat, key: Key): (r: Option<nat>)
    requires n <= |table|
    ensures r.Some? ==> r.value < n && table[r.value].key == key && forall i :: r.value < i < n ==> table[i].key != key
    ensures r.None? ==> forall i :: 0 <= i < n ==> table[i].key != key
  {
    if n == 0 then None
    else if table[n - 1].key == key then Some(n - 1)
    else LastWith(table, n - 1, key)
  }

  function Last(table: seq<MethodDef>, key: Key): Option<nat> {
    LastWith(table, |table|, key)
  }

  // A virtual method opens a slot of its own, unless it finds one to override in what it inherits.
  predicate Opens(inherited: seq<MethodDef>, m: MethodDef) {
    m.isVirtual && (m.isNewSlot || Last(inherited, m.key).None?)
  }

  // Those of the first n methods that open slots.
  function Openers(inherited: seq<MethodDef>, methods: seq<MethodDef>, n: nat): seq<MethodDef>
    requires n <= |methods|
  {
    if n == 0 then []
    else Openers(inherited, methods, n - 1) + if Opens(inherited, methods[n - 1]) then [methods[n - 1]] else []
  }

  // The methods that opened the slots of a class, in the order of the slots.
  function Slots(h: Hierarchy): seq<MethodDef> {
    if h.NoClass? then [] else Slots(h.parent) + Openers(Slots(h.parent), h.methods, |h.methods|)
  }

  // The slot that a virtual method is given.
  function Slot(inherited: seq<MethodDef>, methods: seq<MethodDef>, k: nat): nat
    requires k < |methods| && methods[k].isVirtual
  {
    if Opens(inherited, methods[k]) then |inherited| + |Openers(inherited, methods, k)|
    else Last(inherited, methods[k].key).value
  }

  // Which of the first n methods enters the slot, the last if there are several.
  function Owner(inherited: seq<MethodDef>, methods: seq<MethodDef>, n: nat, s: nat): (r: Option<nat>)
    requires n <= |methods|
    ensures r.Some? ==> r.value < n && methods[r.value].isVirtual && Slot(inherited, methods, r.value) == s
    ensures r.None? ==> forall k :: 0 <= k < n && methods[k].isVirtual ==> Slot(inherited, methods, k) != s
  {
    if n == 0 then None
    else if methods[n - 1].isVirtual && Slot(inherited, methods, n - 1) == s then Some(n - 1)
    else Owner(inherited, methods, n - 1, s)
  }

  // Every slot that a class adds is entered by one of its methods.
  lemma {:induction false} NewSlotsAreOwned(inherited: seq<MethodDef>, methods: seq<MethodDef>, n: nat, s: nat)
    requires n <= |methods| && s < |inherited| + |Openers(inherited, methods, n)|
    ensures |inherited| <= s ==> Owner(inherited, methods, n, s).Some?
    decreases n
  {
    if n > 0 && s < |inherited| + |Openers(inherited, methods, n - 1)| {
      NewSlotsAreOwned(inherited, methods, n - 1, s);
    }
  }

  // What a call through the slot runs: the method of the most derived class that entered it.
  function Runs(h: Hierarchy, s: nat): MethodDef
    requires s < |Slots(h)|
  {
    var inherited := Slots(h.parent);
    NewSlotsAreOwned(inherited, h.methods, |h.methods|, s);
    match Owner(inherited, h.methods, |h.methods|, s)
    case Some(k) => h.methods[k]
    case None => Runs(h.parent, s)
  }

  // ---------------------------------------------------------------- what slots keep

  // No two virtual methods of one class have the same key.
  ghost predicate DistinctKeys(methods: seq<MethodDef>) {
    forall j, k :: 0 <= j < k < |methods| && methods[j].isVirtual && methods[k].isVirtual ==> methods[j].key != methods[k].key
  }

  ghost predicate Proper(h: Hierarchy) {
    h.Derived? ==> DistinctKeys(h.methods) && Proper(h.parent)
  }

  lemma {:induction false} OpenersGrow(inherited: seq<MethodDef>, methods: seq<MethodDef>, n: nat, m: nat)
    requires n <= m <= |methods|
    ensures Openers(inherited, methods, n) <= Openers(inherited, methods, m)
    decreases m
  {
    if n < m {
      OpenersGrow(inherited, methods, n, m - 1);
    }
  }

  // The slot of a method is there, and the method that opened it has the same key.
  lemma SlotKey(inherited: seq<MethodDef>, methods: seq<MethodDef>, k: nat)
    requires k < |methods| && methods[k].isVirtual
    ensures
      var all, s := inherited + Openers(inherited, methods, |methods|), Slot(inherited, methods, k);
      s < |all| && all[s].key == methods[k].key && (Opens(inherited, methods[k]) <==> s >= |inherited|)
  {
    if Opens(inherited, methods[k]) {
      OpenersGrow(inherited, methods, k + 1, |methods|);
      assert Openers(inherited, methods, k + 1)[|Openers(inherited, methods, k)|] == methods[k];
    }
  }

  // A slot keeps the name and signature it was opened with.
  lemma {:induction false} RunsKey(h: Hierarchy, s: nat)
    requires s < |Slots(h)|
    ensures Runs(h, s).key == Slots(h)[s].key
    decreases h
  {
    var inherited := Slots(h.parent);
    NewSlotsAreOwned(inherited, h.methods, |h.methods|, s);
    match Owner(inherited, h.methods, |h.methods|, s)
    case Some(k) => SlotKey(inherited, h.methods, k);
    case None => RunsKey(h.parent, s);
  }

  // The methods of a class enter slots of their own.
  lemma SlotsDiffer(inherited: seq<MethodDef>, methods: seq<MethodDef>, j: nat, k: nat)
    requires DistinctKeys(methods) && j < |methods| && k < |methods| && j != k && methods[j].isVirtual && methods[k].isVirtual
    ensures Slot(inherited, methods, j) != Slot(inherited, methods, k)
  {
    SlotKey(inherited, methods, j);
    SlotKey(inherited, methods, k);
  }

  lemma RunsOwn(h: Hierarchy, k: nat)
    requires h.Derived? && DistinctKeys(h.methods) && k < |h.methods| && h.methods[k].isVirtual
    ensures
      var s := Slot(Slots(h.parent), h.methods, k);
      s < |Slots(h)| && Runs(h, s) == h.methods[k]
  {
    var inherited := Slots(h.parent);
    SlotKey(inherited, h.methods, k);
    var s := Slot(inherited, h.methods, k);
    var owner := Owner(inherited, h.methods, |h.methods|, s);
    if owner.Some? && owner.value != k {
      SlotsDiffer(inherited, h.methods, owner.value, k);
    }
  }

  // ---------------------------------------------------------------- dispatch

  function Depth(h: Hierarchy): nat {
    if h.NoClass? then 0 else 1 + Depth(h.parent)
  }

  // The class of a hierarchy at a depth.
  function Ancestor(h: Hierarchy, depth: nat): Hierarchy
    requires 0 < depth <= Depth(h)
    ensures Ancestor(h, depth).Derived? && Depth(Ancestor(h, depth)) == depth
  {
    if Depth(h) == depth then h else Ancestor(h.parent, depth)
  }

  // The virtual method with that key that a class has itself.
  function Own(methods: seq<MethodDef>, n: nat, key: Key): (r: Option<nat>)
    requires n <= |methods|
    ensures r.Some? ==> r.value < n && methods[r.value].isVirtual && methods[r.value].key == key
    ensures r.None? ==> forall k :: 0 <= k < n && methods[k].isVirtual ==> methods[k].key != key
  {
    if n == 0 then None
    else if methods[n - 1].isVirtual && methods[n - 1].key == key then Some(n - 1)
    else Own(methods, n - 1, key)
  }

  function OwnOf(h: Hierarchy, key: Key): Option<nat>
    requires h.Derived?
  {
    Own(h.methods, |h.methods|, key)
  }

  // No class below that depth starts the method anew.
  predicate Unbroken(h: Hierarchy, depth: nat, key: Key)
    requires 0 < depth <= Depth(h)
  {
    Depth(h) == depth ||
    (Unbroken(h.parent, depth, key) && !(OwnOf(h, key).Some? && h.methods[OwnOf(h, key).value].isNewSlot))
  }

  // The most derived override in the unbroken chain of overrides that begins at that depth. Slots play no part.
  function MostDerived(h: Hierarchy, depth: nat, key: Key): MethodDef
    requires 0 < depth <= Depth(h) && OwnOf(Ancestor(h, depth), key).Some?
  {
    if OwnOf(h, key).Some? && Unbroken(h, depth, key) then h.methods[OwnOf(h, key).value]
    else MostDerived(h.parent, depth, key)
  }

  // A slot that a class adds was opened by the class's own method of that key.
  lemma AddedSlot(h: Hierarchy, s: nat)
    requires h.Derived? && DistinctKeys(h.methods) && |Slots(h.parent)| <= s < |Slots(h)|
    ensures
      var own := OwnOf(h, Slots(h)[s].key);
      own.Some? && Opens(Slots(h.parent), h.methods[own.value]) && Slot(Slots(h.parent), h.methods, own.value) == s
  {
    var inherited := Slots(h.parent);
    NewSlotsAreOwned(inherited, h.methods, |h.methods|, s);
    var k := Owner(inherited, h.methods, |h.methods|, s).value;
    SlotKey(inherited, h.methods, k);
  }

  // The last slot of a key is that of the class's own method if it opens one, and the inherited one otherwise.
  lemma LastSlot(h: Hierarchy, key: Key)
    requires h.Derived? && DistinctKeys(h.methods)
    ensures
      var inherited, own := Slots(h.parent), OwnOf(h, key);
      Last(Slots(h), key) ==
        if own.Some? && Opens(inherited, h.methods[own.value]) then Some(Slot(inherited, h.methods, own.value)) else Last(inherited, key)
  {
    var inherited, own := Slots(h.parent), OwnOf(h, key);
    forall s | |inherited| <= s < |Slots(h)| && Slots(h)[s].key == key
      ensures own.Some? && Opens(inherited, h.methods[own.value]) && Slot(inherited, h.methods, own.value) == s
    {
      AddedSlot(h, s);
    }
    if own.Some? {
      SlotKey(inherited, h.methods, own.value);
    }
    assert forall i :: 0 <= i < |inherited| ==> Slots(h)[i] == inherited[i];
  }

  // The slot that the class at that depth gives its own method of that key.
  function SlotOf(h: Hierarchy, depth: nat, key: Key): nat
    requires 0 < depth <= Depth(h) && OwnOf(Ancestor(h, depth), key).Some?
  {
    var c := Ancestor(h, depth);
    Slot(Slots(c.parent), c.methods, OwnOf(c, key).value)
  }

  // A virtual call through a method of a base class runs the most derived override in the unbroken chain of overrides.
  // As long as the chain is unbroken, the method's slot is the one that the next override will find.
  lemma {:induction false} DispatchFollowsTheChain(h: Hierarchy, depth: nat, key: Key)
    requires Proper(h) && 0 < depth <= Depth(h) && OwnOf(Ancestor(h, depth), key).Some?
    ensures
      var s := SlotOf(h, depth, key);
      && s < |Slots(h)| && Runs(h, s) == MostDerived(h, depth, key)
      && Last(Slots(h), key).Some? && (Last(Slots(h), key).value == s <==> Unbroken(h, depth, key))
    decreases h
  {
    LastSlot(h, key);
    if Depth(h) == depth {
      RunsOwn(h, OwnOf(h, key).value);
    } else {
      DispatchFollowsTheChain(h.parent, depth, key);
      DispatchBelow(h, depth, key);
    }
  }

  lemma DispatchBelow(h: Hierarchy, depth: nat, key: Key)
    requires Proper(h) && 0 < depth < Depth(h) && OwnOf(Ancestor(h, depth), key).Some?
    requires
      var s := SlotOf(h.parent, depth, key);
      && s < |Slots(h.parent)| && Runs(h.parent, s) == MostDerived(h.parent, depth, key)
      && Last(Slots(h.parent), key).Some? && (Last(Slots(h.parent), key).value == s <==> Unbroken(h.parent, depth, key))
    ensures
      var s := SlotOf(h, depth, key);
      && s < |Slots(h)| && Runs(h, s) == MostDerived(h, depth, key)
      && Last(Slots(h), key).Some? && (Last(Slots(h), key).value == s <==> Unbroken(h, depth, key))
  {
    var inherited, s, own := Slots(h.parent), SlotOf(h.parent, depth, key), OwnOf(h, key);
    LastSlot(h, key);
    KeyOfSlot(h.parent, depth, key);
    if own.Some? {
      SlotKey(inherited, h.methods, own.value);
      RunsOwn(h, own.value);
    }
    var owner := Owner(inherited, h.methods, |h.methods|, s);
    if owner.Some? {
      SlotKey(inherited, h.methods, owner.value);
    }
  }

  lemma {:induction false} KeyOfSlot(h: Hierarchy, depth: nat, key: Key)
    requires 0 < depth <= Depth(h) && OwnOf(Ancestor(h, depth), key).Some?
    ensures SlotOf(h, depth, key) < |Slots(h)| && Slots(h)[SlotOf(h, depth, key)].key == key
    decreases h
  {
    if Depth(h) == depth {
      SlotKey(Slots(h.parent), h.methods, OwnOf(h, key).value);
    } else {
      KeyOfSlot(h.parent, depth, key);
    }
  }
}
