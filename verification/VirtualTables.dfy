/**
 Filling in a class: its virtual methods are given their slots, other classes are filled in for its fields, and the table of
 the parent is copied and overwritten.
 */
module VirtualTables {
  import opened Options
  import opened MethodSignatures
  import opened VirtualMethods
  import opened FillOrder

  const NO_SLOT := 0xffff_ffff

  class TypeDef {
    const parent: TypeDef?
    const methods: seq<MethodDef>
    var isFilled: bool
    var numVirtualMethods: nat
    var vTable: array?<MethodDef?> // null until the fields have been filled in
    ghost const h: Hierarchy
    ghost var footprint: set<object> // what this class and those it is derived from consist of

    constructor (parent: TypeDef?, methods: seq<MethodDef>)
      ensures this.parent == parent && this.methods == methods && !isFilled && vTable == null && footprint == {} && Linked()
    {
      this.parent, this.methods := parent, methods;
      isFilled, numVirtualMethods, vTable := false, 0, null;
      h := Derived(if parent == null then NoClass else parent.h, methods);
      footprint := {};
    }

    ghost predicate Linked() {
      h == Derived(if parent == null then NoClass else parent.h, methods)
    }

    // The slot s of the table holds what runs in it, and that method knows its slot.
    ghost predicate Filled()
      reads this, footprint
      decreases h
    {
      && this in footprint && vTable != null && vTable in footprint && Linked()
      && (forall m <- methods :: m in footprint)
      && (parent != null ==> (
            && parent in footprint && parent.footprint <= footprint && this !in parent.footprint && vTable !in parent.footprint
            && parent.Filled()))
      && numVirtualMethods == vTable.Length == |Slots(h)|
      && forall s :: 0 <= s < vTable.Length ==>
           var m := vTable[s];
           m != null && m in footprint && m == Runs(h, s) && m.vTableOfs == s
    }

    // The table of the class, searched from its end.
    method SearchTable(key: Key) returns (r: MethodDef?)
      requires Filled()
      ensures r == null <==> Last(Slots(h), key).None?
      ensures r != null ==> r.vTableOfs == Last(Slots(h), key).value
    {
      var i := numVirtualMethods;
      while i > 0
        invariant 0 <= i <= numVirtualMethods && Filled()
        invariant forall s :: i <= s < |Slots(h)| ==> Slots(h)[s].key != key
      {
        i := i - 1;
        RunsKey(h, i);
        if vTable[i].key == key {
          return vTable[i];
        }
      }
      r := null;
    }

    // FindVirtualOverriddenMethod, without the explicit overrides: when the table of the class has no such method, those
    // of the classes it is derived from are searched too, where nothing more can be found.
    static method FindOverridden(start: TypeDef, key: Key) returns (r: MethodDef?)
      requires start.Filled()
      ensures r == null <==> Last(Slots(start.h), key).None?
      ensures r != null ==> r.vTableOfs == Last(Slots(start.h), key).value
    {
      var t: TypeDef := start;
      while true
        invariant t.Filled() && Slots(t.h) <= Slots(start.h)
        invariant t == start || Last(Slots(start.h), key).None?
        decreases t.h
      {
        r := t.SearchTable(key);
        if r != null || t.parent == null {
          return;
        }
        t := t.parent;
      }
    }
  
    // The slots that the first n methods have been given.
    ghost predicate Given(inherited: seq<MethodDef>, n: nat)
      requires n <= |methods|
      reads methods
    {
      forall k :: 0 <= k < n ==>
        methods[k].vTableOfs == if methods[k].isVirtual then Slot(inherited, methods, k) else NO_SLOT
    }

    // All methods have their slots, and they have been counted.
    ghost predicate Slotted()
      reads this, methods
    {
      Linked() && Given(Slots(h.parent), |methods|) && numVirtualMethods == |Slots(h)|
    }

    // The parent has its table.
    ghost predicate ParentFilled()
      reads if parent == null then {} else {parent} + parent.footprint
    {
      parent != null ==> parent.Filled() && this !in parent.footprint
    }

    // The first part of MetaData_Fill_TypeDef_: each virtual method opens a slot or takes that of the method it overrides.
    method AssignSlots()
      requires ParentFilled() && Linked() && (parent != null ==> parent.footprint !! set m <- methods)
      requires forall j, k :: 0 <= j < k < |methods| ==> methods[j] != methods[k]
      modifies this`numVirtualMethods, methods
      ensures Slotted()
    {
      ghost var inherited := Slots(h.parent);
      var virtualOfs := if parent == null then 0 else parent.numVirtualMethods;
      for i := 0 to |methods|
        invariant ParentFilled()
        invariant virtualOfs == |inherited| + |Openers(inherited, methods, i)|
        invariant Given(inherited, i)
      {
        var m := methods[i];
        if m.isVirtual {
          if m.isNewSlot || parent == null {
            m.vTableOfs := virtualOfs;
            virtualOfs := virtualOfs + 1;
          } else {
            var overridden := FindOverridden(parent, m.key);
            if overridden != null {
              m.vTableOfs := overridden.vTableOfs;
            } else {
              m.vTableOfs := virtualOfs;
              virtualOfs := virtualOfs + 1;
            }
          }
        } else {
          m.vTableOfs := NO_SLOT;
        }
      }
      numVirtualMethods := virtualOfs;
    }

    // What the table holds when the first n methods have been entered.
    ghost predicate HoldsAt(table: seq<MethodDef?>, n: nat, s: nat)
      requires n <= |methods| && s < |table| && h.Derived?
    {
      match Owner(Slots(h.parent), methods, n, s)
      case Some(k) => table[s] == methods[k]
      case None => s < |Slots(h.parent)| ==> table[s] == Runs(h.parent, s)
    }

    ghost predicate AllHold(table: seq<MethodDef?>, n: nat)
      requires n <= |methods| && h.Derived?
    {
      forall s :: 0 <= s < |table| ==> HoldsAt(table, n, s)
    }

    lemma OneMoreEntered(before: seq<MethodDef?>, after: seq<MethodDef?>, k: nat)
      requires k < |methods| && h.Derived? && AllHold(before, k)
      requires if methods[k].isVirtual
               then Slot(Slots(h.parent), methods, k) < |before| && after == before[Slot(Slots(h.parent), methods, k) := methods[k]]
               else after == before
      ensures AllHold(after, k + 1)
    {
      var n := k + 1;
      forall s | 0 <= s < |after| ensures HoldsAt(after, n, s) {
        assert HoldsAt(before, k, s);
      }
    }

    // A new table, as that of the parent as far as it goes.
    method CopyTable(size: nat) returns (table: array<MethodDef?>)
      requires ParentFilled() && Linked() && size == |Slots(h)|
      ensures table.Length == size && fresh(table)
      ensures forall s :: 0 <= s < size && s < |Slots(h.parent)| ==> table[s] == Runs(h.parent, s)
    {
      table := new MethodDef?[size];
      if parent != null {
        for s := 0 to parent.numVirtualMethods
          invariant parent.Filled() && fresh(table) && table.Length == size
          invariant forall j :: 0 <= j < s ==> table[j] == Runs(h.parent, j)
        {
          table[s] := parent.vTable[s];
        }
      }
    }

    // The methods of the class are entered.
    method EnterMethods(table: array<MethodDef?>)
      requires Slotted() && table.Length == |Slots(h)|
      requires forall s :: 0 <= s < table.Length && s < |Slots(h.parent)| ==> table[s] == Runs(h.parent, s)
      modifies table
      ensures forall s :: 0 <= s < table.Length ==> table[s] == Runs(h, s)
    {
      for k := 0 to |methods|
        invariant AllHold(table[..], k)
      {
        ghost var before := table[..];
        if methods[k].isVirtual {
          SlotKey(Slots(h.parent), methods, k);
          table[methods[k].vTableOfs] := methods[k];
        }
        OneMoreEntered(before, table[..], k);
      }
      forall s | 0 <= s < table.Length ensures table[s] == Runs(h, s) {
        NewSlotsAreOwned(Slots(h.parent), methods, |methods|, s);
        assert HoldsAt(table[..], |methods|, s);
      }
    }

    // The methods in the table know their slots.
    lemma EnteredMethodsKnowTheirSlots(s: nat)
      requires ParentFilled() && Slotted() && s < |Slots(h)|
      ensures Runs(h, s).vTableOfs == s && (Runs(h, s) in methods || (parent != null && Runs(h, s) in parent.footprint))
    {
      NewSlotsAreOwned(Slots(h.parent), methods, |methods|, s);
      if Owner(Slots(h.parent), methods, |methods|, s).None? {
        assert parent.vTable[s].vTableOfs == s;
      }
    }

    // The second part: the table of the parent is copied and the methods are entered.
    method FillTable()
      requires ParentFilled() && Slotted()
      modifies this`vTable, this`footprint
      ensures Filled() && fresh(vTable)
      ensures footprint == {this, vTable} + (set m <- methods) + if parent == null then {} else parent.footprint
    {
      var table := CopyTable(numVirtualMethods);
      EnterMethods(table);
      forall s | 0 <= s < table.Length
        ensures Runs(h, s).vTableOfs == s && (Runs(h, s) in methods || (parent != null && Runs(h, s) in parent.footprint))
      {
        EnteredMethodsKnowTheirSlots(s);
      }
      vTable := table;
      footprint := {this, table} + (set m <- methods) + if parent == null then {} else parent.footprint;
    }
  }

  // The classes, and which of them filling in each one fills in.
  class MetaData {
    const types: seq<TypeDef>
    const world: World

    constructor (types: seq<TypeDef>, world: World)
      ensures this.types == types && this.world == world
    {
      this.types, this.world := types, world;
    }

    // ---------------------------------------------------------------- what stays as it is

    ghost predicate LinkedAt(c: nat)
      requires c < |types| == |world|
    {
      && types[c].Linked()
      && (forall j, k :: 0 <= j < k < |types[c].methods| ==> types[c].methods[j] != types[c].methods[k])
      && (types[c].parent == null <==> world[c].parent.None?)
      && (world[c].parent.Some? ==> world[c].parent.value < |types| && types[c].parent == types[world[c].parent.value])
    }

    // No method belongs to two classes.
    ghost predicate Separate(c: nat, d: nat)
      requires c < |types| && d < |types|
    {
      c != d ==> types[c] != types[d] && forall m <- types[c].methods :: m !in types[d].methods
    }

    ghost predicate Linked() {
      && |types| == |world| && (forall c :: 0 <= c < |types| ==> LinkedAt(c))
      && forall c, d :: 0 <= c < |types| && 0 <= d < |types| ==> Separate(c, d)
    }

    ghost function Methods(): (all: set<MethodDef>)
      ensures forall c :: 0 <= c < |types| ==> forall m <- types[c].methods :: m in all
    {
      set t, m | t in types && m in t.methods :: m
    }

    // ---------------------------------------------------------------- what has been done

    // The class is flagged, and has its table, when the state says so.
    ghost predicate StandsAt(s: State, c: nat)
      requires c < |types|
      reads types[c], types[c].footprint
    {
      && (c in s.filled <==> types[c].isFilled)
      && (c in s.tabled <==> types[c].vTable != null)
      && if c in s.tabled then types[c].Filled() else types[c].footprint == {}
    }

    // What has its table does not share anything with what has none.
    ghost predicate Apart(s: State, c: nat, d: nat)
      requires c < |types| && d < |types|
      reads types[c]
    {
      c in s.tabled && d !in s.tabled ==>
        types[d] !in types[c].footprint && forall m <- types[d].methods :: m !in types[c].footprint
    }

    ghost function Footprints(): set<object>
      reads types
    {
      set t, o | t in types && o in t.footprint :: o
    }

    // The classes in slotted have given their methods slots.
    ghost predicate Ready(s: State, slotted: set<nat>)
      reads types, Footprints(), Methods()
    {
      && Linked() && ValidState(s, |types|)
      && (forall c :: 0 <= c < |types| ==> StandsAt(s, c))
      && (forall c, d :: 0 <= c < |types| && 0 <= d < |types| ==> Apart(s, c, d))
      && (forall c <- slotted :: c in s.filled && types[c].Slotted())
    }

    // Before anything is filled in.
    lemma NothingIsReady()
      requires Linked() && forall t <- types :: !t.isFilled && t.vTable == null && t.footprint == {}
      ensures Ready(NOTHING, {})
    {
      forall c | 0 <= c < |types| ensures StandsAt(NOTHING, c) {
        assert types[c] in types;
      }
    }

    // ---------------------------------------------------------------- the steps

    // A class without a table is of no concern to the others.
    lemma Unshared(c: nat, d: nat, s: State, slotted: set<nat>)
      requires Ready(s, slotted) && c < |types| && d < |types| && c != d && c !in s.tabled
      ensures types[c] != types[d] && types[c] !in types[d].footprint
      ensures forall m <- types[c].methods :: m !in types[d].footprint
      ensures forall m <- types[d].methods :: m !in types[c].methods
    {
      assert Separate(d, c) && Apart(s, d, c) && StandsAt(s, d);
    }

    lemma ParentStands(c: nat, s: State, slotted: set<nat>)
      requires Ready(s, slotted) && c in Begun(s)
      requires world[c].parent.Some? ==> world[c].parent.value in s.tabled
      ensures types[c].ParentFilled()
      ensures types[c].parent != null ==> types[c].parent.footprint !! set m <- types[c].methods
    {
      assert LinkedAt(c);
      if world[c].parent.Some? {
        var p := world[c].parent.value;
        Unshared(c, p, s, slotted);
        assert StandsAt(s, p);
      }
    }

    // Nor is a class without one of any concern to the parent of another.
    lemma UnsharedWithParent(c: nat, s: State, slotted: set<nat>)
      requires Ready(s, slotted) && c in Begun(s)
      requires world[c].parent.Some? && world[c].parent.value in s.tabled
      ensures types[c].parent != null
      ensures forall d :: 0 <= d < |types| && d !in s.tabled ==>
        types[d] !in types[c].parent.footprint && forall m <- types[d].methods :: m !in types[c].parent.footprint
    {
      assert LinkedAt(c);
      forall d | 0 <= d < |types| && d !in s.tabled
        ensures types[d] !in types[c].parent.footprint && forall m <- types[d].methods :: m !in types[c].parent.footprint
      {
        assert Apart(s, world[c].parent.value, d);
      }
    }

    // Once it has its table, what it consists of is apart from what has none.
    lemma ApartNow(c: nat, d: nat, s: State)
      requires Linked() && c < |types| && d < |types| && c != d && types[c].vTable != null
      requires types[c].footprint <= {types[c], types[c].vTable} + (set m <- types[c].methods) +
                                     if types[c].parent == null then {} else types[c].parent.footprint
      requires types[c].parent != null ==>
        types[d] !in types[c].parent.footprint && forall m <- types[d].methods :: m !in types[c].parent.footprint
      ensures Apart(s, c, d)
    {
      assert Separate(d, c);
    }

    method Begin(t: TypeDef, ghost c: nat, ghost s: State, ghost slotted: set<nat>)
      requires Ready(s, slotted) && c < |types| && t == types[c] && c !in s.filled
      modifies t`isFilled
      ensures Ready(Flagged(s, c), slotted)
    {
      forall d | 0 <= d < |types| && d != c ensures types[d] != t && t !in types[d].footprint {
        Unshared(c, d, s, slotted);
      }
      t.isFilled := true;
      forall d | 0 <= d < |types| ensures StandsAt(Flagged(s, c), d) {
        assert old(StandsAt(s, d));
      }
      forall d, e | 0 <= d < |types| && 0 <= e < |types| ensures Apart(Flagged(s, c), d, e) {
        assert old(Apart(s, d, e));
      }
    }

    method GiveSlots(t: TypeDef, ghost c: nat, ghost s: State, ghost slotted: set<nat>)
      requires Ready(s, slotted) && c in Begun(s) && t == types[c]
      requires world[c].parent.Some? ==> world[c].parent.value in s.tabled
      modifies t`numVirtualMethods, t.methods
      ensures Ready(s, slotted + {c})
    {
      forall d | 0 <= d < |types| && d != c
        ensures types[d] != t && t !in types[d].footprint
        ensures forall m <- t.methods :: m !in types[d].footprint
        ensures forall m <- types[d].methods :: m !in t.methods
      {
        Unshared(c, d, s, slotted);
      }
      ParentStands(c, s, slotted);
      assert LinkedAt(c);
      t.AssignSlots();
      forall d | 0 <= d < |types| ensures StandsAt(s, d) {
        assert old(StandsAt(s, d));
      }
      forall d, e | 0 <= d < |types| && 0 <= e < |types| ensures Apart(s, d, e) {
        assert old(Apart(s, d, e));
      }
      forall d | d in slotted && d != c ensures types[d].Slotted() {
        assert old(types[d].Slotted());
        forall m | m in types[d].methods ensures m.vTableOfs == old(m.vTableOfs) {
        }
      }
    }

    method MakeTable(t: TypeDef, ghost c: nat, ghost s: State, ghost slotted: set<nat>)
      requires Ready(s, slotted) && c in Begun(s) && t == types[c] && c in slotted
      requires world[c].parent.Some? ==> world[c].parent.value in s.tabled
      modifies t`vTable, t`footprint
      ensures Ready(Tabled(s, c), slotted)
    {
      forall d | 0 <= d < |types| && d != c ensures types[d] != t && t !in types[d].footprint {
        Unshared(c, d, s, slotted);
      }
      ParentStands(c, s, slotted);
      assert LinkedAt(c);
      if world[c].parent.Some? {
        UnsharedWithParent(c, s, slotted);
      }
      t.FillTable();
      forall d | 0 <= d < |types| ensures StandsAt(Tabled(s, c), d) {
        assert old(StandsAt(s, d));
      }
      forall d, e | 0 <= d < |types| && 0 <= e < |types| ensures Apart(Tabled(s, c), d, e) {
        assert old(Apart(s, d, e));
        if d == c && e !in Tabled(s, c).tabled {
          ApartNow(c, e, Tabled(s, c));
        }
      }
      forall d | d in slotted ensures types[d].Slotted() {
        assert old(types[d].Slotted());
      }
    }

    // MetaData_Fill_TypeDef, as far as virtual methods go. It fails when a class does not find the table of its parent.
    method FillTypeDef(c: nat, ghost s: State, ghost slotted: set<nat>) returns (ok: bool)
      requires Ready(s, slotted) && c < |types|
      modifies types, Methods()
      ensures ok <==> Fill(world, s, c).Done?
      ensures ok ==> Ready(Fill(world, s, c).state, slotted)
      decreases Left(|types|, s), 0
    {
      assert StandsAt(s, c);
      if types[c].isFilled {
        return true;
      }
      FewerLeft(|types|, s, Flagged(s, c));
      Begin(types[c], c, s, slotted);
      ok := FillTypeDefs(world[c].ahead, Flagged(s, c), slotted);
      if !ok {
        return;
      }
      ghost var s1 := FillAll(world, Flagged(s, c), world[c].ahead).state;
      ParentSeen(c, s1, slotted);
      if types[c].parent != null && types[c].parent.vTable == null {
        return false;
      }
      FewerLeft(|types|, Flagged(s, c), s1);
      ok := FillMembers(c, s, s1, slotted);
    }

    lemma ParentSeen(c: nat, s: State, slotted: set<nat>)
      requires Ready(s, slotted) && c < |types|
      ensures types[c].parent != null && types[c].parent.vTable == null <==>
              world[c].parent.Some? && world[c].parent.value !in s.tabled
    {
      assert LinkedAt(c);
      if world[c].parent.Some? {
        assert StandsAt(s, world[c].parent.value);
      }
    }

    // From where the parent has been found.
    method FillMembers(c: nat, ghost s: State, ghost s1: State, ghost slotted: set<nat>) returns (ok: bool)
      requires c < |types| && Ready(s1, slotted) && ValidState(s, |types|) && c !in s.filled
      requires FillAll(world, Flagged(s, c), world[c].ahead) == Done(s1)
      requires world[c].parent.Some? ==> world[c].parent.value in s1.tabled
      modifies types, Methods()
      ensures ok <==> Fill(world, s, c).Done?
      ensures ok ==> Ready(Fill(world, s, c).state, slotted)
      decreases Left(|types|, s1), |world[c].fields| + |world[c].behind| + 2
    {
      FillUnfolds(world, s, c, s1);
      GiveSlots(types[c], c, s1, slotted);
      ok := FillTypeDefs(world[c].fields, s1, slotted + {c});
      if !ok {
        return;
      }
      ghost var s2 := FillAll(world, s1, world[c].fields).state;
      FewerLeft(|types|, s1, Tabled(s2, c));
      MakeTable(types[c], c, s2, slotted + {c});
      ok := FillBehind(c, s2, slotted);
    }

    method FillBehind(c: nat, ghost s: State, ghost slotted: set<nat>) returns (ok: bool)
      requires c < |types| && c in s.filled && Ready(Tabled(s, c), slotted + {c})
      modifies types, Methods()
      ensures ok <==> FillAll(world, Tabled(s, c), world[c].behind).Done?
      ensures ok ==> Ready(FillAll(world, Tabled(s, c), world[c].behind).state, slotted)
      decreases Left(|types|, Tabled(s, c)), |world[c].behind| + 1
    {
      ok := FillTypeDefs(world[c].behind, Tabled(s, c), slotted);
    }

    // One after the other.
    method FillTypeDefs(cs: seq<nat>, ghost s: State, ghost slotted: set<nat>) returns (ok: bool)
      requires Ready(s, slotted) && AllBelow(cs, |types|)
      modifies types, Methods()
      ensures ok <==> FillAll(world, s, cs).Done?
      ensures ok ==> Ready(FillAll(world, s, cs).state, slotted)
      decreases Left(|types|, s), |cs|
    {
      ghost var t := s;
      for i := 0 to |cs|
        invariant Ready(t, slotted) && s.filled <= t.filled
        invariant FillAll(world, t, cs[i..]) == FillAll(world, s, cs)
      {
        FewerLeft(|types|, s, t);
        ok := FillTypeDef(cs[i], t, slotted);
        if !ok {
          return;
        }
        t := Fill(world, t, cs[i]).state;
      }
      ok := true;
    }
  }

  // A run of the program, as far as it fills in classes. If no class leads to one derived from it, all of them get their
  // tables, in whatever order.
  method FillInOrder(metaData: MetaData, cs: seq<nat>) returns (ok: bool)
    requires metaData.Ready(NOTHING, {}) && AllBelow(cs, |metaData.types|)
    modifies metaData.types, metaData.Methods()
    ensures Sheltered(metaData.world) ==> ok
    ensures ok ==> forall c <- cs :: metaData.types[c].Filled()
  {
    ok := metaData.FillTypeDefs(cs, NOTHING, {});
    if Sheltered(metaData.world) {
      ShelteredAreFilled(metaData.world, NOTHING, cs);
    }
    if ok {
      ghost var t := FillAll(metaData.world, NOTHING, cs).state;
      forall c | c in cs ensures metaData.types[c].Filled() {
        assert c !in Begun(NOTHING) && c !in Begun(t);
        assert metaData.StandsAt(t, c);
      }
    }
  }

  lemma OwnIsUnique(methods: seq<MethodDef>, n: nat, k: nat)
    requires DistinctKeys(methods) && k < n <= |methods| && methods[k].isVirtual
    ensures Own(methods, n, methods[k].key) == Some(k)
  {
  }

  // A virtual call: the table of the object's class is indexed by the slot of the method that the call names, which is
  // a method of that class or of one it is derived from.
  method CallVirtual(thisType: TypeDef, ghost declaredIn: TypeDef, callMethod: MethodDef) returns (r: MethodDef)
    requires thisType.Filled() && declaredIn.Filled() && Proper(thisType.h) && Proper(declaredIn.h)
    requires Depth(declaredIn.h) <= Depth(thisType.h) && declaredIn.h == Ancestor(thisType.h, Depth(declaredIn.h))
    requires callMethod in declaredIn.methods && callMethod.isVirtual
    ensures OwnOf(declaredIn.h, callMethod.key).Some?
    ensures r == MostDerived(thisType.h, Depth(declaredIn.h), callMethod.key)
  {
    ghost var c := declaredIn.h;
    ghost var k :| 0 <= k < |c.methods| && c.methods[k] == callMethod;
    OwnIsUnique(c.methods, |c.methods|, k);
    RunsOwn(c, k);
    assert declaredIn.vTable[Slot(Slots(c.parent), c.methods, k)] == callMethod;
    DispatchFollowsTheChain(thisType.h, Depth(c), callMethod.key);
    r := thisType.vTable[callMethod.vTableOfs];
  }
}
