/**
 The table of types: array types and generic instances are built once and found again by their element type
 or their type arguments, so that a type is known by its address. Building a type asks for further types,
 after the new one has been published.
 */
module TypeTable {
  import opened Options

  // A type is given by its index in the table, and a null pointer by None.
  type TypeId = Option<nat>

  // What a table entry is: a type of the metadata, an array or an instance of a generic type.
  datatype Def = CoreDef | ArrayDef(element: nat) | InstanceDef(core: nat, args: seq<TypeId>)

  datatype ArrayEntry = ArrayEntry(element: nat, id: nat)
  datatype InstanceEntry = InstanceEntry(args: seq<TypeId>, id: nat)

  predicate Known(n: nat, id: TypeId) {
    id.Some? ==> id.value < n
  }

  // Types are made of types already there.
  predicate MadeOf(d: Def, n: nat) {
    match d
    case CoreDef => true
    case ArrayDef(element) => element < n
    case InstanceDef(core, args) => core < n && forall i :: 0 <= i < |args| ==> Known(n, args[i])
  }

  ghost predicate WellFounded(defs: seq<Def>) {
    forall i :: 0 <= i < |defs| ==> MadeOf(defs[i], i)
  }

  // No array or instance is there twice.
  ghost predicate Canonical(defs: seq<Def>) {
    forall i, j :: 0 <= i < j < |defs| && defs[i] == defs[j] ==> defs[i].CoreDef?
  }

  // What the building of a type asks for, with what the building of those types asks for in turn.
  datatype Work = NoMore | Ask(request: Request, inner: Work, rest: Work)
  datatype Request = WantArray(element: TypeId) | WantInstance(core: nat, args: seq<TypeId>)

  predicate Askable(r: Request, n: nat) {
    match r
    case WantArray(element) => Known(n, element)
    case WantInstance(core, args) => core < n && forall i :: 0 <= i < |args| ==> Known(n, args[i])
  }

  lemma AppendKeepsCanonical(defs: seq<Def>, d: Def)
    requires WellFounded(defs) && Canonical(defs) && MadeOf(d, |defs|) && (d.CoreDef? || d !in defs)
    ensures WellFounded(defs + [d]) && Canonical(defs + [d])
  {
  }

  // Where in the chain of instances the arguments are the given ones.
  method SearchChain(chain: seq<InstanceEntry>, args: seq<TypeId>) returns (r: Option<nat>)
    ensures r.Some? ==> r.value < |chain| && chain[r.value].args == args
    ensures r.None? ==> forall i :: 0 <= i < |chain| ==> chain[i].args != args
  {
    for i := 0 to |chain|
      invariant forall k :: 0 <= k < i ==> chain[k].args != args
    {
      if |chain[i].args| == |args| && chain[i].args == args {
        return Some(i);
      }
    }
    r := None;
  }

  class Table {
    var arrays: seq<ArrayEntry>             // newest first
    var chains: map<nat, seq<InstanceEntry>> // of each core type, newest first
    var count: nat
    const arrayNoType: nat
    ghost var defs: seq<Def>

    ghost predicate ArraysListed()
      reads this
    {
      && (forall e <- arrays :: e.id < |defs| && defs[e.id] == ArrayDef(e.element))
      && (forall i :: 0 <= i < |defs| && defs[i].ArrayDef? ==> ArrayEntry(defs[i].element, i) in arrays)
    }

    ghost predicate InstancesListed()
      reads this
    {
      && (forall c <- chains :: forall e <- chains[c] :: e.id < |defs| && defs[e.id] == InstanceDef(c, e.args))
      && (forall i :: 0 <= i < |defs| && defs[i].InstanceDef? ==>
            defs[i].core in chains && InstanceEntry(defs[i].args, i) in chains[defs[i].core])
    }

    ghost predicate Valid()
      reads this
    {
      && count == |defs| && arrayNoType < count && WellFounded(defs) && Canonical(defs)
      && ArraysListed() && InstancesListed()
    }

    // The types of the metadata, one of which stands for an array of unknown element type.
    constructor (cores: nat, arrayNoType: nat)
      requires arrayNoType < cores
      ensures Valid() && defs == seq(cores, _ => CoreDef) && this.arrayNoType == arrayNoType
    {
      arrays, chains, count := [], map[], cores;
      this.arrayNoType := arrayNoType;
      defs := seq(cores, _ => CoreDef);
    }

    // Puts the new type in the list before it is built, so that building it can find it.
    method PublishArray(element: nat) returns (id: nat)
      requires Valid() && element < count && ArrayDef(element) !in defs
      modifies this`arrays, this`count, this`defs
      ensures Valid() && defs == old(defs) + [ArrayDef(element)] && id == old(count)
    {
      AppendKeepsCanonical(defs, ArrayDef(element));
      id := count;
      arrays := [ArrayEntry(element, id)] + arrays;
      count := count + 1;
      defs := defs + [ArrayDef(element)];
    }

    method PublishInstance(core: nat, args: seq<TypeId>) returns (id: nat)
      requires Valid() && Askable(WantInstance(core, args), count) && InstanceDef(core, args) !in defs
      modifies this`chains, this`count, this`defs
      ensures Valid() && defs == old(defs) + [InstanceDef(core, args)] && id == old(count)
    {
      AppendKeepsCanonical(defs, InstanceDef(core, args));
      id := count;
      var chain := if core in chains then chains[core] else [];
      chains := chains[core := [InstanceEntry(args, id)] + chain];
      count := count + 1;
      defs := defs + [InstanceDef(core, args)];
    }

    method FindArray(element: nat) returns (r: TypeId)
      requires Valid()
      ensures r.Some? ==> r.value < count && defs[r.value] == ArrayDef(element)
      ensures r.None? ==> ArrayDef(element) !in defs
    {
      for i := 0 to |arrays|
        invariant forall k :: 0 <= k < i ==> arrays[k].element != element
      {
        if arrays[i].element == element {
          assert arrays[i] in arrays;
          return Some(arrays[i].id);
        }
      }
      r := None;
    }

    method FindInstance(core: nat, args: seq<TypeId>) returns (r: TypeId)
      requires Valid()
      ensures r.Some? ==> r.value < count && defs[r.value] == InstanceDef(core, args)
      ensures r.None? ==> InstanceDef(core, args) !in defs
    {
      var chain := if core in chains then chains[core] else [];
      r := None;
      var at := SearchChain(chain, args);
      if at.Some? {
        assert chain[at.value] in chains[core];
        r := Some(chain[at.value].id);
      }
    }

    // Type_GetArrayTypeDef.
    method GetArrayTypeDef(element: TypeId, work: Work) returns (id: nat)
      requires Valid() && Known(count, element)
      modifies this`arrays, this`chains, this`count, this`defs
      ensures Valid() && old(defs) <= defs && id < count
      ensures if element.None? then id == arrayNoType else defs[id] == ArrayDef(element.value)
      decreases work, 1
    {
      if element.None? {
        return arrayNoType;
      }
      var found := FindArray(element.value);
      if found.Some? {
        return found.value;
      }
      id := PublishArray(element.value);
      Build(work);
    }

    // Generics_GetGenericTypeFromCoreType.
    method GetInstance(core: nat, args: seq<TypeId>, work: Work) returns (id: nat)
      requires Valid() && Askable(WantInstance(core, args), count)
      modifies this`arrays, this`chains, this`count, this`defs
      ensures Valid() && old(defs) <= defs && id < count && defs[id] == InstanceDef(core, args)
      decreases work, 1
    {
      var found := FindInstance(core, args);
      if found.Some? {
        return found.value;
      }
      id := PublishInstance(core, args);
      Build(work);
    }

    // Building a type: it asks for others, of types there are by then.
    method Build(work: Work)
      requires Valid()
      modifies this`arrays, this`chains, this`count, this`defs
      ensures Valid() && old(defs) <= defs
      decreases work, 0
    {
      match work
      case NoMore =>
      case Ask(request, inner, rest) =>
        if Askable(request, count) {
          var built;
          match request
          case WantArray(element) => built := GetArrayTypeDef(element, inner);
          case WantInstance(core, args) => built := GetInstance(core, args, inner);
        }
        Build(rest);
    }
  }
}
