/**
 What a type is, whatever its address: because the table is canonical, two types have the same address
 exactly when they are the same type.
 */
module TypeIdentity {
  import opened Options
  import opened TypeTable

  datatype Type = Null | Core(id: nat) | ArrayOf(element: Type) | InstanceOf(core: Type, args: Types)
  datatype Types = NoTypes | MoreTypes(head: Type, tail: Types)

  // The type at an address.
  ghost function TypeAt(defs: seq<Def>, id: TypeId): Type
    requires WellFounded(defs) && Known(|defs|, id)
    decreases if id.None? then 0 else id.value + 1, 0
  {
    if id.None? then Null
    else
      match defs[id.value]
      case CoreDef => Core(id.value)
      case ArrayDef(element) => ArrayOf(TypeAt(defs, Some(element)))
      case InstanceDef(core, args) => InstanceOf(TypeAt(defs, Some(core)), TypesAt(defs, args, id.value))
  }

  ghost function TypesAt(defs: seq<Def>, args: seq<TypeId>, n: nat): Types
    requires WellFounded(defs) && n <= |defs| && forall i :: 0 <= i < |args| ==> Known(n, args[i])
    decreases n, |args| + 1
  {
    if args == [] then NoTypes
    else
      assert Known(n, args[0]);
      MoreTypes(TypeAt(defs, args[0]), TypesAt(defs, args[1..], n))
  }

  // Types stay what they are when the table grows.
  lemma {:induction false} TypeStays(defs: seq<Def>, more: seq<Def>, id: TypeId)
    requires WellFounded(defs) && WellFounded(more) && defs <= more && Known(|defs|, id)
    ensures TypeAt(more, id) == TypeAt(defs, id)
    decreases if id.None? then 0 else id.value + 1, 0
  {
    if id.Some? {
      assert more[id.value] == defs[id.value] && MadeOf(defs[id.value], id.value);
      match defs[id.value]
      case CoreDef =>
      case ArrayDef(element) => TypeStays(defs, more, Some(element));
      case InstanceDef(core, args) =>
        TypeStays(defs, more, Some(core));
        TypesStay(defs, more, args, id.value);
    }
  }

  lemma {:induction false} TypesStay(defs: seq<Def>, more: seq<Def>, args: seq<TypeId>, n: nat)
    requires WellFounded(defs) && WellFounded(more) && defs <= more && n <= |defs|
    requires forall i :: 0 <= i < |args| ==> Known(n, args[i])
    ensures TypesAt(more, args, n) == TypesAt(defs, args, n)
    decreases n, |args| + 1
  {
    if args != [] {
      TypeStays(defs, more, args[0]);
      TypesStay(defs, more, args[1..], n);
    }
  }

  // One type has one address.
  lemma {:induction false} SameTypeSameAddress(defs: seq<Def>, a: TypeId, b: TypeId)
    requires WellFounded(defs) && Canonical(defs) && Known(|defs|, a) && Known(|defs|, b)
    requires TypeAt(defs, a) == TypeAt(defs, b)
    ensures a == b
    decreases if a.None? then 0 else a.value + 1, 0
  {
    if a.Some? && b.Some? {
      var i, j := a.value, b.value;
      assert MadeOf(defs[i], i) && MadeOf(defs[j], j);
      match defs[i]
      case CoreDef =>
      case ArrayDef(element) => SameTypeSameAddress(defs, Some(element), Some(defs[j].element));
      case InstanceDef(core, args) =>
        SameTypeSameAddress(defs, Some(core), Some(defs[j].core));
        SameTypesSameAddresses(defs, args, i, defs[j].args, j);
    }
  }

  lemma {:induction false} SameTypesSameAddresses(defs: seq<Def>, a: seq<TypeId>, n: nat, b: seq<TypeId>, m: nat)
    requires WellFounded(defs) && Canonical(defs) && n <= |defs| && m <= |defs|
    requires forall i :: 0 <= i < |a| ==> Known(n, a[i])
    requires forall i :: 0 <= i < |b| ==> Known(m, b[i])
    requires TypesAt(defs, a, n) == TypesAt(defs, b, m)
    ensures a == b
    decreases n, |a| + 1
  {
    if a != [] && b != [] {
      SameTypeSameAddress(defs, a[0], b[0]);
      SameTypesSameAddresses(defs, a[1..], n, b[1..], m);
      assert a == [a[0]] + a[1..] && b == [b[0]] + b[1..];
    }
  }

  // Addresses may be compared instead of types.
  lemma AddressesDecide(defs: seq<Def>, a: TypeId, b: TypeId)
    requires WellFounded(defs) && Canonical(defs) && Known(|defs|, a) && Known(|defs|, b)
    ensures a == b <==> TypeAt(defs, a) == TypeAt(defs, b)
  {
    if TypeAt(defs, a) == TypeAt(defs, b) {
      SameTypeSameAddress(defs, a, b);
    }
  }
}
