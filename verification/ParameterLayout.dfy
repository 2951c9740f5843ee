/**
 Filling in a method: the types of its parameters are read from the signature, and the parameters are laid out one
 behind the other.
 */
module ParameterLayout {
  import MachineInts
  import opened Options
  import opened Signatures
  import opened TypeTable
  import opened SignatureReader
  import opened MethodSignatures

  const U32 := 0x1_0000_0000
  const THIS_SIZE := 4

  datatype Parameter = Parameter(typeDef: TypeId, offset: nat, size: nat)

  function SizeUpTo(params: seq<Parameter>, n: nat): nat
    requires n <= |params|
  {
    if n == 0 then 0 else SizeUpTo(params, n - 1) + params[n - 1].size
  }

  // Addition below a modulus, of numbers that are.
  function Behind(offset: nat, size: nat, modulus: nat): nat {
    if offset + size < modulus then offset + size else offset + size - modulus
  }

  lemma BehindIsTheSum(offset: nat, size: nat, modulus: nat)
    requires offset < modulus && size < modulus
    ensures Behind(offset, size, modulus) == (offset + size) % modulus
  {
    MachineInts.RemainderIs(offset + size, modulus, if offset + size < modulus then 0 else 1, Behind(offset, size, modulus));
  }

  // Where the n-th parameter begins: behind the one before it.
  function Begin(params: seq<Parameter>, n: nat, modulus: nat): nat
    requires n <= |params|
  {
    if n == 0 then 0 else Behind(params[n - 1].offset, params[n - 1].size, modulus)
  }

  ghost predicate Consecutive(params: seq<Parameter>, modulus: nat) {
    forall i :: 0 <= i < |params| ==> params[i].offset == Begin(params, i, modulus)
  }

  lemma {:induction false} EndsBefore(params: seq<Parameter>, i: nat, j: nat)
    requires i < j <= |params|
    ensures SizeUpTo(params, i) + params[i].size <= SizeUpTo(params, j)
    decreases j
  {
    if i + 1 < j {
      EndsBefore(params, i, j - 1);
    }
  }

  lemma {:induction false} BeginsBehindTheRest(params: seq<Parameter>, n: nat, modulus: nat)
    requires Consecutive(params, modulus) && n <= |params| && SizeUpTo(params, n) < modulus
    ensures Begin(params, n, modulus) == SizeUpTo(params, n)
    decreases n
  {
    if n > 0 {
      var k := n - 1;
      assert SizeUpTo(params, n) == SizeUpTo(params, k) + params[k].size;
      BeginsBehindTheRest(params, k, modulus);
    }
  }

  lemma BeginsWithinTheRest(params: seq<Parameter>, i: nat, modulus: nat)
    requires Consecutive(params, modulus) && i < |params| && SizeUpTo(params, |params|) < modulus
    ensures params[i].offset == SizeUpTo(params, i)
  {
    EndsBefore(params, i, |params|);
    BeginsBehindTheRest(params, i, modulus);
  }

  // When the whole fits, the parameters share no byte and lie within the stack space of the parameters.
  lemma ParametersAreApart(params: seq<Parameter>, i: nat, j: nat, modulus: nat)
    requires Consecutive(params, modulus) && SizeUpTo(params, |params|) < modulus && i < j < |params|
    ensures params[i].offset + params[i].size <= params[j].offset
    ensures params[j].offset + params[j].size <= Begin(params, |params|, modulus)
  {
    BeginsWithinTheRest(params, i, modulus);
    BeginsWithinTheRest(params, j, modulus);
    BeginsBehindTheRest(params, |params|, modulus);
    EndsBefore(params, i, j);
    EndsBefore(params, j, |params|);
  }

  lemma OneMoreParameter(params: seq<Parameter>, p: Parameter, modulus: nat)
    requires Consecutive(params, modulus) && p.offset == Begin(params, |params|, modulus)
    ensures Consecutive(params + [p], modulus)
  {
    var all := params + [p];
    forall i | 0 <= i < |all| ensures all[i].offset == Begin(all, i, modulus) {
      assert i < |params| ==> all[i] == params[i];
      assert i > 0 ==> all[i - 1] == params[i - 1];
    }
  }

  // The parameters behind the one for the object have the types of the signature, and their stack sizes.
  ghost predicate TypedAs(params: seq<Parameter>, ids: seq<TypeId>, first: nat, stackSize: nat -> nat) {
    && |params| == first + |ids|
    && forall i :: 0 <= i < |ids| ==>
         params[first + i].typeDef == ids[i] && ids[i].Some? && params[first + i].size == stackSize(ids[i].value)
  }

  // The calling convention and the number of type arguments, of no interest here.
  method SkipHead(cursor: Cursor)
    requires ParseMethod(cursor.rest).Some?
    modifies cursor
    ensures
      var m := old(ParseMethod(cursor.rest).value.sig);
      ParseTypes(m.callConv, m.generics, cursor.rest) == old(ParseMethod(cursor.rest))
  {
    var entry := cursor.DecodeSigEntry();
    if IsGeneric(entry) {
      var _ := cursor.DecodeSigEntry();
    }
  }

  // The next type is read, and filled in if it is known.
  method ReadAndFill(reader: Reader, cursor: Cursor, side: Side, ghost ids: seq<TypeId>, ghost types: Sigs, ghost left: Sigs,
                     ghost c: Context)
    returns (id: TypeId)
    requires reader.table.Valid() && Describes(reader.table.defs, reader.table.arrayNoType, side, c)
    requires AllReadAs(reader.table.defs, ids, types, c) && left == DropFirst(types, |ids|) && left.Cons?
    requires LeftToRead(cursor.rest, left, c)
    modifies cursor, reader.table`arrays, reader.table`chains, reader.table`count, reader.table`defs
    ensures reader.table.Valid() && old(reader.table.defs) <= reader.table.defs
    ensures Describes(reader.table.defs, reader.table.arrayNoType, side, c)
    ensures LeftToRead(cursor.rest, left.tail, c)
    ensures AllReadAs(reader.table.defs, ids + [id], types, c) && left.tail == DropFirst(types, |ids| + 1)
  {
    NextOfTypes(types, |ids|);
    id := ReadNext(reader, cursor, side, left, c);
    ghost var before := reader.table.defs;
    AllStillReadAs(old(reader.table.defs), before, ids, types, c);
    AppendRead(before, ids, id, types, c);
    if id.Some? {
      reader.table.Build(reader.filling(id.value));
      AllStillReadAs(before, reader.table.defs, ids + [id], types, c);
      StillDescribes(before, reader.table.defs, reader.table.arrayNoType, side, c);
    }
  }

  lemma NextOfTypes(types: Sigs, i: nat)
    requires i <= Length(types) && DropFirst(types, i).Cons?
    ensures i < Length(types) && DropFirst(types, i).head == Nth(types, i) && DropFirst(types, i).tail == DropFirst(types, i + 1)
  {
    DropAll(types);
    if i < Length(types) {
      DropOne(types, i);
    }
  }

  lemma {:induction false} DropAll(types: Sigs)
    ensures DropFirst(types, Length(types)) == Nil
  {
    if types.Cons? {
      DropAll(types.tail);
    }
  }

  // No parameter, which come behind the type returned, is of a type that is not known yet.
  ghost predicate ParametersKnown(types: Sigs, c: Context) {
    forall i :: 0 < i < Length(types) ==> !Meaning(Nth(types, i), c).Null?
  }

  // A type that is not null has an address.
  lemma KnownType(defs: seq<Def>, ids: seq<TypeId>, types: Sigs, c: Context, i: nat)
    requires WellFounded(defs) && AllReadAs(defs, ids, types, c) && i < |ids| && !Meaning(Nth(types, i), c).Null?
    ensures ids[i].Some?
  {
  }

  class MethodDef {
    const isStatic: bool
    const parent: nat
    var numberOfParameters: nat
    var returnType: TypeId
    var params: seq<Parameter>
    var parameterStackSize: nat

    constructor (isStatic: bool, parent: nat)
      ensures this.isStatic == isStatic && this.parent == parent
    {
      this.isStatic, this.parent := isStatic, parent;
      numberOfParameters, returnType, params, parameterStackSize := 0, None, [], 0;
    }

    // The object that the method is called on comes first: as a pointer to it.
    ghost predicate ObjectFirst(intPtr: nat, parentIsValueType: bool)
      reads this`params
    {
      !isStatic ==> params != [] && params[0] == Parameter(Some(if parentIsValueType then intPtr else parent), 0, THIS_SIZE)
    }

    // The object comes first, then the types of the signature, one behind the other.
    ghost predicate LaidOut(ids: seq<TypeId>, stackSize: nat -> nat, intPtr: nat, parentIsValueType: bool)
      reads this`params, this`parameterStackSize
    {
      && TypedAs(params, ids, if isStatic then 0 else 1, stackSize) && ObjectFirst(intPtr, parentIsValueType)
      && Consecutive(params, U32) && parameterStackSize == Begin(params, |params|, U32)
    }

    method PlaceObject(intPtr: nat, parentIsValueType: bool, ghost stackSize: nat -> nat)
      modifies this`params, this`parameterStackSize
      ensures LaidOut([], stackSize, intPtr, parentIsValueType)
    {
      params, parameterStackSize := [], 0;
      if !isStatic {
        params := [Parameter(Some(if parentIsValueType then intPtr else parent), 0, THIS_SIZE)];
        parameterStackSize := THIS_SIZE;
      }
    }

    // The next parameter is laid out behind the ones before it.
    method Append(id: TypeId, size: nat, ghost ids: seq<TypeId>, ghost stackSize: nat -> nat, ghost intPtr: nat,
                  ghost parentIsValueType: bool)
      requires id.Some? && size == stackSize(id.value) && LaidOut(ids, stackSize, intPtr, parentIsValueType)
      modifies this`params, this`parameterStackSize
      ensures LaidOut(ids + [id], stackSize, intPtr, parentIsValueType)
    {
      OneMoreParameter(params, Parameter(id, parameterStackSize, size), U32);
      params := params + [Parameter(id, parameterStackSize, size)];
      parameterStackSize := Behind(parameterStackSize, size, U32);
    }

    // What comes before the types.
    method CountParameters(cursor: Cursor, ghost side: Side, ghost c: Context) returns (count: nat)
      requires Comparable(side, c) && cursor.rest == side.blob
      modifies cursor
      ensures count + 1 == Length(SigOf(side, c).types) && LeftToRead(cursor.rest, SigOf(side, c).types, c)
    {
      SkipHead(cursor);
      count := cursor.DecodeSigEntry();
      ParsedLength(cursor.rest, count + 1);
    }

    // MetaData_Fill_MethodDef, of a method that is not a generic definition. No parameter has an unknown type.
    method Fill(reader: Reader, side: Side, parentIsValueType: bool, stackSize: nat -> nat, ghost c: Context)
      returns (ghost ids: seq<TypeId>)
      requires reader.table.Valid() && Describes(reader.table.defs, reader.table.arrayNoType, side, c)
      requires Comparable(side, c) && TYPE_INTPTR in side.prims && ParametersKnown(SigOf(side, c).types, c)
      modifies this, reader.table`arrays, reader.table`chains, reader.table`count, reader.table`defs
      ensures reader.table.Valid() && old(reader.table.defs) <= reader.table.defs
      ensures AllReadAs(reader.table.defs, [returnType] + ids, SigOf(side, c).types, c)
      ensures |ids| + 1 == Length(SigOf(side, c).types) && |params| == numberOfParameters
      ensures LaidOut(ids, stackSize, side.prims[TYPE_INTPTR], parentIsValueType)
    {
      var cursor := new Cursor(side.blob);
      ghost var types := SigOf(side, c).types;
      var count := CountParameters(cursor, side, c);
      numberOfParameters := count + if isStatic then 0 else 1;
      returnType := ReadAndFill(reader, cursor, side, [], types, types, c);
      PlaceObject(side.prims[TYPE_INTPTR], parentIsValueType, stackSize);
      assert [] + [returnType] == [returnType] + [];
      ids := FillParameters(reader, cursor, count, side, parentIsValueType, stackSize, types, types.tail, c);
    }

    // The parameters of the signature.
    method FillParameters(reader: Reader, cursor: Cursor, count: nat, side: Side, ghost parentIsValueType: bool,
                          stackSize: nat -> nat, ghost types: Sigs, ghost rest: Sigs, ghost c: Context)
      returns (ghost ids: seq<TypeId>)
      requires reader.table.Valid() && Describes(reader.table.defs, reader.table.arrayNoType, side, c)
      requires TYPE_INTPTR in side.prims && types.Cons? && rest == types.tail && count == Length(rest) && ParametersKnown(types, c)
      requires LeftToRead(cursor.rest, rest, c) && AllReadAs(reader.table.defs, [returnType] + [], types, c)
      requires LaidOut([], stackSize, side.prims[TYPE_INTPTR], parentIsValueType)
      modifies this`params, this`parameterStackSize, cursor
      modifies reader.table`arrays, reader.table`chains, reader.table`count, reader.table`defs
      ensures reader.table.Valid() && old(reader.table.defs) <= reader.table.defs && |ids| == count
      ensures AllReadAs(reader.table.defs, [returnType] + ids, types, c)
      ensures LaidOut(ids, stackSize, side.prims[TYPE_INTPTR], parentIsValueType)
    {
      ids := [];
      ghost var left := rest;
      for i := 0 to count
        invariant |ids| == i && Length(left) == count - i
        invariant reader.table.Valid() && old(reader.table.defs) <= reader.table.defs
        invariant Describes(reader.table.defs, reader.table.arrayNoType, side, c)
        invariant AllReadAs(reader.table.defs, [returnType] + ids, types, c) && left == DropFirst(types, i + 1)
        invariant LeftToRead(cursor.rest, left, c)
        invariant LaidOut(ids, stackSize, side.prims[TYPE_INTPTR], parentIsValueType)
      {
        var id := ReadAndFill(reader, cursor, side, [returnType] + ids, types, left, c);
        assert [returnType] + (ids + [id]) == [returnType] + ids + [id];
        KnownType(reader.table.defs, [returnType] + ids + [id], types, c, i + 1);
        Append(id, stackSize(id.value), ids, stackSize, side.prims[TYPE_INTPTR], parentIsValueType);
        ids := ids + [id];
        left := left.tail;
      }
    }
  }
}
