/**
 The typing rules are sound for the CIL machine: a step from a state with the types of its instruction leads to
 a state with the types of the next one, and only arithmetic can be undefined.
 */
module TypeSoundness {
  import opened MachineInts
  import opened IntegerOps
  import opened Options
  import opened Cil
  import opened Layout
  import opened Simulation

  // The instruction is undefined on these operands, or raises an exception.
  ghost predicate Faults(i: Instr, st: Stack<Value>) {
    match i
    case Arith(b) => HasTwo(st) && BinaryValue(b, st.top.Width(), st.below.top.v, st.top.v).None?
    case ShiftBy(h) => HasTwo(st) && ShiftValue(h, st.below.top.Width(), st.below.top.v, st.top.v).None?
    case _ => false
  }

  // What a step from a well-typed state promises.
  ghost predicate Sound(sig: Signature, i: Instr, next: nat, after: Stack<Width>, st: Stack<Value>, o: Outcome) {
    match o
    case Next(s') =>
      && HasTypes(s'.stack, after) && WellFormed(sig, s')
      && (s'.ofs in Targets(i) || (s'.ofs == next && !i.Branch? && !i.Return?))
    case Done(r) => i.Return? && (r.Some? <==> sig.result.Some?) && (r.Some? ==> r.value.Width() == sig.result.value.Width())
    case Stuck => Faults(i, st)
  }

  lemma TopIs(st: Stack<Value>, types: Stack<Width>)
    requires HasTypes(st, types) && AllValues(st)
    ensures st.Push? <==> types.Push?
    ensures st.Push? ==> st.top.Width() == types.top && IsValue(st.top) && HasTypes(st.below, types.below) && AllValues(st.below)
  {
  }

  lemma TwoAre(st: Stack<Value>, types: Stack<Width>)
    requires HasTypes(st, types) && AllValues(st)
    ensures HasTwo(st) <==> HasTwo(types)
    ensures HasTwo(st) ==>
              && st.below.top.Width() == types.below.top && IsValue(st.below.top)
              && HasTypes(st.below.below, types.below.below) && AllValues(st.below.below)
  {
  }

  lemma StackMoveSound(sig: Signature, i: Instr, next: nat, types: Stack<Width>, s: CilState)
    requires WellFormed(sig, s) && HasTypes(s.stack, types) && Flow(sig, i, types).Some?
    requires i.Nop? || i.Dup? || i.Pop? || (i.Const32? && InRange(W32, i.v)) || (i.Const64? && InRange(W64, i.v)) || i.Return?
    ensures Sound(sig, i, next, Flow(sig, i, types).value, s.stack, Execute(sig, i, next, s))
  {
  }

  lemma VariableSound(sig: Signature, i: Instr, next: nat, types: Stack<Width>, s: CilState)
    requires WellFormed(sig, s) && HasTypes(s.stack, types) && Flow(sig, i, types).Some?
    requires i.LoadArg? || i.LoadLocal? || i.StoreArg? || i.StoreLocal?
    ensures Sound(sig, i, next, Flow(sig, i, types).value, s.stack, Execute(sig, i, next, s))
  {
    TopIs(s.stack, types);
    if i.StoreArg? || i.StoreLocal? {
      TruncatedIsValue(if i.StoreArg? then sig.args[i.n] else sig.locals[i.n], s.stack.top);
    }
  }

  // The values that a variable of the type can hold.
  predicate Holds(t: Ty, v: int) {
    match t
    case Boolean => 0 <= v <= 255
    case Char => 0 <= v <= 65_535
    case SByte => -128 <= v <= 127
    case Byte => 0 <= v <= 255
    case Int16 => -32_768 <= v <= 32_767
    case UInt16 => 0 <= v <= 65_535
    case Int32 => InRange(W32, v)
    case UInt32 => InRange(W32, v)
    case Int64 => InRange(W64, v)
    case UInt64 => InRange(W64, v)
  }

  // Truncating to a type gives the one value of it that has the same low bits: the value itself exactly if it is one.
  lemma TruncatedToType(t: Ty, x: Value)
    requires IsValue(x) && x.Width() == t.Width()
    ensures
      var r := Truncated(t, x).v;
      && Holds(t, r) && (r == x.v <==> Holds(t, x.v))
      && (t in {Boolean, SByte, Byte} ==> (r - x.v) % 256 == 0)
      && (t in {Char, Int16, UInt16} ==> (r - x.v) % 65_536 == 0)
      && (t in {Int32, UInt32, Int64, UInt64} ==> r == x.v)
      && (t in {Int64, UInt64} <==> x.V64?)
  {
    if t in {Boolean, SByte, Byte} {
      TruncatedToByte(t, x);
    } else if t in {Char, Int16, UInt16} {
      TruncatedToTwoBytes(t, x);
    }
  }

  lemma TruncatedToByte(t: Ty, x: Value)
    requires x.V32? && t in {Boolean, SByte, Byte}
    ensures var r := Truncated(t, x).v; Holds(t, r) && (r == x.v <==> Holds(t, x.v)) && (r - x.v) % 256 == 0
  {
    SameLowBits(x.v, 256, Truncated(t, x).v);
  }

  lemma TruncatedToTwoBytes(t: Ty, x: Value)
    requires x.V32? && t in {Char, Int16, UInt16}
    ensures var r := Truncated(t, x).v; Holds(t, r) && (r == x.v <==> Holds(t, x.v)) && (r - x.v) % 65_536 == 0
  {
    SameLowBits(x.v, 65_536, Truncated(t, x).v);
  }

  lemma SameLowBits(v: int, m: nat, r: int)
    requires m > 0 && (r == v % m || r == v % m - m)
    ensures (r - v) % m == 0
  {
    var q := v / m;
    assert v == q * m + v % m;
    RemainderIs(r - v, m, if r == v % m then -q else -q - 1, 0);
  }

  lemma TruncatedIsValue(t: Ty, x: Value)
    requires IsValue(x)
    ensures IsValue(Truncated(t, x)) && Truncated(t, x).Width() == x.Width()
  {
  }

  lemma BranchSound(sig: Signature, i: Instr, next: nat, types: Stack<Width>, s: CilState)
    requires WellFormed(sig, s) && HasTypes(s.stack, types) && Flow(sig, i, types).Some?
    requires i.Branch? || i.BranchIf? || i.BranchOn? || i.Switch?
    ensures Sound(sig, i, next, Flow(sig, i, types).value, s.stack, Execute(sig, i, next, s))
  {
    TopIs(s.stack, types);
    TwoAre(s.stack, types);
  }

  lemma BinarySound(sig: Signature, i: Instr, next: nat, types: Stack<Width>, s: CilState)
    requires WellFormed(sig, s) && HasTypes(s.stack, types) && Flow(sig, i, types).Some?
    requires i.Arith? || i.ShiftBy? || i.Compare?
    ensures Sound(sig, i, next, Flow(sig, i, types).value, s.stack, Execute(sig, i, next, s))
  {
    TopIs(s.stack, types);
    TwoAre(s.stack, types);
    if i.Arith? {
      BinaryAgrees(i.b, types.top, s.stack.below.top.v, s.stack.top.v);
    } else if i.ShiftBy? {
      ShiftAgrees(i.s, types.below.top, s.stack.below.top.v, s.stack.top.v);
    }
  }

  lemma UnarySound(sig: Signature, i: Instr, next: nat, types: Stack<Width>, s: CilState)
    requires WellFormed(sig, s) && HasTypes(s.stack, types) && Flow(sig, i, types).Some?
    requires i.Complement? || i.Convert?
    ensures Sound(sig, i, next, Flow(sig, i, types).value, s.stack, Execute(sig, i, next, s))
  {
    TopIs(s.stack, types);
    if i.Complement? {
      UnaryAgrees(i.u, types.top, s.stack.top.v);
    } else {
      ConversionAgrees(i.to, types.top, s.stack.top.v);
    }
  }

  predicate ConstantFits(i: Instr) {
    (i.Const32? ==> InRange(W32, i.v)) && (i.Const64? ==> InRange(W64, i.v))
  }

  lemma ExecuteSound(sig: Signature, i: Instr, next: nat, types: Stack<Width>, s: CilState)
    requires WellFormed(sig, s) && HasTypes(s.stack, types) && Flow(sig, i, types).Some? && ConstantFits(i)
    ensures Sound(sig, i, next, Flow(sig, i, types).value, s.stack, Execute(sig, i, next, s))
  {
    match i
    case Nop => StackMoveSound(sig, i, next, types, s);
    case Dup => StackMoveSound(sig, i, next, types, s);
    case Pop => StackMoveSound(sig, i, next, types, s);
    case Const32(_) => StackMoveSound(sig, i, next, types, s);
    case Const64(_) => StackMoveSound(sig, i, next, types, s);
    case LoadArg(_) => VariableSound(sig, i, next, types, s);
    case StoreArg(_) => VariableSound(sig, i, next, types, s);
    case LoadLocal(_) => VariableSound(sig, i, next, types, s);
    case StoreLocal(_) => VariableSound(sig, i, next, types, s);
    case Return => StackMoveSound(sig, i, next, types, s);
    case Branch(_) => BranchSound(sig, i, next, types, s);
    case BranchIf(_, _) => BranchSound(sig, i, next, types, s);
    case BranchOn(_, _) => BranchSound(sig, i, next, types, s);
    case Switch(_) => BranchSound(sig, i, next, types, s);
    case Arith(_) => BinarySound(sig, i, next, types, s);
    case Complement(_) => UnarySound(sig, i, next, types, s);
    case ShiftBy(_) => BinarySound(sig, i, next, types, s);
    case Convert(_) => UnarySound(sig, i, next, types, s);
    case Compare(_) => BinarySound(sig, i, next, types, s);
  }

  // What the rules do not allow cannot be done: on operands of those types the machine is stuck.
  lemma IllTypedGetsStuck(sig: Signature, i: Instr, next: nat, types: Stack<Width>, s: CilState)
    requires WellFormed(sig, s) && HasTypes(s.stack, types) && Flow(sig, i, types).None?
    ensures Execute(sig, i, next, s).Stuck?
  {
    TopIs(s.stack, types);
    TwoAre(s.stack, types);
    if i.Return? && sig.result.Some? && types.Push? {
      assert types.below.Empty? <==> s.stack.below.Empty?;
    }
  }
}
