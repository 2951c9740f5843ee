/**
 Reading a type signature: the cursor advances through the blob while array types and generic instances are
 looked up or built in the table of types.
 */
module SignatureReader {
  import opened Options
  import opened Signatures
  import opened TypeTable
  import opened TypeIdentity

  const TYPE_INTPTR := 0x18
  const TYPE_UINTPTR := 0x19

  // What the types of a signature depend on: the types of the metadata, the type of an array of unknown element
  // type, and the arguments for the variables of the class and of the method, when they are known.
  datatype Context = Context(
    prims: map<nat, nat>, tokens: map<nat, nat>, arrayNoType: nat, classArgs: Option<seq<Type>>, methodArgs: Option<seq<Type>>)

  // The type that a signature stands for: references and pointers are erased to native integers, variables replaced.
  function Meaning(s: Sig, c: Context): Type {
    match s
    case Void => Null
    case Prim(code) => CoreType(c.prims, code)
    case Ptr(_) => CoreType(c.prims, TYPE_UINTPTR)
    case ByRef(_) => CoreType(c.prims, TYPE_INTPTR)
    case Named(_, index) => CoreType(c.tokens, index)
    case Var(n) => Argument(c.classArgs, n)
    case MVar(n) => Argument(c.methodArgs, n)
    case Instance(core, args) => InstanceOf(Meaning(core, c), Meanings(args, c))
    case Vector(t) =>
      var element := Meaning(t, c);
      if element.Null? then Core(c.arrayNoType) else ArrayOf(element)
    case _ => Null // never read
  }

  function Meanings(s: Sigs, c: Context): Types {
    if s.Nil? then NoTypes else MoreTypes(Meaning(s.head, c), Meanings(s.tail, c))
  }

  function CoreType(types: map<nat, nat>, key: nat): Type {
    if key in types then Core(types[key]) else Null
  }

  function Argument(args: Option<seq<Type>>, n: nat): Type {
    if args.Some? && n < |args.value| then args.value[n] else Null
  }

  // References have the type of native integers and pointers that of unsigned ones, whatever they point to.
  lemma PointersAreNumbers(s: Sig, c: Context)
    ensures Meaning(ByRef(s), c) == Meaning(Prim(0x18), c) && Meaning(Ptr(s), c) == Meaning(Prim(0x19), c)
  {
  }

  // The names in the signature are known, its variables have arguments, and what is instantiated is a named type. Nothing
  // that the reader crashes at occurs.
  predicate Closed(s: Sig, c: Context) {
    match s
    case Void => true
    case Prim(code) => code in c.prims
    case Ptr(_) => TYPE_UINTPTR in c.prims
    case ByRef(t) => TYPE_INTPTR in c.prims && Closed(t, c)
    case Named(_, index) => index in c.tokens
    case Var(n) => c.classArgs.Some? ==> n < |c.classArgs.value|
    case MVar(n) => c.methodArgs.Some? ==> n < |c.methodArgs.value|
    case Instance(core, args) => core.Named? && Closed(core, c) && AllClosed(args, c)
    case Vector(t) => Closed(t, c)
    case _ => false
  }

  predicate AllClosed(s: Sigs, c: Context) {
    s.Cons? ==> Closed(s.head, c) && AllClosed(s.tail, c)
  }

  // ---------------------------------------------------------------- when two signatures mean the same type

  // No variables, and void nowhere.
  predicate Ground(s: Sig) {
    match s
    case Void => false
    case Prim(_) => true
    case Ptr(_) => true
    case ByRef(_) => true
    case Named(_, _) => true
    case Var(_) => false
    case MVar(_) => false
    case Instance(core, args) => Ground(core) && AllGround(args)
    case Vector(t) => Ground(t)
    case _ => false
  }

  predicate AllGround(s: Sigs) {
    s.Cons? ==> Ground(s.head) && AllGround(s.tail)
  }

  // The type of the metadata that a name is given. Whatever is referred to, a reference is a native integer, and so is
  // a pointer.
  function NameOf(s: Sig, c: Context): Option<nat> {
    match s
    case Prim(code) => if code in c.prims then Some(c.prims[code]) else None
    case Ptr(_) => if TYPE_UINTPTR in c.prims then Some(c.prims[TYPE_UINTPTR]) else None
    case ByRef(_) => if TYPE_INTPTR in c.prims then Some(c.prims[TYPE_INTPTR]) else None
    case Named(_, index) => if index in c.tokens then Some(c.tokens[index]) else None
    case _ => None
  }

  // A variable whose argument is known: it stands for that type.
  predicate Stands(s: Sig, c: Context) {
    match s
    case Var(n) => !Argument(c.classArgs, n).Null?
    case MVar(n) => !Argument(c.methodArgs, n).Null?
    case _ => false
  }

  // What is read as no type at all: void, and a variable whose argument is not known.
  predicate Blank(s: Sig, c: Context) {
    match s
    case Void => true
    case Var(n) => Argument(c.classArgs, n).Null?
    case MVar(n) => Argument(c.methodArgs, n).Null?
    case _ => false
  }

  // Structural equality of two signatures, each in its context, up to the names of types and with references erased.
  // A variable whose argument is known stands for that type, any other one only for itself.
  predicate Same(s: Sig, c: Context, t: Sig, d: Context) {
    if Stands(s, c) || Stands(t, d) then Meaning(s, c) == Meaning(t, d)
    else
      match s
      case Void => t.Void?
      case Var(n) => t == s
      case MVar(n) => t == s
      case Instance(core, args) => t.Instance? && Same(core, c, t.core, d) && AllSame(args, c, t.args, d)
      case Vector(element) => t.Vector? && Same(element, c, t.element, d)
      case _ => NameOf(s, c).Some? && NameOf(s, c) == NameOf(t, d)
  }

  predicate AllSame(s: Sigs, c: Context, t: Sigs, d: Context) {
    if s.Nil? then t.Nil? else t.Cons? && Same(s.head, c, t.head, d) && AllSame(s.tail, c, t.tail, d)
  }

  lemma {:induction false} GroundMeans(s: Sig, c: Context)
    requires Closed(s, c) && Ground(s)
    ensures !Meaning(s, c).Null?
    ensures Meaning(s, c).Core? <==> NameOf(s, c).Some?
    ensures Meaning(s, c).Core? ==> Meaning(s, c).id == NameOf(s, c).value
  {
  }

  lemma {:induction false} SameMeaning(s: Sig, c: Context, t: Sig, d: Context)
    requires Closed(s, c) && Closed(t, d) && Ground(s) && Ground(t)
    ensures Meaning(s, c) == Meaning(t, d) <==> Same(s, c, t, d)
    decreases s
  {
    GroundMeans(s, c);
    GroundMeans(t, d);
    match s
    case Instance(core, args) =>
      if t.Instance? {
        SameMeaning(core, c, t.core, d);
        SameMeanings(args, c, t.args, d);
      }
    case Vector(element) =>
      GroundMeans(element, c);
      if t.Vector? {
        GroundMeans(t.element, d);
        SameMeaning(element, c, t.element, d);
      }
    case _ =>
  }

  lemma {:induction false} SameMeanings(s: Sigs, c: Context, t: Sigs, d: Context)
    requires AllClosed(s, c) && AllClosed(t, d) && AllGround(s) && AllGround(t)
    ensures Meanings(s, c) == Meanings(t, d) <==> AllSame(s, c, t, d)
    decreases s
  {
    if s.Cons? && t.Cons? {
      SameMeaning(s.head, c, t.head, d);
      SameMeanings(s.tail, c, t.tail, d);
    }
  }

  // ---------------------------------------------------------------- what tells signatures apart and what does not

  // The name that a signature comes to: an array of no type at all is one type of the metadata.
  function ErasedName(s: Sig, c: Context): Option<nat> {
    if s.Vector? && Blank(s.element, c) then Some(c.arrayNoType) else NameOf(s, c)
  }

  // Structural equality of what is left when void and the variables without a known argument are all erased to
  // nothing, and arrays of nothing to a name.
  predicate Alike(s: Sig, c: Context, t: Sig, d: Context) {
    if Stands(s, c) || Stands(t, d) then Meaning(s, c) == Meaning(t, d)
    else if Blank(s, c) || Blank(t, d) then Blank(s, c) && Blank(t, d)
    else if s.Instance? || t.Instance? then
      s.Instance? && t.Instance? && Alike(s.core, c, t.core, d) && AllAlike(s.args, c, t.args, d)
    else if s.Vector? && t.Vector? then Alike(s.element, c, t.element, d)
    else ErasedName(s, c).Some? && ErasedName(s, c) == ErasedName(t, d)
  }

  predicate AllAlike(s: Sigs, c: Context, t: Sigs, d: Context) {
    if s.Nil? then t.Nil? else t.Cons? && Alike(s.head, c, t.head, d) && AllAlike(s.tail, c, t.tail, d)
  }

  lemma ShapeOfMeaning(s: Sig, c: Context)
    requires Closed(s, c)
    ensures Meaning(s, c).Null? <==> Blank(s, c)
    ensures !Stands(s, c) ==> (Meaning(s, c).Core? <==> ErasedName(s, c).Some?)
    ensures !Stands(s, c) && Meaning(s, c).Core? ==> Meaning(s, c).id == ErasedName(s, c).value
    ensures !Stands(s, c) ==> (Meaning(s, c).InstanceOf? <==> s.Instance?)
  {
    if s.Vector? {
      BlankMeansNothing(s.element, c);
    }
  }

  lemma BlankMeansNothing(s: Sig, c: Context)
    requires Closed(s, c)
    ensures Meaning(s, c).Null? <==> Blank(s, c)
  {
  }

  // Whatever occurs in them, two signatures mean the same type exactly when they are alike.
  lemma {:induction false} AlikeMeaning(s: Sig, c: Context, t: Sig, d: Context)
    requires Closed(s, c) && Closed(t, d) && c.arrayNoType == d.arrayNoType
    ensures Meaning(s, c) == Meaning(t, d) <==> Alike(s, c, t, d)
    decreases s
  {
    ShapeOfMeaning(s, c);
    ShapeOfMeaning(t, d);
    if !Stands(s, c) && !Stands(t, d) {
      if s.Instance? && t.Instance? {
        AlikeMeaning(s.core, c, t.core, d);
        AlikeMeanings(s.args, c, t.args, d);
      } else if s.Vector? && t.Vector? {
        BlankMeansNothing(s.element, c);
        BlankMeansNothing(t.element, d);
        AlikeMeaning(s.element, c, t.element, d);
      }
    }
  }

  lemma {:induction false} AlikeMeanings(s: Sigs, c: Context, t: Sigs, d: Context)
    requires AllClosed(s, c) && AllClosed(t, d) && c.arrayNoType == d.arrayNoType
    ensures Meanings(s, c) == Meanings(t, d) <==> AllAlike(s, c, t, d)
    decreases s
  {
    if s.Cons? && t.Cons? {
      AlikeMeaning(s.head, c, t.head, d);
      AlikeMeanings(s.tail, c, t.tail, d);
    }
  }

  // ---------------------------------------------------------------- well-formed types

  // What the standard allows as the type of a parameter of a method with so many variables of its own. A variable of the
  // class whose argument is not known occurs only in classes that are open.
  predicate WellFormed(s: Sig, generics: nat, open: bool, c: Context) {
    match s
    case Prim(_) => true
    case Ptr(t) => t.Void? || WellFormed(t, generics, open, c)
    case ByRef(t) => WellFormed(t, generics, open, c)
    case Named(_, _) => true
    case Var(_) => Stands(s, c) || open
    case MVar(n) => n < generics
    case Instance(core, args) => core.Named? && args.Cons? && AllWellFormed(args, generics, open, c)
    case Vector(t) => WellFormed(t, generics, open, c)
    case _ => false
  }

  predicate AllWellFormed(s: Sigs, generics: nat, open: bool, c: Context) {
    s.Cons? ==> WellFormed(s.head, generics, open, c) && AllWellFormed(s.tail, generics, open, c)
  }

  // No other well-formed type means the same. One may when there are two variables to choose from, or when an array of a
  // variable can be taken for the type that all of them are erased to, or the other way round.
  predicate Certain(s: Sig, generics: nat, open: bool, c: Context) {
    Stands(s, c) || (
      match s
      case Var(_) => false
      case MVar(_) => generics == 1 && !open
      case Instance(_, args) => AllCertain(args, generics, open, c)
      case Vector(element) => !Blank(element, c) && Certain(element, generics, open, c)
      case _ => NameOf(s, c) != Some(c.arrayNoType) || (generics == 0 && !open))
  }

  predicate AllCertain(s: Sigs, generics: nat, open: bool, c: Context) {
    s.Cons? ==> Certain(s.head, generics, open, c) && AllCertain(s.tail, generics, open, c)
  }

  lemma {:induction false} CertainlySame(s: Sig, c: Context, t: Sig, d: Context, generics: nat, open: bool)
    requires Closed(s, c) && Closed(t, d) && c.arrayNoType == d.arrayNoType && c.methodArgs.None? && d.methodArgs.None?
    requires WellFormed(s, generics, open, c) && WellFormed(t, generics, open, d)
    requires Certain(s, generics, open, c) && Alike(s, c, t, d)
    ensures Same(s, c, t, d)
    decreases s
  {
    if !Stands(s, c) && !Stands(t, d) {
      match s
      case Instance(core, args) =>
        AlikeMeaning(core, c, t.core, d);
        SameMeaning(core, c, t.core, d);
        AllCertainlySame(args, c, t.args, d, generics, open);
      case Vector(element) =>
        if t.Vector? {
          CertainlySame(element, c, t.element, d, generics, open);
        }
      case _ =>
    }
  }

  lemma {:induction false} AllCertainlySame(s: Sigs, c: Context, t: Sigs, d: Context, generics: nat, open: bool)
    requires AllClosed(s, c) && AllClosed(t, d) && c.arrayNoType == d.arrayNoType && c.methodArgs.None? && d.methodArgs.None?
    requires AllWellFormed(s, generics, open, c) && AllWellFormed(t, generics, open, d)
    requires AllCertain(s, generics, open, c) && AllAlike(s, c, t, d)
    ensures AllSame(s, c, t, d)
    decreases s
  {
    if s.Cons? {
      CertainlySame(s.head, c, t.head, d, generics, open);
      AllCertainlySame(s.tail, c, t.tail, d, generics, open);
    }
  }

  // ---------------------------------------------------------------- another type that means the same

  // The context of another class, which has one more variable, of unknown argument, and refers to the type that arrays of
  // nothing are erased to.
  function Elsewhere(c: Context, token: nat): Context {
    c.(tokens := c.tokens[token := c.arrayNoType],
       classArgs := match c.classArgs case None => None case Some(args) => Some(args + [Null]))
  }

  // Everything means there what it means here.
  lemma {:induction false} MeansTheSameElsewhere(s: Sig, c: Context, token: nat)
    requires Closed(s, c) && token !in c.tokens
    ensures Closed(s, Elsewhere(c, token)) && Meaning(s, Elsewhere(c, token)) == Meaning(s, c)
    decreases s
  {
    match s
    case ByRef(t) => MeansTheSameElsewhere(t, c, token);
    case Instance(core, args) =>
      MeansTheSameElsewhere(core, c, token);
      MeanTheSameElsewhere(args, c, token);
    case Vector(t) => MeansTheSameElsewhere(t, c, token);
    case _ =>
  }

  lemma {:induction false} MeanTheSameElsewhere(s: Sigs, c: Context, token: nat)
    requires AllClosed(s, c) && token !in c.tokens
    ensures AllClosed(s, Elsewhere(c, token)) && Meanings(s, Elsewhere(c, token)) == Meanings(s, c)
    decreases s
  {
    if s.Cons? {
      MeansTheSameElsewhere(s.head, c, token);
      MeanTheSameElsewhere(s.tail, c, token);
    }
  }

  lemma {:induction false} WellFormedElsewhere(s: Sig, generics: nat, open: bool, c: Context, token: nat)
    requires WellFormed(s, generics, open, c)
    ensures WellFormed(s, generics, open, Elsewhere(c, token))
    decreases s
  {
    match s
    case Ptr(t) => if !t.Void? { WellFormedElsewhere(t, generics, open, c, token); }
    case ByRef(t) => WellFormedElsewhere(t, generics, open, c, token);
    case Instance(_, args) => AllWellFormedElsewhere(args, generics, open, c, token);
    case Vector(t) => WellFormedElsewhere(t, generics, open, c, token);
    case _ =>
  }

  lemma {:induction false} AllWellFormedElsewhere(s: Sigs, generics: nat, open: bool, c: Context, token: nat)
    requires AllWellFormed(s, generics, open, c)
    ensures AllWellFormed(s, generics, open, Elsewhere(c, token))
    decreases s
  {
    if s.Cons? {
      WellFormedElsewhere(s.head, generics, open, c, token);
      AllWellFormedElsewhere(s.tail, generics, open, c, token);
    }
  }

  // A variable of unknown argument, other than the type given.
  function AnotherVariable(s: Sig, generics: nat, open: bool, c: Context): (r: Sig)
    requires open || generics > 1 || (generics == 1 && s != MVar(0))
    requires s.Var? ==> Closed(s, c)
    ensures r != s && (r.Var? || r.MVar?)
  {
    if generics > 1 || (generics == 1 && s != MVar(0)) then MVar(if s == MVar(0) then 1 else 0)
    else if c.classArgs.Some? then Var(|c.classArgs.value|)
    else Var(if s == Var(0) then 1 else 0)
  }

  function Disguise(s: Sig, generics: nat, open: bool, c: Context, token: nat): Sig
    requires Closed(s, c) && WellFormed(s, generics, open, c) && !Certain(s, generics, open, c)
  {
    if s.Var? || s.MVar? then AnotherVariable(s, generics, open, c)
    else if s.Instance? then Instance(s.core, DisguiseFirst(s.args, generics, open, c, token))
    else if !s.Vector? then Vector(AnotherVariable(s, generics, open, c))
    else if Blank(s.element, c) then Named(false, token)
    else Vector(Disguise(s.element, generics, open, c, token))
  }

  function DisguiseFirst(s: Sigs, generics: nat, open: bool, c: Context, token: nat): Sigs
    requires AllClosed(s, c) && AllWellFormed(s, generics, open, c) && !AllCertain(s, generics, open, c)
  {
    if Certain(s.head, generics, open, c) then Cons(s.head, DisguiseFirst(s.tail, generics, open, c, token))
    else Cons(Disguise(s.head, generics, open, c, token), s.tail)
  }

  lemma VariableElsewhere(s: Sig, generics: nat, open: bool, c: Context, token: nat)
    requires open || generics > 1 || (generics == 1 && s != MVar(0))
    requires c.methodArgs.None? && (s.Var? ==> Closed(s, c))
    ensures
      var r, d := AnotherVariable(s, generics, open, c), Elsewhere(c, token);
      Closed(r, d) && WellFormed(r, generics, open, d) && Blank(r, d) && Meaning(r, d).Null? && !Stands(r, d)
  {
  }

  lemma {:induction false} DisguiseMeansTheSame(s: Sig, generics: nat, open: bool, c: Context, token: nat)
    requires Closed(s, c) && c.methodArgs.None? && WellFormed(s, generics, open, c) && !Certain(s, generics, open, c)
    requires token !in c.tokens
    ensures
      var r, d := Disguise(s, generics, open, c, token), Elsewhere(c, token);
      Closed(r, d) && WellFormed(r, generics, open, d) && Meaning(r, d) == Meaning(s, c) && !Same(s, c, r, d)
    decreases s
  {
    var d := Elsewhere(c, token);
    match s
    case Instance(core, args) =>
      MeansTheSameElsewhere(core, c, token);
      DisguisedMeanTheSame(args, generics, open, c, token);
    case Vector(element) =>
      if !Blank(element, c) {
        DisguiseMeansTheSame(element, generics, open, c, token);
      }
    case _ => VariableElsewhere(s, generics, open, c, token);
  }

  lemma {:induction false} DisguisedMeanTheSame(s: Sigs, generics: nat, open: bool, c: Context, token: nat)
    requires AllClosed(s, c) && c.methodArgs.None? && AllWellFormed(s, generics, open, c) && !AllCertain(s, generics, open, c)
    requires token !in c.tokens
    ensures
      var r, d := DisguiseFirst(s, generics, open, c, token), Elsewhere(c, token);
      && AllClosed(r, d) && AllWellFormed(r, generics, open, d) && r.Cons?
      && Meanings(r, d) == Meanings(s, c) && !AllSame(s, c, r, d)
    decreases s
  {
    if Certain(s.head, generics, open, c) {
      MeansTheSameElsewhere(s.head, c, token);
      WellFormedElsewhere(s.head, generics, open, c, token);
      DisguisedMeanTheSame(s.tail, generics, open, c, token);
    } else {
      DisguiseMeansTheSame(s.head, generics, open, c, token);
      MeanTheSameElsewhere(s.tail, c, token);
      AllWellFormedElsewhere(s.tail, generics, open, c, token);
    }
  }

  // ---------------------------------------------------------------- lists read one by one

  function Nth(s: Sigs, i: nat): Sig
    requires i < Length(s)
    decreases s
  {
    if i == 0 then s.head else Nth(s.tail, i - 1)
  }

  function DropFirst(s: Sigs, i: nat): Sigs
    requires i <= Length(s)
    decreases s
  {
    if i == 0 then s else DropFirst(s.tail, i - 1)
  }

  lemma {:induction false} DropOne(s: Sigs, i: nat)
    requires i < Length(s)
    ensures DropFirst(s, i).Cons? && DropFirst(s, i).head == Nth(s, i) && DropFirst(s, i).tail == DropFirst(s, i + 1)
    decreases s
  {
    if i > 0 {
      DropOne(s.tail, i - 1);
    }
  }

  lemma {:induction false} NthClosed(s: Sigs, i: nat, c: Context)
    requires i < Length(s) && AllClosed(s, c)
    ensures Closed(Nth(s, i), c)
    decreases s
  {
    if i > 0 {
      NthClosed(s.tail, i - 1, c);
    }
  }

  lemma {:induction false} ParsedLength(b: seq<Byte>, n: nat)
    requires ParseSigs(b, n).Some?
    ensures Length(ParseSigs(b, n).value.sigs) == n
    decreases n
  {
    if n > 0 {
      ParsedLength(ParseSig(b).value.rest, n - 1);
    }
  }

  // The address stands for the type that the signature means.
  ghost predicate ReadAs(defs: seq<Def>, id: TypeId, n: nat, s: Sig, c: Context)
    requires WellFounded(defs)
  {
    n <= |defs| && Known(n, id) && TypeAt(defs, id) == Meaning(s, c)
  }

  // Two signatures are read as the same address exactly when they mean the same type, which is when they are alike, and
  // for signatures without variables when they are structurally equal.
  lemma SameAddressExactlyWhenSame(defs: seq<Def>, a: TypeId, s: Sig, c: Context, b: TypeId, t: Sig, d: Context)
    requires WellFounded(defs) && Canonical(defs)
    requires ReadAs(defs, a, |defs|, s, c) && ReadAs(defs, b, |defs|, t, d) && Closed(s, c) && Closed(t, d)
    ensures a == b <==> Meaning(s, c) == Meaning(t, d)
    ensures c.arrayNoType == d.arrayNoType ==> (a == b <==> Alike(s, c, t, d))
    ensures Ground(s) && Ground(t) ==> (a == b <==> Same(s, c, t, d))
  {
    AddressesDecide(defs, a, b);
    if c.arrayNoType == d.arrayNoType {
      AlikeMeaning(s, c, t, d);
    }
    if Ground(s) && Ground(t) {
      SameMeaning(s, c, t, d);
    }
  }

  lemma StillReadAs(defs: seq<Def>, more: seq<Def>, id: TypeId, s: Sig, c: Context)
    requires WellFounded(defs) && WellFounded(more) && defs <= more && ReadAs(defs, id, |defs|, s, c)
    ensures ReadAs(more, id, |more|, s, c)
  {
    TypeStays(defs, more, id);
  }

  // Types read one by one make up the list.
  lemma {:induction false} OneByOne(defs: seq<Def>, args: seq<TypeId>, n: nat, s: Sigs, c: Context)
    requires WellFounded(defs) && n <= |defs| && |args| == Length(s)
    requires forall i :: 0 <= i < |args| ==> ReadAs(defs, args[i], n, Nth(s, i), c)
    ensures forall i :: 0 <= i < |args| ==> Known(n, args[i])
    ensures TypesAt(defs, args, n) == Meanings(s, c)
    decreases s
  {
    assert forall i :: 0 <= i < |args| ==> ReadAs(defs, args[i], n, Nth(s, i), c) && Known(n, args[i]);
    if s.Cons? {
      assert ReadAs(defs, args[0], n, Nth(s, 0), c);
      forall i | 0 <= i < |args[1..]| ensures ReadAs(defs, args[1..][i], n, Nth(s.tail, i), c) {
        assert args[1..][i] == args[i + 1] && Nth(s, i + 1) == Nth(s.tail, i);
      }
      OneByOne(defs, args[1..], n, s.tail, c);
    }
  }

  // ---------------------------------------------------------------- the reader

  class Cursor {
    var rest: seq<Byte>

    constructor (blob: seq<Byte>)
      ensures rest == blob
    {
      rest := blob;
    }

    method DecodeSigEntry() returns (value: nat)
      requires DecodeEntry(rest).Some?
      modifies this
      ensures DecodeEntry(old(rest)) == Some(Entry(value, rest))
    {
      var e := DecodeEntry(rest).value;
      value, rest := e.value, e.rest;
    }

    method DecodeSigEntryToken() returns (value: nat)
      requires DecodeToken(rest).Some?
      modifies this
      ensures DecodeToken(old(rest)) == Some(Entry(value, rest))
    {
      var e := DecodeToken(rest).value;
      value, rest := e.value, e.rest;
    }
  }

  // The addresses given for the variables are those of the arguments in the context.
  ghost predicate Given(defs: seq<Def>, ids: Option<seq<TypeId>>, args: Option<seq<Type>>)
    requires WellFounded(defs)
  {
    && (ids.Some? <==> args.Some?)
    && (ids.Some? ==> (
          && |ids.value| == |args.value|
          && forall i :: 0 <= i < |ids.value| ==> Known(|defs|, ids.value[i]) && TypeAt(defs, ids.value[i]) == args.value[i]))
  }

  ghost predicate CoresKnown(defs: seq<Def>, ids: map<nat, nat>) {
    forall k <- ids :: ids[k] < |defs| && defs[ids[k]].CoreDef?
  }

  ghost predicate Fits(defs: seq<Def>, c: Context, classArgs: Option<seq<TypeId>>, methodArgs: Option<seq<TypeId>>)
    requires WellFounded(defs)
  {
    && CoresKnown(defs, c.prims) && CoresKnown(defs, c.tokens)
    && c.arrayNoType < |defs| && defs[c.arrayNoType].CoreDef?
    && Given(defs, classArgs, c.classArgs) && Given(defs, methodArgs, c.methodArgs)
  }

  lemma StillGiven(defs: seq<Def>, more: seq<Def>, ids: Option<seq<TypeId>>, args: Option<seq<Type>>)
    requires WellFounded(defs) && WellFounded(more) && defs <= more && Given(defs, ids, args)
    ensures Given(more, ids, args)
  {
    if ids.Some? {
      forall i | 0 <= i < |ids.value| ensures Known(|more|, ids.value[i]) && TypeAt(more, ids.value[i]) == args.value[i] {
        assert Known(|defs|, ids.value[i]);
        TypeStays(defs, more, ids.value[i]);
      }
    }
  }

  lemma StillFits(defs: seq<Def>, more: seq<Def>, c: Context, classArgs: Option<seq<TypeId>>, methodArgs: Option<seq<TypeId>>)
    requires WellFounded(defs) && WellFounded(more) && defs <= more && Fits(defs, c, classArgs, methodArgs)
    ensures Fits(more, c, classArgs, methodArgs)
  {
    StillGiven(defs, more, classArgs, c.classArgs);
    StillGiven(defs, more, methodArgs, c.methodArgs);
  }

  // The first types of the list, read.
  ghost predicate AllReadAs(defs: seq<Def>, args: seq<TypeId>, s: Sigs, c: Context)
    requires WellFounded(defs)
  {
    |args| <= Length(s) && forall i :: 0 <= i < |args| ==> ReadAs(defs, args[i], |defs|, Nth(s, i), c)
  }

  lemma AllStillReadAs(defs: seq<Def>, more: seq<Def>, args: seq<TypeId>, s: Sigs, c: Context)
    requires WellFounded(defs) && WellFounded(more) && defs <= more && AllReadAs(defs, args, s, c)
    ensures AllReadAs(more, args, s, c)
  {
    forall i | 0 <= i < |args| ensures ReadAs(more, args[i], |more|, Nth(s, i), c) {
      StillReadAs(defs, more, args[i], Nth(s, i), c);
    }
  }

  // How far an instance has been read: the core type and the first arguments.
  ghost predicate Progress(defs: seq<Def>, classArgs: Option<seq<TypeId>>, methodArgs: Option<seq<TypeId>>, core: nat,
                           args: seq<TypeId>, s: Sig, c: Context)
    requires WellFounded(defs)
  {
    && Fits(defs, c, classArgs, methodArgs) && s.Instance?
    && ReadAs(defs, Some(core), |defs|, s.core, c) && AllReadAs(defs, args, s.args, c)
  }

  lemma StillInProgress(defs: seq<Def>, more: seq<Def>, classArgs: Option<seq<TypeId>>, methodArgs: Option<seq<TypeId>>,
                        core: nat, args: seq<TypeId>, s: Sig, c: Context)
    requires WellFounded(defs) && WellFounded(more) && defs <= more
    requires Progress(defs, classArgs, methodArgs, core, args, s, c)
    ensures Progress(more, classArgs, methodArgs, core, args, s, c)
  {
    StillFits(defs, more, c, classArgs, methodArgs);
    StillReadAs(defs, more, Some(core), s.core, c);
    AllStillReadAs(defs, more, args, s.args, c);
  }

  lemma OneMoreRead(defs: seq<Def>, more: seq<Def>, classArgs: Option<seq<TypeId>>, methodArgs: Option<seq<TypeId>>,
                    core: nat, args: seq<TypeId>, id: TypeId, s: Sig, c: Context)
    requires WellFounded(defs) && WellFounded(more) && defs <= more
    requires Progress(defs, classArgs, methodArgs, core, args, s, c)
    requires |args| < Length(s.args) && ReadAs(more, id, |more|, Nth(s.args, |args|), c)
    ensures Progress(more, classArgs, methodArgs, core, args + [id], s, c)
  {
    StillInProgress(defs, more, classArgs, methodArgs, core, args, s, c);
    AppendRead(more, args, id, s.args, c);
  }

  lemma AppendRead(defs: seq<Def>, args: seq<TypeId>, id: TypeId, s: Sigs, c: Context)
    requires WellFounded(defs) && AllReadAs(defs, args, s, c)
    requires |args| < Length(s) && ReadAs(defs, id, |defs|, Nth(s, |args|), c)
    ensures AllReadAs(defs, args + [id], s, c)
  {
  }

  // What is instantiated is a type of the metadata.
  lemma CoreFound(defs: seq<Def>, id: TypeId, s: Sig, c: Context)
    requires WellFounded(defs) && ReadAs(defs, id, |defs|, s, c) && s.Named? && Closed(s, c)
    ensures id.Some?
  {
  }

  lemma InstanceFound(defs: seq<Def>, more: seq<Def>, id: nat, core: nat, args: seq<TypeId>, s: Sig, c: Context)
    requires WellFounded(defs) && WellFounded(more) && defs <= more && s.Instance?
    requires ReadAs(defs, Some(core), |defs|, s.core, c) && (forall i :: 0 <= i < |args| ==> Known(|defs|, args[i]))
    requires TypesAt(defs, args, |defs|) == Meanings(s.args, c)
    requires id < |more| && more[id] == InstanceDef(core, args)
    ensures ReadAs(more, Some(id), |more|, s, c)
  {
    TypeStays(defs, more, Some(core));
    TypesStay(defs, more, args, |defs|);
    assert MadeOf(more[id], id);
    AnyBound(more, args, |defs|, id);
  }

  // The bound on the addresses does not matter.
  lemma {:induction false} AnyBound(defs: seq<Def>, args: seq<TypeId>, n: nat, m: nat)
    requires WellFounded(defs) && n <= |defs| && m <= |defs|
    requires forall i :: 0 <= i < |args| ==> Known(n, args[i]) && Known(m, args[i])
    ensures TypesAt(defs, args, n) == TypesAt(defs, args, m)
  {
    if args != [] {
      assert Known(n, args[0]);
      AnyBound(defs, args[1..], n, m);
    }
  }

  // The number of arguments and then the arguments.
  ghost predicate ParsesArguments(b: seq<Byte>, parsed: Parsed)
    requires parsed.sig.Instance?
  {
    && DecodeEntry(b).Some?
    && ParseSigs(DecodeEntry(b).value.rest, DecodeEntry(b).value.value) == Some(ParsedList(parsed.sig.args, parsed.rest))
  }

  // What is read depends on the first entry, which is one byte long, and on what is behind it.
  lemma ParseSame(a: seq<Byte>, b: seq<Byte>)
    requires ParseSig(a).Some? && DecodeEntry(a).value.value < 0x80
    requires b == [DecodeEntry(a).value.value] + DecodeEntry(a).value.rest
    ensures ParseSig(a) == ParseSig(b)
  {
  }

  // What building a new type asks for, and what filling in a type asks for when it is first mentioned.
  class Reader {
    const table: Table
    const building: Request -> Work
    const filling: nat -> Work

    constructor (table: Table, building: Request -> Work, filling: nat -> Work)
      ensures this.table == table && this.building == building && this.filling == filling
    {
      this.table, this.building, this.filling := table, building, filling;
    }

    // Type_GetTypeFromSig.
    method GetTypeFromSig(cursor: Cursor, classArgs: Option<seq<TypeId>>, methodArgs: Option<seq<TypeId>>, prims: map<nat, nat>,
                          tokens: map<nat, nat>, ghost c: Context)
      returns (id: TypeId)
      requires table.Valid() && c.prims == prims && c.tokens == tokens && c.arrayNoType == table.arrayNoType
      requires Fits(table.defs, c, classArgs, methodArgs)
      requires ParseSig(cursor.rest).Some? && Closed(ParseSig(cursor.rest).value.sig, c)
      modifies cursor, table`arrays, table`chains, table`count, table`defs
      ensures table.Valid() && old(table.defs) <= table.defs
      ensures cursor.rest == old(ParseSig(cursor.rest)).value.rest
      ensures ReadAs(table.defs, id, |table.defs|, old(ParseSig(cursor.rest)).value.sig, c)
      decreases |cursor.rest|, 1
    {
      ghost var parsed := ParseSig(cursor.rest).value;
      ghost var blob := cursor.rest;
      var entry := cursor.DecodeSigEntry();
      ParseSame(blob, [entry] + cursor.rest);
      if entry == 0x10 {
        var _ := GetTypeFromSig(cursor, classArgs, methodArgs, prims, tokens, c);
        id := Some(prims[TYPE_INTPTR]);
      } else if entry == 0x15 {
        id := GetGenericTypeFromSig(cursor, classArgs, methodArgs, prims, tokens, parsed, c);
      } else if entry == 0x1d {
        id := GetVectorType(cursor, classArgs, methodArgs, prims, tokens, parsed, c);
      } else {
        id := GetSimpleType(entry, cursor, classArgs, methodArgs, prims, tokens, parsed, c);
      }
    }

    // Behind an element type that no other type follows.
    method GetSimpleType(entry: nat, cursor: Cursor, classArgs: Option<seq<TypeId>>, methodArgs: Option<seq<TypeId>>,
                         prims: map<nat, nat>, tokens: map<nat, nat>, ghost parsed: Parsed, ghost c: Context)
      returns (id: TypeId)
      requires table.Valid() && c.prims == prims && c.tokens == tokens && Fits(table.defs, c, classArgs, methodArgs)
      requires entry < 0x80 && entry !in {0x10, 0x15, 0x1d}
      requires ParseSig([entry] + cursor.rest) == Some(parsed) && Closed(parsed.sig, c)
      modifies cursor
      ensures cursor.rest == parsed.rest
      ensures ReadAs(table.defs, id, |table.defs|, parsed.sig, c)
    {
      CodeEntry(entry, cursor.rest);
      if entry == 0x01 {
        id := None;
      } else if IsPrim(entry) {
        id := Some(prims[entry]);
      } else if entry == 0x0f {
        id := Some(prims[TYPE_UINTPTR]);
      } else if entry == 0x11 || entry == 0x12 {
        var token := cursor.DecodeSigEntryToken();
        id := Some(tokens[token]);
      } else if entry == 0x13 {
        var n := cursor.DecodeSigEntry();
        id := if classArgs.None? then None else classArgs.value[n];
      } else {
        var n := cursor.DecodeSigEntry();
        id := if methodArgs.None? then None else methodArgs.value[n];
      }
    }

    // Behind the element type that announces a vector.
    method GetVectorType(cursor: Cursor, classArgs: Option<seq<TypeId>>, methodArgs: Option<seq<TypeId>>, prims: map<nat, nat>,
                         tokens: map<nat, nat>, ghost parsed: Parsed, ghost c: Context)
      returns (id: TypeId)
      requires table.Valid() && c.prims == prims && c.tokens == tokens && c.arrayNoType == table.arrayNoType
      requires Fits(table.defs, c, classArgs, methodArgs)
      requires ParseSig([0x1d] + cursor.rest) == Some(parsed) && Closed(parsed.sig, c)
      modifies cursor, table`arrays, table`chains, table`count, table`defs
      ensures table.Valid() && old(table.defs) <= table.defs
      ensures cursor.rest == parsed.rest
      ensures ReadAs(table.defs, id, |table.defs|, parsed.sig, c)
      decreases |cursor.rest|, 2
    {
      CodeEntry(0x1d, cursor.rest);
      var element := GetTypeFromSig(cursor, classArgs, methodArgs, prims, tokens, c);
      ghost var before := table.defs;
      var vector := table.GetArrayTypeDef(element, if element.Some? then building(WantArray(element)) else NoMore);
      TypeStays(before, table.defs, element);
      id := Some(vector);
    }

    // Generics_GetGenericTypeFromSig, behind the element type that announces an instance.
    method GetGenericTypeFromSig(cursor: Cursor, classArgs: Option<seq<TypeId>>, methodArgs: Option<seq<TypeId>>,
                                 prims: map<nat, nat>, tokens: map<nat, nat>, ghost parsed: Parsed, ghost c: Context)
      returns (id: TypeId)
      requires table.Valid() && c.prims == prims && c.tokens == tokens && c.arrayNoType == table.arrayNoType
      requires Fits(table.defs, c, classArgs, methodArgs)
      requires ParseSig([0x15] + cursor.rest) == Some(parsed) && Closed(parsed.sig, c)
      modifies cursor, table`arrays, table`chains, table`count, table`defs
      ensures table.Valid() && old(table.defs) <= table.defs
      ensures cursor.rest == parsed.rest
      ensures ReadAs(table.defs, id, |table.defs|, parsed.sig, c)
      decreases |cursor.rest|, 2
    {
      CodeEntry(0x15, cursor.rest);
      ghost var before := table.defs;
      var core := GetTypeFromSig(cursor, classArgs, methodArgs, prims, tokens, c);
      CoreFound(table.defs, core, parsed.sig.core, c);
      StillFits(before, table.defs, c, classArgs, methodArgs);
      var args := ReadArguments(core.value, cursor, classArgs, methodArgs, prims, tokens, parsed, c);
      before := table.defs;
      OneByOne(before, args, |before|, parsed.sig.args, c);
      var instance := table.GetInstance(core.value, args, building(WantInstance(core.value, args)));
      InstanceFound(before, table.defs, instance, core.value, args, parsed.sig, c);
      id := Some(instance);
    }

    // A type that is mentioned is filled in.
    method Fill(id: nat, classArgs: Option<seq<TypeId>>, methodArgs: Option<seq<TypeId>>, core: nat, args: seq<TypeId>,
                ghost s: Sig, ghost c: Context)
      requires table.Valid() && Progress(table.defs, classArgs, methodArgs, core, args, s, c)
      modifies table`arrays, table`chains, table`count, table`defs
      ensures table.Valid() && old(table.defs) <= table.defs && Progress(table.defs, classArgs, methodArgs, core, args, s, c)
      decreases 0
    {
      table.Build(filling(id));
      StillInProgress(old(table.defs), table.defs, classArgs, methodArgs, core, args, s, c);
    }

    // The core type is filled in, and so is every argument.
    method ReadArguments(core: nat, cursor: Cursor, classArgs: Option<seq<TypeId>>, methodArgs: Option<seq<TypeId>>,
                         prims: map<nat, nat>, tokens: map<nat, nat>, ghost parsed: Parsed, ghost c: Context)
      returns (args: seq<TypeId>)
      requires table.Valid() && c.prims == prims && c.tokens == tokens && c.arrayNoType == table.arrayNoType
      requires parsed.sig.Instance? && AllClosed(parsed.sig.args, c) && ParsesArguments(cursor.rest, parsed)
      requires Progress(table.defs, classArgs, methodArgs, core, [], parsed.sig, c)
      modifies cursor, table`arrays, table`chains, table`count, table`defs
      ensures table.Valid() && old(table.defs) <= table.defs && cursor.rest == parsed.rest
      ensures Progress(table.defs, classArgs, methodArgs, core, args, parsed.sig, c) && |args| == Length(parsed.sig.args)
      decreases |cursor.rest|, 1
    {
      Fill(core, classArgs, methodArgs, core, [], parsed.sig, c);
      var numTypeArgs := cursor.DecodeSigEntry();
      ParsedLength(cursor.rest, numTypeArgs);
      args := [];
      for i := 0 to numTypeArgs
        invariant |args| == i && table.Valid() && old(table.defs) <= table.defs
        invariant |cursor.rest| < |old(cursor.rest)|
        invariant ParseSigs(cursor.rest, numTypeArgs - i) == Some(ParsedList(DropFirst(parsed.sig.args, i), parsed.rest))
        invariant Progress(table.defs, classArgs, methodArgs, core, args, parsed.sig, c)
      {
        args := ReadArgument(numTypeArgs - i, args, core, cursor, classArgs, methodArgs, prims, tokens, parsed, c);
      }
    }

    // The next of the arguments, of which some are still to come.
    method ReadArgument(toCome: nat, before: seq<TypeId>, core: nat, cursor: Cursor, classArgs: Option<seq<TypeId>>,
                        methodArgs: Option<seq<TypeId>>, prims: map<nat, nat>, tokens: map<nat, nat>, ghost parsed: Parsed,
                        ghost c: Context)
      returns (args: seq<TypeId>)
      requires table.Valid() && c.prims == prims && c.tokens == tokens && c.arrayNoType == table.arrayNoType
      requires parsed.sig.Instance? && AllClosed(parsed.sig.args, c) && |before| < Length(parsed.sig.args) && toCome > 0
      requires Progress(table.defs, classArgs, methodArgs, core, before, parsed.sig, c)
      requires ParseSigs(cursor.rest, toCome) == Some(ParsedList(DropFirst(parsed.sig.args, |before|), parsed.rest))
      modifies cursor, table`arrays, table`chains, table`count, table`defs
      ensures table.Valid() && old(table.defs) <= table.defs && |cursor.rest| < |old(cursor.rest)|
      ensures |args| == |before| + 1 && Progress(table.defs, classArgs, methodArgs, core, args, parsed.sig, c)
      ensures ParseSigs(cursor.rest, toCome - 1) == Some(ParsedList(DropFirst(parsed.sig.args, |args|), parsed.rest))
      decreases |cursor.rest|, 2
    {
      DropOne(parsed.sig.args, |before|);
      NthClosed(parsed.sig.args, |before|, c);
      var id := GetTypeFromSig(cursor, classArgs, methodArgs, prims, tokens, c);
      OneMoreRead(old(table.defs), table.defs, classArgs, methodArgs, core, before, id, parsed.sig, c);
      args := before + [id];
      if id.Some? {
        Fill(id.value, classArgs, methodArgs, core, args, parsed.sig, c);
      }
    }
  }
}
