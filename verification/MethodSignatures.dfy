/**
 Method signatures: how they are read when a method is filled in, and how two methods are compared by name and
 signature, which decides what overrides what.
 */
module MethodSignatures {
  import opened Options
  import opened Signatures
  import opened TypeTable
  import opened TypeIdentity
  import opened SignatureReader

  // The type that a method returns, and then those of its parameters. Only a generic method tells how many
  // arguments it takes for its variables.
  datatype MethodSig = MethodSig(callConv: nat, generics: nat, types: Sigs)
  datatype ParsedMethod = ParsedMethod(sig: MethodSig, rest: seq<Byte>)

  function ParseMethod(b: seq<Byte>): (r: Option<ParsedMethod>)
    ensures r.Some? ==> r.value.sig.types.Cons?
  {
    match DecodeEntry(b)
    case None => None
    case Some(conv) =>
      if IsGeneric(conv.value) then (
        match DecodeEntry(conv.rest)
        case None => None
        case Some(n) => ParseTypes(conv.value, n.value, n.rest)
      ) else ParseTypes(conv.value, 0, conv.rest)
  }

  function ParseTypes(callConv: nat, generics: nat, b: seq<Byte>): (r: Option<ParsedMethod>)
    ensures r.Some? ==> r.value.sig.types.Cons?
  {
    match DecodeEntry(b)
    case None => None
    case Some(count) =>
      match ParseSigs(count.rest, count.value + 1)
      case None => None
      case Some(types) => Some(ParsedMethod(MethodSig(callConv, generics, types.sigs), types.rest))
  }

  // ---------------------------------------------------------------- printing

  predicate PrintableMethod(m: MethodSig) {
    PrintableMethodTypes(m.callConv, m.generics, m.types) && AllPrintable(m.types)
  }

  // Section II.23.2.1 of ECMA-335.
  function PrintMethod(m: MethodSig): seq<Byte>
    requires PrintableMethod(m)
  {
    PrintConvention(m.callConv, m.generics) + PrintTypes(m.types)
  }

  lemma TypesRoundTrip(callConv: nat, generics: nat, types: Sigs, rest: seq<Byte>)
    requires types.Cons? && Length(types.tail) < MAX_ENTRY && AllPrintable(types) && AllReadable(types)
    ensures ParseTypes(callConv, generics, PrintTypes(types) + rest) ==
            Some(ParsedMethod(MethodSig(callConv, generics, types), rest))
  {
    var behind := PrintAll(types) + rest;
    CompressedEntry(Length(types.tail), behind, 0);
    RoundTripAll(types, rest);
    Regroup(Compress(Length(types.tail)), PrintAll(types), rest);
  }

  // Reading a printed signature gives it back and stops exactly behind it, if and only if nothing occurs in it that the
  // reader does not yield.
  lemma MethodRoundTrip(m: MethodSig, rest: seq<Byte>)
    requires PrintableMethod(m)
    ensures ParseMethod(PrintMethod(m) + rest) == Some(ParsedMethod(m, rest)) <==> AllReadable(m.types)
  {
    if AllReadable(m.types) {
      MethodIsReadBack(m, rest);
    } else if ParseMethod(PrintMethod(m) + rest) == Some(ParsedMethod(m, rest)) {
      MethodReadIsReadable(PrintMethod(m) + rest);
    }
  }

  lemma MethodIsReadBack(m: MethodSig, rest: seq<Byte>)
    requires PrintableMethod(m) && AllReadable(m.types)
    ensures ParseMethod(PrintMethod(m) + rest) == Some(ParsedMethod(m, rest))
  {
    var types := PrintTypes(m.types);
    TypesRoundTrip(m.callConv, m.generics, m.types, rest);
    var generics := if IsGeneric(m.callConv) then Compress(m.generics) else [];
    CompressedEntry(m.callConv, generics + (types + rest), 0);
    Regroup(Compress(m.callConv) + generics, types, rest);
    Regroup(Compress(m.callConv), generics, types + rest);
    if IsGeneric(m.callConv) {
      CompressedEntry(m.generics, types + rest, 0);
    } else {
      assert generics + (types + rest) == types + rest;
    }
  }

  // Without pointers, anything else makes the reader crash.
  lemma MethodCrashes(m: MethodSig, rest: seq<Byte>)
    requires PrintableMethod(m) && AllWithoutPointers(m.types) && !AllReadable(m.types)
    ensures ParseMethod(PrintMethod(m) + rest).None?
  {
    var types, behind := PrintTypes(m.types), PrintAll(m.types) + rest;
    AllCrash(m.types, rest);
    CompressedEntry(Length(m.types.tail), behind, 0);
    Regroup(Compress(Length(m.types.tail)), PrintAll(m.types), rest);
    assert ParseTypes(m.callConv, m.generics, types + rest).None?;
    var generics := if IsGeneric(m.callConv) then Compress(m.generics) else [];
    CompressedEntry(m.callConv, generics + (types + rest), 0);
    Regroup(Compress(m.callConv) + generics, types, rest);
    Regroup(Compress(m.callConv), generics, types + rest);
    if IsGeneric(m.callConv) {
      CompressedEntry(m.generics, types + rest, 0);
    } else {
      assert generics + (types + rest) == types + rest;
    }
  }

  // Exactly the conventions with the bit 0x10, which are the numbers whose remainder by 32 is at least 16, have the number of
  // variables behind them: here in front of no parameter and the type void.
  lemma ConventionsRead(conv: Byte, n: Byte, rest: seq<Byte>)
    requires conv < 0x80 && n < 0x80
    ensures conv % 32 >= 16 ==>
      ParseMethod([conv, n, 0x00, 0x01] + rest) == Some(ParsedMethod(MethodSig(conv, n, Cons(Void, Nil)), rest))
    ensures conv % 32 < 16 ==>
      ParseMethod([conv, 0x00, 0x01] + rest) == Some(ParsedMethod(MethodSig(conv, 0, Cons(Void, Nil)), rest))
  {
    var generic := conv % 32 >= 16;
    var types := [0x00, 0x01] + rest;
    var behind := if generic then [n] + types else types;
    assert generic ==> [conv, n, 0x00, 0x01] + rest == [conv] + behind;
    assert !generic ==> [conv, 0x00, 0x01] + rest == [conv] + behind;
    ReadsVoid(conv, if generic then n else 0, rest);
    ReadsConvention(conv, n, types, behind);
  }

  lemma ReadsConvention(conv: Byte, n: Byte, types: seq<Byte>, behind: seq<Byte>)
    requires conv < 0x80 && n < 0x80 && behind == if conv % 32 >= 16 then [n] + types else types
    ensures ParseMethod([conv] + behind) == ParseTypes(conv, if conv % 32 >= 16 then n else 0, types)
  {
    assert ([conv] + behind)[1..] == behind;
    assert DecodeEntry([conv] + behind) == Some(Entry(conv, behind));
    assert IsGeneric(conv) <==> conv % 32 >= 16;
    if IsGeneric(conv) {
      assert behind[1..] == types;
      assert DecodeEntry(behind) == Some(Entry(n, types));
    }
  }

  lemma ReadsVoid(conv: nat, n: nat, rest: seq<Byte>)
    ensures ParseTypes(conv, n, [0x00, 0x01] + rest) == Some(ParsedMethod(MethodSig(conv, n, Cons(Void, Nil)), rest))
  {
    assert ([0x00, 0x01] + rest)[1..] == [0x01] + rest;
    assert ([0x01] + rest)[1..] == rest;
    assert DecodeEntry([0x01] + rest) == Some(Entry(1, rest));
    assert ParseSig([0x01] + rest) == Some(Parsed(Void, rest));
    assert ParseSigs(rest, 0) == Some(ParsedList(Nil, rest));
    assert ParseSigs([0x01] + rest, 1) == Some(ParsedList(Cons(Void, Nil), rest));
  }

  // void M(int32[,]).
  const ARRAY_PARAMETER := MethodSig(0x00, 0, Cons(Void, Cons(General(Prim(0x08), Shape(2, [], [])), Nil)))

  lemma ArrayParameterPrinted()
    ensures PrintableMethod(ARRAY_PARAMETER)
    ensures PrintMethod(ARRAY_PARAMETER) == [0x00, 0x01, 0x01, 0x14, 0x08, 0x02, 0x00, 0x00]
  {
    var s := ARRAY_PARAMETER.types.tail.head;
    assert PrintShape(s.shape) == [0x02, 0x00, 0x00];
    assert PrintAll(Cons(s, Nil)) == Print(s) == [0x14, 0x08, 0x02, 0x00, 0x00];
    assert PrintAll(ARRAY_PARAMETER.types) == [0x01] + Print(s);
    assert PrintTypes(ARRAY_PARAMETER.types) == [0x01, 0x01] + Print(s);
  }

  // An example.
  lemma ArrayParameterCrashes()
    ensures PrintableMethod(ARRAY_PARAMETER) && ParseMethod(PrintMethod(ARRAY_PARAMETER)).None?
  {
    ArrayParameterPrinted();
    MethodCrashes(ARRAY_PARAMETER, []);
    assert PrintMethod(ARRAY_PARAMETER) + [] == PrintMethod(ARRAY_PARAMETER);
  }

  lemma MethodReadIsReadable(b: seq<Byte>)
    requires ParseMethod(b).Some?
    ensures AllReadable(ParseMethod(b).value.sig.types)
  {
    var conv := DecodeEntry(b).value;
    var behind := if IsGeneric(conv.value) then DecodeEntry(conv.rest).value.rest else conv.rest;
    var count := DecodeEntry(behind).value;
    AllReadIsReadable(count.rest, count.value + 1);
  }

  // ---------------------------------------------------------------- comparing

  // What the comparison of two methods goes by. The variables of the method are not looked up: they are all null.
  datatype Key = Key(name: string, callConv: nat, generics: nat, types: Types)

  function KeyOf(name: string, m: MethodSig, c: Context): Key {
    Key(name, m.callConv, m.generics, Meanings(m.types, c.(methodArgs := None)))
  }

  // Whatever arguments the variables of the method have.
  lemma ArgumentsPlayNoPart(name: string, m: MethodSig, c: Context, args: Option<seq<Type>>)
    ensures KeyOf(name, m, c.(methodArgs := args)) == KeyOf(name, m, c)
  {
  }

  lemma {:induction false} SameLength(s: Sigs, c: Context, t: Sigs, d: Context)
    requires Meanings(s, c) == Meanings(t, d)
    ensures Length(s) == Length(t)
    decreases s
  {
    if s.Cons? {
      SameLength(s.tail, c, t.tail, d);
    }
  }

  predicate AlikeSignature(m: MethodSig, c: Context, n: MethodSig, d: Context) {
    m.callConv == n.callConv && m.generics == n.generics && AllAlike(m.types, c, n.types, d)
  }

  predicate SameSignature(m: MethodSig, c: Context, n: MethodSig, d: Context) {
    m.callConv == n.callConv && m.generics == n.generics && AllSame(m.types, c, n.types, d)
  }

  // Whatever occurs in their signatures, two methods compare equal exactly when they have the same name and signatures
  // that are alike: equal when void and variables are erased to nothing, and arrays of nothing to a name.
  lemma KeysAreErasedSignatures(name: string, m: MethodSig, c: Context, other: string, n: MethodSig, d: Context)
    requires c.methodArgs.None? && d.methodArgs.None? && c.arrayNoType == d.arrayNoType
    requires AllClosed(m.types, c) && AllClosed(n.types, d)
    ensures KeyOf(name, m, c) == KeyOf(other, n, d) <==> name == other && AlikeSignature(m, c, n, d)
  {
    AlikeMeanings(m.types, c, n.types, d);
    assert c.(methodArgs := None) == c && d.(methodArgs := None) == d;
  }

  // A signature as the standard allows it: void is returned or nowhere, and the variables of the method are declared. Where
  // classes are open, a variable of the class whose argument is not known may occur.
  predicate WellFormedMethod(m: MethodSig, open: bool, c: Context) {
    && (IsGeneric(m.callConv) <==> m.generics > 0)
    && m.types.Cons? && (m.types.head.Void? || WellFormed(m.types.head, m.generics, open, c))
    && AllWellFormed(m.types.tail, m.generics, open, c)
  }

  // Of the well-formed methods whoever compares equal to this one has the same signature.
  ghost predicate ComparesExactly(name: string, m: MethodSig, open: bool, c: Context) {
    forall n: MethodSig, d: Context ::
      d.methodArgs.None? && c.arrayNoType == d.arrayNoType && AllClosed(n.types, d) && WellFormedMethod(n, open, d)
      && KeyOf(name, m, c) == KeyOf(name, n, d) ==>
        SameSignature(m, c, n, d)
  }

  // Nothing in the signature can be taken for anything else. For void returned that is a variable returned, and the other
  // way round.
  predicate CertainMethod(m: MethodSig, open: bool, c: Context)
    requires m.types.Cons?
  {
    var s := m.types.head;
    && (if s.Void? then m.generics == 0 && !open else !Blank(s, c) && Certain(s, m.generics, open, c))
    && AllCertain(m.types.tail, m.generics, open, c)
  }

  lemma ReturnsCertainlySame(s: Sig, c: Context, t: Sig, d: Context, generics: nat, open: bool)
    requires Closed(s, c) && Closed(t, d) && c.arrayNoType == d.arrayNoType && c.methodArgs.None? && d.methodArgs.None?
    requires s.Void? || WellFormed(s, generics, open, c)
    requires t.Void? || WellFormed(t, generics, open, d)
    requires if s.Void? then generics == 0 && !open else !Blank(s, c) && Certain(s, generics, open, c)
    requires Alike(s, c, t, d)
    ensures Same(s, c, t, d)
  {
    ShapeOfMeaning(s, c);
    ShapeOfMeaning(t, d);
    if !s.Void? && !t.Void? {
      CertainlySame(s, c, t, d, generics, open);
    }
  }

  function DisguiseReturn(s: Sig, generics: nat, open: bool, c: Context, token: nat): Sig
    requires Closed(s, c) && (s.Void? || WellFormed(s, generics, open, c))
    requires if s.Void? then generics > 0 || open else Blank(s, c) || !Certain(s, generics, open, c)
  {
    if s.Void? then AnotherVariable(s, generics, open, c)
    else if Blank(s, c) then Void
    else Disguise(s, generics, open, c, token)
  }

  function DisguiseMethod(m: MethodSig, open: bool, c: Context, token: nat): MethodSig
    requires AllClosed(m.types, c) && WellFormedMethod(m, open, c) && !CertainMethod(m, open, c)
  {
    var s := m.types.head;
    m.(types :=
      if if s.Void? then m.generics > 0 || open else Blank(s, c) || !Certain(s, m.generics, open, c) then
        Cons(DisguiseReturn(s, m.generics, open, c, token), m.types.tail)
      else Cons(s, DisguiseFirst(m.types.tail, m.generics, open, c, token)))
  }

  lemma DisguisedReturn(s: Sig, generics: nat, open: bool, c: Context, token: nat)
    requires Closed(s, c) && c.methodArgs.None? && (s.Void? || WellFormed(s, generics, open, c)) && token !in c.tokens
    requires if s.Void? then generics > 0 || open else Blank(s, c) || !Certain(s, generics, open, c)
    ensures
      var r, d := DisguiseReturn(s, generics, open, c, token), Elsewhere(c, token);
      && Closed(r, d) && (r.Void? || WellFormed(r, generics, open, d))
      && Meaning(r, d) == Meaning(s, c) && !Same(s, c, r, d)
  {
    ShapeOfMeaning(s, c);
    if s.Void? {
      VariableElsewhere(s, generics, open, c, token);
    } else if !Blank(s, c) {
      DisguiseMeansTheSame(s, generics, open, c, token);
    }
  }

  lemma DisguisedMethod(m: MethodSig, open: bool, c: Context, token: nat)
    requires c.methodArgs.None? && AllClosed(m.types, c) && WellFormedMethod(m, open, c) && !CertainMethod(m, open, c)
    requires token !in c.tokens
    ensures
      var n, d := DisguiseMethod(m, open, c, token), Elsewhere(c, token);
      && AllClosed(n.types, d) && WellFormedMethod(n, open, d)
      && Meanings(n.types, d) == Meanings(m.types, c) && !SameSignature(m, c, n, d)
  {
    var s, d := m.types.head, Elsewhere(c, token);
    if if s.Void? then m.generics > 0 || open else Blank(s, c) || !Certain(s, m.generics, open, c) {
      DisguisedReturn(s, m.generics, open, c, token);
      MeanTheSameElsewhere(m.types.tail, c, token);
      AllWellFormedElsewhere(m.types.tail, m.generics, open, c, token);
    } else {
      MeansTheSameElsewhere(s, c, token);
      if !s.Void? {
        WellFormedElsewhere(s, m.generics, open, c, token);
      }
      DisguisedMeanTheSame(m.types.tail, m.generics, open, c, token);
    }
  }

  // There is always a token that is not taken.
  lemma {:induction false} FreeToken(taken: set<nat>) returns (token: nat)
    ensures forall k <- taken :: k < token
    decreases |taken|
  {
    if taken == {} {
      token := 0;
    } else {
      var k :| k in taken;
      var rest := FreeToken(taken - {k});
      token := if k < rest then rest else k + 1;
      forall i | i in taken ensures i < token {
        assert i == k || i in taken - {k};
      }
    }
  }

  // The comparison tells a well-formed method from every other one exactly when nothing in its signature can be taken for
  // anything else.
  lemma ComparesExactlyWhenCertain(name: string, m: MethodSig, open: bool, c: Context)
    requires c.methodArgs.None? && AllClosed(m.types, c) && WellFormedMethod(m, open, c)
    ensures ComparesExactly(name, m, open, c) <==> CertainMethod(m, open, c)
  {
    assert c.(methodArgs := None) == c;
    if CertainMethod(m, open, c) {
      forall n: MethodSig, d: Context | d.methodArgs.None? && c.arrayNoType == d.arrayNoType && AllClosed(n.types, d)
                                        && WellFormedMethod(n, open, d) && KeyOf(name, m, c) == KeyOf(name, n, d)
        ensures SameSignature(m, c, n, d)
      {
        KeysAreErasedSignatures(name, m, c, name, n, d);
        ReturnsCertainlySame(m.types.head, c, n.types.head, d, m.generics, open);
        AllCertainlySame(m.types.tail, c, n.types.tail, d, m.generics, open);
      }
    } else {
      var token := FreeToken(c.tokens.Keys);
      DisguisedMethod(m, open, c, token);
      var n, d := DisguiseMethod(m, open, c, token), Elsewhere(c, token);
      assert d.(methodArgs := None) == d;
      assert KeyOf(name, m, c) == KeyOf(name, n, d) && !SameSignature(m, c, n, d);
    }
  }

  // So methods without variables of their own are told apart where the arguments of all classes are known.
  lemma WithoutVariablesComparesExactly(name: string, m: MethodSig, c: Context)
    requires c.methodArgs.None? && AllClosed(m.types, c) && WellFormedMethod(m, false, c) && m.generics == 0
    ensures ComparesExactly(name, m, false, c)
  {
    if !m.types.head.Void? {
      CertainWithoutVariables(m.types.head, c);
    }
    AllCertainWithoutVariables(m.types.tail, c);
    ComparesExactlyWhenCertain(name, m, false, c);
  }

  lemma {:induction false} CertainWithoutVariables(s: Sig, c: Context)
    requires WellFormed(s, 0, false, c)
    ensures Certain(s, 0, false, c) && !Blank(s, c)
    decreases s
  {
    match s
    case Instance(_, args) => AllCertainWithoutVariables(args, c);
    case Vector(element) => CertainWithoutVariables(element, c);
    case _ =>
  }

  lemma {:induction false} AllCertainWithoutVariables(s: Sigs, c: Context)
    requires AllWellFormed(s, 0, false, c)
    ensures AllCertain(s, 0, false, c)
    decreases s
  {
    if s.Cons? {
      CertainWithoutVariables(s.head, c);
      AllCertainWithoutVariables(s.tail, c);
    }
  }

  // Nothing returned, or something known.
  predicate GroundMethod(m: MethodSig) {
    m.types.Cons? && GroundOrVoid(m.types.head) && AllGround(m.types.tail)
  }

  predicate GroundOrVoid(s: Sig) {
    s.Void? || Ground(s)
  }

  lemma SameReturn(s: Sig, c: Context, t: Sig, d: Context)
    requires GroundOrVoid(s) && GroundOrVoid(t) && Closed(s, c) && Closed(t, d)
    ensures Meaning(s, c) == Meaning(t, d) <==> Same(s, c, t, d)
  {
    if !s.Void? {
      GroundMeans(s, c);
    }
    if !t.Void? {
      GroundMeans(t, d);
    }
    if !s.Void? && !t.Void? {
      SameMeaning(s, c, t, d);
    }
  }

  // Two methods neither of which uses variables compare equal exactly when they have the same name and structurally the
  // same signature.
  lemma KeysAreSignatures(name: string, m: MethodSig, c: Context, other: string, n: MethodSig, d: Context)
    requires GroundMethod(m) && GroundMethod(n) && c.methodArgs.None? && d.methodArgs.None?
    requires AllClosed(m.types, c) && AllClosed(n.types, d)
    ensures KeyOf(name, m, c) == KeyOf(other, n, d) <==> name == other && SameSignature(m, c, n, d)
  {
    SameReturn(m.types.head, c, n.types.head, d);
    SameMeanings(m.types.tail, c, n.types.tail, d);
    assert Meanings(m.types, c) == MoreTypes(Meaning(m.types.head, c), Meanings(m.types.tail, c));
    assert Meanings(n.types, d) == MoreTypes(Meaning(n.types.head, d), Meanings(n.types.tail, d));
    assert c.(methodArgs := None) == c && d.(methodArgs := None) == d;
  }

  // Well-formed methods that compare equal although their signatures differ.
  predicate Confused(name: string, m: MethodSig, n: MethodSig, open: bool, c: Context) {
    && WellFormedMethod(m, open, c) && WellFormedMethod(n, open, c)
    && KeyOf(name, m, c) == KeyOf(name, n, c) && !SameSignature(m, c, n, c)
  }

  // Four pairs: void M<A, B>(A) and void M<A, B>(B), void M<A>() and A M<A>(), void M<A>(A[]) and void M<A>(System.Array),
  // and, in a class whose argument T is not known, void M() and T M().
  lemma VariablesCompareEqual(name: string, c: Context, token: nat)
    requires c.methodArgs.None? && token in c.tokens && c.tokens[token] == c.arrayNoType
    ensures Confused(name, MethodSig(0x30, 2, Cons(Void, Cons(MVar(0), Nil))),
                     MethodSig(0x30, 2, Cons(Void, Cons(MVar(1), Nil))), false, c)
    ensures Confused(name, MethodSig(0x30, 1, Cons(Void, Nil)), MethodSig(0x30, 1, Cons(MVar(0), Nil)), false, c)
    ensures Confused(name, MethodSig(0x30, 1, Cons(Void, Cons(Vector(MVar(0)), Nil))),
                     MethodSig(0x30, 1, Cons(Void, Cons(Named(false, token), Nil))), false, c)
    ensures c.classArgs.None? ==>
      Confused(name, MethodSig(0x20, 0, Cons(Void, Nil)), MethodSig(0x20, 0, Cons(Var(0), Nil)), true, c)
  {
    assert c.(methodArgs := None) == c;
    assert Meaning(MVar(0), c) == Meaning(MVar(1), c) == Meaning(Void, c) == Null;
    assert Meaning(Vector(MVar(0)), c) == Core(c.arrayNoType) == Meaning(Named(false, token), c);
    assert WellFormed(MVar(0), 1, false, c) && WellFormed(Vector(MVar(0)), 1, false, c);
    OneType(MVar(0), MVar(1), c);
    OneType(Void, MVar(0), c);
    OneType(Vector(MVar(0)), Named(false, token), c);
    if c.classArgs.None? {
      OneType(Void, Var(0), c);
    }
  }

  lemma OneType(s: Sig, t: Sig, c: Context)
    requires Meaning(s, c) == Meaning(t, c)
    ensures Meanings(Cons(s, Nil), c) == Meanings(Cons(t, Nil), c)
    ensures Meanings(Cons(Void, Cons(s, Nil)), c) == Meanings(Cons(Void, Cons(t, Nil)), c)
    ensures AllSame(Cons(s, Nil), c, Cons(t, Nil), c) <==> Same(s, c, t, c)
    ensures AllSame(Cons(Void, Cons(s, Nil)), c, Cons(Void, Cons(t, Nil)), c) <==> Same(s, c, t, c)
  {
    assert Meanings(Cons(s, Nil), c) == MoreTypes(Meaning(s, c), NoTypes);
    assert Meanings(Cons(t, Nil), c) == MoreTypes(Meaning(t, c), NoTypes);
    assert AllSame(Cons(s, Nil), c, Cons(t, Nil), c) <==> Same(s, c, t, c) && AllSame(Nil, c, Nil, c);
  }

  // ---------------------------------------------------------------- the comparison as it is done

  // One of the two methods: its signature, and what its types depend on.
  datatype Side = Side(
    blob: seq<Byte>, prims: map<nat, nat>, tokens: map<nat, nat>, classArgs: Option<seq<TypeId>>, methodArgs: Option<seq<TypeId>>)

  ghost predicate Describes(defs: seq<Def>, arrayNoType: nat, side: Side, c: Context)
    requires WellFounded(defs)
  {
    && c.prims == side.prims && c.tokens == side.tokens && c.arrayNoType == arrayNoType
    && Fits(defs, c, side.classArgs, side.methodArgs)
  }

  lemma StillDescribes(defs: seq<Def>, more: seq<Def>, arrayNoType: nat, side: Side, c: Context)
    requires WellFounded(defs) && WellFounded(more) && defs <= more && Describes(defs, arrayNoType, side, c)
    ensures Describes(more, arrayNoType, side, c)
  {
    StillFits(defs, more, c, side.classArgs, side.methodArgs);
  }

  // The types that are left to read.
  ghost predicate LeftToRead(b: seq<Byte>, left: Sigs, c: Context) {
    ParseSigs(b, Length(left)).Some? && ParseSigs(b, Length(left)).value.sigs == left && AllClosed(left, c)
  }

  // The next type of a method.
  method ReadNext(reader: Reader, cursor: Cursor, side: Side, ghost left: Sigs, ghost c: Context) returns (id: TypeId)
    requires reader.table.Valid() && Describes(reader.table.defs, reader.table.arrayNoType, side, c)
    requires LeftToRead(cursor.rest, left, c) && left.Cons?
    modifies cursor, reader.table`arrays, reader.table`chains, reader.table`count, reader.table`defs
    ensures reader.table.Valid() && old(reader.table.defs) <= reader.table.defs
    ensures Describes(reader.table.defs, reader.table.arrayNoType, side, c)
    ensures LeftToRead(cursor.rest, left.tail, c)
    ensures ReadAs(reader.table.defs, id, |reader.table.defs|, left.head, c)
  {
    id := reader.GetTypeFromSig(cursor, side.classArgs, side.methodArgs, side.prims, side.tokens, c);
    StillDescribes(old(reader.table.defs), reader.table.defs, reader.table.arrayNoType, side, c);
  }

  ghost predicate BothDescribed(defs: seq<Def>, arrayNoType: nat, side: Side, c: Context, other: Side, d: Context)
    requires WellFounded(defs)
  {
    Describes(defs, arrayNoType, side, c) && Describes(defs, arrayNoType, other, d)
  }

  // The next type of each method: their addresses are compared.
  method CompareNext(reader: Reader, cursor: Cursor, side: Side, ghost s: Sigs, ghost c: Context,
                     otherCursor: Cursor, other: Side, ghost t: Sigs, ghost d: Context)
    returns (equal: bool)
    requires reader.table.Valid() && cursor != otherCursor
    requires BothDescribed(reader.table.defs, reader.table.arrayNoType, side, c, other, d)
    requires LeftToRead(cursor.rest, s, c) && LeftToRead(otherCursor.rest, t, d) && s.Cons? && t.Cons?
    modifies cursor, otherCursor, reader.table`arrays, reader.table`chains, reader.table`count, reader.table`defs
    ensures reader.table.Valid() && old(reader.table.defs) <= reader.table.defs
    ensures BothDescribed(reader.table.defs, reader.table.arrayNoType, side, c, other, d)
    ensures LeftToRead(cursor.rest, s.tail, c) && LeftToRead(otherCursor.rest, t.tail, d)
    ensures equal <==> Meaning(s.head, c) == Meaning(t.head, d)
  {
    var id := ReadNext(reader, cursor, side, s, c);
    ghost var before := reader.table.defs;
    StillDescribes(old(reader.table.defs), before, reader.table.arrayNoType, other, d);
    var otherId := ReadNext(reader, otherCursor, other, t, d);
    StillReadAs(before, reader.table.defs, id, s.head, c);
    StillDescribes(before, reader.table.defs, reader.table.arrayNoType, side, c);
    AddressesDecide(reader.table.defs, id, otherId);
    equal := id == otherId;
  }

  // Both methods have so many types: they are read and compared one by one.
  method CompareTypes(reader: Reader, paramCount: nat, cursor: Cursor, side: Side, ghost s: Sigs, ghost c: Context,
                      otherCursor: Cursor, other: Side, ghost t: Sigs, ghost d: Context)
    returns (same: bool)
    requires reader.table.Valid() && cursor != otherCursor
    requires BothDescribed(reader.table.defs, reader.table.arrayNoType, side, c, other, d)
    requires LeftToRead(cursor.rest, s, c) && LeftToRead(otherCursor.rest, t, d) && Length(s) == Length(t) == paramCount
    modifies cursor, otherCursor, reader.table`arrays, reader.table`chains, reader.table`count, reader.table`defs
    ensures reader.table.Valid() && old(reader.table.defs) <= reader.table.defs
    ensures same <==> Meanings(s, c) == Meanings(t, d)
  {
    ghost var left, otherLeft := s, t;
    for i := 0 to paramCount
      invariant reader.table.Valid() && old(reader.table.defs) <= reader.table.defs
      invariant BothDescribed(reader.table.defs, reader.table.arrayNoType, side, c, other, d)
      invariant LeftToRead(cursor.rest, left, c) && LeftToRead(otherCursor.rest, otherLeft, d)
      invariant Length(left) == Length(otherLeft) == paramCount - i
      invariant Meanings(left, c) == Meanings(otherLeft, d) <==> Meanings(s, c) == Meanings(t, d)
    {
      var equal := CompareNext(reader, cursor, side, left, c, otherCursor, other, otherLeft, d);
      if !equal {
        return false;
      }
      left, otherLeft := left.tail, otherLeft.tail;
    }
    same := true;
  }

  ghost predicate Comparable(side: Side, c: Context) {
    ParseMethod(side.blob).Some? && AllClosed(ParseMethod(side.blob).value.sig.types, c)
  }

  ghost function SigOf(side: Side, c: Context): MethodSig
    requires Comparable(side, c)
  {
    ParseMethod(side.blob).value.sig
  }

  // The calling convention, and the number of type arguments when there is one.
  method CompareHeads(cursor: Cursor, otherCursor: Cursor) returns (same: bool)
    requires ParseMethod(cursor.rest).Some? && ParseMethod(otherCursor.rest).Some? && cursor != otherCursor
    modifies cursor, otherCursor
    ensures
      var m, n := old(ParseMethod(cursor.rest).value.sig), old(ParseMethod(otherCursor.rest).value.sig);
      && (same <==> m.callConv == n.callConv && m.generics == n.generics)
      && (same ==> ParseTypes(m.callConv, m.generics, cursor.rest) == old(ParseMethod(cursor.rest)))
      && (same ==> ParseTypes(n.callConv, n.generics, otherCursor.rest) == old(ParseMethod(otherCursor.rest)))
  {
    var e := cursor.DecodeSigEntry();
    var otherE := otherCursor.DecodeSigEntry();
    if e != otherE {
      return false;
    }
    if IsGeneric(e) {
      var n := cursor.DecodeSigEntry();
      var otherN := otherCursor.DecodeSigEntry();
      if n != otherN {
        return false;
      }
    }
    same := true;
  }

  // The number of parameters, and then the types.
  method CompareCounts(reader: Reader, cursor: Cursor, side: Side, ghost m: MethodSig, ghost c: Context,
                       otherCursor: Cursor, other: Side, ghost n: MethodSig, ghost d: Context)
    returns (same: bool)
    requires reader.table.Valid() && cursor != otherCursor
    requires BothDescribed(reader.table.defs, reader.table.arrayNoType, side, c, other, d)
    requires AllClosed(m.types, c) && AllClosed(n.types, d)
    requires var p := ParseTypes(m.callConv, m.generics, cursor.rest); p.Some? && p.value.sig == m
    requires var p := ParseTypes(n.callConv, n.generics, otherCursor.rest); p.Some? && p.value.sig == n
    modifies cursor, otherCursor, reader.table`arrays, reader.table`chains, reader.table`count, reader.table`defs
    ensures reader.table.Valid() && old(reader.table.defs) <= reader.table.defs
    ensures same <==> Meanings(m.types, c) == Meanings(n.types, d)
  {
    var count := cursor.DecodeSigEntry();
    var otherCount := otherCursor.DecodeSigEntry();
    ParsedLength(cursor.rest, count + 1);
    ParsedLength(otherCursor.rest, otherCount + 1);
    if count != otherCount {
      if Meanings(m.types, c) == Meanings(n.types, d) {
        SameLength(m.types, c, n.types, d);
      }
      return false;
    }
    same := CompareTypes(reader, count + 1, cursor, side, m.types, c, otherCursor, other, n.types, d);
  }

  // MetaData_CompareNameAndSig: no arguments are given for the variables of the methods.
  method CompareNameAndSig(reader: Reader, name: string, side: Side, ghost c: Context, otherName: string, other: Side,
                           ghost d: Context)
    returns (same: bool)
    requires reader.table.Valid()
    requires BothDescribed(reader.table.defs, reader.table.arrayNoType, side, c, other, d)
    requires side.methodArgs.None? && other.methodArgs.None? && Comparable(side, c) && Comparable(other, d)
    modifies reader.table`arrays, reader.table`chains, reader.table`count, reader.table`defs
    ensures reader.table.Valid() && old(reader.table.defs) <= reader.table.defs
    ensures same <==> KeyOf(name, SigOf(side, c), c) == KeyOf(otherName, SigOf(other, d), d)
  {
    if name != otherName {
      return false;
    }
    var cursor := new Cursor(side.blob);
    var otherCursor := new Cursor(other.blob);
    var alike := CompareHeads(cursor, otherCursor);
    if !alike {
      return false;
    }
    same := CompareCounts(reader, cursor, side, SigOf(side, c), c, otherCursor, other, SigOf(other, d), d);
  }
}
