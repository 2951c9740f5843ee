/**
 Signature blobs: compressed integers and type signatures, as section II.23.2 of ECMA-335 lays them out and as
 the loader reads them, with a cursor that advances.
 */
module Signatures {
  import opened Options

  type Byte = b: int | 0 <= b < 0x100

  // ---------------------------------------------------------------- compressed integers

  const MAX_ENTRY := 0x2000_0000

  datatype Entry = Entry(value: nat, rest: seq<Byte>)

  // MetaData_DecodeSigEntryExt. ff is what the special first byte 0xff stands for.
  function DecodeEntryExt(b: seq<Byte>, ff: nat): (r: Option<Entry>)
    ensures r.Some? ==> |r.value.rest| < |b|
  {
    if b == [] then None
    else if b[0] < 0x80 then Some(Entry(b[0], b[1..]))
    else if b[0] == 0xff then Some(Entry(ff, b[1..]))
    else if |b| < 2 then None
    else if b[0] < 0xc0 then Some(Entry(b[0] as nat % 0x40 * 0x100 + b[1] as nat, b[2..]))
    else if |b| < 4 then None
    else Some(Entry(b[0] as nat % 0x20 * 0x100_0000 + b[1] as nat * 0x1_0000 + b[2] as nat * 0x100 + b[3] as nat, b[4..]))
  }

  function DecodeEntry(b: seq<Byte>): (r: Option<Entry>)
    ensures r.Some? ==> |r.value.rest| < |b|
  {
    DecodeEntryExt(b, 0)
  }

  // Section II.23.2: one byte, or two, or four, the highest first.
  function Compress(n: nat): seq<Byte>
    requires n < MAX_ENTRY
  {
    if n < 0x80 then [n]
    else if n < 0x4000 then [0x80 + n / 0x100, n % 0x100]
    else [0xc0 + n / 0x100_0000, n / 0x1_0000 % 0x100, n / 0x100 % 0x100, n % 0x100]
  }

  lemma FourBytes(n: nat)
    requires n < MAX_ENTRY
    ensures n == n / 0x100_0000 * 0x100_0000 + n / 0x1_0000 % 0x100 * 0x1_0000 + n / 0x100 % 0x100 * 0x100 + n % 0x100
    ensures n / 0x100_0000 < 0x20
  {
    var high := n / 0x100;
    assert n == high * 0x100 + n % 0x100;
    var higher := high / 0x100;
    assert high == higher * 0x100 + high % 0x100;
    assert n / 0x1_0000 == higher && n / 0x100_0000 == higher / 0x100;
  }

  lemma CompressedEntry(n: nat, rest: seq<Byte>, ff: nat)
    requires n < MAX_ENTRY
    ensures DecodeEntryExt(Compress(n) + rest, ff) == Some(Entry(n, rest))
  {
    var c := Compress(n);
    assert (c + rest)[|c|..] == rest;
    assert forall i :: 0 <= i < |c| ==> (c + rest)[i] == c[i];
    if n >= 0x4000 {
      FourBytes(n);
      FourByteEntry(c[0], c[1], c[2], c[3], rest, ff);
      assert c + rest == [c[0], c[1], c[2], c[3]] + rest;
    }
  }

  lemma FourByteEntry(a: Byte, b: Byte, c: Byte, d: Byte, rest: seq<Byte>, ff: nat)
    requires 0xc0 <= a < 0xff
    ensures DecodeEntryExt([a, b, c, d] + rest, ff) ==
            Some(Entry(a as nat % 0x20 * 0x100_0000 + b as nat * 0x1_0000 + c as nat * 0x100 + d as nat, rest))
  {
  }

  // The byte 0xff, with which no compressed integer begins, stands for what the caller says.
  lemma SpecialByte(n: nat, rest: seq<Byte>, ff: nat)
    requires n < MAX_ENTRY
    ensures DecodeEntryExt([0xff] + rest, ff) == Some(Entry(ff, rest)) && Compress(n)[0] != 0xff
  {
    assert ([0xff] + rest)[1..] == rest;
    FourBytes(n);
  }

  // Signed numbers: the sign goes below the lowest bit, and one, two or four bytes are taken for 7, 14 or 29 bits.
  const MAX_SIGNED := 0x1000_0000

  predicate IsSigned(n: int) {
    -MAX_SIGNED <= n < MAX_SIGNED
  }

  function Rotate(n: int, modulus: nat): nat
    requires -(modulus as int) <= 2 * n < modulus
  {
    if n >= 0 then 2 * n else 2 * n + modulus + 1
  }

  function CompressSigned(n: int): seq<Byte>
    requires IsSigned(n)
  {
    if -0x40 <= n < 0x40 then [Rotate(n, 0x80)]
    else if -0x2000 <= n < 0x2000 then
      var r := Rotate(n, 0x4000);
      [0x80 + r / 0x100, r % 0x100]
    else
      var r := Rotate(n, 0x2000_0000);
      [0xc0 + r / 0x100_0000, r / 0x1_0000 % 0x100, r / 0x100 % 0x100, r % 0x100]
  }

  // ---------------------------------------------------------------- tokens

  const MD_TABLE_TYPEREF := 0x01
  const MD_TABLE_TYPEDEF := 0x02
  const MD_TABLE_TYPESPEC := 0x1b

  datatype Token = TypeDefToken(row: nat) | TypeRefToken(row: nat) | TypeSpecToken(row: nat)

  predicate ValidToken(t: Token) {
    t.row < 0x100_0000
  }

  // The table index that the loader makes of a token: the table in the top byte.
  function TableIndex(t: Token): nat {
    match t
    case TypeDefToken(row) => MD_TABLE_TYPEDEF * 0x100_0000 + row % 0x100_0000
    case TypeRefToken(row) => MD_TABLE_TYPEREF * 0x100_0000 + row % 0x100_0000
    case TypeSpecToken(row) => MD_TABLE_TYPESPEC * 0x100_0000 + row % 0x100_0000
  }

  // MetaData_DecodeSigEntryToken: the low two bits select the table.
  function DecodeToken(b: seq<Byte>): (r: Option<Entry>)
    ensures r.Some? ==> |r.value.rest| < |b|
  {
    match DecodeEntry(b)
    case None => None
    case Some(e) =>
      var table := [MD_TABLE_TYPEDEF, MD_TABLE_TYPEREF, MD_TABLE_TYPESPEC, 0][e.value % 4];
      Some(Entry(table * 0x100_0000 + e.value / 4 % 0x100_0000, e.rest))
  }

  // TypeDefOrRefOrSpecEncoded.
  function PrintToken(t: Token): seq<Byte>
    requires ValidToken(t)
  {
    Compress(t.row * 4 + match t case TypeDefToken(_) => 0 case TypeRefToken(_) => 1 case TypeSpecToken(_) => 2)
  }

  lemma PrintedToken(t: Token, rest: seq<Byte>)
    requires ValidToken(t)
    ensures DecodeToken(PrintToken(t) + rest) == Some(Entry(TableIndex(t), rest))
  {
    var tag := match t case TypeDefToken(_) => 0 case TypeRefToken(_) => 1 case TypeSpecToken(_) => 2;
    CompressedEntry(t.row * 4 + tag, rest, 0);
    EntryIsToken(PrintToken(t) + rest, t.row * 4 + tag, t.row, tag, rest);
  }

  lemma EntryIsToken(b: seq<Byte>, n: nat, row: nat, tag: nat, rest: seq<Byte>)
    requires DecodeEntry(b) == Some(Entry(n, rest)) && n == row * 4 + tag && tag < 3 && row < 0x100_0000
    ensures
      var table := if tag == 0 then MD_TABLE_TYPEDEF else if tag == 1 then MD_TABLE_TYPEREF else MD_TABLE_TYPESPEC;
      DecodeToken(b) == Some(Entry(table * 0x100_0000 + row, rest))
  {
    assert n % 4 == tag && n / 4 == row;
  }

  // The token of a table index, if it is that of a type.
  function TokenOf(index: nat): Option<Token> {
    var table, row := index / 0x100_0000, index % 0x100_0000;
    if table == MD_TABLE_TYPEDEF then Some(TypeDefToken(row))
    else if table == MD_TABLE_TYPEREF then Some(TypeRefToken(row))
    else if table == MD_TABLE_TYPESPEC then Some(TypeSpecToken(row))
    else None
  }

  lemma TokenOfIndex(index: nat)
    requires TokenOf(index).Some?
    ensures ValidToken(TokenOf(index).value) && TableIndex(TokenOf(index).value) == index
  {
  }

  // The low two bits of n select table 2, TypeDef, table 1, TypeRef, or table 27, TypeSpec; the others are the row.
  lemma TablesOfTokens(n: nat, rest: seq<Byte>)
    requires n < MAX_ENTRY && n % 4 < 3
    ensures
      var r := DecodeToken(Compress(n) + rest);
      && r.Some? && r.value.rest == rest && r.value.value % 0x100_0000 == n / 4 % 0x100_0000
      && r.value.value / 0x100_0000 == if n % 4 == 0 then 2 else if n % 4 == 1 then 1 else 27
  {
    CompressedEntry(n, rest, 0);
    var b := Compress(n) + rest;
    assert DecodeEntry(b) == Some(Entry(n, rest));
    OfTable(b, n, rest, if n % 4 == 0 then 2 else if n % 4 == 1 then 1 else 27);
  }

  lemma OfTable(b: seq<Byte>, n: nat, rest: seq<Byte>, table: nat)
    requires DecodeEntry(b) == Some(Entry(n, rest)) && n % 4 < 3
    requires table == if n % 4 == 0 then 2 else if n % 4 == 1 then 1 else 27
    ensures
      var r := DecodeToken(b);
      && r.Some? && r.value.rest == rest && r.value.value % 0x100_0000 == n / 4 % 0x100_0000
      && r.value.value / 0x100_0000 == table
  {
  }

  // ---------------------------------------------------------------- type signatures

  // What stands in a signature for a type: those that the reader yields, pointers, of which it does not consume the type
  // pointed to, and those at which it crashes, which are general arrays, pointers to functions, typed references, types
  // with a custom modifier, and those marked as pinned or as the first behind the sentinel of a variable argument list.
  datatype Sig =
    | Void
    | Prim(code: nat)
    | Ptr(to: Sig)
    | ByRef(of: Sig)
    | Named(isValueType: bool, index: nat)
    | Var(n: nat)
    | MVar(n: nat)
    | Instance(core: Sig, args: Sigs)
    | Vector(element: Sig)
    | General(item: Sig, shape: Shape)
    | FnPtr(callConv: nat, generics: nat, types: Sigs)
    | TypedByRef
    | Modified(required: bool, modifier: nat, base: Sig)
    | Marked(pinned: bool, next: Sig)

  // The rank of an array, and the sizes and lower bounds of the first dimensions.
  datatype Shape = Shape(rank: nat, sizes: seq<nat>, bounds: seq<int>)

  datatype Sigs = Nil | Cons(head: Sig, tail: Sigs)

  function Length(s: Sigs): nat {
    if s.Nil? then 0 else 1 + Length(s.tail)
  }

  // The element types that stand alone: the primitive types, string, native integers and object.
  predicate IsPrim(code: nat) {
    0x02 <= code <= 0x0e || code == 0x18 || code == 0x19 || code == 0x1c
  }

  datatype Parsed = Parsed(sig: Sig, rest: seq<Byte>)
  datatype ParsedList = ParsedList(sigs: Sigs, rest: seq<Byte>)

  // What Type_GetTypeFromSig reads; None where it crashes.
  function ParseSig(b: seq<Byte>): (r: Option<Parsed>)
    ensures r.Some? ==> |r.value.rest| < |b|
    decreases |b|, 1, 0
  {
    match DecodeEntry(b)
    case None => None
    case Some(e) =>
      if e.value == 0x01 then Some(Parsed(Void, e.rest))
      else if IsPrim(e.value) then Some(Parsed(Prim(e.value), e.rest))
      else if e.value == 0x0f then Some(Parsed(Prim(0x19), e.rest)) // a pointer is an unsigned native integer
      else if e.value == 0x10 then (
        match ParseSig(e.rest)
        case None => None
        case Some(p) => Some(Parsed(ByRef(p.sig), p.rest))
      ) else if e.value == 0x11 || e.value == 0x12 then (
        match DecodeToken(e.rest)
        case None => None
        case Some(t) => Some(Parsed(Named(e.value == 0x11, t.value), t.rest))
      ) else if e.value == 0x13 then (
        match DecodeEntry(e.rest)
        case None => None
        case Some(n) => Some(Parsed(Var(n.value), n.rest))
      ) else if e.value == 0x1e then (
        match DecodeEntry(e.rest)
        case None => None
        case Some(n) => Some(Parsed(MVar(n.value), n.rest))
      ) else if e.value == 0x15 then (
        match ParseSig(e.rest)
        case None => None
        case Some(core) =>
          match DecodeEntry(core.rest)
          case None => None
          case Some(n) =>
            match ParseSigs(n.rest, n.value)
            case None => None
            case Some(args) => Some(Parsed(Instance(core.sig, args.sigs), args.rest))
      ) else if e.value == 0x1d then (
        match ParseSig(e.rest)
        case None => None
        case Some(p) => Some(Parsed(Vector(p.sig), p.rest))
      ) else None
  }

  // Which codes the reader knows, and of those that stand alone what it makes of them (Type.c:217-320).
  lemma CodesRead(code: Byte, rest: seq<Byte>)
    requires code < 0x80
    ensures
      var r := ParseSig([code] + rest);
      && (code == 0x01 ==> r == Some(Parsed(Void, rest)))
      && (code in {0x02, 0x03, 0x04, 0x05, 0x06, 0x07, 0x08, 0x09, 0x0a, 0x0b, 0x0c, 0x0d, 0x0e, 0x18, 0x19, 0x1c} ==>
            r == Some(Parsed(Prim(code), rest)))
      && (code == 0x0f ==> r == Some(Parsed(Prim(0x19), rest)))
      && (code == 0 || code in {0x14, 0x16, 0x17, 0x1a, 0x1b} || code > 0x1e ==> r == None)
  {
    CompressedEntry(code, rest, 0);
    assert Compress(code) == [code];
  }

  // n of them, one after the other.
  function ParseSigs(b: seq<Byte>, n: nat): (r: Option<ParsedList>)
    ensures r.Some? ==> |r.value.rest| <= |b|
    decreases |b|, 2, n
  {
    if n == 0 then Some(ParsedList(Nil, b))
    else
      match ParseSig(b)
      case None => None
      case Some(p) =>
        match ParseSigs(p.rest, n - 1)
        case None => None
        case Some(q) => Some(ParsedList(Cons(p.sig, q.sigs), q.rest))
  }

  // ---------------------------------------------------------------- printing

  // Sections II.23.2.2, II.23.2.7, II.23.2.9 to II.23.2.13.
  predicate Printable(s: Sig) {
    match s
    case Void => true
    case Prim(code) => IsPrim(code)
    case Ptr(t) => Printable(t)
    case ByRef(t) => Printable(t)
    case Named(_, index) => TokenOf(index).Some?
    case Var(n) => n < MAX_ENTRY
    case MVar(n) => n < MAX_ENTRY
    case Instance(core, args) => Printable(core) && AllPrintable(args) && Length(args) < MAX_ENTRY
    case Vector(t) => Printable(t)
    case General(t, shape) => Printable(t) && PrintableShape(shape)
    case FnPtr(callConv, generics, types) => PrintableMethodTypes(callConv, generics, types) && AllPrintable(types)
    case TypedByRef => true
    case Modified(_, index, t) => TokenOf(index).Some? && Printable(t)
    case Marked(_, t) => Printable(t)
  }

  predicate PrintableShape(shape: Shape) {
    && shape.rank < MAX_ENTRY && |shape.sizes| < MAX_ENTRY && |shape.bounds| < MAX_ENTRY
    && AllEntries(shape.sizes) && AllSigned(shape.bounds)
  }

  predicate AllEntries(s: seq<nat>) {
    forall i :: 0 <= i < |s| ==> s[i] < MAX_ENTRY
  }

  predicate AllSigned(s: seq<int>) {
    forall i :: 0 <= i < |s| ==> IsSigned(s[i])
  }

  const SIG_CALLCONV_GENERIC := 0x10

  predicate IsGeneric(callConv: nat) {
    callConv / SIG_CALLCONV_GENERIC % 2 == 1
  }

  // The type that a method returns, and then those of its parameters. Only a generic method tells how many arguments it
  // takes for its variables.
  predicate PrintableMethodTypes(callConv: nat, generics: nat, types: Sigs) {
    && callConv < MAX_ENTRY && generics < MAX_ENTRY && (!IsGeneric(callConv) ==> generics == 0)
    && types.Cons? && Length(types.tail) < MAX_ENTRY
  }

  predicate AllPrintable(s: Sigs) {
    s.Cons? ==> Printable(s.head) && AllPrintable(s.tail)
  }

  function Print(s: Sig): seq<Byte>
    requires Printable(s)
    decreases s, 0
  {
    match s
    case Void => [0x01]
    case Prim(code) => [code]
    case Ptr(t) => [0x0f] + Print(t)
    case ByRef(t) => [0x10] + Print(t)
    case Named(isValueType, index) =>
      TokenOfIndex(index);
      [if isValueType then 0x11 else 0x12] + PrintToken(TokenOf(index).value)
    case Var(n) => [0x13] + Compress(n)
    case MVar(n) => [0x1e] + Compress(n)
    case Instance(core, args) => [0x15] + Print(core) + Compress(Length(args)) + PrintAll(args)
    case Vector(t) => [0x1d] + Print(t)
    case General(t, shape) => [0x14] + Print(t) + PrintShape(shape)
    case FnPtr(callConv, generics, types) => [0x1b] + PrintConvention(callConv, generics) + PrintTypes(types)
    case TypedByRef => [0x16]
    case Modified(required, index, t) =>
      TokenOfIndex(index);
      [if required then 0x1f else 0x20] + PrintToken(TokenOf(index).value) + Print(t)
    case Marked(pinned, t) => [if pinned then 0x45 else 0x41] + Print(t)
  }

  function PrintShape(shape: Shape): seq<Byte>
    requires PrintableShape(shape)
  {
    Compress(shape.rank) + (Compress(|shape.sizes|) + (PrintSizes(shape.sizes) +
    (Compress(|shape.bounds|) + PrintBounds(shape.bounds))))
  }

  function PrintSizes(sizes: seq<nat>): seq<Byte>
    requires AllEntries(sizes)
  {
    if sizes == [] then [] else Compress(sizes[0]) + PrintSizes(sizes[1..])
  }

  function PrintBounds(bounds: seq<int>): seq<Byte>
    requires AllSigned(bounds)
  {
    if bounds == [] then [] else CompressSigned(bounds[0]) + PrintBounds(bounds[1..])
  }

  // Section II.23.2.1: the calling convention, with the number of variables of a generic method, and then the types.
  function PrintConvention(callConv: nat, generics: nat): seq<Byte>
    requires callConv < MAX_ENTRY && generics < MAX_ENTRY
  {
    Compress(callConv) + if IsGeneric(callConv) then Compress(generics) else []
  }

  function PrintTypes(types: Sigs): seq<Byte>
    requires types.Cons? && Length(types.tail) < MAX_ENTRY && AllPrintable(types)
    decreases types, 1
  {
    Compress(Length(types.tail)) + PrintAll(types)
  }

  function PrintAll(s: Sigs): seq<Byte>
    requires AllPrintable(s)
    decreases s, 0
  {
    if s.Nil? then [] else Print(s.head) + PrintAll(s.tail)
  }

  lemma CodeEntry(code: Byte, rest: seq<Byte>)
    requires code < 0x80
    ensures DecodeEntry([code] + rest) == Some(Entry(code, rest))
  {
  }

  // What is read behind the element types that take something.
  lemma ParsePrefixed(code: Byte, rest: seq<Byte>)
    requires code == 0x10 || code == 0x1d
    requires ParseSig(rest).Some?
    ensures
      var p := ParseSig(rest).value;
      ParseSig([code] + rest) == Some(Parsed(if code == 0x10 then ByRef(p.sig) else Vector(p.sig), p.rest))
  {
  }

  lemma ParseNamed(isValueType: bool, rest: seq<Byte>)
    requires DecodeToken(rest).Some?
    ensures
      var t := DecodeToken(rest).value;
      ParseSig([if isValueType then 0x11 else 0x12] + rest) == Some(Parsed(Named(isValueType, t.value), t.rest))
  {
  }

  lemma ParseVariable(isMethod: bool, rest: seq<Byte>)
    requires DecodeEntry(rest).Some?
    ensures
      var n := DecodeEntry(rest).value;
      ParseSig([if isMethod then 0x1e else 0x13] + rest) == Some(Parsed(if isMethod then MVar(n.value) else Var(n.value), n.rest))
  {
  }

  lemma ParseInstance(b: seq<Byte>, core: Sig, behindCore: seq<Byte>, n: nat, behindCount: seq<Byte>, args: Sigs, rest: seq<Byte>)
    requires ParseSig(b) == Some(Parsed(core, behindCore)) && DecodeEntry(behindCore) == Some(Entry(n, behindCount))
    requires ParseSigs(behindCount, n) == Some(ParsedList(args, rest))
    ensures ParseSig([0x15] + b) == Some(Parsed(Instance(core, args), rest))
  {
  }

  lemma ParseMore(b: seq<Byte>, k: nat, n: nat, head: Sig, behind: seq<Byte>, tail: Sigs, rest: seq<Byte>)
    requires ParseSig(b) == Some(Parsed(head, behind)) && ParseSigs(behind, k) == Some(ParsedList(tail, rest)) && n == k + 1
    ensures ParseSigs(b, n) == Some(ParsedList(Cons(head, tail), rest))
  {
  }

  lemma Regroup(a: seq<Byte>, b: seq<Byte>, c: seq<Byte>)
    ensures a + b + c == a + (b + c)
  {
  }

  // What the reader yields occurs in the type, and nothing else.
  predicate Readable(s: Sig) {
    match s
    case Void => true
    case Prim(_) => true
    case ByRef(t) => Readable(t)
    case Named(_, _) => true
    case Var(_) => true
    case MVar(_) => true
    case Instance(core, args) => Readable(core) && AllReadable(args)
    case Vector(t) => Readable(t)
    case _ => false
  }

  predicate AllReadable(s: Sigs) {
    s.Cons? ==> Readable(s.head) && AllReadable(s.tail)
  }

  lemma {:induction false} ReadIsReadable(b: seq<Byte>)
    requires ParseSig(b).Some?
    ensures Readable(ParseSig(b).value.sig)
    decreases |b|, 1, 0
  {
    var e := DecodeEntry(b).value;
    if e.value == 0x10 || e.value == 0x1d {
      ReadIsReadable(e.rest);
    } else if e.value == 0x15 {
      ReadIsReadable(e.rest);
      var n := DecodeEntry(ParseSig(e.rest).value.rest).value;
      AllReadIsReadable(n.rest, n.value);
    }
  }

  lemma {:induction false} AllReadIsReadable(b: seq<Byte>, n: nat)
    requires ParseSigs(b, n).Some?
    ensures AllReadable(ParseSigs(b, n).value.sigs)
    decreases |b|, 2, n
  {
    if n > 0 {
      ReadIsReadable(b);
      AllReadIsReadable(ParseSig(b).value.rest, n - 1);
    }
  }

  // Reading a printed type gives the type back and leaves the cursor exactly behind it if and only if nothing occurs in it
  // that the reader does not yield.
  lemma RoundTripExactlyWhenReadable(s: Sig, rest: seq<Byte>)
    requires Printable(s)
    ensures ParseSig(Print(s) + rest) == Some(Parsed(s, rest)) <==> Readable(s)
  {
    if Readable(s) {
      RoundTrip(s, rest);
    } else if ParseSig(Print(s) + rest) == Some(Parsed(s, rest)) {
      ReadIsReadable(Print(s) + rest);
    }
  }

  // No pointer occurs in what is read of the type.
  predicate WithoutPointers(s: Sig) {
    match s
    case Ptr(_) => false
    case ByRef(t) => WithoutPointers(t)
    case Instance(core, args) => WithoutPointers(core) && AllWithoutPointers(args)
    case Vector(t) => WithoutPointers(t)
    case _ => true
  }

  predicate AllWithoutPointers(s: Sigs) {
    s.Cons? ==> WithoutPointers(s.head) && AllWithoutPointers(s.tail)
  }

  // At anything else the reader crashes.
  lemma {:induction false} Crashes(s: Sig, rest: seq<Byte>)
    requires Printable(s) && WithoutPointers(s) && !Readable(s)
    ensures ParseSig(Print(s) + rest).None?
    decreases s, 1
  {
    PrintedInTwo(s, rest);
    if s.ByRef? {
      Crashes(s.of, rest);
      PrefixedCrashes(0x10, Print(s.of) + rest);
    } else if s.Vector? {
      Crashes(s.element, rest);
      PrefixedCrashes(0x1d, Print(s.element) + rest);
    } else if s.Instance? {
      InstanceCrashes(s.core, s.args, rest);
    } else {
      OtherCrashes(ElementType(s), Payload(s) + rest);
    }
  }

  lemma PrefixedCrashes(code: Byte, rest: seq<Byte>)
    requires (code == 0x10 || code == 0x1d) && ParseSig(rest).None?
    ensures ParseSig([code] + rest).None?
  {
    CodeEntry(code, rest);
  }

  lemma OtherCrashes(code: Byte, rest: seq<Byte>)
    requires code in {0x14, 0x16, 0x1b, 0x1f, 0x20, 0x41, 0x45}
    ensures ParseSig([code] + rest).None?
  {
    CodeEntry(code, rest);
  }

  lemma {:induction false} InstanceCrashes(core: Sig, args: Sigs, rest: seq<Byte>)
    requires Printable(Instance(core, args)) && WithoutPointers(Instance(core, args)) && !Readable(Instance(core, args))
    ensures ParseSig(Print(Instance(core, args)) + rest).None?
    decreases Instance(core, args), 0
  {
    var behindCount := PrintAll(args) + rest;
    var behindCore := Compress(Length(args)) + behindCount;
    InstanceRegrouped(core, args, rest);
    CodeEntry(0x15, Print(core) + behindCore);
    if Readable(core) {
      RoundTrip(core, behindCore);
      CompressedEntry(Length(args), behindCount, 0);
      AllCrash(args, rest);
    } else {
      Crashes(core, behindCore);
    }
  }

  lemma {:induction false} AllCrash(s: Sigs, rest: seq<Byte>)
    requires AllPrintable(s) && AllWithoutPointers(s) && !AllReadable(s)
    ensures ParseSigs(PrintAll(s) + rest, Length(s)).None?
    decreases s, 1
  {
    PrintedMore(s, rest);
    var behind := PrintAll(s.tail) + rest;
    if Readable(s.head) {
      RoundTrip(s.head, behind);
      AllCrash(s.tail, rest);
    } else {
      Crashes(s.head, behind);
    }
  }

  // An example: int32[,].
  lemma ArrayOfInt32Crashes()
    ensures
      var s := General(Prim(0x08), Shape(2, [], []));
      Printable(s) && Print(s) == [0x14, 0x08, 0x02, 0x00, 0x00] && ParseSig(Print(s)).None?
  {
    var s := General(Prim(0x08), Shape(2, [], []));
    assert PrintShape(s.shape) == [0x02, 0x00, 0x00];
    Crashes(s, []);
    assert Print(s) + [] == Print(s);
  }

  // Of a pointer only the first byte is read, whatever it points to.
  lemma PointerIsNotConsumed(to: Sig, rest: seq<Byte>)
    requires Printable(to)
    ensures ParseSig(Print(Ptr(to)) + rest) == Some(Parsed(Prim(0x19), Print(to) + rest))
  {
    Regroup([0x0f], Print(to), rest);
    CodeEntry(0x0f, Print(to) + rest);
  }

  // An example: int32*. The cursor is left before the int32.
  lemma PointerToInt32()
    ensures ParseSig(Print(Ptr(Prim(0x08)))) == Some(Parsed(Prim(0x19), [0x08]))
  {
    PointerIsNotConsumed(Prim(0x08), []);
    assert Print(Ptr(Prim(0x08))) + [] == Print(Ptr(Prim(0x08)));
    assert Print(Prim(0x08)) + [] == [0x08];
  }

  lemma {:induction false} RoundTrip(s: Sig, rest: seq<Byte>)
    requires Printable(s) && Readable(s)
    ensures ParseSig(Print(s) + rest) == Some(Parsed(s, rest))
    decreases s, 1
  {
    match s
    case Void => CodeEntry(0x01, rest);
    case Prim(code) => CodeEntry(code, rest);
    case ByRef(t) =>
      RoundTrip(t, rest);
      Regroup([0x10], Print(t), rest);
      ParsePrefixed(0x10, Print(t) + rest);
    case Named(isValueType, index) => RoundTripNamed(isValueType, index, rest);
    case Var(n) =>
      CompressedEntry(n, rest, 0);
      Regroup([0x13], Compress(n), rest);
      ParseVariable(false, Compress(n) + rest);
    case MVar(n) =>
      CompressedEntry(n, rest, 0);
      Regroup([0x1e], Compress(n), rest);
      ParseVariable(true, Compress(n) + rest);
    case Instance(core, args) => RoundTripInstance(core, args, rest);
    case Vector(t) =>
      RoundTrip(t, rest);
      Regroup([0x1d], Print(t), rest);
      ParsePrefixed(0x1d, Print(t) + rest);
  }

  lemma RoundTripNamed(isValueType: bool, index: nat, rest: seq<Byte>)
    requires Printable(Named(isValueType, index))
    ensures ParseSig(Print(Named(isValueType, index)) + rest) == Some(Parsed(Named(isValueType, index), rest))
  {
    TokenOfIndex(index);
    var t := PrintToken(TokenOf(index).value);
    PrintedToken(TokenOf(index).value, rest);
    Regroup([if isValueType then 0x11 else 0x12], t, rest);
    ParseNamed(isValueType, t + rest);
  }

  lemma {:induction false} RoundTripInstance(core: Sig, args: Sigs, rest: seq<Byte>)
    requires Printable(Instance(core, args)) && Readable(Instance(core, args))
    ensures ParseSig(Print(Instance(core, args)) + rest) == Some(Parsed(Instance(core, args), rest))
    decreases Instance(core, args), 0
  {
    var behindCount := PrintAll(args) + rest;
    var behindCore := Compress(Length(args)) + behindCount;
    RoundTrip(core, behindCore);
    CompressedEntry(Length(args), behindCount, 0);
    RoundTripAll(args, rest);
    ParseInstance(Print(core) + behindCore, core, behindCore, Length(args), behindCount, args, rest);
    InstanceRegrouped(core, args, rest);
  }

  lemma InstanceRegrouped(core: Sig, args: Sigs, rest: seq<Byte>)
    requires Printable(Instance(core, args))
    ensures Print(Instance(core, args)) + rest == [0x15] + (Print(core) + (Compress(Length(args)) + (PrintAll(args) + rest)))
  {
  }

  lemma {:induction false} RoundTripAll(s: Sigs, rest: seq<Byte>)
    requires AllPrintable(s) && AllReadable(s)
    ensures ParseSigs(PrintAll(s) + rest, Length(s)) == Some(ParsedList(s, rest))
    decreases s, 1
  {
    if s.Cons? {
      var b, behind := PrintAll(s) + rest, PrintAll(s.tail) + rest;
      PrintedMore(s, rest);
      RoundTrip(s.head, behind);
      RoundTripAll(s.tail, rest);
      ParseMore(b, Length(s.tail), Length(s), s.head, behind, s.tail, rest);
    } else {
      assert PrintAll(s) + rest == rest;
    }
  }

  lemma PrintedMore(s: Sigs, rest: seq<Byte>)
    requires AllPrintable(s) && s.Cons?
    ensures PrintAll(s) + rest == Print(s.head) + (PrintAll(s.tail) + rest)
  {
    Regroup(Print(s.head), PrintAll(s.tail), rest);
  }

  // ---------------------------------------------------------------- no two types print alike

  // The element type that a type is printed with first.
  function ElementType(s: Sig): nat {
    match s
    case Void => 0x01
    case Prim(code) => code
    case Ptr(_) => 0x0f
    case ByRef(_) => 0x10
    case Named(isValueType, _) => if isValueType then 0x11 else 0x12
    case Var(_) => 0x13
    case MVar(_) => 0x1e
    case Instance(_, _) => 0x15
    case Vector(_) => 0x1d
    case General(_, _) => 0x14
    case FnPtr(_, _, _) => 0x1b
    case TypedByRef => 0x16
    case Modified(required, _, _) => if required then 0x1f else 0x20
    case Marked(pinned, _) => if pinned then 0x45 else 0x41
  }

  // What is printed behind it.
  function Payload(s: Sig): seq<Byte>
    requires Printable(s)
  {
    match s
    case Void => []
    case Prim(_) => []
    case Ptr(t) => Print(t)
    case ByRef(t) => Print(t)
    case Named(_, index) => TokenOfIndex(index); PrintToken(TokenOf(index).value)
    case Var(n) => Compress(n)
    case MVar(n) => Compress(n)
    case Instance(core, args) => Print(core) + (Compress(Length(args)) + PrintAll(args))
    case Vector(t) => Print(t)
    case General(t, shape) => Print(t) + PrintShape(shape)
    case FnPtr(callConv, generics, types) => PrintConvention(callConv, generics) + PrintTypes(types)
    case TypedByRef => []
    case Modified(_, index, t) => TokenOfIndex(index); PrintToken(TokenOf(index).value) + Print(t)
    case Marked(_, t) => Print(t)
  }

  lemma PrintedInTwo(s: Sig, rest: seq<Byte>)
    requires Printable(s)
    ensures Print(s) + rest == [ElementType(s)] + (Payload(s) + rest)
  {
    if s.Instance? {
      Regroup([0x15], Print(s.core), Compress(Length(s.args)) + PrintAll(s.args));
      Regroup([0x15] + Print(s.core), Compress(Length(s.args)), PrintAll(s.args));
    }
    assert Print(s) == [ElementType(s)] + Payload(s) by {
      match s
      case General(t, shape) => Regroup([0x14], Print(t), PrintShape(shape));
      case FnPtr(callConv, generics, types) => Regroup([0x1b], PrintConvention(callConv, generics), PrintTypes(types));
      case Modified(required, index, t) =>
        TokenOfIndex(index);
        Regroup([ElementType(s)], PrintToken(TokenOf(index).value), Print(t));
      case _ =>
    }
    Regroup([ElementType(s)], Payload(s), rest);
  }

  lemma FirstAndRest(a: Byte, x: seq<Byte>, b: Byte, y: seq<Byte>)
    requires [a] + x == [b] + y
    ensures a == b && x == y
  {
    assert ([a] + x)[0] == a && ([b] + y)[0] == b && ([a] + x)[1..] == x && ([b] + y)[1..] == y;
  }

  lemma CompressedApart(m: nat, x: seq<Byte>, n: nat, y: seq<Byte>)
    requires m < MAX_ENTRY && n < MAX_ENTRY && Compress(m) + x == Compress(n) + y
    ensures m == n && x == y
  {
    CompressedEntry(m, x, 0);
    CompressedEntry(n, y, 0);
  }

  lemma TokensApart(index: nat, x: seq<Byte>, other: nat, y: seq<Byte>)
    requires TokenOf(index).Some? && TokenOf(other).Some? && ValidToken(TokenOf(index).value) && ValidToken(TokenOf(other).value)
    requires PrintToken(TokenOf(index).value) + x == PrintToken(TokenOf(other).value) + y
    ensures index == other && x == y
  {
    PrintedToken(TokenOf(index).value, x);
    PrintedToken(TokenOf(other).value, y);
    TokenOfIndex(index);
    TokenOfIndex(other);
  }

  lemma {:induction false} SizesApart(m: seq<nat>, x: seq<Byte>, n: seq<nat>, y: seq<Byte>)
    requires |m| == |n| && AllEntries(m) && AllEntries(n)
    requires PrintSizes(m) + x == PrintSizes(n) + y
    ensures m == n && x == y
    decreases |m|
  {
    if m == [] {
      assert [] + x == x && [] + y == y;
    } else {
      Regroup(Compress(m[0]), PrintSizes(m[1..]), x);
      Regroup(Compress(n[0]), PrintSizes(n[1..]), y);
      CompressedApart(m[0], PrintSizes(m[1..]) + x, n[0], PrintSizes(n[1..]) + y);
      SizesApart(m[1..], x, n[1..], y);
    }
  }

  // How many bytes a signed number takes is told by the first one.
  lemma SignedApart(m: int, x: seq<Byte>, n: int, y: seq<Byte>)
    requires IsSigned(m) && IsSigned(n) && CompressSigned(m) + x == CompressSigned(n) + y
    ensures m == n && x == y
  {
    var a, b := CompressSigned(m), CompressSigned(n);
    assert (a + x)[0] == a[0] && (b + y)[0] == b[0];
    SignedLength(m);
    SignedLength(n);
    assert (a + x)[..|a|] == a && (b + y)[..|b|] == b && (a + x)[|a|..] == x && (b + y)[|b|..] == y;
    SameSigned(m, n);
  }

  lemma SignedLength(n: int)
    requires IsSigned(n)
    ensures
      var c := CompressSigned(n);
      |c| == if c[0] < 0x80 then 1 else if c[0] < 0xc0 then 2 else 4
  {
  }

  lemma SameSigned(m: int, n: int)
    requires IsSigned(m) && IsSigned(n) && CompressSigned(m) == CompressSigned(n)
    ensures m == n
  {
    var c, d := CompressSigned(m), CompressSigned(n);
    assert |c| == |d|;
    if |c| == 2 {
      assert c[0] == d[0] && c[1] == d[1];
    } else if |c| == 4 {
      FourBytes(Rotate(m, 0x2000_0000));
      FourBytes(Rotate(n, 0x2000_0000));
      assert c[0] == d[0] && c[1] == d[1] && c[2] == d[2] && c[3] == d[3];
    }
  }

  lemma {:induction false} BoundsApart(m: seq<int>, x: seq<Byte>, n: seq<int>, y: seq<Byte>)
    requires |m| == |n| && AllSigned(m) && AllSigned(n)
    requires PrintBounds(m) + x == PrintBounds(n) + y
    ensures m == n && x == y
    decreases |m|
  {
    if m == [] {
      assert [] + x == x && [] + y == y;
    } else {
      Regroup(CompressSigned(m[0]), PrintBounds(m[1..]), x);
      Regroup(CompressSigned(n[0]), PrintBounds(n[1..]), y);
      SignedApart(m[0], PrintBounds(m[1..]) + x, n[0], PrintBounds(n[1..]) + y);
      BoundsApart(m[1..], x, n[1..], y);
    }
  }

  lemma PrintedShape(shape: Shape, x: seq<Byte>)
    requires PrintableShape(shape)
    ensures PrintShape(shape) + x ==
            Compress(shape.rank) + (Compress(|shape.sizes|) + (PrintSizes(shape.sizes) +
            (Compress(|shape.bounds|) + (PrintBounds(shape.bounds) + x))))
  {
  }

  lemma ShapesApart(m: Shape, x: seq<Byte>, n: Shape, y: seq<Byte>)
    requires PrintableShape(m) && PrintableShape(n) && PrintShape(m) + x == PrintShape(n) + y
    ensures m == n && x == y
  {
    PrintedShape(m, x);
    PrintedShape(n, y);
    var a, b := PrintBounds(m.bounds) + x, PrintBounds(n.bounds) + y;
    var c, d := PrintSizes(m.sizes) + (Compress(|m.bounds|) + a), PrintSizes(n.sizes) + (Compress(|n.bounds|) + b);
    CompressedApart(m.rank, Compress(|m.sizes|) + c, n.rank, Compress(|n.sizes|) + d);
    CompressedApart(|m.sizes|, c, |n.sizes|, d);
    SizesApart(m.sizes, Compress(|m.bounds|) + a, n.sizes, Compress(|n.bounds|) + b);
    CompressedApart(|m.bounds|, a, |n.bounds|, b);
    BoundsApart(m.bounds, x, n.bounds, y);
  }

  lemma ConventionsApart(m: nat, g: nat, x: seq<Byte>, n: nat, h: nat, y: seq<Byte>)
    requires m < MAX_ENTRY && g < MAX_ENTRY && (!IsGeneric(m) ==> g == 0)
    requires n < MAX_ENTRY && h < MAX_ENTRY && (!IsGeneric(n) ==> h == 0)
    requires PrintConvention(m, g) + x == PrintConvention(n, h) + y
    ensures m == n && g == h && x == y
  {
    var a, b := if IsGeneric(m) then Compress(g) else [], if IsGeneric(n) then Compress(h) else [];
    Regroup(Compress(m), a, x);
    Regroup(Compress(n), b, y);
    CompressedApart(m, a + x, n, b + y);
    if IsGeneric(m) {
      CompressedApart(g, x, h, y);
    } else {
      assert a + x == x && b + y == y;
    }
  }

  // No printed type is the beginning of another one.
  lemma {:induction false} PrintedApart(s: Sig, x: seq<Byte>, t: Sig, y: seq<Byte>)
    requires Printable(s) && Printable(t) && Print(s) + x == Print(t) + y
    ensures s == t && x == y
    decreases s, 1
  {
    PrintedInTwo(s, x);
    PrintedInTwo(t, y);
    FirstAndRest(ElementType(s), Payload(s) + x, ElementType(t), Payload(t) + y);
    PayloadsApart(s, x, t, y);
  }

  lemma {:induction false} PayloadsApart(s: Sig, x: seq<Byte>, t: Sig, y: seq<Byte>)
    requires Printable(s) && Printable(t) && ElementType(s) == ElementType(t) && Payload(s) + x == Payload(t) + y
    ensures s == t && x == y
    decreases s, 0
  {
    match s
    case Void => assert [] + x == x && [] + y == y;
    case Prim(_) => assert [] + x == x && [] + y == y;
    case Ptr(to) => PrintedApart(to, x, t.to, y);
    case ByRef(of) => PrintedApart(of, x, t.of, y);
    case Named(_, index) =>
      TokenOfIndex(index);
      TokenOfIndex(t.index);
      TokensApart(index, x, t.index, y);
    case Var(n) => CompressedApart(n, x, t.n, y);
    case MVar(n) => CompressedApart(n, x, t.n, y);
    case Instance(core, args) => InstancesApart(core, args, x, t.core, t.args, y);
    case Vector(element) => PrintedApart(element, x, t.element, y);
    case General(item, shape) =>
      Regroup(Print(item), PrintShape(shape), x);
      Regroup(Print(t.item), PrintShape(t.shape), y);
      PrintedApart(item, PrintShape(shape) + x, t.item, PrintShape(t.shape) + y);
      ShapesApart(shape, x, t.shape, y);
    case FnPtr(callConv, generics, types) =>
      Regroup(PrintConvention(callConv, generics), PrintTypes(types), x);
      Regroup(PrintConvention(t.callConv, t.generics), PrintTypes(t.types), y);
      ConventionsApart(callConv, generics, PrintTypes(types) + x, t.callConv, t.generics, PrintTypes(t.types) + y);
      TypesApart(types, x, t.types, y);
    case TypedByRef => assert [] + x == x && [] + y == y;
    case Modified(_, index, base) =>
      TokenOfIndex(index);
      TokenOfIndex(t.modifier);
      Regroup(PrintToken(TokenOf(index).value), Print(base), x);
      Regroup(PrintToken(TokenOf(t.modifier).value), Print(t.base), y);
      TokensApart(index, Print(base) + x, t.modifier, Print(t.base) + y);
      PrintedApart(base, x, t.base, y);
    case Marked(_, next) => PrintedApart(next, x, t.next, y);
  }

  lemma {:induction false} TypesApart(s: Sigs, x: seq<Byte>, t: Sigs, y: seq<Byte>)
    requires s.Cons? && Length(s.tail) < MAX_ENTRY && AllPrintable(s)
    requires t.Cons? && Length(t.tail) < MAX_ENTRY && AllPrintable(t)
    requires PrintTypes(s) + x == PrintTypes(t) + y
    ensures s == t && x == y
    decreases s, 2
  {
    Regroup(Compress(Length(s.tail)), PrintAll(s), x);
    Regroup(Compress(Length(t.tail)), PrintAll(t), y);
    CompressedApart(Length(s.tail), PrintAll(s) + x, Length(t.tail), PrintAll(t) + y);
    AllPrintedApart(s, x, t, y);
  }

  lemma {:induction false} InstancesApart(core: Sig, args: Sigs, x: seq<Byte>, otherCore: Sig, otherArgs: Sigs, y: seq<Byte>)
    requires Printable(Instance(core, args)) && Printable(Instance(otherCore, otherArgs))
    requires Payload(Instance(core, args)) + x == Payload(Instance(otherCore, otherArgs)) + y
    ensures core == otherCore && args == otherArgs && x == y
    decreases Instance(core, args), 0, 0
  {
    InstancePayload(core, args, x);
    InstancePayload(otherCore, otherArgs, y);
    PrintedApart(core, Compress(Length(args)) + (PrintAll(args) + x),
                 otherCore, Compress(Length(otherArgs)) + (PrintAll(otherArgs) + y));
    CompressedApart(Length(args), PrintAll(args) + x, Length(otherArgs), PrintAll(otherArgs) + y);
    AllPrintedApart(args, x, otherArgs, y);
  }

  lemma InstancePayload(core: Sig, args: Sigs, rest: seq<Byte>)
    requires Printable(Instance(core, args))
    ensures Payload(Instance(core, args)) + rest == Print(core) + (Compress(Length(args)) + (PrintAll(args) + rest))
  {
    Regroup(Print(core), Compress(Length(args)) + PrintAll(args), rest);
    Regroup(Compress(Length(args)), PrintAll(args), rest);
  }

  lemma {:induction false} AllPrintedApart(s: Sigs, x: seq<Byte>, t: Sigs, y: seq<Byte>)
    requires AllPrintable(s) && AllPrintable(t) && Length(s) == Length(t) && PrintAll(s) + x == PrintAll(t) + y
    ensures s == t && x == y
    decreases s, 1
  {
    if s.Cons? {
      PrintedMore(s, x);
      PrintedMore(t, y);
      PrintedApart(s.head, PrintAll(s.tail) + x, t.head, PrintAll(t.tail) + y);
      AllPrintedApart(s.tail, x, t.tail, y);
    } else {
      assert [] + x == x && [] + y == y;
    }
  }

  // Different types print differently, readable or not.
  lemma PrintIsInjective(s: Sig, t: Sig)
    requires Printable(s) && Printable(t) && Print(s) == Print(t)
    ensures s == t
  {
    PrintedApart(s, [], t, []);
  }
}
