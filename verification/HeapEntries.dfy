/**
 Heap entries and the shape of the tree that indexes them.

 A `HeapEntry` is one node of the collector's tree: its links, level and marks are
 overwritten in place; its address, size and type never change once it is allocated.
 A `Tree` is the mathematical value of such a linked structure; `Shape` relates the two.
 */
module HeapEntries {

  // The types on the evaluation stack that may be references or hold them.
  const STACK_PTR := 4
  const STACK_O := 5
  const STACK_VALUETYPE := 7

  const PINNED := 0xff
  const TWO32 := 0x1_0000_0000
  const HEADER_SIZE := 20

  // What the collector needs to know about the type of an object.
  datatype TypeDef = TypeDef(
    stackType: nat,
    isString: bool,
    isWeakReference: bool,
    arrayElement: ArrayElement,
    hasFinalizer: bool)

  datatype ArrayElement = NotAnArray | ElementType(stackType: nat)

  predicate MayHoldPointers(stackType: nat) {
    stackType == STACK_O || stackType == STACK_VALUETYPE || stackType == STACK_PTR
  }

  // The types whose memory is searched for references during marking.
  predicate Scanned(t: TypeDef) {
    && MayHoldPointers(t.stackType)
    && !t.isString
    && (t.arrayElement.NotAnArray? || MayHoldPointers(t.arrayElement.stackType))
    && !t.isWeakReference
  }

  class HeapEntry {
    const addr: nat
    const size: nat      // total size in bytes, header included
    const typ: TypeDef
    var left: HeapEntry
    var right: HeapEntry
    var level: nat
    var marked: nat
    var needToFinalize: nat
    var memory: seq<nat> // the user memory, as the words the collector reads

    // The terminating node: zeroed, with both links to itself.
    constructor Nil()
      ensures left == this && right == this && level == 0
    {
      addr, size := 0, 0;
      typ := TypeDef(0, false, false, NotAnArray, false);
      left, right := this, this;
      level, marked, needToFinalize, memory := 0, 0, 0, [];
    }

    // A zeroed block returned by the allocator, with its header filled in.
    constructor Allocate(addr: nat, size: nat, typ: TypeDef, memory: seq<nat>, nil: HeapEntry)
      ensures this.addr == addr && this.size == size && this.typ == typ && this.memory == memory
      ensures marked == 0
      ensures needToFinalize == if typ.hasFinalizer then 1 else 0
    {
      this.addr, this.size, this.typ, this.memory := addr, size, typ, memory;
      left, right, level, marked := nil, nil, 0, 0;
      needToFinalize := if typ.hasFinalizer then 1 else 0;
    }
  }

  datatype Tree = Leaf | Node(left: Tree, entry: HeapEntry, level: nat, right: Tree)

  ghost function Entries(t: Tree): set<HeapEntry> {
    match t
    case Leaf => {}
    case Node(l, e, _, r) => Entries(l) + {e} + Entries(r)
  }

  ghost function Count(t: Tree): nat {
    match t
    case Leaf => 0
    case Node(l, _, _, r) => Count(l) + 1 + Count(r)
  }

  // The bytes taken by all entries, headers included.
  ghost function Bytes(t: Tree): nat {
    match t
    case Leaf => 0
    case Node(l, e, _, r) => Bytes(l) + e.size + Bytes(r)
  }

  ghost function Lvl(t: Tree): nat {
    if t.Leaf? then 0 else t.level
  }

  // The root of the linked structure that stands for t.
  ghost function Root(t: Tree, nil: HeapEntry): HeapEntry {
    if t.Leaf? then nil else t.entry
  }

  // The nodes reachable from n through the links are exactly those of t, at the levels of t.
  ghost predicate Shape(t: Tree, nil: HeapEntry)
    reads Entries(t)`left, Entries(t)`right, Entries(t)`level
  {
    match t
    case Leaf => true
    case Node(l, e, lv, r) =>
      e != nil && e.level == lv
      && e.left == Root(l, nil) && e.right == Root(r, nil)
      && Shape(l, nil) && Shape(r, nil)
  }

  ghost predicate NilOk(nil: HeapEntry)
    reads nil`left, nil`right, nil`level
  {
    nil.left == nil && nil.right == nil && nil.level == 0
  }

  // No node occurs twice.
  ghost predicate Distinct(t: Tree) {
    match t
    case Leaf => true
    case Node(l, e, _, r) =>
      e !in Entries(l) && e !in Entries(r) && Entries(l) !! Entries(r)
      && Distinct(l) && Distinct(r)
  }

  // Ordered by address, strictly between lo and hi.
  ghost predicate Between(t: Tree, lo: int, hi: int) {
    match t
    case Leaf => true
    case Node(l, e, _, r) =>
      lo < e.addr < hi && Between(l, lo, e.addr) && Between(r, e.addr, hi)
  }

  // Ordered by address, in a 32-bit address space.
  ghost predicate Ordered(t: Tree) {
    Between(t, -1, TWO32)
  }

  lemma {:induction false} Widen(t: Tree, lo: int, hi: int, lo': int, hi': int)
    requires Between(t, lo, hi) && lo' <= lo && hi <= hi'
    ensures Between(t, lo', hi')
  {
    if t.Node? {
      Widen(t.left, lo, t.entry.addr, lo', t.entry.addr);
      Widen(t.right, t.entry.addr, hi, t.entry.addr, hi');
    }
  }

  lemma {:induction false} InRange(t: Tree, lo: int, hi: int)
    requires Between(t, lo, hi)
    ensures forall x <- Entries(t) :: lo < x.addr < hi
  {
    if t.Node? {
      InRange(t.left, lo, t.entry.addr);
      InRange(t.right, t.entry.addr, hi);
    }
  }

  lemma {:induction false} BetweenIsDistinct(t: Tree, lo: int, hi: int)
    requires Between(t, lo, hi)
    ensures Distinct(t)
  {
    if t.Node? {
      BetweenIsDistinct(t.left, lo, t.entry.addr);
      BetweenIsDistinct(t.right, t.entry.addr, hi);
      InRange(t.left, lo, t.entry.addr);
      InRange(t.right, t.entry.addr, hi);
    }
  }

  // The address of a node identifies it.
  lemma {:induction false} SameAddress(t: Tree, lo: int, hi: int, x: HeapEntry, y: HeapEntry)
    requires Between(t, lo, hi) && x in Entries(t) && y in Entries(t) && x.addr == y.addr
    ensures x == y
  {
    InRange(t.left, lo, t.entry.addr);
    InRange(t.right, t.entry.addr, hi);
    if x in Entries(t.left) {
      SameAddress(t.left, lo, t.entry.addr, x, y);
    } else if x in Entries(t.right) {
      SameAddress(t.right, t.entry.addr, hi, x, y);
    }
  }

  lemma {:induction false} CountIsCardinality(t: Tree)
    requires Distinct(t)
    ensures Count(t) == |Entries(t)|
  {
    if t.Node? {
      CountIsCardinality(t.left);
      CountIsCardinality(t.right);
      assert |Entries(t.left) + {t.entry}| == |Entries(t.left)| + 1;
      assert |Entries(t)| == |Entries(t.left) + {t.entry}| + |Entries(t.right)|;
    }
  }
}
