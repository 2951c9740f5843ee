/**
 How the values of the CIL machine lie in the memory of the interpreter: the evaluation stack as words,
 and the arguments and locals one after the other at the offsets the translator computes.
 */
module Layout {
  import opened MachineInts
  import opened Options
  import opened Cil
  import opened Interpreter
  import opened Translator

  // The stack of values as a stack of words.
  ghost function Flat(st: Stack<Value>): Stack<nat> {
    if st.Empty? then Stack.Empty
    else PushWords(st.top.Width(), Pattern(st.top.Width(), st.top.v), Flat(st.below))
  }

  ghost predicate AllValues(st: Stack<Value>) {
    st.Push? ==> IsValue(st.top) && AllValues(st.below)
  }

  // The values on the stack have these types.
  ghost predicate HasTypes(st: Stack<Value>, types: Stack<Width>) {
    if st.Empty? then types.Empty?
    else types.Push? && st.top.Width() == types.top && HasTypes(st.below, types.below)
  }

  ghost function Widths(st: Stack<Ty>): Stack<Width> {
    if st.Empty? then Stack.Empty else Push(st.top.Width(), Widths(st.below))
  }

  // What is pushed can be popped again.
  lemma PushedWords(w: Width, p: nat, st: Stack<nat>)
    requires IsPattern(w, p)
    ensures HasWords(w, PushWords(w, p, st)) && TopWords(w, PushWords(w, p, st)) == p
    ensures BelowWords(w, PushWords(w, p, st)) == st
  {
  }

  lemma FlatTop(st: Stack<Value>)
    requires st.Push?
    ensures
      var w := st.top.Width();
      HasWords(w, Flat(st)) && TopWords(w, Flat(st)) == Pattern(w, st.top.v) && BelowWords(w, Flat(st)) == Flat(st.below)
  {
  }

  // ---------------------------------------------------------------- arguments and locals

  function WordsOf(x: Value): (r: seq<nat>) {
    var p := Pattern(x.Width(), x.v);
    if x.V32? then [p] else [p % M32, p / M32]
  }

  // The variables, one after the other.
  ghost function Slots(xs: seq<Value>): seq<nat>
    decreases |xs|
  {
    if xs == [] then [] else Slots(xs[..|xs| - 1]) + WordsOf(xs[|xs| - 1])
  }

  ghost predicate Declared(types: seq<Ty>, xs: seq<Value>) {
    |types| == |xs| && forall i :: 0 <= i < |xs| ==> xs[i].Width() == types[i].Width() && IsValue(xs[i])
  }

  function Cells(t: Ty): nat {
    if t.Width().W32? then 1 else 2
  }

  // The cell at which a variable starts.
  function CellOf(types: seq<Ty>, n: nat): nat
    requires n <= |types|
  {
    if n == 0 then 0 else CellOf(types, n - 1) + Cells(types[n - 1])
  }

  lemma {:induction false} OffsetsAreCells(types: seq<Ty>, n: nat)
    requires n <= |types|
    ensures OffsetOf(types, n) == 4 * CellOf(types, n)
  {
    if n > 0 {
      OffsetsAreCells(types, n - 1);
    }
  }

  lemma {:induction false} CellsAreWords(types: seq<Ty>, xs: seq<Value>, n: nat)
    requires Declared(types, xs) && n <= |xs|
    ensures CellOf(types, n) == |Slots(xs[..n])|
    decreases n
  {
    if n > 0 {
      CellsAreWords(types, xs, n - 1);
      assert xs[..n][..n - 1] == xs[..n - 1];
    }
  }

  lemma AllCells(types: seq<Ty>, xs: seq<Value>)
    requires Declared(types, xs)
    ensures CellOf(types, |types|) == |Slots(xs)|
  {
    CellsAreWords(types, xs, |xs|);
    assert xs[..|xs|] == xs;
  }

  // The words at a cell are those of x; writing those of y there gives the words after.
  ghost predicate Holds(words: seq<nat>, cell: nat, x: Value, y: Value, after: seq<nat>) {
    var w := x.Width();
    && LocalFits(w, words, cell)
    && LocalWords(w, words, cell) == Pattern(w, x.v)
    && WithLocal(w, words, cell, Pattern(w, y.v)) == after
  }

  // The words of a variable lie at its cell; overwriting them changes that variable alone.
  lemma {:induction false} SlotsAt(types: seq<Ty>, xs: seq<Value>, n: nat, y: Value)
    requires Declared(types, xs) && n < |xs| && y.Width() == xs[n].Width()
    ensures Holds(Slots(xs), CellOf(types, n), xs[n], y, Slots(xs[n := y]))
    decreases |xs|
  {
    var k := |xs| - 1;
    if n == k {
      LastSlot(types, xs, y);
    } else {
      SlotsAt(types[..k], xs[..k], n, y);
      SameCell(types, k, n);
      assert xs[n := y][..k] == xs[..k][n := y];
      Before(Slots(xs[..k]), WordsOf(xs[k]), CellOf(types, n), xs[n], y, Slots(xs[..k][n := y]));
    }
  }

  lemma LastSlot(types: seq<Ty>, xs: seq<Value>, y: Value)
    requires Declared(types, xs) && xs != [] && y.Width() == xs[|xs| - 1].Width()
    ensures Holds(Slots(xs), CellOf(types, |xs| - 1), xs[|xs| - 1], y, Slots(xs[|xs| - 1 := y]))
  {
    var k := |xs| - 1;
    var front := Slots(xs[..k]);
    CellsAreWords(types, xs, k);
    assert xs[k := y][..k] == xs[..k];
    assert Holds(WordsOf(xs[k]), 0, xs[k], y, WordsOf(y));
    Behind(front, WordsOf(xs[k]), 0, xs[k], y, WordsOf(y));
  }

  lemma {:induction false} SameCell(types: seq<Ty>, k: nat, n: nat)
    requires n <= k <= |types|
    ensures CellOf(types[..k], n) == CellOf(types, n)
    decreases n
  {
    if n > 0 {
      SameCell(types, k, n - 1);
    }
  }

  // Words that follow, and words that go before.
  lemma Before(a: seq<nat>, b: seq<nat>, o: nat, x: Value, y: Value, after: seq<nat>)
    requires Holds(a, o, x, y, after)
    ensures Holds(a + b, o, x, y, after + b)
  {
  }

  lemma Behind(a: seq<nat>, b: seq<nat>, o: nat, x: Value, y: Value, after: seq<nat>)
    requires Holds(b, o, x, y, after)
    ensures Holds(a + b, |a| + o, x, y, a + after)
  {
  }
}
