/**
 What the memory of a new frame holds, and when it matters. The locals of a call begin with what earlier calls left
 behind; and saving a thread at the end of a slice writes to memory. Neither can be seen by methods that store every
 local before they load it.
 */
module Leftovers {
  import opened Options
  import opened MachineInts
  import opened Interpreter
  import opened TimeSlices

  // ---------------------------------------------------------------- the paths through a method

  function Cells(w: Width, cell: nat): set<nat> {
    if w.W32? then {cell} else {cell, cell + 1}
  }

  // What the op at ip does, unless it is a call or the prefix of one.
  function OpOf(m: Method, ip: nat): Option<Fetched> {
    if ip < |m.ops| && m.ops[ip] != JIT_TAILCALL_PREFIX && m.ops[ip] != JIT_CALL_O then Fetch(m.ops, ip) else None
  }

  // The words of the parameters and locals that the op loads, and those it stores.
  function Loads(m: Method, ip: nat): set<nat> {
    match OpOf(m, ip)
    case Some(Fetched(LoadLocal(w, cell), _)) => Cells(w, cell)
    case _ => {}
  }

  function Stores(m: Method, ip: nat): set<nat> {
    match OpOf(m, ip)
    case Some(Fetched(StoreLocal(w, cell), _)) => Cells(w, cell)
    case _ => {}
  }

  // Where the op may lead.
  predicate LeadsTo(m: Method, ip: nat, to: nat) {
    if OpAt(m, ip) == Some(JIT_TAILCALL_PREFIX) then to == ip + 1
    else if OpAt(m, ip) == Some(JIT_CALL_O) then to == ip + 2
    else
      match OpOf(m, ip)
      case None => false
      case Some(f) =>
        match f.op
        case Leave => false
        case Jump(target) => to == target
        case JumpIf(_, _, target) => to == target || to == f.next
        case JumpOn(_, _, target) => to == target || to == f.next
        case JumpTable(targets) => to in targets || to == f.next
        case _ => to == f.next
  }

  // A path from the first op, its last one on top.
  predicate Path(m: Method, p: Stack<nat>) {
    p.Push? && if p.below.Empty? then p.top == 0 else Path(m, p.below) && LeadsTo(m, p.below.top, p.top)
  }

  // The word is stored on the path before its last op.
  predicate StoredOn(m: Method, p: Stack<nat>, cell: nat) {
    p.Push? && p.below.Push? && (cell in Stores(m, p.below.top) || StoredOn(m, p.below, cell))
  }

  // Every path through the method stores each word of its locals before it loads it.
  ghost predicate StoresBeforeLoading(m: Method) {
    forall p: Stack<nat>, cell: nat :: Path(m, p) && cell in Loads(m, p.top) && cell >= m.paramWords ==> StoredOn(m, p, cell)
  }

  // The word has been given or stored wherever the path to the op at ip led.
  ghost predicate Assigned(m: Method, ip: nat, cell: nat) {
    cell < m.paramWords || forall p: Stack<nat> :: Path(m, p) && p.top == ip ==> StoredOn(m, p, cell)
  }

  lemma LoadedIsAssigned(m: Method, ip: nat, cell: nat)
    requires StoresBeforeLoading(m) && cell in Loads(m, ip)
    ensures Assigned(m, ip, cell)
  {
  }

  lemma AssignedAtTheStart(m: Method, cell: nat)
    requires Assigned(m, 0, cell)
    ensures cell < m.paramWords
  {
    var p := Push(0, Stack.Empty);
    assert Path(m, p) && !StoredOn(m, p, cell);
  }

  lemma AssignedBefore(m: Method, ip: nat, to: nat, cell: nat)
    requires LeadsTo(m, ip, to) && Assigned(m, to, cell)
    ensures Assigned(m, ip, cell) || cell in Stores(m, ip)
  {
    if cell >= m.paramWords && cell !in Stores(m, ip) {
      forall p: Stack<nat> | Path(m, p) && p.top == ip ensures StoredOn(m, p, cell) {
        assert Path(m, Push(to, p)) && StoredOn(m, Push(to, p), cell);
      }
    }
  }

  // ---------------------------------------------------------------- calls that differ in leftovers only

  ghost predicate AlikeFrames(m: Method, fr: Frame, other: Frame) {
    && fr.ip == other.ip && fr.stack == other.stack && |fr.locals| == |other.locals|
    && forall cell: nat :: cell < |fr.locals| && Assigned(m, fr.ip, cell) ==> fr.locals[cell] == other.locals[cell]
  }

  ghost predicate AlikeCalls(program: seq<Method>, s: Stack<Call>, t: Stack<Call>) {
    if s.Empty? then t.Empty?
    else
      && t.Push? && s.top.index == t.top.index && AlikeCalls(program, s.below, t.below)
      && (s.top.index < |program| ==> AlikeFrames(program[s.top.index], s.top.frame, t.top.frame))
  }

  lemma {:induction false} AlikeBase(program: seq<Method>, s: Stack<Call>, t: Stack<Call>)
    requires AlikeCalls(program, s, t)
    ensures Base(program, s) == Base(program, t)
  {
    if s.Push? {
      AlikeBase(program, s.below, t.below);
    }
  }

  // The same words are known after an op that stores none.
  lemma StillAlike(m: Method, fr: Frame, other: Frame, to: nat, stack: Stack<nat>)
    requires AlikeFrames(m, fr, other) && LeadsTo(m, fr.ip, to) && Stores(m, fr.ip) == {}
    ensures AlikeFrames(m, fr.(ip := to, stack := stack), other.(ip := to, stack := stack))
  {
    forall cell: nat | cell < |fr.locals| && Assigned(m, to, cell) ensures fr.locals[cell] == other.locals[cell] {
      AssignedBefore(m, fr.ip, to, cell);
    }
  }

  // After one that stores, those and the ones stored.
  lemma AlikeStored(m: Method, fr: Frame, other: Frame, to: nat, stack: Stack<nat>, w: Width, cell: nat, p: nat)
    requires AlikeFrames(m, fr, other) && LeadsTo(m, fr.ip, to) && Stores(m, fr.ip) == Cells(w, cell)
    requires LocalFits(w, fr.locals, cell)
    ensures AlikeFrames(m, Frame(to, stack, WithLocal(w, fr.locals, cell, p)),
                        Frame(to, stack, WithLocal(w, other.locals, cell, p)))
  {
    var s, t := WithLocal(w, fr.locals, cell, p), WithLocal(w, other.locals, cell, p);
    forall k: nat | k < |s| && Assigned(m, to, k) ensures s[k] == t[k] {
      AssignedBefore(m, fr.ip, to, k);
    }
  }

  // Effects on frames that differ in leftovers only.
  ghost predicate AlikeEffects(m: Method, e: Effect, other: Effect) {
    match e
    case Continue(fr) => other.Continue? && AlikeFrames(m, fr, other.frame)
    case Checked(fr) => other.Checked? && AlikeFrames(m, fr, other.frame)
    case Returned(fr) => other.Returned? && fr.stack == other.frame.stack
    case Undefined => other.Undefined?
  }

  function WithLocals(e: Effect, locals: seq<nat>): Effect {
    match e
    case Continue(fr) => Continue(fr.(locals := locals))
    case Checked(fr) => Checked(fr.(locals := locals))
    case Returned(fr) => Returned(fr.(locals := locals))
    case Undefined => Undefined
  }

  // An op that neither loads nor stores a local acts on the rest of the frame.
  lemma LocalsPlayNoPart(op: MicroOp, fr: Frame, locals: seq<nat>)
    requires !op.LoadLocal? && !op.StoreLocal?
    ensures Perform(op, fr.(locals := locals)) == WithLocals(Perform(op, fr), locals)
    ensures var e := Perform(op, fr); !e.Undefined? ==> e.frame.locals == fr.locals
  {
  }

  // It leads where the method says.
  lemma PerformLeads(m: Method, ip: nat, f: Fetched, fr: Frame)
    requires OpOf(m, ip) == Some(f) && fr.ip == f.next
    ensures var e := Perform(f.op, fr); (e.Continue? || e.Checked?) ==> LeadsTo(m, ip, e.frame.ip)
    ensures var e := Perform(f.op, fr); e.Returned? ==> f.op.Leave?
  {
  }

  lemma AlikePerformed(m: Method, fr: Frame, other: Frame, f: Fetched)
    requires StoresBeforeLoading(m) && AlikeFrames(m, fr, other) && OpOf(m, fr.ip) == Some(f)
    requires !f.op.LoadLocal? && !f.op.StoreLocal?
    ensures AlikeEffects(m, Perform(f.op, fr.(ip := f.next)), Perform(f.op, other.(ip := f.next)))
  {
    var e := Perform(f.op, fr.(ip := f.next));
    PerformLeads(m, fr.ip, f, fr.(ip := f.next));
    LocalsPlayNoPart(f.op, fr.(ip := f.next), other.locals);
    assert fr.(ip := f.next, locals := other.locals) == other.(ip := f.next);
    if e.Continue? || e.Checked? {
      StillAlike(m, fr, other, e.frame.ip, e.frame.stack);
    }
  }

  lemma AlikeLoaded(m: Method, fr: Frame, other: Frame, f: Fetched)
    requires StoresBeforeLoading(m) && AlikeFrames(m, fr, other) && OpOf(m, fr.ip) == Some(f) && f.op.LoadLocal?
    ensures AlikeEffects(m, Perform(f.op, fr.(ip := f.next)), Perform(f.op, other.(ip := f.next)))
  {
    var w, cell := f.op.w, f.op.cell;
    assert Loads(m, fr.ip) == Cells(w, cell);
    if LocalFits(w, fr.locals, cell) {
      forall k | k in Cells(w, cell) ensures fr.locals[k] == other.locals[k] {
        LoadedIsAssigned(m, fr.ip, k);
      }
      assert cell in Cells(w, cell);
      assert w.W64? ==> cell + 1 in Cells(w, cell);
      assert LocalWords(w, fr.locals, cell) == LocalWords(w, other.locals, cell);
      StillAlike(m, fr, other, f.next, PushWords(w, LocalWords(w, fr.locals, cell), fr.stack));
    }
  }

  lemma AlikeTurns(m: Method, maxStack: nat, fr: Frame, other: Frame)
    requires StoresBeforeLoading(m) && AlikeFrames(m, fr, other)
    requires OpAt(m, fr.ip).Some? && OpAt(m, fr.ip).value != JIT_TAILCALL_PREFIX && OpAt(m, fr.ip).value != JIT_CALL_O
    ensures AlikeEffects(m, Turn(m.ops, maxStack, fr), Turn(m.ops, maxStack, other))
  {
    match Fetch(m.ops, fr.ip)
    case None =>
    case Some(f) =>
      if f.op.LoadLocal? {
        AlikeLoaded(m, fr, other, f);
      } else if f.op.StoreLocal? {
        var w, cell := f.op.w, f.op.cell;
        if LocalFits(w, fr.locals, cell) && HasWords(w, fr.stack) {
          AlikeStored(m, fr, other, f.next, BelowWords(w, fr.stack), w, cell, TopWords(w, fr.stack));
        }
      } else {
        AlikePerformed(m, fr, other, f);
      }
  }

  // ---------------------------------------------------------------- runs that differ in leftovers only

  ghost predicate AlikeThreads(program: seq<Method>, t: Thread, other: Thread) {
    AlikeCalls(program, t.calls, other.calls) && |t.memory| == |other.memory|
  }

  ghost predicate AlikeOutcomes(program: seq<Method>, o: Outcome, other: Outcome) {
    match o
    case Running(t, op, checked) =>
      other.Running? && AlikeThreads(program, t, other.thread) && op == other.op && checked == other.checked
    case Exited(result) => o == other
    case Crashed => o == other
  }

  ghost predicate AlikeEnds(program: seq<Method>, e: SliceEnd, other: SliceEnd) {
    match e
    case Stopped(t) => other.Stopped? && AlikeThreads(program, t, other.thread)
    case Ended(_) => e == other
    case Broken => e == other
  }

  ghost predicate AllStoreBeforeLoading(program: seq<Method>) {
    forall m <- program :: StoresBeforeLoading(m)
  }

  lemma AlikeGoOn(program: seq<Method>, t: Thread, other: Thread, fr: Frame, fr': Frame, op: nat, checked: bool)
    requires AlikeThreads(program, t, other) && t.calls.Push? && t.calls.top.index < |program|
    requires AlikeFrames(program[t.calls.top.index], fr, fr')
    ensures AlikeOutcomes(program, GoOn(program, t, fr, op, checked), GoOn(program, other, fr', op, checked))
  {
  }

  // A new frame begins with its parameters, and with whatever there is.
  lemma AlikeEntered(program: seq<Method>, callers: Stack<Call>, memory: Memory, address: nat,
                     otherCallers: Stack<Call>, otherMemory: Memory, otherAddress: nat, target: nat, params: seq<nat>)
    requires target < |program| && |params| == program[target].paramWords && AlikeCalls(program, callers, otherCallers)
    requires Base(program, callers) == Base(program, otherCallers)
    requires Base(program, callers) + FrameWords(program[target]) <= |memory| == |otherMemory|
    ensures AlikeThreads(program, Enter(program, callers, memory, address, target, params),
                         Enter(program, otherCallers, otherMemory, otherAddress, target, params))
  {
    var m, base := program[target], Base(program, callers);
    var t, other := Enter(program, callers, memory, address, target, params),
                    Enter(program, otherCallers, otherMemory, otherAddress, target, params);
    var a, b := t.calls.top.frame.locals, other.calls.top.frame.locals;
    forall cell: nat | cell < |a| && Assigned(m, 0, cell) ensures a[cell] == b[cell] {
      AssignedAtTheStart(m, cell);
    }
    assert AlikeFrames(m, Frame(0, Stack.Empty, a), Frame(0, Stack.Empty, b));
  }

  lemma AlikePlaced(program: seq<Method>, t: Thread, saved: Stack<Call>, other: Thread, otherSaved: Stack<Call>, reused: bool,
                    target: nat, params: seq<nat>)
    requires target < |program| && |params| == program[target].paramWords && saved.Push? && AlikeCalls(program, saved, otherSaved)
    requires |t.memory| == |other.memory|
    ensures AlikeOutcomes(program, PlaceCall(program, t, saved, reused, target, params),
                          PlaceCall(program, other, otherSaved, reused, target, params))
  {
    var callers, otherCallers := if reused then saved.below else saved, if reused then otherSaved.below else otherSaved;
    AlikeBase(program, callers, otherCallers);
    if Base(program, callers) + FrameWords(program[target]) <= |t.memory| {
      AlikeEntered(program, callers, t.memory, t.address, otherCallers, other.memory, other.address, target, params);
    }
  }

  lemma AlikeCalling(program: seq<Method>, t: Thread, other: Thread, stack: Stack<nat>)
    requires AlikeThreads(program, t, other) && t.calls.Push? && t.calls.top.index < |program|
    requires OpAt(program[t.calls.top.index], t.calls.top.frame.ip) == Some(JIT_CALL_O)
    ensures AlikeCalls(program, Calling(t.calls.top, t.calls.below, stack), Calling(other.calls.top, other.calls.below, stack))
  {
    StillAlike(program[t.calls.top.index], t.calls.top.frame, other.calls.top.frame, t.calls.top.frame.ip + 2, stack);
  }

  lemma AlikeCalled(program: seq<Method>, t: Thread, other: Thread, prev: nat)
    requires AlikeThreads(program, t, other) && t.calls.Push? && t.calls.top.index < |program|
    requires OpAt(program[t.calls.top.index], t.calls.top.frame.ip) == Some(JIT_CALL_O)
    ensures AlikeOutcomes(program, DoCall(program, t, prev), DoCall(program, other, prev))
  {
    var c, d := t.calls.top, other.calls.top;
    assert WantedCall(program, c.index, c.frame, prev) == WantedCall(program, c.index, d.frame, prev);
    match WantedCall(program, c.index, c.frame, prev)
    case None =>
    case Some(w) =>
      AlikeCalling(program, t, other, w.rest);
      AlikePlaced(program, t, Calling(c, t.calls.below, w.rest), other, Calling(d, other.calls.below, w.rest), w.reused, w.target,
                  w.params);
  }

  lemma AlikeReturned(program: seq<Method>, t: Thread, other: Thread, fr: Frame, fr': Frame)
    requires AlikeThreads(program, t, other) && t.calls.Push? && t.calls.top.index < |program| && fr.stack == fr'.stack
    ensures AlikeOutcomes(program, DoReturn(program, t, fr), DoReturn(program, other, fr'))
  {
    var w := TakeWords(fr.stack, program[t.calls.top.index].resultWords);
    assert AlikeCalls(program, t.calls.below, other.calls.below);
    if w.Some? && t.calls.below.Push? {
      var c, d := t.calls.below.top, other.calls.below.top;
      var stack := PushAll(w.value.words, c.frame.stack);
      if c.index < |program| {
        assert AlikeFrames(program[c.index], c.frame.(stack := stack), d.frame.(stack := stack));
        AlikeGoOn(program, Thread(t.calls.below, SetOfs(program, t.calls.below, t.memory), t.address),
                  Thread(other.calls.below, SetOfs(program, other.calls.below, other.memory), other.address),
                  c.frame.(stack := stack), d.frame.(stack := stack), JIT_RETURN, false);
      }
    }
  }

  lemma AlikeSteps(program: seq<Method>, t: Thread, other: Thread, prev: nat)
    requires AllStoreBeforeLoading(program) && AlikeThreads(program, t, other)
    ensures AlikeOutcomes(program, ThreadStep(program, t, prev), ThreadStep(program, other, prev))
  {
    if t.calls.Push? && t.calls.top.index < |program| {
      var m, fr, fr' := program[t.calls.top.index], t.calls.top.frame, other.calls.top.frame;
      var op := OpAt(m, fr.ip);
      if op == Some(JIT_TAILCALL_PREFIX) {
        StillAlike(m, fr, fr', fr.ip + 1, fr.stack);
        AlikeGoOn(program, t, other, fr.(ip := fr.ip + 1), fr'.(ip := fr.ip + 1), op.value, false);
      } else if op == Some(JIT_CALL_O) {
        AlikeCalled(program, t, other, prev);
      } else if op.Some? {
        AlikeTurned(program, t, other, op.value, Turn(m.ops, 4 * m.stackWords, fr), Turn(m.ops, 4 * m.stackWords, fr'), prev);
      }
    }
  }

  lemma AlikeTurned(program: seq<Method>, t: Thread, other: Thread, op: nat, e: Effect, e': Effect, prev: nat)
    requires AllStoreBeforeLoading(program) && AlikeThreads(program, t, other) && t.calls.Push? && t.calls.top.index < |program|
    requires OpAt(program[t.calls.top.index], t.calls.top.frame.ip) == Some(op) && op != JIT_TAILCALL_PREFIX && op != JIT_CALL_O
    requires e == Turn(program[t.calls.top.index].ops, 4 * program[t.calls.top.index].stackWords, t.calls.top.frame)
    requires e' == Turn(program[t.calls.top.index].ops, 4 * program[t.calls.top.index].stackWords, other.calls.top.frame)
    ensures AlikeOutcomes(program, ThreadStep(program, t, prev), ThreadStep(program, other, prev))
  {
    var m := program[t.calls.top.index];
    assert m in program;
    AlikeTurns(m, 4 * m.stackWords, t.calls.top.frame, other.calls.top.frame);
    match e
    case Continue(fr) => AlikeGoOn(program, t, other, fr, e'.frame, op, false);
    case Checked(fr) => AlikeGoOn(program, t, other, fr, e'.frame, op, true);
    case Returned(fr) => AlikeReturned(program, t, other, fr, e'.frame);
    case Undefined =>
  }

  // If every method stores before it loads, what is left in memory makes no difference to a slice.
  lemma {:induction false} LeftoversPlayNoPart(program: seq<Method>, t: Thread, other: Thread, prev: nat, num: nat)
    requires num > 0 && AllStoreBeforeLoading(program) && AlikeThreads(program, t, other)
    ensures AlikeEnds(program, Slice(program, t, prev, num), Slice(program, other, prev, num))
    decreases num, Height(t.calls), OpsLeft(program, t.calls)
  {
    var o, o' := ThreadStep(program, t, prev), ThreadStep(program, other, prev);
    AlikeSteps(program, t, other, prev);
    SliceUnfolds(program, t, prev, num, o);
    SliceUnfolds(program, other, prev, num, o');
    if o.Running? && !(o.checked && num == 1) {
      LeftoversPlayNoPart(program, o.thread, o'.thread, o.op, if o.checked then num - 1 else num);
    }
  }

  // ---------------------------------------------------------------- the two consequences

  // A thread about to begin, as Thread_SetEntryPoint makes it.
  function Start(program: seq<Method>, target: nat, params: seq<nat>, memory: Memory, address: nat): Thread
    requires target < |program| && FrameWords(program[target]) <= CHUNK_WORDS
  {
    Enter(program, Stack.Empty, memory, address, target, params)
  }

  // What a method does, and how it ends, does not depend on what the memory of the thread held.
  lemma MemoryPlaysNoPart(program: seq<Method>, target: nat, params: seq<nat>, memory: Memory, address: nat,
                          otherMemory: Memory, otherAddress: nat, num: nat)
    requires target < |program| && FrameWords(program[target]) <= CHUNK_WORDS && |params| == program[target].paramWords
    requires num > 0 && AllStoreBeforeLoading(program) && |memory| == |otherMemory|
    ensures AlikeEnds(program, Slice(program, Start(program, target, params, memory, address), JIT_NOP, num),
                      Slice(program, Start(program, target, params, otherMemory, otherAddress), JIT_NOP, num))
  {
    AlikeEntered(program, Stack.Empty, memory, address, Stack.Empty, otherMemory, otherAddress, target, params);
    LeftoversPlayNoPart(program, Start(program, target, params, memory, address),
                        Start(program, target, params, otherMemory, otherAddress), JIT_NOP, num);
  }

  lemma {:induction false} AlikeItself(program: seq<Method>, s: Stack<Call>)
    ensures AlikeCalls(program, s, s)
  {
    if s.Push? {
      AlikeItself(program, s.below);
    }
  }

  lemma {:induction false} AlikeAlong(program: seq<Method>, s: Stack<Call>, t: Stack<Call>, u: Stack<Call>)
    requires AlikeCalls(program, s, t) && AlikeCalls(program, t, u)
    ensures AlikeCalls(program, s, u)
  {
    if s.Push? {
      AlikeAlong(program, s.below, t.below, u.below);
    }
  }

  lemma AlikeEndsAlong(program: seq<Method>, e: SliceEnd, f: SliceEnd, g: SliceEnd)
    requires AlikeEnds(program, e, f) && AlikeEnds(program, f, g)
    ensures AlikeEnds(program, e, g)
  {
    if e.Stopped? {
      AlikeAlong(program, e.thread.calls, f.thread.calls, g.thread.calls);
    }
  }

  // How a run is cut into slices.
  type SliceLength = n: nat | n > 0 witness 1
  datatype Cuts = Last(num: SliceLength) | Before(num: SliceLength, rest: Cuts)

  function Total(cuts: Cuts): SliceLength {
    match cuts
    case Last(num) => num
    case Before(num, rest) => num + Total(rest)
  }

  // One slice after the other, the thread saved behind each.
  function Sliced(program: seq<Method>, t: Thread, cuts: Cuts): SliceEnd
    decreases cuts
  {
    match Slice(program, t, JIT_NOP, cuts.num)
    case Ended(result) => Ended(result)
    case Broken => Broken
    case Stopped(t') => if cuts.Last? then Stopped(Saved(program, t')) else Sliced(program, Saved(program, t'), cuts.rest)
  }

  // However a run is cut into slices, it is the one long slice.
  lemma {:induction false} SavingPlaysNoPart(program: seq<Method>, t: Thread, cuts: Cuts, n: nat)
    requires AllStoreBeforeLoading(program) && n == Total(cuts)
    ensures AlikeEnds(program, Slice(program, t, JIT_NOP, n), Sliced(program, t, cuts))
    decreases cuts, 0
  {
    var first := Slice(program, t, JIT_NOP, cuts.num);
    if first.Stopped? {
      AlikeItself(program, first.thread.calls);
    }
    if cuts.Before? {
      SlicingIsTransparent(program, t, JIT_NOP, n, cuts.num, Total(cuts.rest));
      if first.Stopped? {
        ResumedAlike(program, first.thread, Saved(program, first.thread), cuts.rest, Total(cuts.rest));
      }
    }
  }

  lemma {:induction false} ResumedAlike(program: seq<Method>, t: Thread, saved: Thread, cuts: Cuts, n: nat)
    requires AllStoreBeforeLoading(program) && n == Total(cuts) && AlikeThreads(program, t, saved)
    ensures AlikeEnds(program, Slice(program, t, JIT_NOP, n), Sliced(program, saved, cuts))
    decreases cuts, 1
  {
    LeftoversPlayNoPart(program, t, saved, JIT_NOP, n);
    SavingPlaysNoPart(program, saved, cuts, n);
    AlikeEndsAlong(program, Slice(program, t, JIT_NOP, n), Slice(program, saved, JIT_NOP, n), Sliced(program, saved, cuts));
  }
}
