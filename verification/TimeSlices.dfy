/**
 Threads, calls and time slices. A thread is a stack of calls and the memory their frames lie in. The interpreter works
 on registers, loaded from the topmost call and saved back when the call changes or the slice ends; one register, the
 previous opcode, is lost between slices.
 */
module TimeSlices {
  import opened Options
  import opened Interpreter

  const JIT_CALL_O := 0x7
  const JIT_TAILCALL_PREFIX := 0x166

  // The memory of a thread and the header of a frame in it, tMethodState, in words of four bytes. The chunk that frames
  // are to lie in is followed by ofs, where they end, by pNext, and by memory of others.
  const CHUNK_WORDS := 12_500
  const OFS_WORD := CHUNK_WORDS
  const HEADER_WORDS := 11
  const IP_WORD := 2

  type Memory = m: seq<nat> | |m| >= CHUNK_WORDS + 2 witness seq(CHUNK_WORDS + 2, _ => 0)

  // The address of a method and of its code, and what the interpreter asks of them.
  datatype Method = Method(
    address: nat, code: nat, ops: seq<nat>, stackWords: nat, paramWords: nat, localWords: nat, resultWords: nat,
    resultType: nat, hasHandlers: bool)

  // One method call. The method is given by its index in the program.
  datatype Call = Call(index: nat, frame: Frame)

  // The calls, and the memory, which has its own address.
  datatype Thread = Thread(calls: Stack<Call>, memory: Memory, address: nat)

  // ---------------------------------------------------------------- frames in memory

  function FrameWords(m: Method): nat {
    HEADER_WORDS + m.stackWords + m.paramWords + m.localWords
  }

  // Where the frame of a further call begins: frames lie one behind the other.
  function Base(program: seq<Method>, calls: Stack<Call>): nat {
    if calls.Empty? then 0
    else Base(program, calls.below) + if calls.top.index < |program| then FrameWords(program[calls.top.index]) else HEADER_WORDS
  }

  function Overwrite(memory: Memory, at: nat, words: seq<nat>): (r: Memory)
    ensures |r| == |memory|
  {
    if at + |words| <= |memory| then memory[..at] + words + memory[at + |words|..] else memory
  }

  // What the memory holds where the locals of a frame will be. Nobody clears it.
  function Leftover(memory: Memory, base: nat, m: Method): (r: seq<nat>)
    requires base + FrameWords(m) <= |memory|
    ensures |r| == m.localWords
  {
    var at := base + HEADER_WORDS + m.stackWords + m.paramWords;
    memory[at..at + m.localWords]
  }

  // The words of an evaluation stack, the lowest first.
  function WordsOf(st: Stack<nat>): seq<nat> {
    if st.Empty? then [] else WordsOf(st.below) + [st.top]
  }

  // The evaluation stack, the parameters and the locals of the topmost call are written where they belong. What has been
  // popped stays behind.
  function Mirror(program: seq<Method>, calls: Stack<Call>, memory: Memory): (r: Memory)
    ensures |r| == |memory|
  {
    if calls.Empty? || calls.top.index >= |program| then memory
    else
      var at := Base(program, calls.below) + HEADER_WORDS;
      var fr := calls.top.frame;
      Overwrite(Overwrite(memory, at, WordsOf(fr.stack)), at + program[calls.top.index].stackWords, fr.locals)
  }

  // SAVE_METHOD_STATE.
  function Save(program: seq<Method>, calls: Stack<Call>, memory: Memory): (r: Memory)
    ensures |r| == |memory|
  {
    if calls.Empty? then memory
    else Overwrite(memory, Base(program, calls.below) + IP_WORD, [calls.top.frame.ip, StackBytes(calls.top.frame.stack)])
  }

  // The header that MethodState_Direct fills in: the code has not begun and the evaluation stack is empty; the caller is
  // the address of its frame.
  function Header(program: seq<Method>, m: Method, callers: Stack<Call>, address: nat): seq<nat> {
    [m.address, m.code, 0, 0, 0, 0, 0, 0, 0, if callers.Empty? then 0 else address + 4 * Base(program, callers.below), 0]
  }

  // The word ofs says where the frames of the calls end.
  function SetOfs(program: seq<Method>, calls: Stack<Call>, memory: Memory): (r: Memory)
    ensures |r| == |memory|
  {
    Overwrite(memory, OFS_WORD, [4 * Base(program, calls)])
  }

  // The frame of a new call behind those of its callers, as MethodState_Direct and CopyParameters make it. It may run over
  // the end of the chunk: then ofs, set before, is among what it begins with.
  function Enter(program: seq<Method>, callers: Stack<Call>, memory: Memory, address: nat, target: nat, params: seq<nat>): Thread
    requires target < |program| && Base(program, callers) + FrameWords(program[target]) <= |memory|
  {
    var base := Base(program, callers);
    var ended := SetOfs(program, Push(Call(target, Frame(0, Stack.Empty, [])), callers), memory);
    var calls := Push(Call(target, Frame(0, Stack.Empty, params + Leftover(ended, base, program[target]))), callers);
    Thread(calls, Mirror(program, calls, Overwrite(ended, base, Header(program, program[target], callers, address))), address)
  }

  // ---------------------------------------------------------------- one op

  datatype Words = Words(words: seq<nat>, rest: Stack<nat>)

  // The n words on top, the lowest first, and what is below it.
  function TakeWords(st: Stack<nat>, n: nat): (r: Option<Words>)
    ensures r.Some? ==> |r.value.words| == n
    decreases n
  {
    if n == 0 then Some(Words([], st))
    else if st.Empty? then None
    else
      match TakeWords(st.below, n - 1)
      case None => None
      case Some(w) => Some(Words(w.words + [st.top], w.rest))
  }

  function PushAll(words: seq<nat>, st: Stack<nat>): Stack<nat>
    decreases |words|
  {
    if words == [] then st else PushAll(words[1..], Push(words[0], st))
  }

  datatype Outcome =
    | Running(thread: Thread, op: nat, checked: bool)
    | Exited(result: seq<nat>)
    | Crashed

  function OpAt(m: Method, ip: nat): Option<nat> {
    if ip < |m.ops| then Some(m.ops[ip]) else None
  }

  // Whether the frame of the caller is reused.
  predicate TailCallAllowed(caller: Method, callee: Method, same: bool) {
    same || (caller.resultType == callee.resultType && !caller.hasHandlers)
  }

  // The thread goes on with the topmost call as it now is.
  function GoOn(program: seq<Method>, t: Thread, fr: Frame, op: nat, checked: bool): Outcome
    requires t.calls.Push?
  {
    var calls := Push(t.calls.top.(frame := fr), t.calls.below);
    Running(Thread(calls, Mirror(program, calls, t.memory), t.address), op, checked)
  }

  // What the caller is left with when it has called.
  function Calling(c: Call, below: Stack<Call>, stack: Stack<nat>): Stack<Call> {
    Push(c.(frame := c.frame.(ip := c.frame.ip + 2, stack := stack)), below)
  }

  // What a call op asks for: which method, with which parameters taken off the stack, and whether in place of the caller.
  datatype Wanted = Wanted(target: nat, params: seq<nat>, rest: Stack<nat>, reused: bool)

  function WantedCall(program: seq<Method>, index: nat, fr: Frame, prev: nat): (r: Option<Wanted>)
    requires index < |program|
    ensures r.Some? ==> r.value.target < |program| && |r.value.params| == program[r.value.target].paramWords
  {
    var m := program[index];
    if fr.ip + 2 >= |m.ops| || m.ops[fr.ip + 1] >= |program| then None
    else
      var target := m.ops[fr.ip + 1];
      match TakeWords(fr.stack, program[target].paramWords)
      case None => None
      case Some(w) =>
        var isTailCall := prev == JIT_TAILCALL_PREFIX && m.ops[fr.ip + 2] == JIT_RETURN;
        Some(Wanted(target, w.words, w.rest, isTailCall && TailCallAllowed(m, program[target], target == index)))
  }

  function DoCall(program: seq<Method>, t: Thread, prev: nat): Outcome
    requires t.calls.Push? && t.calls.top.index < |program|
  {
    match WantedCall(program, t.calls.top.index, t.calls.top.frame, prev)
    case None => Crashed
    case Some(w) => PlaceCall(program, t, Calling(t.calls.top, t.calls.below, w.rest), w.reused, w.target, w.params)
  }

  // The frame of the new call goes behind that of its caller, if there is room in the chunk, or in its place, and then
  // nobody asks. Where there is no memory at all nothing is said.
  function PlaceCall(program: seq<Method>, t: Thread, saved: Stack<Call>, reused: bool, target: nat, params: seq<nat>): Outcome
    requires target < |program| && saved.Push?
  {
    var callers := if reused then saved.below else saved;
    var end := Base(program, callers) + FrameWords(program[target]);
    if end > if reused then |t.memory| else CHUNK_WORDS then Crashed
    else
      var entered := Enter(program, callers, t.memory, t.address, target, params);
      Running(if reused then entered else entered.(memory := Save(program, saved, entered.memory)), JIT_CALL_O, true)
  }

  // The result is copied to the evaluation stack of the caller. The frame is left as it is, but ends the thread's no more.
  function DoReturn(program: seq<Method>, t: Thread, fr: Frame): Outcome
    requires t.calls.Push? && t.calls.top.index < |program|
  {
    match TakeWords(fr.stack, program[t.calls.top.index].resultWords)
    case None => Crashed
    case Some(w) =>
      if t.calls.below.Empty? then Exited(w.words)
      else
        var caller := t.calls.below.top;
        var stack := PushAll(w.words, caller.frame.stack);
        if caller.index < |program| && StackBytes(stack) <= 4 * program[caller.index].stackWords then
          var back := Thread(t.calls.below, SetOfs(program, t.calls.below, t.memory), t.address);
          GoOn(program, back, caller.frame.(stack := stack), JIT_RETURN, false)
        else Crashed
  }

  // One op of the topmost call. prev is the opcode before it.
  function ThreadStep(program: seq<Method>, t: Thread, prev: nat): Outcome {
    if t.calls.Empty? || t.calls.top.index >= |program| then Crashed
    else
      var m, fr := program[t.calls.top.index], t.calls.top.frame;
      match OpAt(m, fr.ip)
      case None => Crashed
      case Some(op) =>
        if op == JIT_TAILCALL_PREFIX then GoOn(program, t, fr.(ip := fr.ip + 1), op, false)
        else if op == JIT_CALL_O then DoCall(program, t, prev)
        else
          match Turn(m.ops, 4 * m.stackWords, fr)
          case Continue(fr') => GoOn(program, t, fr', op, false)
          case Checked(fr') => GoOn(program, t, fr', op, true)
          case Returned(fr') => DoReturn(program, t, fr')
          case Undefined => Crashed
  }

  lemma StepCalls(program: seq<Method>, t: Thread, prev: nat)
    requires t.calls.Push? && t.calls.top.index < |program|
    requires OpAt(program[t.calls.top.index], t.calls.top.frame.ip) == Some(JIT_CALL_O)
    ensures ThreadStep(program, t, prev) == DoCall(program, t, prev)
  {
  }

  lemma StepReturns(program: seq<Method>, t: Thread, prev: nat, fr: Frame)
    requires t.calls.Push? && t.calls.top.index < |program| && OpAt(program[t.calls.top.index], t.calls.top.frame.ip) == Some(0x1)
    requires Turn(program[t.calls.top.index].ops, 4 * program[t.calls.top.index].stackWords, t.calls.top.frame) == Returned(fr)
    ensures ThreadStep(program, t, prev) == DoReturn(program, t, fr)
  {
  }

  lemma OneWord(x: nat)
    ensures TakeWords(Push(x, Stack.Empty), 1) == Some(Words([x], Stack.Empty)) && StackBytes(Push(x, Stack.Empty)) == 4
  {
    assert TakeWords(Stack<nat>.Empty, 0) == Some(Words([], Stack.Empty));
    assert [] + [x] == [x];
    assert StackBytes(Stack<nat>.Empty) == 0;
  }

  // ---------------------------------------------------------------- what calls hand over and back

  // The last n words.
  function LastWords(words: seq<nat>, n: nat): seq<nat> {
    if n <= |words| then words[|words| - n..] else words
  }

  lemma {:induction false} TakenFromTheTop(st: Stack<nat>, n: nat)
    ensures TakeWords(st, n).Some? <==> n <= |WordsOf(st)|
    ensures TakeWords(st, n).Some? ==>
      TakeWords(st, n).value.words == LastWords(WordsOf(st), n) && WordsOf(st) == WordsOf(TakeWords(st, n).value.rest) + LastWords(WordsOf(st), n)
    decreases n
  {
    if n == 0 {
      assert WordsOf(st) == WordsOf(st) + [];
    } else if st.Push? {
      TakenFromTheTop(st.below, n - 1);
      OneMoreTaken(WordsOf(st.below), st.top, n - 1);
    }
  }

  lemma OneMoreTaken(words: seq<nat>, x: nat, k: nat)
    ensures k <= |words| ==> LastWords(words + [x], k + 1) == LastWords(words, k) + [x]
    ensures k <= |words| ==> words + [x] == (words + [x])[..|words| - k] + LastWords(words + [x], k + 1)
    ensures k <= |words| ==> words[..|words| - k] == (words + [x])[..|words| - k]
  {
  }

  lemma {:induction false} PushedOnTop(words: seq<nat>, st: Stack<nat>)
    ensures WordsOf(PushAll(words, st)) == WordsOf(st) + words
    decreases |words|
  {
    if words == [] {
      assert WordsOf(st) + [] == WordsOf(st);
    } else {
      PushedOnTop(words[1..], Push(words[0], st));
      assert WordsOf(Push(words[0], st)) == WordsOf(st) + [words[0]];
      assert words == [words[0]] + words[1..];
    }
  }

  // The caller is gone: the call has the prefix and a return behind it, and calls the caller itself or a method of its
  // return type, the caller having no handlers.
  predicate TakesThePlace(m: Method, callee: Method, same: bool, ip: nat, prev: nat) {
    && prev == 0x166 && ip + 2 < |m.ops| && m.ops[ip + 2] == 0x1
    && (same || (m.resultType == callee.resultType && !m.hasHandlers))
  }

  // What a call hands over: the method begins with its parameters, in the order in which they were pushed, and an empty
  // stack; the caller, unless it is gone, goes on behind the call without them.
  lemma CallHandsOver(program: seq<Method>, t: Thread, prev: nat)
    requires t.calls.Push? && t.calls.top.index < |program|
    requires OpAt(program[t.calls.top.index], t.calls.top.frame.ip) == Some(JIT_CALL_O) && ThreadStep(program, t, prev).Running?
    ensures
      var caller, m := t.calls.top, program[t.calls.top.index];
      var calls := ThreadStep(program, t, prev).thread.calls;
      && caller.frame.ip + 2 < |m.ops| && calls.Push? && calls.top.index == m.ops[caller.frame.ip + 1] < |program|
      && var callee := program[calls.top.index];
         && calls.top.frame.ip == 0 && calls.top.frame.stack.Empty?
         && callee.paramWords <= |calls.top.frame.locals| == callee.paramWords + callee.localWords
         && var params := calls.top.frame.locals[..callee.paramWords];
            && params == LastWords(WordsOf(caller.frame.stack), callee.paramWords)
            && if TakesThePlace(m, callee, calls.top.index == caller.index, caller.frame.ip, prev) then calls.below == t.calls.below
               else
                 && calls.below.Push? && calls.below.below == t.calls.below && calls.below.top.index == caller.index
                 && calls.below.top.frame.ip == caller.frame.ip + 2 && calls.below.top.frame.locals == caller.frame.locals
                 && WordsOf(caller.frame.stack) == WordsOf(calls.below.top.frame.stack) + params
  {
    var caller := t.calls.top;
    StepCalls(program, t, prev);
    var w := WantedCall(program, caller.index, caller.frame, prev).value;
    WantedIs(program, caller.index, caller.frame, prev, w);
    PlacedHandsOver(program, t, Calling(caller, t.calls.below, w.rest), w.reused, w.target, w.params);
  }

  lemma WantedIs(program: seq<Method>, index: nat, fr: Frame, prev: nat, w: Wanted)
    requires index < |program| && WantedCall(program, index, fr, prev) == Some(w)
    ensures
      var m := program[index];
      && fr.ip + 2 < |m.ops| && w.target == m.ops[fr.ip + 1] < |program| && |w.params| == program[w.target].paramWords
      && w.reused == TakesThePlace(m, program[w.target], w.target == index, fr.ip, prev)
      && w.params == LastWords(WordsOf(fr.stack), program[w.target].paramWords)
      && WordsOf(fr.stack) == WordsOf(w.rest) + w.params
  {
    TakenFromTheTop(fr.stack, program[w.target].paramWords);
  }

  lemma PlacedHandsOver(program: seq<Method>, t: Thread, saved: Stack<Call>, reused: bool, target: nat, params: seq<nat>)
    requires target < |program| && saved.Push? && |params| == program[target].paramWords
    requires PlaceCall(program, t, saved, reused, target, params).Running?
    ensures
      var calls := PlaceCall(program, t, saved, reused, target, params).thread.calls;
      && calls.Push? && calls.below == (if reused then saved.below else saved) && calls.top.index == target
      && calls.top.frame.ip == 0 && calls.top.frame.stack.Empty?
      && |calls.top.frame.locals| == |params| + program[target].localWords && calls.top.frame.locals[..|params|] == params
  {
  }

  // What a return hands back: the last words of the stack, as many as the result has, on top of what the caller had; or as
  // the result of the thread.
  lemma ReturnHandsBack(program: seq<Method>, t: Thread, prev: nat)
    requires t.calls.Push? && t.calls.top.index < |program|
    requires OpAt(program[t.calls.top.index], t.calls.top.frame.ip) == Some(0x1) && !ThreadStep(program, t, prev).Crashed?
    ensures
      var o := ThreadStep(program, t, prev);
      var result := LastWords(WordsOf(t.calls.top.frame.stack), program[t.calls.top.index].resultWords);
      if t.calls.below.Empty? then o == Exited(result)
      else
        && o.Running? && o.thread.calls.Push? && o.thread.calls.below == t.calls.below.below
        && var was, now := t.calls.below.top, o.thread.calls.top;
           && now.index == was.index && now.frame.ip == was.frame.ip && now.frame.locals == was.frame.locals
           && WordsOf(now.frame.stack) == WordsOf(was.frame.stack) + result
  {
    var m, fr := program[t.calls.top.index], t.calls.top.frame;
    var left := fr.(ip := fr.ip + 1);
    LeavesAsItIs(m, fr);
    StepReturns(program, t, prev, left);
    TakenFromTheTop(fr.stack, m.resultWords);
    if t.calls.below.Push? {
      PushedOnTop(LastWords(WordsOf(fr.stack), m.resultWords), t.calls.below.top.frame.stack);
    }
  }

  lemma LeavesAsItIs(m: Method, fr: Frame)
    requires OpAt(m, fr.ip) == Some(0x1) && !Turn(m.ops, 4 * m.stackWords, fr).Undefined?
    ensures Turn(m.ops, 4 * m.stackWords, fr) == Returned(fr.(ip := fr.ip + 1))
  {
  }

  // ---------------------------------------------------------------- frames stay apart

  // The evaluation stack and the locals of every call fill no more than their parts of its frame.
  predicate Within(program: seq<Method>, calls: Stack<Call>) {
    calls.Push? ==>
      && calls.top.index < |program| && Within(program, calls.below)
      && var m := program[calls.top.index];
         |calls.top.frame.locals| == m.paramWords + m.localWords && StackBytes(calls.top.frame.stack) <= 4 * m.stackWords
  }

  // And all frames, one behind the other, lie in the chunk, and ofs says where they end.
  predicate Fits(program: seq<Method>, t: Thread) {
    && Within(program, t.calls) && Base(program, t.calls) <= CHUNK_WORDS
    && t.memory[OFS_WORD] == 4 * Base(program, t.calls)
  }

  // The op calls a method in the place of its caller, and the frame of that method would not lie in the chunk.
  predicate Overruns(program: seq<Method>, t: Thread, prev: nat) {
    && t.calls.Push? && t.calls.top.index < |program|
    && OpAt(program[t.calls.top.index], t.calls.top.frame.ip) == Some(JIT_CALL_O)
    && match WantedCall(program, t.calls.top.index, t.calls.top.frame, prev)
       case None => false
       case Some(w) => w.reused && Base(program, t.calls.below) + FrameWords(program[w.target]) > CHUNK_WORDS
  }

  lemma {:induction false} TakingShrinks(st: Stack<nat>, n: nat)
    requires TakeWords(st, n).Some?
    ensures StackBytes(TakeWords(st, n).value.rest) <= StackBytes(st)
    decreases n
  {
    if n > 0 {
      TakingShrinks(st.below, n - 1);
    }
  }

  lemma {:induction false} WordsAreBytes(st: Stack<nat>)
    ensures 4 * |WordsOf(st)| == StackBytes(st)
  {
    if st.Push? {
      WordsAreBytes(st.below);
    }
  }

  lemma OverwrittenAt(memory: Memory, at: nat, words: seq<nat>, k: nat)
    requires k < |memory| && at + |words| <= |memory|
    ensures Overwrite(memory, at, words)[k] == if at <= k < at + |words| then words[k - at] else memory[k]
  {
  }

  // A frame in the chunk does not lie on ofs.
  lemma MirrorKeepsOfs(program: seq<Method>, calls: Stack<Call>, memory: Memory)
    requires Within(program, calls) && Base(program, calls) <= CHUNK_WORDS
    ensures Mirror(program, calls, memory)[OFS_WORD] == memory[OFS_WORD]
  {
    if calls.Push? {
      var at, fr := Base(program, calls.below) + HEADER_WORDS, calls.top.frame;
      WordsAreBytes(fr.stack);
      OverwrittenAt(memory, at, WordsOf(fr.stack), OFS_WORD);
      OverwrittenAt(Overwrite(memory, at, WordsOf(fr.stack)), at + program[calls.top.index].stackWords, fr.locals, OFS_WORD);
    }
  }

  lemma TurnKeepsWithin(ops: seq<nat>, maxStack: nat, fr: Frame)
    ensures
      var e := Turn(ops, maxStack, fr);
      e.Continue? || e.Checked? ==> |e.frame.locals| == |fr.locals| && StackBytes(e.frame.stack) <= maxStack
  {
  }

  lemma GoOnFits(program: seq<Method>, t: Thread, fr: Frame, op: nat, checked: bool)
    requires t.calls.Push? && Fits(program, t) && |fr.locals| == |t.calls.top.frame.locals|
    requires StackBytes(fr.stack) <= 4 * program[t.calls.top.index].stackWords
    ensures Fits(program, GoOn(program, t, fr, op, checked).thread)
  {
    MirrorKeepsOfs(program, Push(t.calls.top.(frame := fr), t.calls.below), t.memory);
  }

  // A new frame in the chunk leaves ofs where it has been set.
  lemma EnterKeepsOfs(program: seq<Method>, calls: Stack<Call>, memory: Memory, end: nat, at: nat, header: seq<nat>)
    requires Within(program, calls) && Base(program, calls) <= CHUNK_WORDS && at + |header| <= CHUNK_WORDS
    ensures Mirror(program, calls, Overwrite(Overwrite(memory, OFS_WORD, [end]), at, header))[OFS_WORD] == end
  {
    var ended := Overwrite(memory, OFS_WORD, [end]);
    OverwrittenAt(memory, OFS_WORD, [end], OFS_WORD);
    OverwrittenAt(ended, at, header, OFS_WORD);
    MirrorKeepsOfs(program, calls, Overwrite(ended, at, header));
  }

  lemma FitsExactly(program: seq<Method>, t: Thread, end: nat)
    requires Within(program, t.calls) && Base(program, t.calls) == end
    requires end <= CHUNK_WORDS ==> t.memory[OFS_WORD] == 4 * end
    ensures Fits(program, t) <==> end <= CHUNK_WORDS
  {
  }

  lemma EnteredWithin(program: seq<Method>, callers: Stack<Call>, memory: Memory, address: nat, target: nat, params: seq<nat>)
    requires target < |program| && Base(program, callers) + FrameWords(program[target]) <= |memory|
    requires Within(program, callers) && |params| == program[target].paramWords
    ensures
      var t := Enter(program, callers, memory, address, target, params);
      Within(program, t.calls) && Base(program, t.calls) == Base(program, callers) + FrameWords(program[target])
  {
  }

  lemma EnteredOfs(program: seq<Method>, callers: Stack<Call>, memory: Memory, address: nat, target: nat, params: seq<nat>,
                   t: Thread, end: nat)
    requires target < |program| && Base(program, callers) + FrameWords(program[target]) == end <= CHUNK_WORDS
    requires t == Enter(program, callers, memory, address, target, params)
    requires Within(program, t.calls) && Base(program, t.calls) == end
    ensures t.memory[OFS_WORD] == 4 * end
  {
    EnterKeepsOfs(program, t.calls, memory, 4 * end, Base(program, callers), Header(program, program[target], callers, address));
  }

  lemma EnteredFits(program: seq<Method>, callers: Stack<Call>, memory: Memory, address: nat, target: nat, params: seq<nat>)
    requires target < |program| && Base(program, callers) + FrameWords(program[target]) <= |memory|
    requires Within(program, callers) && |params| == program[target].paramWords
    ensures
      var t := Enter(program, callers, memory, address, target, params);
      Fits(program, t) <==> Base(program, callers) + FrameWords(program[target]) <= CHUNK_WORDS
  {
    var t := Enter(program, callers, memory, address, target, params);
    var end := Base(program, t.calls);
    EnteredWithin(program, callers, memory, address, target, params);
    if end <= CHUNK_WORDS {
      EnteredOfs(program, callers, memory, address, target, params, t, end);
    }
    FitsExactly(program, t, end);
  }

  lemma PlacedFits(program: seq<Method>, t: Thread, saved: Stack<Call>, reused: bool, target: nat, params: seq<nat>)
    requires target < |program| && saved.Push? && Within(program, saved) && |params| == program[target].paramWords
    requires PlaceCall(program, t, saved, reused, target, params).Running?
    ensures
      var o := PlaceCall(program, t, saved, reused, target, params);
      Fits(program, o.thread) <==> !(reused && Base(program, saved.below) + FrameWords(program[target]) > CHUNK_WORDS)
  {
    var callers := if reused then saved.below else saved;
    EnteredFits(program, callers, t.memory, t.address, target, params);
    if !reused {
      var entered := Enter(program, callers, t.memory, t.address, target, params);
      OverwrittenAt(entered.memory, Base(program, saved.below) + IP_WORD, [saved.top.frame.ip, StackBytes(saved.top.frame.stack)],
                    OFS_WORD);
    }
  }

  lemma CallFits(program: seq<Method>, t: Thread, prev: nat)
    requires t.calls.Push? && Fits(program, t) && DoCall(program, t, prev).Running?
    requires OpAt(program[t.calls.top.index], t.calls.top.frame.ip) == Some(JIT_CALL_O)
    ensures Fits(program, DoCall(program, t, prev).thread) <==> !Overruns(program, t, prev)
  {
    var fr := t.calls.top.frame;
    var w := WantedCall(program, t.calls.top.index, fr, prev).value;
    TakingShrinks(fr.stack, program[w.target].paramWords);
    PlacedFits(program, t, Calling(t.calls.top, t.calls.below, w.rest), w.reused, w.target, w.params);
  }

  lemma ReturnFits(program: seq<Method>, t: Thread, fr: Frame)
    requires t.calls.Push? && Fits(program, t) && DoReturn(program, t, fr).Running?
    ensures Fits(program, DoReturn(program, t, fr).thread)
  {
    var c := t.calls.below.top;
    var ended := SetOfs(program, t.calls.below, t.memory);
    OverwrittenAt(t.memory, OFS_WORD, [4 * Base(program, t.calls.below)], OFS_WORD);
    var stack := PushAll(TakeWords(fr.stack, program[t.calls.top.index].resultWords).value.words, c.frame.stack);
    GoOnFits(program, Thread(t.calls.below, ended, t.address), c.frame.(stack := stack), JIT_RETURN, false);
  }

  // An op keeps the frames apart, in the chunk and ending at ofs exactly when it does not put a frame too large in the place
  // of its caller's.
  lemma StepFits(program: seq<Method>, t: Thread, prev: nat)
    requires Fits(program, t) && ThreadStep(program, t, prev).Running?
    ensures Fits(program, ThreadStep(program, t, prev).thread) <==> !Overruns(program, t, prev)
  {
    var m, fr := program[t.calls.top.index], t.calls.top.frame;
    var op := m.ops[fr.ip];
    if op == JIT_TAILCALL_PREFIX {
      GoOnFits(program, t, fr.(ip := fr.ip + 1), op, false);
    } else if op == JIT_CALL_O {
      CallFits(program, t, prev);
    } else {
      TurnKeepsWithin(m.ops, 4 * m.stackWords, fr);
      match Turn(m.ops, 4 * m.stackWords, fr) {
        case Continue(fr') => GoOnFits(program, t, fr', op, false);
        case Checked(fr') => GoOnFits(program, t, fr', op, true);
        case Returned(fr') => ReturnFits(program, t, fr');
        case Undefined =>
      }
    }
  }

  // ---------------------------------------------------------------- every slice ends

  ghost function OpsLeft(program: seq<Method>, calls: Stack<Call>): nat {
    if calls.Push? && calls.top.index < |program| && calls.top.frame.ip < |program[calls.top.index].ops|
    then |program[calls.top.index].ops| - calls.top.frame.ip
    else 0
  }

  // An op that does not count leaves fewer calls, or as many and fewer ops ahead.
  lemma UncheckedOpsRunOut(program: seq<Method>, t: Thread, prev: nat)
    ensures
      var o := ThreadStep(program, t, prev);
      o.Running? && !o.checked ==>
        || Height(o.thread.calls) < Height(t.calls)
        || (Height(o.thread.calls) == Height(t.calls) && OpsLeft(program, o.thread.calls) < OpsLeft(program, t.calls))
  {
  }

  // ---------------------------------------------------------------- slices

  datatype SliceEnd = Stopped(thread: Thread) | Ended(result: seq<nat>) | Broken

  // Runs until num ops that count have been executed.
  function Slice(program: seq<Method>, t: Thread, prev: nat, num: nat): SliceEnd
    requires num > 0
    decreases num, Height(t.calls), OpsLeft(program, t.calls)
  {
    UncheckedOpsRunOut(program, t, prev);
    match ThreadStep(program, t, prev)
    case Crashed => Broken
    case Exited(result) => Ended(result)
    case Running(t', op, checked) =>
      if !checked then Slice(program, t', op, num)
      else if num == 1 then Stopped(t')
      else Slice(program, t', op, num - 1)
  }

  // The previous opcode matters only if it is the tail-call prefix.
  lemma PreviousOpMatters(program: seq<Method>, t: Thread, p: nat, q: nat)
    requires p != JIT_TAILCALL_PREFIX && q != JIT_TAILCALL_PREFIX
    ensures ThreadStep(program, t, p) == ThreadStep(program, t, q)
  {
  }

  // The prefix does not count, so it is never the last op of a slice.
  lemma PrefixIsNotLast(program: seq<Method>, t: Thread, prev: nat)
    ensures
      var o := ThreadStep(program, t, prev);
      o.Running? && o.checked ==> o.op != JIT_TAILCALL_PREFIX
  {
  }

  // A slice, one op further.
  lemma SliceUnfolds(program: seq<Method>, t: Thread, prev: nat, num: nat, o: Outcome)
    requires num > 0 && o == ThreadStep(program, t, prev)
    ensures o.Crashed? ==> Slice(program, t, prev, num) == Broken
    ensures o.Exited? ==> Slice(program, t, prev, num) == Ended(o.result)
    ensures o.Running? && o.checked && num == 1 ==> Slice(program, t, prev, num) == Stopped(o.thread)
    ensures o.Running? && o.checked && num > 1 ==>
      Slice(program, t, prev, num) == Slice(program, o.thread, o.op, num - 1)
    ensures o.Running? && !o.checked ==>
      && Slice(program, t, prev, num) == Slice(program, o.thread, o.op, num)
      && (Height(o.thread.calls) < Height(t.calls) ||
          (Height(o.thread.calls) == Height(t.calls) && OpsLeft(program, o.thread.calls) < OpsLeft(program, t.calls)))
  {
    UncheckedOpsRunOut(program, t, prev);
  }

  lemma SliceGoesOn(program: seq<Method>, t: Thread, prev: nat, num: nat, k: nat)
    requires ThreadStep(program, t, prev).Running? && k > 0 && num == if ThreadStep(program, t, prev).checked then k + 1 else k
    ensures Slice(program, t, prev, num) == Slice(program, ThreadStep(program, t, prev).thread, ThreadStep(program, t, prev).op, k)
  {
    SliceUnfolds(program, t, prev, num, ThreadStep(program, t, prev));
  }

  // What follows k1 ops and then a reload is what would have followed without it.
  ghost function Resumed(program: seq<Method>, e: SliceEnd, num: nat): SliceEnd
    requires num > 0
  {
    match e
    case Stopped(thread) => Slice(program, thread, JIT_NOP, num)
    case Ended(result) => Ended(result)
    case Broken => Broken
  }

  // So after any other op it does not matter what that op was.
  lemma StepsAlike(program: seq<Method>, t: Thread, op: nat, num: nat)
    requires num > 0 && op != JIT_TAILCALL_PREFIX
    ensures Slice(program, t, op, num) == Slice(program, t, JIT_NOP, num)
  {
    PreviousOpMatters(program, t, op, JIT_NOP);
    var o := ThreadStep(program, t, op);
    SliceUnfolds(program, t, op, num, o);
    SliceUnfolds(program, t, JIT_NOP, num, o);
  }

  // A slice that ends like this is one that ends like that, resumed.
  ghost predicate Joins(program: seq<Method>, whole: SliceEnd, first: SliceEnd, k2: nat)
    requires k2 > 0
  {
    whole == Resumed(program, first, k2)
  }

  lemma JoinsStopped(program: seq<Method>, whole: SliceEnd, t: Thread, op: nat, k2: nat)
    requires k2 > 0 && whole == Slice(program, t, op, k2) == Slice(program, t, JIT_NOP, k2)
    ensures Joins(program, whole, Stopped(t), k2)
  {
  }

  lemma JoinsEnded(program: seq<Method>, e: SliceEnd, k2: nat)
    requires k2 > 0 && !e.Stopped?
    ensures Joins(program, e, e, k2)
  {
  }

  lemma {:induction false} SliceJoins(program: seq<Method>, t: Thread, prev: nat, n: nat, k1: nat, k2: nat,
                                      whole: SliceEnd, first: SliceEnd)
    requires k1 > 0 && k2 > 0 && n == k1 + k2 && whole == Slice(program, t, prev, n) && first == Slice(program, t, prev, k1)
    ensures Joins(program, whole, first, k2)
    decreases k1, Height(t.calls), OpsLeft(program, t.calls)
  {
    var o := ThreadStep(program, t, prev);
    SliceUnfolds(program, t, prev, k1, o);
    SliceUnfolds(program, t, prev, n, o);
    if !o.Running? {
      JoinsEnded(program, first, k2);
    } else if o.checked && k1 == 1 {
      PrefixIsNotLast(program, t, prev);
      StepsAlike(program, o.thread, o.op, k2);
      JoinsStopped(program, whole, o.thread, o.op, k2);
    } else {
      var k, m := if o.checked then k1 - 1 else k1, if o.checked then n - 1 else n;
      SliceGoesOn(program, t, prev, k1, k);
      SliceGoesOn(program, t, prev, n, m);
      SliceJoins(program, o.thread, o.op, m, k, k2, whole, first);
    }
  }

  // Time slicing is transparent: running k1 counted ops, reloading and running k2 more is one run of n = k1 + k2, although
  // the previous opcode is forgotten.
  lemma SlicingIsTransparent(program: seq<Method>, t: Thread, prev: nat, n: nat, k1: nat, k2: nat)
    requires k1 > 0 && k2 > 0 && n == k1 + k2
    ensures Slice(program, t, prev, n) == Resumed(program, Slice(program, t, prev, k1), k2)
  {
    SliceJoins(program, t, prev, n, k1, k2, Slice(program, t, prev, n), Slice(program, t, prev, k1));
  }

  // ---------------------------------------------------------------- the interpreter loop

  datatype Status = StatusRunning | StatusExit | StatusCrash

  // A thread that is not running has been saved.
  function Saved(program: seq<Method>, t: Thread): Thread {
    t.(memory := Save(program, t.calls, t.memory))
  }

  datatype Registers = Going(calls: Stack<Call>, op: nat, checked: bool) | Exiting(result: seq<nat>) | Crashing

  class ThreadState {
    // The calls of the thread; while it runs, the topmost one is out of date.
    var calls: Stack<Call>
    const memory: array<nat>
    const address: nat

    constructor (calls: Stack<Call>, memory: array<nat>, address: nat)
      ensures this.calls == calls && this.memory == memory && this.address == address
    {
      this.calls, this.memory, this.address := calls, memory, address;
    }

    ghost function State(calls: Stack<Call>): (t: Thread)
      requires memory.Length >= CHUNK_WORDS + 2
      reads memory
      ensures t.memory == memory[..]
    {
      Thread(calls, memory[..], address)
    }

    method Write(at: nat, words: seq<nat>)
      requires memory.Length >= CHUNK_WORDS + 2
      modifies memory
      ensures memory[..] == Overwrite(old(memory[..]), at, words)
    {
      if at + |words| <= memory.Length {
        for i := 0 to |words|
          invariant forall k :: 0 <= k < memory.Length ==>
                                  memory[k] == if at <= k < at + i then words[k - at] else old(memory[k])
        {
          memory[at + i] := words[i];
        }
      }
    }

    method WriteFrame(program: seq<Method>, calls: Stack<Call>)
      requires memory.Length >= CHUNK_WORDS + 2
      modifies memory
      ensures memory[..] == Mirror(program, calls, old(memory[..]))
    {
      if calls.Push? && calls.top.index < |program| {
        var at := Base(program, calls.below) + HEADER_WORDS;
        Write(at, WordsOf(calls.top.frame.stack));
        Write(at + program[calls.top.index].stackWords, calls.top.frame.locals);
      }
    }

    method SaveMethodState(program: seq<Method>, calls: Stack<Call>)
      requires memory.Length >= CHUNK_WORDS + 2
      modifies memory
      ensures memory[..] == Save(program, calls, old(memory[..]))
    {
      if calls.Push? {
        Write(Base(program, calls.below) + IP_WORD, [calls.top.frame.ip, StackBytes(calls.top.frame.stack)]);
      }
    }

    // MethodState_Direct and CopyParameters.
    method EnterMethod(program: seq<Method>, callers: Stack<Call>, target: nat, params: seq<nat>) returns (newCalls: Stack<Call>)
      requires memory.Length >= CHUNK_WORDS + 2
      requires target < |program| && Base(program, callers) + FrameWords(program[target]) <= memory.Length
      modifies memory
      ensures State(newCalls) == Enter(program, callers, old(memory[..]), address, target, params)
    {
      var base := Base(program, callers);
      Write(OFS_WORD, [4 * Base(program, Push(Call(target, Frame(0, Stack.Empty, [])), callers))]);
      newCalls := Push(Call(target, Frame(0, Stack.Empty, params + Leftover(memory[..], base, program[target]))), callers);
      Write(base, Header(program, program[target], callers, address));
      WriteFrame(program, newCalls);
    }

    // Runs the thread for numInst counted ops. The registers are the topmost call as it really is, the calls below it,
    // the opcode being executed and the one before it.
    method Execute(program: seq<Method>, numInst: nat) returns (status: Status, result: seq<nat>)
      requires numInst > 0 && memory.Length >= CHUNK_WORDS + 2
      modifies this, memory
      ensures
        match Slice(program, old(State(calls)), JIT_NOP, numInst)
        case Stopped(t) => status == StatusRunning && State(calls) == Saved(program, t)
        case Ended(r) => status == StatusExit && result == r
        case Broken => status == StatusCrash
    {
      result := [];
      if calls.Empty? {
        return StatusCrash, result;
      }
      var call, below := calls.top, calls.below; // LOAD_METHOD_STATE
      var currOp: nat, num := JIT_NOP, numInst;
      while true
        invariant num > 0
        invariant Slice(program, old(State(calls)), JIT_NOP, numInst) == Slice(program, State(Push(call, below)), currOp, num)
        decreases num, Height(Push(call, below)), OpsLeft(program, Push(call, below))
      {
        ghost var before := State(Push(call, below));
        var o := ExecuteOp(program, call, below, currOp);
        SliceUnfolds(program, before, currOp, num, ThreadStep(program, before, currOp));
        if o.Crashing? {
          return StatusCrash, result;
        } else if o.Exiting? {
          return StatusExit, o.result;
        }
        call, below, currOp := o.calls.top, o.calls.below, o.op;
        if o.checked {
          num := num - 1;
          if num == 0 {
            calls := Push(call, below);
            SaveMethodState(program, calls);
            return StatusRunning, result;
          }
        }
      }
    }

    // What the code at a label leaves in the registers.
    ghost predicate Leaves(was: Outcome, o: Registers)
      requires memory.Length >= CHUNK_WORDS + 2
      reads memory
    {
      match o
      case Going(calls, op, checked) => calls.Push? && was == Running(State(calls), op, checked)
      case Exiting(result) => was == Exited(result)
      case Crashing => was == Crashed
    }

    method Proceed(program: seq<Method>, call: Call, below: Stack<Call>, op: nat, checked: bool) returns (o: Registers)
      requires memory.Length >= CHUNK_WORDS + 2
      modifies memory
      ensures Leaves(GoOn(program, old(State(Push(call, below))), call.frame, op, checked), o)
    {
      WriteFrame(program, Push(call, below));
      o := Going(Push(call, below), op, checked);
    }

    // Fetches one op and runs the code at its label.
    method ExecuteOp(program: seq<Method>, call: Call, below: Stack<Call>, prevOp: nat) returns (o: Registers)
      requires memory.Length >= CHUNK_WORDS + 2
      modifies memory
      ensures Leaves(ThreadStep(program, old(State(Push(call, below))), prevOp), o)
    {
      if call.index >= |program| || call.frame.ip >= |program[call.index].ops| {
        return Crashing;
      }
      var m := program[call.index];
      var currOp := m.ops[call.frame.ip];
      if currOp == JIT_TAILCALL_PREFIX {
        o := Proceed(program, call.(frame := call.frame.(ip := call.frame.ip + 1)), below, currOp, false);
      } else if currOp == JIT_CALL_O {
        o := ExecuteCall(program, call, below, prevOp);
      } else {
        match Turn(m.ops, 4 * m.stackWords, call.frame) {
          case Continue(fr) => o := Proceed(program, call.(frame := fr), below, currOp, false);
          case Checked(fr) => o := Proceed(program, call.(frame := fr), below, currOp, true);
          case Returned(fr) => o := ExecuteReturn(program, call, fr, below);
          case Undefined => o := Crashing;
        }
      }
    }

    method ExecuteCall(program: seq<Method>, call: Call, below: Stack<Call>, prevOp: nat) returns (o: Registers)
      requires call.index < |program| && memory.Length >= CHUNK_WORDS + 2
      modifies memory
      ensures Leaves(DoCall(program, old(State(Push(call, below))), prevOp), o)
    {
      var wanted := WantedCall(program, call.index, call.frame, prevOp);
      if wanted.None? {
        return Crashing;
      }
      var w := wanted.value;
      o := PlaceFrame(program, call, below, Calling(call, below, w.rest), w.reused, w.target, w.params);
    }

    method PlaceFrame(program: seq<Method>, ghost call: Call, ghost below: Stack<Call>, saved: Stack<Call>, reused: bool,
                      target: nat, params: seq<nat>)
      returns (o: Registers)
      requires target < |program| && saved.Push? && memory.Length >= CHUNK_WORDS + 2
      modifies memory
      ensures Leaves(PlaceCall(program, old(State(Push(call, below))), saved, reused, target, params), o)
    {
      var callers := if reused then saved.below else saved;
      if Base(program, callers) + FrameWords(program[target]) > if reused then memory.Length else CHUNK_WORDS {
        return Crashing;
      }
      var entered := EnterMethod(program, callers, target, params);
      if !reused {
        SaveMethodState(program, saved);
      }
      o := Going(entered, JIT_CALL_O, true);
    }

    method ExecuteReturn(program: seq<Method>, call: Call, fr: Frame, below: Stack<Call>) returns (o: Registers)
      requires call.index < |program| && memory.Length >= CHUNK_WORDS + 2
      modifies memory
      ensures Leaves(DoReturn(program, old(State(Push(call, below))), fr), o)
    {
      var value := TakeWords(fr.stack, program[call.index].resultWords);
      if value.None? {
        return Crashing;
      }
      if below.Empty? {
        return Exiting(value.value.words);
      }
      var stack := PushAll(value.value.words, below.top.frame.stack);
      if below.top.index >= |program| || StackBytes(stack) > 4 * program[below.top.index].stackWords {
        return Crashing;
      }
      Write(OFS_WORD, [4 * Base(program, below)]);
      o := Proceed(program, below.top.(frame := below.top.frame.(stack := stack)), below.below, JIT_RETURN, false);
    }
  }
}
