/**
 What the memory of a thread tells about its calls. The interpreter keeps the topmost call in registers and everything else
 in memory; when the thread has been saved, the memory tells all of it.
 */
module FramesInMemory {
  import opened Options
  import opened Interpreter
  import opened TimeSlices
  import opened Leftovers

  // ---------------------------------------------------------------- one frame

  // The words lie in memory at that place.
  predicate LieAt(memory: Memory, at: nat, words: seq<nat>) {
    at + |words| <= |memory| && memory[at..at + |words|] == words
  }

  // The method of the frame, its code and the frame of its caller.
  predicate HeaderTold(memory: Memory, base: nat, m: Method, link: nat) {
    base + 11 <= |memory| && memory[base] == m.address && memory[base + 1] == m.code && memory[base + 9] == link
  }

  // The header, the evaluation stack, the parameters and locals; and, once the call has been saved, where it goes on and how
  // much is on the stack.
  predicate FrameTold(memory: Memory, base: nat, m: Method, fr: Frame, link: nat, saved: bool) {
    && HeaderTold(memory, base, m, link)
    && LieAt(memory, base + 11, WordsOf(fr.stack)) && LieAt(memory, base + 11 + m.stackWords, fr.locals)
    && (saved ==> memory[base + 2] == fr.ip && memory[base + 3] == StackBytes(fr.stack))
  }

  // What is in the frame fills no more than its parts.
  predicate Proper(m: Method, fr: Frame) {
    |WordsOf(fr.stack)| <= m.stackWords && |fr.locals| == m.paramWords + m.localWords
  }

  lemma SameWord(memory: Memory, other: Memory, end: nat, k: nat)
    requires k < end <= |memory| == |other| && memory[..end] == other[..end]
    ensures memory[k] == other[k]
  {
    assert memory[k] == memory[..end][k] && other[k] == other[..end][k];
  }

  lemma LieStill(memory: Memory, other: Memory, end: nat, at: nat, words: seq<nat>)
    requires LieAt(memory, at, words) && at + |words| <= end <= |memory| == |other| && memory[..end] == other[..end]
    ensures LieAt(other, at, words)
  {
    assert memory[at..at + |words|] == memory[..end][at..at + |words|] == other[at..at + |words|];
  }

  lemma HeaderStill(memory: Memory, other: Memory, end: nat, base: nat, m: Method, link: nat)
    requires HeaderTold(memory, base, m, link) && base + 11 <= end <= |memory| == |other| && memory[..end] == other[..end]
    ensures HeaderTold(other, base, m, link)
  {
    SameWord(memory, other, end, base);
    SameWord(memory, other, end, base + 1);
    SameWord(memory, other, end, base + 9);
  }

  // What happens to the memory behind a frame does not matter to it.
  lemma FrameStill(memory: Memory, other: Memory, end: nat, base: nat, m: Method, fr: Frame, link: nat, saved: bool)
    requires FrameTold(memory, base, m, fr, link, saved) && Proper(m, fr) && base + FrameWords(m) <= end
    requires end <= |memory| == |other| && memory[..end] == other[..end]
    ensures FrameTold(other, base, m, fr, link, saved)
  {
    HeaderStill(memory, other, end, base, m, link);
    SameWord(memory, other, end, base + 2);
    SameWord(memory, other, end, base + 3);
    LieStill(memory, other, end, base + 11, WordsOf(fr.stack));
    LieStill(memory, other, end, base + 11 + m.stackWords, fr.locals);
  }

  lemma OverwrittenBehind(memory: Memory, at: nat, words: seq<nat>, end: nat)
    requires end <= at && end <= |memory|
    ensures Overwrite(memory, at, words)[..end] == memory[..end]
  {
  }

  lemma OverwrittenLies(memory: Memory, at: nat, words: seq<nat>)
    requires at + |words| <= |memory|
    ensures LieAt(Overwrite(memory, at, words), at, words)
  {
  }

  lemma OverwrittenApart(memory: Memory, at: nat, words: seq<nat>, from: nat, others: seq<nat>)
    requires LieAt(memory, from, others) && at + |words| <= |memory| && (at + |words| <= from || from + |others| <= at)
    ensures LieAt(Overwrite(memory, at, words), from, others)
  {
    var after := Overwrite(memory, at, words);
    assert after[from..from + |others|] == memory[from..from + |others|];
  }

  // Nor what happens before it.
  lemma FrameBehind(memory: Memory, at: nat, words: seq<nat>, base: nat, m: Method, fr: Frame, link: nat, saved: bool)
    requires FrameTold(memory, base, m, fr, link, saved) && at + |words| <= base
    ensures FrameTold(Overwrite(memory, at, words), base, m, fr, link, saved)
  {
    OverwrittenApart(memory, at, words, base + 11, WordsOf(fr.stack));
    OverwrittenApart(memory, at, words, base + 11 + m.stackWords, fr.locals);
    OverwrittenAt(memory, at, words, base);
    OverwrittenAt(memory, at, words, base + 1);
    OverwrittenAt(memory, at, words, base + 2);
    OverwrittenAt(memory, at, words, base + 3);
    OverwrittenAt(memory, at, words, base + 9);
  }

  // The memory with the evaluation stack, parameters and locals written to a frame.
  function Written(memory: Memory, base: nat, m: Method, fr: Frame): (r: Memory)
    ensures |r| == |memory|
  {
    Overwrite(Overwrite(memory, base + 11, WordsOf(fr.stack)), base + 11 + m.stackWords, fr.locals)
  }

  lemma WrittenIsTold(memory: Memory, base: nat, m: Method, fr: Frame, link: nat)
    requires HeaderTold(memory, base, m, link) && Proper(m, fr) && base + FrameWords(m) <= |memory|
    ensures FrameTold(Written(memory, base, m, fr), base, m, fr, link, false)
    ensures Written(memory, base, m, fr)[..base + 11] == memory[..base + 11]
  {
    var words := WordsOf(fr.stack);
    var once := Overwrite(memory, base + 11, words);
    OverwrittenLies(memory, base + 11, words);
    OverwrittenBehind(memory, base + 11, words, base + 11);
    OverwrittenLies(once, base + 11 + m.stackWords, fr.locals);
    OverwrittenBehind(once, base + 11 + m.stackWords, fr.locals, base + 11);
    OverwrittenApart(once, base + 11 + m.stackWords, fr.locals, base + 11, words);
    HeaderStill(memory, Written(memory, base, m, fr), base + 11, base, m, link);
  }

  // Saving writes where the call goes on and how much is on its stack.
  lemma SavedIsTold(memory: Memory, base: nat, m: Method, fr: Frame, link: nat)
    requires FrameTold(memory, base, m, fr, link, false) && Proper(m, fr)
    ensures FrameTold(Overwrite(memory, base + 2, [fr.ip, StackBytes(fr.stack)]), base, m, fr, link, true)
  {
    var words := [fr.ip, StackBytes(fr.stack)];
    OverwrittenAt(memory, base + 2, words, base);
    OverwrittenAt(memory, base + 2, words, base + 1);
    OverwrittenAt(memory, base + 2, words, base + 2);
    OverwrittenAt(memory, base + 2, words, base + 3);
    OverwrittenAt(memory, base + 2, words, base + 9);
    OverwrittenApart(memory, base + 2, words, base + 11, WordsOf(fr.stack));
    OverwrittenApart(memory, base + 2, words, base + 11 + m.stackWords, fr.locals);
  }

  // ---------------------------------------------------------------- all frames

  // The address of the frame of the topmost call, if there is one.
  function Link(program: seq<Method>, calls: Stack<Call>, address: nat): nat {
    if calls.Empty? then 0 else address + 4 * Base(program, calls.below)
  }

  predicate TopTold(program: seq<Method>, calls: Stack<Call>, memory: Memory, address: nat, saved: bool)
    requires calls.Push? && calls.top.index < |program|
  {
    FrameTold(memory, Base(program, calls.below), program[calls.top.index], calls.top.frame,
              Link(program, calls.below, address), saved)
  }

  // The frames of all calls are told; all but the topmost one have been saved when they called.
  predicate Told(program: seq<Method>, calls: Stack<Call>, memory: Memory, address: nat, saved: bool) {
    calls.Push? ==>
      && calls.top.index < |program| && TopTold(program, calls, memory, address, saved)
      && Told(program, calls.below, memory, address, true)
  }

  lemma TopIsProper(program: seq<Method>, calls: Stack<Call>)
    requires calls.Push? && Within(program, calls)
    ensures Proper(program[calls.top.index], calls.top.frame)
    ensures Base(program, calls) == Base(program, calls.below) + FrameWords(program[calls.top.index])
  {
    WordsAreBytes(calls.top.frame.stack);
  }

  lemma {:induction false} ToldStill(program: seq<Method>, calls: Stack<Call>, memory: Memory, other: Memory, address: nat,
                                     saved: bool, end: nat)
    requires Within(program, calls) && Told(program, calls, memory, address, saved)
    requires Base(program, calls) <= end <= |memory| == |other| && memory[..end] == other[..end]
    ensures Told(program, calls, other, address, saved)
    decreases calls
  {
    if calls.Push? {
      TopIsProper(program, calls);
      FrameStill(memory, other, end, Base(program, calls.below), program[calls.top.index], calls.top.frame,
                 Link(program, calls.below, address), saved);
      ToldStill(program, calls.below, memory, other, address, true, end);
    }
  }

  lemma MirrorWrites(program: seq<Method>, calls: Stack<Call>, memory: Memory, base: nat, at: nat, behind: nat)
    requires calls.Push? && calls.top.index < |program| && base == Base(program, calls.below)
    requires at == base + 11 && behind == at + program[calls.top.index].stackWords
    ensures Mirror(program, calls, memory) ==
            Overwrite(Overwrite(memory, at, WordsOf(calls.top.frame.stack)), behind, calls.top.frame.locals)
  {
    assert Base(program, calls.below) + HEADER_WORDS == at;
  }

  lemma MirrorIsWritten(program: seq<Method>, calls: Stack<Call>, memory: Memory, base: nat, m: Method)
    requires calls.Push? && calls.top.index < |program| && base == Base(program, calls.below) && m == program[calls.top.index]
    ensures Mirror(program, calls, memory) == Written(memory, base, m, calls.top.frame)
  {
    var at := base + 11;
    var behind := at + m.stackWords;
    MirrorWrites(program, calls, memory, base, at, behind);
    WrittenInParts(memory, base, m, calls.top.frame, at, behind);
  }

  lemma WrittenInParts(memory: Memory, base: nat, m: Method, fr: Frame, at: nat, behind: nat)
    requires at == base + 11 && behind == at + m.stackWords
    ensures Written(memory, base, m, fr) == Overwrite(Overwrite(memory, at, WordsOf(fr.stack)), behind, fr.locals)
  {
  }

  // A frame told on top of those told below.
  lemma OnTop(program: seq<Method>, calls: Stack<Call>, memory: Memory, after: Memory, address: nat, saved: bool, base: nat)
    requires calls.Push? && Within(program, calls) && base == Base(program, calls.below) <= |memory| == |after|
    requires Told(program, calls.below, memory, address, true) && memory[..base] == after[..base]
    requires TopTold(program, calls, after, address, saved)
    ensures Told(program, calls, after, address, saved)
  {
    ToldStill(program, calls.below, memory, after, address, true, base);
  }

  // Writing the topmost frame tells it, and the frames below it are told still.
  lemma MirrorTells(program: seq<Method>, calls: Stack<Call>, memory: Memory, address: nat, base: nat, m: Method)
    requires calls.Push? && Within(program, calls) && base == Base(program, calls.below) && m == program[calls.top.index]
    requires base + FrameWords(m) <= |memory| && Told(program, calls.below, memory, address, true)
    requires HeaderTold(memory, base, m, Link(program, calls.below, address))
    ensures Told(program, calls, Mirror(program, calls, memory), address, false)
    ensures Mirror(program, calls, memory)[..base + 11] == memory[..base + 11]
  {
    TopIsProper(program, calls);
    MirrorIsWritten(program, calls, memory, base, m);
    WrittenIsTold(memory, base, m, calls.top.frame, Link(program, calls.below, address));
    Shorter(memory, Mirror(program, calls, memory), base + 11, base);
    OnTop(program, calls, memory, Mirror(program, calls, memory), address, false, base);
  }

  lemma Shorter(memory: Memory, other: Memory, end: nat, k: nat)
    requires k <= end <= |memory| == |other| && memory[..end] == other[..end]
    ensures memory[..k] == other[..k]
  {
    assert memory[..k] == memory[..end][..k] == other[..k];
  }

  // Saving tells the topmost call in full.
  lemma SavingTells(program: seq<Method>, calls: Stack<Call>, memory: Memory, address: nat)
    requires Within(program, calls) && Told(program, calls, memory, address, false)
    ensures Told(program, calls, Save(program, calls, memory), address, true)
  {
    if calls.Push? {
      var base, m, fr := Base(program, calls.below), program[calls.top.index], calls.top.frame;
      TopIsProper(program, calls);
      SavedIsTold(memory, base, m, fr, Link(program, calls.below, address));
      var after := Overwrite(memory, base + 2, [fr.ip, StackBytes(fr.stack)]);
      OverwrittenBehind(memory, base + 2, [fr.ip, StackBytes(fr.stack)], base);
      ToldStill(program, calls.below, memory, after, address, true, base);
    }
  }

  // Setting ofs overwrites no frame.
  lemma SetOfsTells(program: seq<Method>, calls: Stack<Call>, ended: Stack<Call>, memory: Memory, address: nat, saved: bool)
    requires Within(program, calls) && Told(program, calls, memory, address, saved) && Base(program, calls) <= CHUNK_WORDS
    ensures Told(program, calls, SetOfs(program, ended, memory), address, saved)
  {
    OverwrittenBehind(memory, OFS_WORD, [4 * Base(program, ended)], CHUNK_WORDS);
    ToldStill(program, calls, memory, SetOfs(program, ended, memory), address, saved, CHUNK_WORDS);
  }

  // ---------------------------------------------------------------- every op keeps it

  // The calls lie in the chunk and the memory tells them.
  predicate Faithful(program: seq<Method>, t: Thread) {
    Fits(program, t) && Told(program, t.calls, t.memory, t.address, false)
  }

  lemma ToldAnyway(program: seq<Method>, calls: Stack<Call>, memory: Memory, address: nat)
    requires Told(program, calls, memory, address, true)
    ensures Told(program, calls, memory, address, false)
  {
  }

  lemma GoOnTells(program: seq<Method>, t: Thread, fr: Frame, op: nat, checked: bool)
    requires t.calls.Push? && Within(program, t.calls) && Base(program, t.calls) <= CHUNK_WORDS
    requires Told(program, t.calls, t.memory, t.address, false)
    requires |fr.locals| == |t.calls.top.frame.locals| && StackBytes(fr.stack) <= 4 * program[t.calls.top.index].stackWords
    ensures
      var u := GoOn(program, t, fr, op, checked).thread;
      Told(program, u.calls, u.memory, t.address, false)
  {
    TopIsProper(program, t.calls);
    var calls := Push(t.calls.top.(frame := fr), t.calls.below);
    MirrorTells(program, calls, t.memory, t.address, Base(program, t.calls.below), program[t.calls.top.index]);
  }

  // A caller is told without what it has handed over.
  lemma CallingTells(program: seq<Method>, c: Call, below: Stack<Call>, rest: Stack<nat>, params: seq<nat>, memory: Memory,
                     address: nat)
    requires Told(program, Push(c, below), memory, address, false) && WordsOf(c.frame.stack) == WordsOf(rest) + params
    ensures Told(program, Calling(c, below, rest), memory, address, false)
  {
    if c.index < |program| {
      LieShorter(memory, Base(program, below) + 11, WordsOf(rest), params);
    }
  }

  lemma LieShorter(memory: Memory, at: nat, words: seq<nat>, more: seq<nat>)
    requires LieAt(memory, at, words + more)
    ensures LieAt(memory, at, words)
  {
    assert memory[at..at + |words|] == memory[at..at + |words + more|][..|words|] == words;
  }

  lemma HeaderIsTold(ended: Memory, base: nat, m: Method, header: seq<nat>, link: nat)
    requires |header| == 11 && base + 11 <= |ended| && header[0] == m.address && header[1] == m.code && header[9] == link
    ensures HeaderTold(Overwrite(ended, base, header), base, m, link)
    ensures Overwrite(ended, base, header)[..base] == ended[..base]
  {
    OverwrittenAt(ended, base, header, base);
    OverwrittenAt(ended, base, header, base + 1);
    OverwrittenAt(ended, base, header, base + 9);
    OverwrittenBehind(ended, base, header, base);
  }

  lemma HeaderOf(program: seq<Method>, m: Method, callers: Stack<Call>, address: nat)
    ensures
      var header := Header(program, m, callers, address);
      |header| == 11 && header[0] == m.address && header[1] == m.code && header[9] == Link(program, callers, address)
  {
  }

  // Setting ofs and writing the header.
  lemma HeadedIsTold(memory: Memory, end: nat, base: nat, m: Method, header: seq<nat>, link: nat)
    requires |header| == 11 && header[0] == m.address && header[1] == m.code && header[9] == link && base + 11 <= CHUNK_WORDS
    ensures
      var headed := Overwrite(Overwrite(memory, OFS_WORD, [end]), base, header);
      HeaderTold(headed, base, m, link) && headed[..base] == memory[..base]
  {
    OverwrittenBehind(memory, OFS_WORD, [end], base);
    HeaderIsTold(Overwrite(memory, OFS_WORD, [end]), base, m, header, link);
  }

  // A frame just made is told, and nothing before it is touched.
  lemma EnterTells(program: seq<Method>, callers: Stack<Call>, memory: Memory, address: nat, target: nat, params: seq<nat>)
    requires target < |program| && Base(program, callers) + FrameWords(program[target]) <= CHUNK_WORDS
    requires Within(program, callers) && |params| == program[target].paramWords
    ensures
      var u := Enter(program, callers, memory, address, target, params);
      && Within(program, u.calls) && TopTold(program, u.calls, u.memory, address, false)
      && u.memory[..Base(program, callers)] == memory[..Base(program, callers)]
  {
    var u := Enter(program, callers, memory, address, target, params);
    var base, m := Base(program, callers), program[target];
    var end := 4 * Base(program, Push(Call(target, Frame(0, Stack.Empty, [])), callers));
    var header := Header(program, m, callers, address);
    EnteredWithin(program, callers, memory, address, target, params);
    HeaderOf(program, m, callers, address);
    HeadedIsTold(memory, end, base, m, header, Link(program, callers, address));
    EnteredIsTold(program, u.calls, Overwrite(Overwrite(memory, OFS_WORD, [end]), base, header), address, base, m);
  }

  // The frame begins with its parameters and, as locals, with what was behind them.
  lemma EnteredLocals(program: seq<Method>, callers: Stack<Call>, memory: Memory, address: nat, target: nat, params: seq<nat>)
    requires target < |program| && Base(program, callers) + FrameWords(program[target]) <= CHUNK_WORDS
    ensures
      var m := program[target];
      var from := Base(program, callers) + 11 + m.stackWords + m.paramWords;
      Enter(program, callers, memory, address, target, params).calls.top.frame ==
      Frame(0, Stack.Empty, params + memory[from..from + m.localWords])
  {
    var m, base := program[target], Base(program, callers);
    var from := base + 11 + m.stackWords + m.paramWords;
    var ended := SetOfs(program, Push(Call(target, Frame(0, Stack.Empty, [])), callers), memory);
    LeftoverIs(ended, memory, base, m, from);
  }

  lemma LeftoverIs(ended: Memory, memory: Memory, base: nat, m: Method, from: nat)
    requires base + FrameWords(m) <= CHUNK_WORDS && |ended| == |memory| && ended[..CHUNK_WORDS] == memory[..CHUNK_WORDS]
    requires from == base + 11 + m.stackWords + m.paramWords
    ensures Leftover(ended, base, m) == memory[from..from + m.localWords]
  {
    var words := memory[from..from + m.localWords];
    LieStill(memory, ended, CHUNK_WORDS, from, words);
  }

  lemma EnteredIsTold(program: seq<Method>, calls: Stack<Call>, headed: Memory, address: nat, base: nat, m: Method)
    requires calls.Push? && Within(program, calls) && base == Base(program, calls.below) && m == program[calls.top.index]
    requires base + FrameWords(m) <= |headed| && HeaderTold(headed, base, m, Link(program, calls.below, address))
    ensures TopTold(program, calls, Mirror(program, calls, headed), address, false)
    ensures Mirror(program, calls, headed)[..base] == headed[..base]
  {
    TopIsProper(program, calls);
    MirrorIsWritten(program, calls, headed, base, m);
    WrittenIsTold(headed, base, m, calls.top.frame, Link(program, calls.below, address));
    Shorter(headed, Mirror(program, calls, headed), base + 11, base);
  }

  // An ordinary call: the new frame is laid behind that of the caller, and then the caller is saved.
  lemma PlacedBehindTells(program: seq<Method>, t: Thread, saved: Stack<Call>, target: nat, params: seq<nat>)
    requires target < |program| && saved.Push? && |params| == program[target].paramWords && Within(program, saved)
    requires Told(program, saved, t.memory, t.address, false) && PlaceCall(program, t, saved, false, target, params).Running?
    ensures
      var u := PlaceCall(program, t, saved, false, target, params).thread;
      Told(program, u.calls, u.memory, t.address, false)
  {
    var entered := Enter(program, saved, t.memory, t.address, target, params);
    var base := Base(program, saved);
    EnterTells(program, saved, t.memory, t.address, target, params);
    ToldStill(program, saved, t.memory, entered.memory, t.address, false, base);
    SavingTells(program, saved, entered.memory, t.address);
    SavingIsBefore(program, saved, entered.calls, entered.memory, t.address, base);
  }

  // Saving a caller does not touch the frame behind it.
  lemma SavingIsBefore(program: seq<Method>, saved: Stack<Call>, calls: Stack<Call>, memory: Memory, address: nat, base: nat)
    requires saved.Push? && saved.top.index < |program| && calls.Push? && calls.below == saved && calls.top.index < |program|
    requires base == Base(program, saved) && TopTold(program, calls, memory, address, false)
    ensures TopTold(program, calls, Save(program, saved, memory), address, false)
  {
    var words := [saved.top.frame.ip, StackBytes(saved.top.frame.stack)];
    FrameBehind(memory, Base(program, saved.below) + 2, words, base, program[calls.top.index], calls.top.frame,
                Link(program, saved, address), false);
  }

  // A call in the place of its caller.
  lemma PlacedInsteadTells(program: seq<Method>, t: Thread, callers: Stack<Call>, target: nat, params: seq<nat>)
    requires target < |program| && |params| == program[target].paramWords && Within(program, callers)
    requires Told(program, callers, t.memory, t.address, true)
    requires Base(program, callers) + FrameWords(program[target]) <= CHUNK_WORDS
    ensures
      var u := Enter(program, callers, t.memory, t.address, target, params);
      Told(program, u.calls, u.memory, t.address, false)
  {
    var u := Enter(program, callers, t.memory, t.address, target, params);
    EnterTells(program, callers, t.memory, t.address, target, params);
    ToldStill(program, callers, t.memory, u.memory, t.address, true, Base(program, callers));
  }

  lemma CallTells(program: seq<Method>, t: Thread, prev: nat)
    requires Faithful(program, t) && t.calls.Push? && DoCall(program, t, prev).Running?
    requires OpAt(program[t.calls.top.index], t.calls.top.frame.ip) == Some(JIT_CALL_O) && !Overruns(program, t, prev)
    ensures
      var u := DoCall(program, t, prev).thread;
      Told(program, u.calls, u.memory, t.address, false)
  {
    var c, below := t.calls.top, t.calls.below;
    var w := WantedCall(program, c.index, c.frame, prev).value;
    TakingShrinks(c.frame.stack, program[w.target].paramWords);
    TakenFromTheTop(c.frame.stack, program[w.target].paramWords);
    if w.reused {
      PlacedInsteadTells(program, t, below, w.target, w.params);
    } else {
      CallingTells(program, c, below, w.rest, w.params, t.memory, t.address);
      PlacedBehindTells(program, t, Calling(c, below, w.rest), w.target, w.params);
    }
  }

  lemma ReturnTells(program: seq<Method>, t: Thread, fr: Frame)
    requires Faithful(program, t) && t.calls.Push? && DoReturn(program, t, fr).Running?
    ensures
      var u := DoReturn(program, t, fr).thread;
      Told(program, u.calls, u.memory, t.address, false)
  {
    var c := t.calls.below.top;
    var back := Thread(t.calls.below, SetOfs(program, t.calls.below, t.memory), t.address);
    SetOfsTells(program, t.calls.below, t.calls.below, t.memory, t.address, true);
    ToldAnyway(program, t.calls.below, back.memory, t.address);
    var stack := PushAll(TakeWords(fr.stack, program[t.calls.top.index].resultWords).value.words, c.frame.stack);
    GoOnTells(program, back, c.frame.(stack := stack), JIT_RETURN, false);
  }

  // Every op that does not overrun the chunk keeps the memory telling the calls.
  lemma StepTells(program: seq<Method>, t: Thread, prev: nat)
    requires Faithful(program, t) && ThreadStep(program, t, prev).Running? && !Overruns(program, t, prev)
    ensures Faithful(program, ThreadStep(program, t, prev).thread)
  {
    StepFits(program, t, prev);
    var m, fr := program[t.calls.top.index], t.calls.top.frame;
    var op := m.ops[fr.ip];
    if op == JIT_TAILCALL_PREFIX {
      GoOnTells(program, t, fr.(ip := fr.ip + 1), op, false);
    } else if op == JIT_CALL_O {
      StepCalls(program, t, prev);
      CallTells(program, t, prev);
    } else {
      TurnKeepsWithin(m.ops, 4 * m.stackWords, fr);
      match Turn(m.ops, 4 * m.stackWords, fr) {
        case Continue(fr') => GoOnTells(program, t, fr', op, false);
        case Checked(fr') => GoOnTells(program, t, fr', op, true);
        case Returned(fr') => ReturnTells(program, t, fr');
        case Undefined =>
      }
    }
  }

  // ---------------------------------------------------------------- whole slices

  // No op of the slice overruns the chunk.
  ghost predicate StaysInChunk(program: seq<Method>, t: Thread, prev: nat, num: nat)
    requires num > 0
    decreases num, Height(t.calls), OpsLeft(program, t.calls)
  {
    UncheckedOpsRunOut(program, t, prev);
    var o := ThreadStep(program, t, prev);
    && !Overruns(program, t, prev)
    && (o.Running? && !(o.checked && num == 1) ==>
          StaysInChunk(program, o.thread, o.op, if o.checked then num - 1 else num))
  }

  // When a thread has been saved behind such a slice, its memory tells all its calls.
  lemma {:induction false} SlicesAreTold(program: seq<Method>, t: Thread, prev: nat, num: nat)
    requires num > 0 && Faithful(program, t) && StaysInChunk(program, t, prev, num)
    ensures
      match Slice(program, t, prev, num)
      case Stopped(u) => Fits(program, u) && Told(program, u.calls, Saved(program, u).memory, u.address, true)
      case _ => true
    decreases num, Height(t.calls), OpsLeft(program, t.calls)
  {
    var o := ThreadStep(program, t, prev);
    SliceUnfolds(program, t, prev, num, o);
    if o.Running? {
      StepTells(program, t, prev);
      if o.checked && num == 1 {
        SavingTells(program, o.thread.calls, o.thread.memory, o.thread.address);
      } else {
        SlicesAreTold(program, o.thread, o.op, if o.checked then num - 1 else num);
      }
    }
  }

  // A thread about to begin is told.
  lemma StartIsTold(program: seq<Method>, target: nat, params: seq<nat>, memory: Memory, address: nat)
    requires target < |program| && FrameWords(program[target]) <= CHUNK_WORDS && |params| == program[target].paramWords
    ensures Faithful(program, Start(program, target, params, memory, address))
  {
    EnteredFits(program, Stack.Empty, memory, address, target, params);
    EnterTells(program, Stack.Empty, memory, address, target, params);
  }

  // ---------------------------------------------------------------- what is told is all there is

  lemma {:induction false} WordsDecide(s: Stack<nat>, t: Stack<nat>)
    requires WordsOf(s) == WordsOf(t)
    ensures s == t
    decreases s
  {
    if s.Push? && t.Push? {
      var n := |WordsOf(s.below)|;
      assert WordsOf(s)[..n] == WordsOf(s.below) && WordsOf(t)[..|WordsOf(t.below)|] == WordsOf(t.below);
      assert WordsOf(s)[n] == s.top;
      WordsDecide(s.below, t.below);
    }
  }

  // No two methods have the same address.
  predicate DistinctMethods(program: seq<Method>) {
    forall i, j :: 0 <= i < j < |program| ==> program[i].address != program[j].address
  }

  lemma FrameDecides(memory: Memory, base: nat, m: Method, fr: Frame, link: nat, other: Frame, otherLink: nat)
    requires FrameTold(memory, base, m, fr, link, true) && FrameTold(memory, base, m, other, otherLink, true)
    requires |fr.locals| == |other.locals|
    ensures fr == other && link == otherLink
  {
    WordsAreBytes(fr.stack);
    WordsAreBytes(other.stack);
    WordsDecide(fr.stack, other.stack);
  }

  // Loading a saved thread gives what was saved: the memory and the place of the current frame decide all calls, with
  // their methods, stacks, parameters and locals, and where each goes on.
  lemma {:induction false} SavedIsReloaded(program: seq<Method>, s: Stack<Call>, t: Stack<Call>, memory: Memory, address: nat)
    requires DistinctMethods(program) && address > 0 && Within(program, s) && Within(program, t)
    requires Told(program, s, memory, address, true) && Told(program, t, memory, address, true)
    requires Link(program, s, address) == Link(program, t, address)
    ensures s == t
    decreases s
  {
    if s.Push? {
      var base := Base(program, s.below);
      assert t.Push? && base == Base(program, t.below);
      assert s.top.index == t.top.index;
      FrameDecides(memory, base, program[s.top.index], s.top.frame, Link(program, s.below, address),
                   t.top.frame, Link(program, t.below, address));
      SavedIsReloaded(program, s.below, t.below, memory, address);
    }
  }
}
