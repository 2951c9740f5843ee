/**
 Replacing in a string: one pass counts the matches, the result is allocated, and another pass fills it.
 */
module StringReplace {
  import opened HeapEntries

  type Char2 = c: int | 0 <= c < 0x1_0000

  // ---------------------------------------------------------------- what is meant

  // From the left, and on behind each match.
  function Replace(text: seq<Char2>, from: seq<Char2>, to: seq<Char2>): seq<Char2>
    requires from != []
    decreases |text|
  {
    if text == [] then []
    else if from <= text then to + Replace(text[|from|..], from, to)
    else [text[0]] + Replace(text[1..], from, to)
  }

  function Matches(text: seq<Char2>, from: seq<Char2>): nat
    requires from != []
    decreases |text|
  {
    if text == [] then 0
    else if from <= text then 1 + Matches(text[|from|..], from)
    else Matches(text[1..], from)
  }

  predicate OccursAt(text: seq<Char2>, from: seq<Char2>, i: nat) {
    i <= |text| && from <= text[i..]
  }

  lemma Regroup(a: seq<Char2>, b: seq<Char2>, c: seq<Char2>)
    ensures a + b + c == a + (b + c)
  {
  }

  // Where the pattern occurs first, it is replaced, and the text behind it is treated in the same way.
  lemma {:induction false} FirstOccurrenceIsReplaced(text: seq<Char2>, from: seq<Char2>, to: seq<Char2>, i: nat)
    requires from != [] && OccursAt(text, from, i) && forall k :: 0 <= k < i ==> !OccursAt(text, from, k)
    ensures Replace(text, from, to) == text[..i] + to + Replace(text[i + |from|..], from, to)
    decreases i
  {
    if i > 0 {
      var rest := text[1..];
      assert !OccursAt(text, from, 0) && text[0..] == text;
      forall k | 0 <= k < i - 1 ensures !OccursAt(rest, from, k) {
        assert rest[k..] == text[k + 1..] && !OccursAt(text, from, k + 1);
      }
      assert rest[i - 1..] == text[i..];
      FirstOccurrenceIsReplaced(rest, from, to, i - 1);
      assert rest[i - 1 + |from|..] == text[i + |from|..];
      var behind := Replace(text[i + |from|..], from, to);
      assert text[..i] == [text[0]] + rest[..i - 1];
      Regroup([text[0]], rest[..i - 1] + to, behind);
      Regroup([text[0]], rest[..i - 1], to);
      assert Replace(text, from, to) == [text[0]] + Replace(rest, from, to);
    } else {
      assert text[0..] == text;
    }
  }

  // A text without the pattern stays as it is.
  lemma {:induction false} NothingToReplace(text: seq<Char2>, from: seq<Char2>, to: seq<Char2>)
    requires from != [] && forall k :: 0 <= k <= |text| ==> !OccursAt(text, from, k)
    ensures Replace(text, from, to) == text && Matches(text, from) == 0
    decreases |text|
  {
    if text != [] {
      var rest := text[1..];
      assert !OccursAt(text, from, 0) && text[0..] == text;
      forall k | 0 <= k <= |rest| ensures !OccursAt(rest, from, k) {
        assert rest[k..] == text[k + 1..] && !OccursAt(text, from, k + 1);
      }
      NothingToReplace(rest, from, to);
    }
  }

  // Replacing the pattern by itself changes nothing.
  lemma {:induction false} ReplacedByItself(text: seq<Char2>, from: seq<Char2>)
    requires from != []
    ensures Replace(text, from, from) == text
    decreases |text|
  {
    if text != [] {
      if from <= text {
        ReplacedByItself(text[|from|..], from);
        assert text == from + text[|from|..];
      } else {
        ReplacedByItself(text[1..], from);
      }
    }
  }

  // The length that the first pass finds.
  lemma {:induction false} LengthOfResult(text: seq<Char2>, from: seq<Char2>, to: seq<Char2>)
    requires from != []
    ensures |Replace(text, from, to)| == |text| - (|from| - |to|) * Matches(text, from)
    decreases |text|
  {
    if text != [] {
      if from <= text {
        LengthOfResult(text[|from|..], from, to);
        OneMore(|from| - |to|, Matches(text[|from|..], from));
      } else {
        LengthOfResult(text[1..], from, to);
      }
    }
  }

  lemma OneMore(a: int, n: int)
    ensures a * (1 + n) == a + a * n
  {
  }

  // ---------------------------------------------------------------- sizes in 32 bits

  // The number of characters that the first pass asks for.
  function ResultLength(thisLen: nat, oldLen: nat, newLen: nat, replacements: nat, modulus: nat): nat
    requires modulus > 0
  {
    (thisLen - (oldLen - newLen) * replacements) % modulus
  }

  // What a string of that many characters takes: the header of its heap entry, the length, the characters and a terminator.
  function BlockBytes(len: nat): nat {
    HEADER_SIZE + (4 + 2 * (len + 1))
  }

  // The size that is asked of the allocator: the string adds up its own, and the heap adds the header.
  function BlockAsked(len: nat, modulus: nat): nat
    requires modulus > 0
  {
    (HEADER_SIZE + (4 + 2 * (len + 1)) % modulus) % modulus
  }

  lemma ModOfSmall(n: nat, modulus: nat)
    requires modulus > 0
    ensures n % modulus == n <==> n < modulus
  {
  }

  lemma AskedIsBelow(len: nat, modulus: nat)
    requires modulus > 0
    ensures BlockAsked(len, modulus) < modulus
    ensures BlockBytes(len) < modulus ==> BlockAsked(len, modulus) == BlockBytes(len)
  {
    if BlockBytes(len) < modulus {
      ModOfSmall(4 + 2 * (len + 1), modulus);
      ModOfSmall(BlockBytes(len), modulus);
    }
  }

  // The number of characters asked for is that of the result, and the block allocated has room for them, exactly when the
  // block that is needed fits, its header included.
  lemma SizedExactlyWhenItFits(text: seq<Char2>, from: seq<Char2>, to: seq<Char2>, modulus: nat)
    requires from != [] && modulus > 0
    ensures
      var length := |Replace(text, from, to)|;
      var asked := ResultLength(|text|, |from|, |to|, Matches(text, from), modulus);
      && (asked == length <==> length < modulus)
      && (BlockAsked(asked, modulus) >= BlockBytes(length) <==> BlockBytes(length) < modulus)
  {
    LengthOfResult(text, from, to);
    var length := |Replace(text, from, to)|;
    var asked := ResultLength(|text|, |from|, |to|, Matches(text, from), modulus);
    ModOfSmall(length, modulus);
    AskedIsBelow(asked, modulus);
  }

  // An example: 65536 letters are replaced by 32767 each. The 65536 * 32767 + 65532 letters of the result need a block of
  // 2^32 + 18 bytes, and one of 18 is asked for. Without the header the size would have fitted.
  lemma HeaderWrapsAround(text: seq<Char2>, letter: Char2, to: seq<Char2>)
    requires |text| == 65536 + 65532 && |to| == 32767
    requires (forall i :: 0 <= i < 65536 ==> text[i] == letter) && forall i :: 65536 <= i < |text| ==> text[i] != letter
    ensures |Replace(text, [letter], to)| == 2147483644
    ensures 4 + 2 * (|Replace(text, [letter], to)| + 1) < TWO32
    ensures BlockAsked(|Replace(text, [letter], to)|, TWO32) == 18
  {
    LettersMatch(text, letter, 65536);
    LengthOfResult(text, [letter], to);
  }

  lemma {:induction false} LettersMatch(text: seq<Char2>, letter: Char2, n: nat)
    requires n <= |text|
    requires (forall i :: 0 <= i < n ==> text[i] == letter) && forall i :: n <= i < |text| ==> text[i] != letter
    ensures Matches(text, [letter]) == n
    decreases |text|
  {
    if text != [] {
      assert [letter] <= text <==> text[0] == letter;
      LettersMatch(text[1..], letter, if n > 0 then n - 1 else 0);
    }
  }

  // How many positions are tried: a difference below the modulus.
  function Limit(thisLen: nat, oldLen: nat, modulus: nat): nat
    requires 0 < oldLen < modulus && thisLen < modulus
  {
    if oldLen <= thisLen + 1 then thisLen + 1 - oldLen else thisLen + 1 + modulus - oldLen
  }

  predicate Tried(thisLen: nat, oldLen: nat, modulus: nat, i: nat)
    requires 0 < oldLen < modulus && thisLen < modulus
  {
    i < Limit(thisLen, oldLen, modulus)
  }

  // The positions tried are all in the text or just behind it exactly if the pattern is at most one longer than the text.
  // Then they are those where the pattern can be.
  lemma PositionsAreInTheTextExactlyWhen(thisLen: nat, oldLen: nat, modulus: nat)
    requires 0 < oldLen < modulus && thisLen < modulus
    ensures (forall i: nat :: Tried(thisLen, oldLen, modulus, i) ==> i <= thisLen) <==> oldLen <= thisLen + 1
    ensures oldLen <= thisLen + 1 ==> forall i: nat :: Tried(thisLen, oldLen, modulus, i) <==> i + oldLen <= thisLen
  {
    assert oldLen > thisLen + 1 ==> Tried(thisLen, oldLen, modulus, thisLen + 1);
  }

  // An example: looking for two characters in an empty text, a position behind its end is tried.
  lemma BehindTheEnd()
    ensures Tried(0, 2, TWO32, 1)
  {
  }

  // ---------------------------------------------------------------- the two passes

  // Whether the pattern is found at a position, which the loops make sure is not too near the end.
  method Match(text: seq<Char2>, from: seq<Char2>, i: nat) returns (match_: bool)
    requires i + |from| <= |text|
    ensures match_ <==> from <= text[i..]
  {
    match_ := true;
    for j := 0 to |from|
      invariant match_ && forall k :: 0 <= k < j ==> text[i + k] == from[k]
    {
      if text[i + j] != from[j] {
        assert text[i..][j] != from[j];
        return false;
      }
    }
    assert from == text[i..][..|from|];
  }

  // Near the end there is no match.
  lemma {:induction false} NoneNearTheEnd(text: seq<Char2>, from: seq<Char2>, to: seq<Char2>)
    requires |from| > |text|
    ensures Matches(text, from) == 0 && Replace(text, from, to) == text
    decreases |text|
  {
    if text != [] {
      NoneNearTheEnd(text[1..], from, to);
    }
  }

  // The first pass.
  method CountReplacements(text: seq<Char2>, from: seq<Char2>, limit: nat) returns (replacements: nat)
    requires from != [] && |from| <= |text| + 1 && limit == |text| + 1 - |from|
    ensures replacements == Matches(text, from)
  {
    replacements := 0;
    var i := 0;
    assert text[0..] == text;
    while i < limit
      invariant 0 <= i <= |text|
      invariant replacements + Matches(text[i..], from) == Matches(text, from)
    {
      var found := Match(text, from, i);
      if found {
        assert text[i..][|from|..] == text[i + |from|..];
        i := i + |from| - 1;
        replacements := replacements + 1;
      } else {
        assert text[i..][1..] == text[i + 1..];
      }
      i := i + 1;
    }
    NoneNearTheEnd(text[i..], from, []);
  }

  // Copies the replacement into the result.
  method CopyTo(result: array<Char2>, at: nat, to: seq<Char2>)
    requires at + |to| <= result.Length
    modifies result
    ensures result[..at + |to|] == old(result[..at]) + to
  {
    for k := 0 to |to|
      invariant result[..at + k] == old(result[..at]) + to[..k]
    {
      result[at + k] := to[k];
    }
  }

  // System_String_InternalReplace: for every pattern that is not empty and at most one longer than the text, and every
  // result that fits.
  method InternalReplace(text: seq<Char2>, from: seq<Char2>, to: seq<Char2>, modulus: nat) returns (result: array<Char2>)
    requires 0 < |from| < modulus && |text| < modulus && |from| <= |text| + 1
    requires BlockBytes(|Replace(text, from, to)|) < modulus
    ensures fresh(result) && result[..] == Replace(text, from, to)
  {
    var limit := Limit(|text|, |from|, modulus);
    PositionsAreInTheTextExactlyWhen(|text|, |from|, modulus);
    var replacements := CountReplacements(text, from, limit);
    SizedExactlyWhenItFits(text, from, to, modulus);
    result := new Char2[ResultLength(|text|, |from|, |to|, replacements, modulus)];
    Fill(text, from, to, limit, result);
  }

  // What is put into the result at a position: the replacement or the character of the text.
  method Put(text: seq<Char2>, from: seq<Char2>, to: seq<Char2>, i: nat, found: bool, result: array<Char2>, at: nat)
    returns (next: nat, behind: nat)
    requires from != [] && i < |text| && found == (from <= text[i..])
    requires at + |Replace(text[i..], from, to)| <= result.Length
    modifies result
    ensures i < next <= |text| && at <= behind <= result.Length
    ensures result[..behind] + Replace(text[next..], from, to) == old(result[..at]) + Replace(text[i..], from, to)
  {
    if found {
      assert text[i..][|from|..] == text[i + |from|..];
      CopyTo(result, at, to);
      next, behind := i + |from|, at + |to|;
      Regroup(old(result[..at]), to, Replace(text[next..], from, to));
    } else {
      assert text[i..][1..] == text[i + 1..];
      CopyTo(result, at, [text[i]]);
      next, behind := i + 1, at + 1;
      Regroup(old(result[..at]), [text[i]], Replace(text[next..], from, to));
    }
  }

  // The second pass.
  method Fill(text: seq<Char2>, from: seq<Char2>, to: seq<Char2>, limit: nat, result: array<Char2>)
    requires from != [] && |from| <= |text| + 1 && limit == |text| + 1 - |from|
    requires result.Length == |Replace(text, from, to)|
    modifies result
    ensures result[..] == Replace(text, from, to)
  {
    ghost var whole := Replace(text, from, to);
    var dstIndex, i := 0, 0;
    assert text[0..] == text;
    while i < |text|
      invariant 0 <= i <= |text| && 0 <= dstIndex <= result.Length == |whole|
      invariant result[..dstIndex] + Replace(text[i..], from, to) == whole
    {
      var found := false;
      if i < limit {
        found := Match(text, from, i);
      }
      i, dstIndex := Put(text, from, to, i, found, result, dstIndex);
    }
  }
}
