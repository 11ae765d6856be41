/**
 Word-wise access to the memory of a tracee, the ptrace path of tracee/mem.c:219-293, 302-334,
 341-407 and 471-513.
 */
module TraceeMemory {
  import opened Wrappers

  /** sizeof(word_t). */
  const WORD: nat := 8

  /** The accessible bytes of the tracee. */
  type Memory = map<nat, nat>

  function RoundUp(size: nat): nat {
    if size % WORD == 0 then size else size + WORD - size % WORD
  }

  predicate AllIn(m: Memory, start: nat, length: nat) {
    forall a: nat :: start <= a < start + length ==> a in m
  }

  function BytesAt(m: Memory, start: nat, length: nat): (r: seq<nat>)
    requires AllIn(m, start, length)
    ensures |r| == length
  {
    seq(length, i requires 0 <= i < length => m[start + i])
  }

  function Overwritten(m: Memory, dest: nat, src: seq<nat>): Memory {
    map a: nat | a in m :: if dest <= a < dest + |src| then src[a - dest] else m[a]
  }

  lemma OverwriteTwice(m: Memory, dest: nat, a: seq<nat>, b: seq<nat>)
    ensures Overwritten(Overwritten(m, dest, a), dest + |a|, b) == Overwritten(m, dest, a + b)
    ensures Overwritten(m, dest, []) == m
  {
  }

  /** What was written is read back, and every other byte is what it was. */
  lemma WriteThenRead(m: Memory, dest: nat, src: seq<nat>)
    requires AllIn(m, dest, |src|)
    ensures BytesAt(Overwritten(m, dest, src), dest, |src|) == src
    ensures forall a :: a in m && !(dest <= a < dest + |src|) ==> Overwritten(m, dest, src)[a] == m[a]
  {
  }

  /** Concatenation of the buffers of a vector. */
  function Gathered(vector: seq<seq<nat>>): seq<nat> {
    if vector == [] then [] else Gathered(vector[..|vector| - 1]) + vector[|vector| - 1]
  }

  /** The bytes at `start` are a string of `length` characters and its terminator. */
  ghost predicate StringAt(m: Memory, start: nat, length: nat) {
    AllIn(m, start, length + 1) && m[start + length] == 0 && NoZero(m, start, length)
  }

  ghost predicate NoZero(m: Memory, start: nat, length: nat) {
    forall a: nat :: start <= a < start + length && a in m ==> m[a] != 0
  }

  class Tracee {
    var memory: Memory

    constructor (m: Memory)
      ensures memory == m
    {
      memory := m;
    }

    /** PTRACE_PEEKDATA. */
    method PeekData(address: nat) returns (word: Option<seq<nat>>)
      ensures word.Some? <==> AllIn(memory, address, WORD)
      ensures word.Some? ==> word.value == BytesAt(memory, address, WORD)
    {
      if AllIn(memory, address, WORD) {
        return Some(BytesAt(memory, address, WORD));
      }
      return None;
    }

    /** PTRACE_POKEDATA. */
    method PokeData(address: nat, word: seq<nat>) returns (ok: bool)
      requires |word| == WORD
      modifies this
      ensures ok <==> AllIn(old(memory), address, WORD)
      ensures memory == if ok then Overwritten(old(memory), address, word) else old(memory)
    {
      ok := AllIn(memory, address, WORD);
      if ok {
        memory := Overwritten(memory, address, word);
      }
    }

    /**
     Copy `src` to `dest`, whole words first, then the bytes of a last partial word.  It succeeds
     exactly when all words that hold the range are accessible, and then changes that range only.
     */
    method WriteData(dest: nat, src: seq<nat>) returns (ok: bool)
      modifies this
      ensures ok <==> AllIn(old(memory), dest, RoundUp(|src|))
      ensures ok ==> memory == Overwritten(old(memory), dest, src)
      ensures memory.Keys == old(memory).Keys
    {
      var trailing := |src| % WORD;
      var fullWords := (|src| - trailing) / WORD;
      var full := fullWords * WORD;
      ok := WriteWords(dest, src, fullWords);
      if !ok || trailing == 0 {
        assert src[..full] == src || !ok;
        return ok;
      }
      var tail := src[full..];
      ok := WriteTail(dest + full, tail);
      OverwriteTwice(old(memory), dest, src[..full], tail);
      assert src[..full] + tail == src;
    }

    method WriteWords(dest: nat, src: seq<nat>, count: nat) returns (ok: bool)
      requires count * WORD <= |src|
      modifies this
      ensures ok <==> AllIn(old(memory), dest, count * WORD)
      ensures ok ==> memory == Overwritten(old(memory), dest, src[..count * WORD])
      ensures memory.Keys == old(memory).Keys
    {
      OverwriteTwice(memory, dest, [], []);
      var i := 0;
      while i < count
        invariant 0 <= i <= count
        invariant memory == Overwritten(old(memory), dest, src[..i * WORD])
        invariant AllIn(old(memory), dest, i * WORD)
      {
        var word := src[i * WORD..i * WORD + WORD];
        ok := PokeData(dest + i * WORD, word);
        if !ok {
          return false;
        }
        OverwriteTwice(old(memory), dest, src[..i * WORD], word);
        assert src[..i * WORD] + word == src[..(i + 1) * WORD];
        i := i + 1;
      }
      return true;
    }

    /** The last word is read first, so that its bytes after the range are kept. */
    method WriteTail(at: nat, tail: seq<nat>) returns (ok: bool)
      requires |tail| < WORD
      modifies this
      ensures ok <==> AllIn(old(memory), at, WORD)
      ensures memory == if ok then Overwritten(old(memory), at, tail) else old(memory)
    {
      var peeked := PeekData(at);
      if peeked.None? {
        return false;
      }
      var word := peeked.value;
      var j := 0;
      while j < |tail|
        invariant 0 <= j <= |tail| && |word| == WORD
        invariant forall k :: 0 <= k < j ==> word[k] == tail[k]
        invariant forall k :: j <= k < WORD ==> word[k] == memory[at + k]
      {
        word := word[j := tail[j]];
        j := j + 1;
      }
      TailWord(memory, at, word, tail);
      ok := PokeData(at, word);
    }

    /** One buffer after the other. */
    method WritevData(dest: nat, vector: seq<seq<nat>>) returns (ok: bool)
      modifies this
      ensures ok ==> memory == Overwritten(old(memory), dest, Gathered(vector))
      ensures ok ==> AllIn(old(memory), dest, |Gathered(vector)|)
      ensures memory.Keys == old(memory).Keys
      ensures AllIn(old(memory), dest, |Gathered(vector)| + WORD) ==> ok
    {
      var i, size := 0, 0;
      OverwriteTwice(memory, dest, [], []);
      while i < |vector|
        invariant 0 <= i <= |vector| && size == |Gathered(vector[..i])|
        invariant memory == Overwritten(old(memory), dest, Gathered(vector[..i]))
        invariant AllIn(old(memory), dest, size)
      {
        GatheredStep(vector, i);
        ok := WriteData(dest + size, vector[i]);
        if !ok {
          return false;
        }
        OverwriteTwice(old(memory), dest, Gathered(vector[..i]), vector[i]);
        size := size + |vector[i]|;
        i := i + 1;
      }
      assert vector[..i] == vector;
      return true;
    }

    /** Copy `size` bytes from `src`; it succeeds exactly when all words that hold the range are accessible. */
    method ReadData(src: nat, size: nat) returns (dest: Option<seq<nat>>)
      ensures dest.Some? <==> AllIn(memory, src, RoundUp(size))
      ensures dest.Some? ==> dest.value == BytesAt(memory, src, size)
    {
      var trailing := size % WORD;
      var fullWords := (size - trailing) / WORD;
      var bytes: seq<nat> := [];
      var i := 0;
      while i < fullWords
        invariant 0 <= i <= fullWords && fullWords * WORD + trailing == size
        invariant AllIn(memory, src, i * WORD) && bytes == BytesAt(memory, src, i * WORD)
      {
        var word := PeekData(src + i * WORD);
        if word.None? {
          return None;
        }
        bytes := bytes + word.value;
        i := i + 1;
      }
      if trailing == 0 {
        return Some(bytes);
      }
      var word := PeekData(src + i * WORD);
      if word.None? {
        return None;
      }
      var j := 0;
      while j < trailing
        invariant 0 <= j <= trailing && AllIn(memory, src, i * WORD + j)
        invariant bytes == BytesAt(memory, src, i * WORD + j)
      {
        bytes := bytes + [word.value[j]];
        j := j + 1;
      }
      return Some(bytes);
    }

    /**
     The length of the string at `src` and of its terminator, or `max + 1` when there is no
     terminator among the first `max` bytes.
     */
    method ReadString(src: nat, max: nat) returns (size: Option<nat>)
      ensures size.Some? && size.value <= max ==> size.value > 0 && StringAt(memory, src, size.value - 1)
      ensures size.Some? && size.value > max ==> size.value == max + 1 && AllIn(memory, src, max)
      ensures size.Some? && size.value > max ==> NoZero(memory, src, max)
      ensures forall n: nat :: n < max && StringAt(memory, src, n) && AllIn(memory, src, RoundUp(n + 1)) ==>
                size == Some(n + 1)
      ensures AllIn(memory, src, max) && NoZero(memory, src, max) ==>
                (size == Some(max + 1) <==> AllIn(memory, src, max - max % WORD + WORD))
    {
      hide AllIn, NoZero, StringAt, RoundUp;
      var trailing := max % WORD;
      var fullWords := (max - trailing) / WORD;
      var i := 0;
      NothingBefore(memory, src);
      while i < fullWords
        invariant 0 <= i <= fullWords && fullWords * WORD + trailing == max
        invariant AllIn(memory, src, i * WORD) && NoZero(memory, src, i * WORD)
      {
        var word := PeekData(src + i * WORD);
        if word.None? {
          UnreadableString(memory, src, i, max);
          return None;
        }
        var j := ScanWord(word.value, WORD, src + i * WORD);
        ScannedWord(memory, src, i * WORD, j);
        if j < WORD {
          ScannedString(memory, src, i * WORD + j, max);
          return Some(i * WORD + j + 1);
        }
        i := i + 1;
      }
      var word := PeekData(src + i * WORD);
      if word.None? {
        UnreadableString(memory, src, i, max);
        return None;
      }
      var j := ScanWord(word.value, trailing, src + i * WORD);
      ScannedWord(memory, src, i * WORD, j);
      if j < trailing {
        ScannedString(memory, src, i * WORD + j, max);
      } else {
        NoStringBefore(memory, src, max);
      }
      return Some(i * WORD + j + 1);
    }

    /** The index of the first zero byte of a word, or the limit. */
    method ScanWord(word: seq<nat>, limit: nat, ghost address: nat) returns (j: nat)
      requires limit <= WORD && AllIn(memory, address, WORD) && word == BytesAt(memory, address, WORD)
      ensures j <= limit && NoZero(memory, address, j)
      ensures j < limit ==> address + j in memory && memory[address + j] == 0
    {
      j := 0;
      while j < limit && word[j] != 0
        invariant 0 <= j <= limit && NoZero(memory, address, j)
      {
        j := j + 1;
      }
    }
  }

  lemma NothingBefore(m: Memory, start: nat)
    ensures AllIn(m, start, 0) && NoZero(m, start, 0)
  {
  }

  lemma ScannedWord(m: Memory, start: nat, k: nat, j: nat)
    requires AllIn(m, start, k) && NoZero(m, start, k) && AllIn(m, start + k, WORD) && NoZero(m, start + k, j) && j <= WORD
    ensures AllIn(m, start, k + WORD) && AllIn(m, start, k + j) && NoZero(m, start, k + j)
  {
  }

  lemma ZeroIsLater(m: Memory, start: nat, k: nat, n: nat)
    requires NoZero(m, start, k) && start + n in m && m[start + n] == 0
    ensures n >= k
  {
  }

  /** A first zero ends the only string. */
  lemma ScannedString(m: Memory, start: nat, k: nat, max: nat)
    requires AllIn(m, start, k) && NoZero(m, start, k) && k < max && start + k in m && m[start + k] == 0
    ensures StringAt(m, start, k) && forall n: nat :: n < max && StringAt(m, start, n) ==> n == k
    ensures !(AllIn(m, start, max) && NoZero(m, start, max))
  {
    forall n: nat | n < max && StringAt(m, start, n)
      ensures n == k
    {
      ZeroIsLater(m, start, k, n);
      ZeroIsLater(m, start, n, k);
    }
  }

  lemma NoStringBefore(m: Memory, start: nat, max: nat)
    requires NoZero(m, start, max)
    ensures forall n: nat :: n < max ==> !StringAt(m, start, n)
  {
    forall n: nat | n < max
      ensures !StringAt(m, start, n)
    {
      if StringAt(m, start, n) {
        ZeroIsLater(m, start, max, n);
      }
    }
  }

  /** A word that cannot be read: every string before the limit needs it. */
  lemma UnreadableString(m: Memory, start: nat, i: nat, max: nat)
    requires NoZero(m, start, i * WORD) && !AllIn(m, start + i * WORD, WORD) && i * WORD <= max
    ensures forall n: nat :: n < max && StringAt(m, start, n) ==> !AllIn(m, start, RoundUp(n + 1))
    ensures AllIn(m, start, max) && NoZero(m, start, max) ==> !AllIn(m, start, max - max % WORD + WORD)
  {
    forall n: nat | n < max && StringAt(m, start, n)
      ensures !AllIn(m, start, RoundUp(n + 1))
    {
      ZeroIsLater(m, start, i * WORD, n);
      PartIn(m, start, i * WORD, RoundUp(n + 1));
    }
    PartIn(m, start, i * WORD, max - max % WORD + WORD);
  }

  lemma PartIn(m: Memory, start: nat, k: nat, length: nat)
    requires k + WORD <= length
    ensures AllIn(m, start, length) ==> AllIn(m, start + k, WORD)
  {
  }

  /** The last word of a write: its leading bytes are new, the others are what they were. */
  lemma TailWord(m: Memory, at: nat, word: seq<nat>, tail: seq<nat>)
    requires |word| == WORD && |tail| <= WORD && AllIn(m, at, WORD)
    requires forall k :: 0 <= k < |tail| ==> word[k] == tail[k]
    requires forall k :: |tail| <= k < WORD ==> word[k] == m[at + k]
    ensures Overwritten(m, at, word) == Overwritten(m, at, tail)
  {
    assert forall a :: a in m && at + |tail| <= a < at + WORD ==> word[a - at] == m[at + (a - at)];
  }

  lemma {:induction false} GatheredStep(vector: seq<seq<nat>>, i: nat)
    requires i < |vector|
    ensures Gathered(vector[..i + 1]) == Gathered(vector[..i]) + vector[i]
    ensures |Gathered(vector[..i + 1])| <= |Gathered(vector)|
    decreases |vector|
  {
    assert vector[..i + 1][..i] == vector[..i];
    if i + 1 == |vector| {
      assert vector[..i + 1] == vector;
    } else {
      var front := vector[..|vector| - 1];
      GatheredStep(front, i);
      assert front[..i + 1] == vector[..i + 1];
    }
  }
}
