/**
 The streaming hasher (src/verify/sha256.cpp): a 64-byte buffer, the running
 hash value and the length so far, updated in place.
 */
module Hasher {
  import opened Basics
  import opened Sha256

  function ChainOf(words: seq<Word>): Chain
    requires |words| == 8
  {
    Chain(words[0], words[1], words[2], words[3], words[4], words[5], words[6], words[7])
  }

  class Sha256Hasher {
    const state: array<Word>
    const buffer: array<Byte>
    var totalLength: U64
    var bufferLength: nat
    ghost var message: Bytes  // everything hashed since the last reset

    ghost predicate Valid()
      reads this, state, buffer
    {
      && state.Length == 8 && buffer.Length == BLOCK && state as object != buffer
      && totalLength == |message| % WORDS
      && Buffered()
    }

    /** Whole blocks are in the hash value and the rest is in the buffer. */
    ghost predicate Buffered()
      requires state.Length == 8 && buffer.Length == BLOCK
      reads this`bufferLength, this`message, state, buffer
    {
      && bufferLength == |message| % BLOCK
      && buffer[..bufferLength] == Tail(message)
      && ChainOf(state[..]) == HashBlocks(WholeBlocks(message))
    }

    constructor ()
      ensures Valid() && message == [] && fresh(state) && fresh(buffer)
    {
      state := new Word[8](_ => 0);
      buffer := new Byte[BLOCK](_ => 0);
      totalLength, bufferLength, message := 0, 0, [];
      new;
      Reset();
    }

    method Reset()
      requires state.Length == 8 && buffer.Length == BLOCK && state as object != buffer
      modifies this, state
      ensures Valid() && message == []
    {
      state[0], state[1], state[2], state[3] := 0x6a09e667, 0xbb67ae85, 0x3c6ef372, 0xa54ff53a;
      state[4], state[5], state[6], state[7] := 0x510e527f, 0x9b05688c, 0x1f83d9ab, 0x5be0cd19;
      totalLength, bufferLength, message := 0, 0, [];
      assert ChainOf(state[..]) == INITIAL;
    }

    method ProcessBlock()
      requires state.Length == 8 && buffer.Length == BLOCK && state as object != buffer
      modifies state
      ensures ChainOf(state[..]) == Compress(ChainOf(old(state[..])), buffer[..])
    {
      hide Rounds, Schedule, Sum;
      var block := buffer[..];
      var words := ExpandBlock(block);
      var v := RunRounds(ChainOf(state[..]), block, words);
      state[0], state[1] := Sum(state[0], v.a), Sum(state[1], v.b);
      state[2], state[3] := Sum(state[2], v.c), Sum(state[3], v.d);
      state[4], state[5] := Sum(state[4], v.e), Sum(state[5], v.f);
      state[6], state[7] := Sum(state[6], v.g), Sum(state[7], v.h);
    }

    /** The memcpy of `update`. */
    method Fill(data: Bytes, offset: nat, take: nat)
      requires buffer.Length == BLOCK && bufferLength + take <= BLOCK && offset + take <= |data|
      modifies buffer
      ensures buffer[..bufferLength + take] == old(buffer[..bufferLength]) + data[offset..offset + take]
    {
      forall i | 0 <= i < take {
        buffer[bufferLength + i] := data[offset + i];
      }
    }

    /** Takes the next `take` bytes, at most what fits the block. */
    method Absorb(data: Bytes, offset: nat, take: nat)
      requires state.Length == 8 && buffer.Length == BLOCK && state as object != buffer && Buffered()
      requires 0 < take && bufferLength + take <= BLOCK && offset + take <= |data|
      modifies state, buffer, this`bufferLength, this`message
      ensures Buffered() && message == old(message) + data[offset..offset + take]
    {
      hide HashBlocks, Compress, Tail, WholeBlocks, ChainOf;
      Fill(data, offset, take);
      TailGrows(message, data[offset..offset + take]);
      message := message + data[offset..offset + take];
      bufferLength := bufferLength + take;
      if bufferLength == BLOCK {
        assert buffer[..] == buffer[..BLOCK];
        ProcessBlock();
        bufferLength := 0;
      }
    }

    method Update(data: Bytes)
      requires Valid()
      modifies this, state, buffer
      ensures Valid() && message == old(message) + data
    {
      hide Buffered;
      var length := |data|;
      var offset := 0;
      ghost var before := message;
      totalLength := (totalLength + length) % WORDS;
      BufferedIsPartial();
      while length > 0
        invariant 0 <= offset <= |data| && offset + length == |data|
        invariant message == before + data[..offset]
        invariant totalLength == (|before| + |data|) % WORDS
        invariant Buffered() && bufferLength < BLOCK
      {
        var take := Min(BLOCK - bufferLength, length);
        Absorb(data, offset, take);
        BufferedIsPartial();
        assert data[..offset + take] == data[..offset] + data[offset..offset + take];
        offset := offset + take;
        length := length - take;
      }
      assert data[..offset] == data;
    }

    lemma BufferedIsPartial()
      requires state.Length == 8 && buffer.Length == BLOCK && Buffered()
      ensures bufferLength < BLOCK
    {
    }

    /** The 0x80 byte and the zeros of the padding. */
    method PadMessage()
      requires Valid()
      modifies this, state, buffer
      ensures Valid() && message == old(message) + [0x80] + Zeros(ZeroCount(|old(message)|))
    {
      hide HashBlocks, Tail, WholeBlocks, ChainOf, Zeros, ZeroCount;
      ghost var original := message;
      Update([0x80]);
      ghost var zeros := 0;
      assert message == original + [0x80] + Zeros(0);
      while bufferLength != 56
        invariant Valid() && message == original + [0x80] + Zeros(zeros)
        invariant zeros <= ZeroCount(|original|)
        decreases ZeroCount(|original|) - zeros
      {
        PaddingRemains(|original|, zeros);
        Update([0]);
        OneMoreZero(zeros);
        zeros := zeros + 1;
      }
      PaddingEnds(|original|, zeros);
    }

    /** The digest of everything hashed; the hasher must be reset before reuse. */
    method Finalize() returns (digest: Bytes)
      requires Valid()
      modifies this, state, buffer
      ensures digest == Digest(old(message))
    {
      hide HashBlocks, BigEndian, Zeros, Tail, WholeBlocks, ChainOf, ZeroCount, WordBytes, ChainBytes;
      ghost var original := message;
      var bitLength := totalLength * 8 % WORDS;
      LengthWraps(|original|);
      PadMessage();
      var lengthBytes := LengthBytes(bitLength);
      Update(lengthBytes);
      PaddedIsWhole(original);
      assert message == Pad(original);
      digest := [];
      for i := 0 to 8
        invariant digest == StateBytes(state[..], i)
      {
        digest := digest + WordBytes(state[i]);
      }
      DigestIsChainBytes(state[..]);
    }
  }

  lemma ScheduleStep(block: Bytes, t: nat)
    requires |block| == BLOCK && t < 64
    ensures Schedule(block, t) ==
            if t < 16 then BigEndianWord(block, t)
            else ScheduleWord(Schedule(block, t - 16), Schedule(block, t - 15), Schedule(block, t - 7),
                              Schedule(block, t - 2))
  {
  }

  /** The message schedule, filled in place. */
  method ExpandBlock(block: Bytes) returns (words: array<Word>)
    requires |block| == BLOCK
    ensures fresh(words) && words.Length == 64
    ensures forall t :: 0 <= t < 64 ==> words[t] == Schedule(block, t)
  {
    hide BigEndianWord, ScheduleWord, Schedule;
    words := new Word[64](_ => 0);
    for i := 0 to 16
      invariant forall t :: 0 <= t < i ==> words[t] == Schedule(block, t)
    {
      ScheduleStep(block, i);
      words[i] := BigEndianWord(block, i);
    }
    for i := 16 to 64
      invariant forall t :: 0 <= t < i ==> words[t] == Schedule(block, t)
    {
      ScheduleStep(block, i);
      words[i] := ScheduleWord(words[i - 16], words[i - 15], words[i - 7], words[i - 2]);
    }
  }

  lemma RoundsStep(v: Chain, block: Bytes, t: nat)
    requires |block| == BLOCK && t < 64
    ensures Rounds(v, block, t + 1) == Round(Rounds(v, block, t), RoundConstant(t), Schedule(block, t))
  {
    hide RoundConstant;
  }

  /** The 64 rounds over the eight working variables. */
  method RunRounds(start: Chain, block: Bytes, words: array<Word>) returns (v: Chain)
    requires |block| == BLOCK && words.Length == 64
    requires forall t :: 0 <= t < 64 ==> words[t] == Schedule(block, t)
    ensures v == Rounds(start, block, 64)
  {
    hide Schedule, Temporary1, Temporary2, Sum, Rounds, RoundConstant;
    var a, b, c, d := start.a, start.b, start.c, start.d;
    var e, f, g, h := start.e, start.f, start.g, start.h;
    NoRounds(start, block);
    for i := 0 to 64
      invariant Chain(a, b, c, d, e, f, g, h) == Rounds(start, block, i)
    {
      RoundsStep(start, block, i);
      var temp1 := Temporary1(e, f, g, h, RoundConstant(i), words[i]);
      var temp2 := Temporary2(a, b, c);
      h := g;
      g := f;
      f := e;
      e := Sum(d, temp1);
      d := c;
      c := b;
      b := a;
      a := Sum(temp1, temp2);
    }
    return Chain(a, b, c, d, e, f, g, h);
  }

  lemma NoRounds(v: Chain, block: Bytes)
    requires |block| == BLOCK
    ensures Rounds(v, block, 0) == v
  {
  }

  /** The 64-bit length, most significant byte first. */
  method LengthBytes(bitLength: nat) returns (bytes: Bytes)
    ensures bytes == BigEndian(bitLength, 8)
  {
    bytes := [];
    for i := 0 to 8
      invariant bytes == BigEndian(bitLength, 8)[..i]
    {
      BigEndianDigit(bitLength, 8, i);
      bytes := bytes + [ShiftBytes(bitLength, 7 - i) % 256];
    }
  }

  lemma LengthWraps(n: nat)
    ensures n % WORDS * 8 % WORDS == n * 8 % WORDS
  {
  }

  lemma PaddedIsWhole(message: Bytes)
    ensures WholeBlocks(Pad(message)) == Pad(message)
  {
    hide Pad;
    var p := Pad(message);
    assert p[..|p|] == p;
  }

  /** How a length and its remainder change when `more` fits the current block. */
  lemma WholeLength(n: nat, more: nat)
    requires n % BLOCK + more <= BLOCK
    ensures 0 <= n - n % BLOCK && (n - n % BLOCK) % BLOCK == 0
    ensures (n + more) % BLOCK == if n % BLOCK + more < BLOCK then n % BLOCK + more else 0
  {
  }

  function WholeBlocks(message: Bytes): (w: Bytes)
    ensures |w| % BLOCK == 0
  {
    WholeLength(|message|, 0);
    message[..|message| - |message| % BLOCK]
  }

  function Tail(message: Bytes): (t: Bytes)
    ensures |t| == |message| % BLOCK
  {
    message[|message| - |message| % BLOCK..]
  }

  /** Adding a piece that fits the block either lengthens the tail or completes a block. */
  lemma TailGrows(message: Bytes, piece: Bytes)
    requires |message| % BLOCK + |piece| <= BLOCK && piece != []
    ensures if |message| % BLOCK + |piece| < BLOCK then
              |message + piece| % BLOCK == |message| % BLOCK + |piece|
              && WholeBlocks(message + piece) == WholeBlocks(message)
              && Tail(message + piece) == Tail(message) + piece
            else
              |message + piece| % BLOCK == 0 && Tail(message + piece) == []
              && HashBlocks(WholeBlocks(message + piece))
                 == Compress(HashBlocks(WholeBlocks(message)), Tail(message) + piece)
  {
    hide Compress;
    var all := message + piece;
    var partial := |message| % BLOCK;
    WholeLength(|message|, |piece|);
    assert message[..|message| - partial] == all[..|message| - partial];
    assert all[|message| - partial..] == message[|message| - partial..] + piece;
    if partial + |piece| == BLOCK {
      assert |all| - BLOCK == |message| - partial;
      assert all[..|all|] == all;
    }
  }

  lemma OneMoreZero(n: nat)
    ensures Zeros(n) + [0] == Zeros(n + 1)
  {
  }

  lemma PaddingRemains(length: nat, zeros: nat)
    requires zeros <= ZeroCount(length) && (length + 1 + zeros) % BLOCK != 56
    ensures zeros < ZeroCount(length)
  {
  }

  lemma PaddingEnds(length: nat, zeros: nat)
    requires zeros <= ZeroCount(length) && (length + 1 + zeros) % BLOCK == 56
    ensures zeros == ZeroCount(length)
  {
  }

  lemma {:induction false} BigEndianDigit(n: nat, width: nat, i: nat)
    requires i < width
    ensures BigEndian(n, width)[i] == ShiftBytes(n, width - 1 - i) % 256
    ensures BigEndian(n, width)[..i + 1] == BigEndian(n, width)[..i] + [BigEndian(n, width)[i]]
    decreases width
  {
    if i < width - 1 {
      BigEndianDigit(n / 256, width - 1, i);
    }
  }

  function StateBytes(words: seq<Word>, count: nat): Bytes
    requires count <= |words|
  {
    if count == 0 then [] else StateBytes(words, count - 1) + WordBytes(words[count - 1])
  }

  lemma DigestIsChainBytes(words: seq<Word>)
    requires |words| == 8
    ensures StateBytes(words, 8) == ChainBytes(ChainOf(words))
  {
    hide WordBytes;
    assert StateBytes(words, 1) == [] + WordBytes(words[0]) == WordBytes(words[0]);
    assert StateBytes(words, 3) == StateBytes(words, 1) + WordBytes(words[1]) + WordBytes(words[2]);
    assert StateBytes(words, 5) == StateBytes(words, 3) + WordBytes(words[3]) + WordBytes(words[4]);
    assert StateBytes(words, 7) == StateBytes(words, 5) + WordBytes(words[5]) + WordBytes(words[6]);
    assert StateBytes(words, 8) == StateBytes(words, 7) + WordBytes(words[7]);
  }

  function Concatenated(pieces: seq<Bytes>): Bytes {
    if pieces == [] then [] else Concatenated(pieces[..|pieces| - 1]) + pieces[|pieces| - 1]
  }

  /** Streaming equals one-shot: however the message is cut up, the digest is the same. */
  method HashPieces(pieces: seq<Bytes>) returns (digest: Bytes)
    ensures digest == Digest(Concatenated(pieces))
  {
    var hasher := new Sha256Hasher();
    for i := 0 to |pieces|
      invariant hasher.Valid() && hasher.message == Concatenated(pieces[..i])
      invariant fresh(hasher) && fresh(hasher.state) && fresh(hasher.buffer)
    {
      assert pieces[..i + 1][..i] == pieces[..i];
      hasher.Update(pieces[i]);
    }
    assert pieces[..|pieces|] == pieces;
    digest := hasher.Finalize();
  }
}
