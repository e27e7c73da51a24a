/** Incremental SHA-256 (crates/vyrm-core/src/digest.rs) against FIPS 180-4. */
module Digest {
  import opened Common

  type Word = bv32

  const BLOCK_BYTES: nat := 64

  // FIPS 180-4, section 5.3.3
  const INITIAL: seq<Word> := [
    0x6a09e667, 0xbb67ae85, 0x3c6ef372, 0xa54ff53a, 0x510e527f, 0x9b05688c, 0x1f83d9ab, 0x5be0cd19]

  // FIPS 180-4, section 4.2.2
  const K: seq<seq<Word>> := [
    [0x428a2f98, 0x71374491, 0xb5c0fbcf, 0xe9b5dba5, 0x3956c25b, 0x59f111f1, 0x923f82a4, 0xab1c5ed5],
    [0xd807aa98, 0x12835b01, 0x243185be, 0x550c7dc3, 0x72be5d74, 0x80deb1fe, 0x9bdc06a7, 0xc19bf174],
    [0xe49b69c1, 0xefbe4786, 0x0fc19dc6, 0x240ca1cc, 0x2de92c6f, 0x4a7484aa, 0x5cb0a9dc, 0x76f988da],
    [0x983e5152, 0xa831c66d, 0xb00327c8, 0xbf597fc7, 0xc6e00bf3, 0xd5a79147, 0x06ca6351, 0x14292967],
    [0x27b70a85, 0x2e1b2138, 0x4d2c6dfc, 0x53380d13, 0x650a7354, 0x766a0abb, 0x81c2c92e, 0x92722c85],
    [0xa2bfe8a1, 0xa81a664b, 0xc24b8b70, 0xc76c51a3, 0xd192e819, 0xd6990624, 0xf40e3585, 0x106aa070],
    [0x19a4c116, 0x1e376c08, 0x2748774c, 0x34b0bcb5, 0x391c0cb3, 0x4ed8aa4a, 0x5b9cca4f, 0x682e6ff3],
    [0x748f82ee, 0x78a5636f, 0x84c87814, 0x8cc70208, 0x90befffa, 0xa4506ceb, 0xbef9a3f7, 0xc67178f2]]

  // ---- The hash computation of FIPS 180-4, section 6.2.2 ----

  /** Addition modulo 2^32. */
  function Add(x: Word, y: Word): Word { x + y }

  function Sum4(w: Word, x: Word, y: Word, z: Word): Word { w + x + y + z }

  function RoundConstant(t: nat): Word
    requires t < 64
  {
    K[t / 8][t % 8]
  }

  function Ch(x: Word, y: Word, z: Word): Word { (x & y) ^ (!x & z) }

  function Maj(x: Word, y: Word, z: Word): Word { (x & y) ^ (x & z) ^ (y & z) }

  function Rotr(x: Word, n: nat): Word
    requires n <= 32
  {
    x.RotateRight(n)
  }

  function Xor3(x: Word, y: Word, z: Word): Word { x ^ y ^ z }

  function BigSigma0(x: Word): Word { Xor3(Rotr(x, 2), Rotr(x, 13), Rotr(x, 22)) }

  function BigSigma1(x: Word): Word { Xor3(Rotr(x, 6), Rotr(x, 11), Rotr(x, 25)) }

  function SmallSigma0(x: Word): Word { Xor3(Rotr(x, 7), Rotr(x, 18), x >> 3) }

  function SmallSigma1(x: Word): Word { Xor3(Rotr(x, 17), Rotr(x, 19), x >> 10) }

  type Block = b: Bytes | |b| == BLOCK_BYTES witness seq(BLOCK_BYTES, _ => 0)

  /** The first sixteen words of the message schedule: the block itself. */
  function BlockWord(block: Block, t: nat): Word
    requires t < 16
  {
    Pow256Of4();
    FromBigEndian(block[4 * t..4 * t + 4]) as Word
  }

  /** The message schedule. */
  function ScheduleWord(block: Block, t: nat): Word
    decreases t
  {
    if t < 16 then BlockWord(block, t)
    else Sum4(SmallSigma1(ScheduleWord(block, t - 2)), ScheduleWord(block, t - 7),
              SmallSigma0(ScheduleWord(block, t - 15)), ScheduleWord(block, t - 16))
  }

  /** The eight working variables. */
  datatype Working = Working(a: Word, b: Word, c: Word, d: Word, e: Word, f: Word, g: Word, h: Word)

  function Round(v: Working, k: Word, w: Word): Working {
    var t1 := Add(Add(Add(Add(v.h, BigSigma1(v.e)), Ch(v.e, v.f, v.g)), k), w);
    var t2 := Add(BigSigma0(v.a), Maj(v.a, v.b, v.c));
    Working(Add(t1, t2), v.a, v.b, v.c, Add(v.d, t1), v.e, v.f, v.g)
  }

  function Rounds(v: Working, block: Block, n: nat): Working
    requires n <= 64
  {
    if n == 0 then v else Round(Rounds(v, block, n - 1), RoundConstant(n - 1), ScheduleWord(block, n - 1))
  }

  type State = s: seq<Word> | |s| == 8 witness [0, 0, 0, 0, 0, 0, 0, 0]

  function Load(s: State): Working {
    Working(s[0], s[1], s[2], s[3], s[4], s[5], s[6], s[7])
  }

  function Values(v: Working): State {
    [v.a, v.b, v.c, v.d, v.e, v.f, v.g, v.h]
  }

  function AddWorking(s: State, v: Working): State {
    seq(8, i requires 0 <= i < 8 => Add(s[i], Values(v)[i]))
  }

  function Compress(s: State, block: Block): State {
    AddWorking(s, Rounds(Load(s), block, 64))
  }

  // ---- Folding over whole blocks ----

  function Process(s: State, m: Bytes): State
    requires |m| % BLOCK_BYTES == 0
  {
    if m == [] then s else Compress(Process(s, m[..|m| - BLOCK_BYTES]), m[|m| - BLOCK_BYTES..])
  }

  lemma ProcessBlock(s: State, m: Bytes, block: Block)
    requires |m| % BLOCK_BYTES == 0
    ensures Process(s, m + block) == Compress(Process(s, m), block)
  {
    hide Compress;
    assert (m + block)[..|m + block| - BLOCK_BYTES] == m && (m + block)[|m + block| - BLOCK_BYTES..] == block;
  }

  // ---- Padding, FIPS 180-4, section 5.1.1 ----

  /** The number of zero bytes: the least that brings the length to 56 modulo 64. */
  function ZeroBytes(length: nat): nat {
    (119 - length % 64) % 64
  }

  function Zeros(n: nat): (z: Bytes)
    ensures |z| == n
  {
    seq(n, _ => 0)
  }

  function LengthField(length: nat): (f: Bytes)
    ensures |f| == 8
  {
    BigEndian(length * 8 % 0x1_0000_0000_0000_0000, 8)
  }

  function Padded(m: Bytes): Bytes {
    m + [0x80] + Zeros(ZeroBytes(|m|)) + LengthField(|m|)
  }

  lemma ZeroBytesLeast(length: nat, k: nat)
    ensures (length + 1 + ZeroBytes(length)) % 64 == 56
    ensures (length + 1 + k) % 64 == 56 ==> ZeroBytes(length) <= k
  {
    var r := length % 64;
    assert length == 64 * (length / 64) + r;
  }

  /** Padding fills whole blocks with the fewest zeros possible and records the length in bits. */
  lemma PaddingIsFips(m: Bytes, k: nat)
    ensures |Padded(m)| % BLOCK_BYTES == 0
    ensures (|m| + 1 + ZeroBytes(|m|)) % 64 == 56 && ((|m| + 1 + k) % 64 == 56 ==> ZeroBytes(|m|) <= k)
    ensures |m| * 8 < 0x1_0000_0000_0000_0000 ==> FromBigEndian(LengthField(|m|)) == |m| * 8
  {
    hide ZeroBytes;
    hide LengthField;
    hide FromBigEndian;
    ZeroBytesLeast(|m|, k);
    assert |Padded(m)| == |m| + 1 + ZeroBytes(|m|) + 8;
    LengthFieldIs(|m|);
  }

  lemma LengthFieldIs(length: nat)
    ensures length * 8 < 0x1_0000_0000_0000_0000 ==> FromBigEndian(LengthField(length)) == length * 8
  {
    hide BigEndian;
    hide FromBigEndian;
    Pow256Of8();
    hide Pow256;
    BigEndianRoundTrip(length * 8 % 0x1_0000_0000_0000_0000, 8);
  }

  function Output(s: State): Bytes {
    Concat(seq(8, i requires 0 <= i < 8 => BigEndian(s[i] as int, 4)))
  }

  /** The digest of a message. */
  function Sha256Of(m: Bytes): Bytes {
    PaddingIsFips(m, 0);
    Output(Process(INITIAL, Padded(m)))
  }

  // ---- Compression in place ----

  /** The source adds the schedule's terms in another order than the standard lists them. */
  lemma ScheduleSum(a: Word, b: Word, c: Word, d: Word)
    ensures Sum4(a, b, c, d) == Sum4(d, c, b, a)
  {
  }

  /** The schedule, extended word by word. */
  method FillSchedule(block: Block) returns (words: array<Word>)
    ensures fresh(words) && words.Length == 64
    ensures forall t :: 0 <= t < 64 ==> words[t] == ScheduleWord(block, t)
  {
    hide BlockWord;
    hide SmallSigma0;
    hide SmallSigma1;
    hide Sum4;
    words := new Word[64](_ => 0);
    for t := 0 to 16
      invariant forall i :: 0 <= i < t ==> words[i] == ScheduleWord(block, i)
    {
      words[t] := BlockWord(block, t);
    }
    for t := 16 to 64
      invariant forall i :: 0 <= i < t ==> words[i] == ScheduleWord(block, i)
    {
      var s0 := SmallSigma0(words[t - 15]);
      var s1 := SmallSigma1(words[t - 2]);
      ScheduleSum(words[t - 16], s0, words[t - 7], s1);
      words[t] := Sum4(words[t - 16], s0, words[t - 7], s1);
    }
  }

  lemma RoundsNext(v: Working, block: Block, n: nat)
    requires n < 64
    ensures Rounds(v, block, n + 1) == Round(Rounds(v, block, n), RoundConstant(n), ScheduleWord(block, n))
  {
  }

  method CompressInPlace(state: array<Word>, block: Block)
    requires state.Length == 8
    modifies state
    ensures state[..] == Compress(old(state[..]), block)
  {
    hide ScheduleWord;
    hide Round;
    hide RoundConstant;
    hide Add;
    ghost var before := state[..];
    var words := FillSchedule(block);
    var v := Working(state[0], state[1], state[2], state[3], state[4], state[5], state[6], state[7]);
    for i := 0 to 64
      invariant state[..] == before && forall t :: 0 <= t < 64 ==> words[t] == ScheduleWord(block, t)
      invariant v == Rounds(Load(before), block, i)
    {
      RoundsNext(Load(before), block, i);
      v := RoundStep(v, RoundConstant(i), words[i]);
    }
    AddInto(state, v);
  }

  method AddInto(state: array<Word>, v: Working)
    requires state.Length == 8
    modifies state
    ensures state[..] == AddWorking(old(state[..]), v)
  {
    hide Add;
    var values := Values(v);
    for i := 0 to 8
      invariant forall j :: 0 <= j < i ==> state[j] == Add(old(state[j]), values[j])
      invariant forall j :: i <= j < 8 ==> state[j] == old(state[j])
    {
      state[i] := Add(state[i], values[i]);
    }
  }

  /** One round, the working variables rotated in place. */
  method RoundStep(v: Working, k: Word, w: Word) returns (r: Working)
    ensures r == Round(v, k, w)
  {
    hide BigSigma0;
    hide BigSigma1;
    hide Ch;
    hide Maj;
    hide Add;
    var a, b, c, d, e, f, g, h := v.a, v.b, v.c, v.d, v.e, v.f, v.g, v.h;
    var sum1 := BigSigma1(e);
    var choose := Ch(e, f, g);
    var t1 := Add(Add(Add(Add(h, sum1), choose), k), w);
    var sum0 := BigSigma0(a);
    var majority := Maj(a, b, c);
    var t2 := Add(sum0, majority);
    h := g;
    g := f;
    f := e;
    e := Add(d, t1);
    d := c;
    c := b;
    b := a;
    a := Add(t1, t2);
    r := Working(a, b, c, d, e, f, g, h);
  }

  // ---- The incremental hasher ----

  /** Where the last incomplete block of a message begins. */
  function WholeBytes(length: nat): (w: nat)
    ensures w <= length && w % BLOCK_BYTES == 0 && length - w < BLOCK_BYTES
  {
    length - length % BLOCK_BYTES
  }

  ghost predicate Absorbed(state: seq<Word>, tail: Bytes, m: Bytes) {
    var whole := WholeBytes(|m|);
    && |state| == 8 && state == Process(INITIAL, m[..whole]) && tail == m[whole..]
  }

  /** Completing the pending block. */
  lemma AbsorbBlock(state: seq<Word>, m: Bytes, tail: Bytes, more: Bytes)
    requires Absorbed(state, tail, m) && |tail| + |more| == BLOCK_BYTES
    ensures Absorbed(Compress(state, tail + more), [], m + more)
  {
    hide Compress;
    hide Process;
    var whole := WholeBytes(|m|);
    assert WholeBytes(|m + more|) == |m + more|;
    assert (m + more)[..|m + more|] == m[..whole] + (tail + more);
    ProcessBlock(INITIAL, m[..whole], tail + more);
  }

  lemma AbsorbTail(state: seq<Word>, m: Bytes, tail: Bytes, more: Bytes)
    requires Absorbed(state, tail, m) && |tail| + |more| < BLOCK_BYTES
    ensures Absorbed(state, tail + more, m + more)
  {
    hide Process;
    var whole := WholeBytes(|m|);
    assert WholeBytes(|m + more|) == whole;
    assert (m + more)[..whole] == m[..whole] && (m + more)[whole..] == tail + more;
  }

  class Sha256 {
    var state: array<Word>
    var buffer: array<Byte>
    var buffered: nat
    var length: nat
    ghost var message: Bytes

    ghost predicate Valid()
      reads this, state, buffer
    {
      && state.Length == 8 && buffer.Length == BLOCK_BYTES && buffered < BLOCK_BYTES
      && length == |message| && Absorbed(state[..], buffer[..buffered], message)
    }

    constructor ()
      ensures Valid() && message == [] && fresh(state) && fresh(buffer)
    {
      state := new Word[8](i requires 0 <= i < 8 => INITIAL[i]);
      buffer := new Byte[BLOCK_BYTES](_ => 0);
      buffered, length, message := 0, 0, [];
      new;
      assert state[..] == INITIAL;
    }

    /** Copies bytes into the buffer. */
    method Store(at: nat, bytes: Bytes)
      requires buffer.Length == BLOCK_BYTES && at + |bytes| <= BLOCK_BYTES
      modifies buffer
      ensures buffer[..] == old(buffer[..at]) + bytes + old(buffer[at + |bytes|..])
    {
      for i := 0 to |bytes|
        invariant buffer[..] == old(buffer[..at]) + bytes[..i] + old(buffer[at + i..])
      {
        buffer[at + i] := bytes[i];
      }
      assert bytes[..|bytes|] == bytes;
    }

    /** Absorbs one more piece of the message, however the message is cut. */
    method Update(input: Bytes)
      requires Valid() && length + |input| < 0x1_0000_0000_0000_0000
      modifies this, state, buffer
      ensures Valid() && message == old(message) + input && state == old(state) && buffer == old(buffer)
    {
      hide Compress;
      hide Absorbed;
      length := length + |input|;
      var rest := input;
      ghost var done := message;
      message := message + input;
      if buffered != 0 {
        var take := if BLOCK_BYTES - buffered < |input| then BLOCK_BYTES - buffered else |input|;
        ghost var tail := buffer[..buffered];
        Store(buffered, input[..take]);
        buffered := buffered + take;
        rest := input[take..];
        assert buffer[..buffered] == tail + input[..take];
        if buffered == BLOCK_BYTES {
          assert buffer[..] == tail + input[..take];
          AbsorbBlock(state[..], done, tail, input[..take]);
          CompressInPlace(state, buffer[..]);
          buffered := 0;
          assert buffer[..0] == [];
          done := done + input[..take];
        } else {
          AbsorbTail(state[..], done, tail, input[..take]);
          assert input[..take] == input;
          return;
        }
      }
      assert done + rest == message;
      assert buffer[..0] == [];
      while |rest| >= BLOCK_BYTES
        invariant state == old(state) && buffer == old(buffer) && state.Length == 8 && buffer.Length == BLOCK_BYTES
        invariant done + rest == message == old(message) + input && length == |message|
        invariant Absorbed(state[..], [], done)
        decreases |rest|
      {
        var block := rest[..BLOCK_BYTES];
        assert [] + block == block;
        AbsorbBlock(state[..], done, [], block);
        CompressInPlace(state, block);
        done := done + block;
        rest := rest[BLOCK_BYTES..];
      }
      AbsorbTail(state[..], done, [], rest);
      Store(0, rest);
      buffered := |rest|;
      assert buffer[..buffered] == rest == [] + rest;
    }

    /** No room for the length: the padding closes the pending block and fills one more. */
    method CloseTwo(ghost m: Bytes, ghost tail: Bytes)
      requires state.Length == 8 && buffer.Length == BLOCK_BYTES && 56 < buffered <= BLOCK_BYTES && length == |m|
      requires tail == m[WholeBytes(|m|)..] && buffer[..buffered] == tail + [0x80]
      requires state[..] == Process(INITIAL, m[..WholeBytes(|m|)])
      modifies state, buffer
      ensures |Padded(m)| % BLOCK_BYTES == 0 && state[..] == Process(INITIAL, Padded(m))
    {
      hide Compress;
      hide Process;
      hide LengthField;
      hide Padded;
      hide WholeBytes;
      TwoBlocks(m, tail);
      var bits := LengthField(length);
      Store(buffered, Zeros(BLOCK_BYTES - buffered));
      assert buffer[..] == tail + [0x80] + Zeros(BLOCK_BYTES - buffered);
      CompressInPlace(state, buffer[..]);
      Store(0, Zeros(BLOCK_BYTES));
      Store(56, bits);
      assert buffer[..] == Zeros(56) + bits;
      CompressInPlace(state, buffer[..]);
    }

    /** Room for the length: the padding closes the pending block. */
    method CloseOne(ghost m: Bytes, ghost tail: Bytes)
      requires state.Length == 8 && buffer.Length == BLOCK_BYTES && buffered <= 56 && length == |m|
      requires tail == m[WholeBytes(|m|)..] && buffer[..buffered] == tail + [0x80]
      requires state[..] == Process(INITIAL, m[..WholeBytes(|m|)])
      modifies state, buffer
      ensures |Padded(m)| % BLOCK_BYTES == 0 && state[..] == Process(INITIAL, Padded(m))
    {
      hide Compress;
      hide Process;
      hide LengthField;
      hide Padded;
      hide WholeBytes;
      OneBlock(m, tail);
      Store(buffered, Zeros(56 - buffered));
      Store(56, LengthField(length));
      assert buffer[..] == tail + [0x80] + Zeros(56 - buffered) + LengthField(length);
      CompressInPlace(state, buffer[..]);
    }

    /** Pads and squeezes: one or two more blocks, depending on the room left for the length. */
    method Finalize() returns (output: Bytes)
      requires Valid()
      modifies this, state, buffer
      ensures output == Sha256Of(old(message))
    {
      hide Compress;
      hide Process;
      hide LengthField;
      hide Padded;
      hide Output;
      ghost var tail := buffer[..buffered];
      Store(buffered, [0x80]);
      buffered := buffered + 1;
      assert buffer[..buffered] == tail + [0x80];
      if buffered > 56 {
        CloseTwo(message, tail);
      } else {
        CloseOne(message, tail);
      }
      output := Squeeze(state);
    }
  }

  /** Room for the length: the padding closes the pending block. */
  lemma PaddedOne(m: Bytes, tail: Bytes)
    requires tail == m[WholeBytes(|m|)..] && |tail| + 1 <= 56
    ensures Padded(m) == m[..WholeBytes(|m|)] + (tail + [0x80] + Zeros(56 - (|tail| + 1)) + LengthField(|m|))
  {
    hide LengthField;
    assert ZeroBytes(|m|) == 56 - (|tail| + 1);
    assert m == m[..WholeBytes(|m|)] + tail;
  }

  /** No room left: the padding takes one more block. */
  lemma PaddedTwo(m: Bytes, tail: Bytes)
    requires tail == m[WholeBytes(|m|)..] && |tail| + 1 > 56
    ensures Padded(m) ==
            m[..WholeBytes(|m|)] + (tail + [0x80] + Zeros(BLOCK_BYTES - (|tail| + 1))) + (Zeros(56) + LengthField(|m|))
  {
    hide LengthField;
    assert ZeroBytes(|m|) == BLOCK_BYTES - (|tail| + 1) + 56;
    assert Zeros(ZeroBytes(|m|)) == Zeros(BLOCK_BYTES - (|tail| + 1)) + Zeros(56);
    assert m == m[..WholeBytes(|m|)] + tail;
  }

  /** Padding within the pending block folds to one more compression. */
  lemma OneBlock(m: Bytes, tail: Bytes)
    requires tail == m[WholeBytes(|m|)..] && |tail| + 1 <= 56
    ensures |Padded(m)| % BLOCK_BYTES == 0
    ensures Process(INITIAL, Padded(m)) ==
            Compress(Process(INITIAL, m[..WholeBytes(|m|)]),
                     tail + [0x80] + Zeros(56 - (|tail| + 1)) + LengthField(|m|))
  {
    hide Process;
    hide Compress;
    hide LengthField;
    PaddingIsFips(m, 0);
    PaddedOne(m, tail);
    hide Padded;
    ProcessBlock(INITIAL, m[..WholeBytes(|m|)], tail + [0x80] + Zeros(56 - (|tail| + 1)) + LengthField(|m|));
  }

  /** Padding beyond the pending block folds to two more compressions. */
  lemma TwoBlocks(m: Bytes, tail: Bytes)
    requires tail == m[WholeBytes(|m|)..] && |tail| + 1 > 56
    ensures |Padded(m)| % BLOCK_BYTES == 0
    ensures Process(INITIAL, Padded(m)) ==
            Compress(Compress(Process(INITIAL, m[..WholeBytes(|m|)]),
                              tail + [0x80] + Zeros(BLOCK_BYTES - (|tail| + 1))),
                     Zeros(56) + LengthField(|m|))
  {
    hide Process;
    hide Compress;
    hide LengthField;
    var head, first, second := m[..WholeBytes(|m|)], tail + [0x80] + Zeros(BLOCK_BYTES - (|tail| + 1)),
        Zeros(56) + LengthField(|m|);
    PaddingIsFips(m, 0);
    PaddedTwo(m, tail);
    hide Padded;
    ProcessBlock(INITIAL, head, first);
    ProcessBlock(INITIAL, head + first, second);
  }

  method Squeeze(state: array<Word>) returns (output: Bytes)
    requires state.Length == 8
    ensures output == Output(state[..])
  {
    output := [];
    var words: State := state[..];
    ghost var parts := seq(8, i requires 0 <= i < 8 => BigEndian(words[i] as int, 4));
    for i := 0 to 8
      invariant output == Concat(parts[..i])
    {
      hide BigEndian;
      assert parts[..i + 1][..i] == parts[..i];
      output := output + BigEndian(words[i] as int, 4);
    }
    assert parts[..8] == parts;
  }

  /** However the input is cut into chunks, the digest is that of the whole message. */
  method HashChunks(chunks: seq<Bytes>) returns (output: Bytes)
    requires |Concat(chunks)| < 0x1_0000_0000_0000_0000
    ensures output == Sha256Of(Concat(chunks))
  {
    hide Sha256Of;
    hide Concat;
    var hasher := new Sha256();
    NoChunks(chunks);
    for i := 0 to |chunks|
      invariant hasher.Valid() && fresh(hasher) && fresh(hasher.state) && fresh(hasher.buffer)
      invariant hasher.message == Concat(chunks[..i])
    {
      ConcatNext(chunks, i);
      hasher.Update(chunks[i]);
    }
    assert chunks[..|chunks|] == chunks;
    output := hasher.Finalize();
  }

  lemma NoChunks(chunks: seq<Bytes>)
    ensures Concat(chunks[..0]) == []
  {
  }
}
