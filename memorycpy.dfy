/**
 * The memory-fill benchmark: block 0 is zeroed, then every later block i is
 * written in 8-word lines, each word the running hash of a word read from an
 * earlier block chosen by the hash, mixed with an 8-word key and the word read
 * before it. The memory and block sizes are parameters; the benchmark's own
 * values are the constants below.
 */
module MemoryCopy {
  import opened Words
  import opened Engine

  /** MEM_SIZE: 2 GiB. */
  const MemSize: nat := 0x8000_0000
  /** MEM_LENGTH: the memory in 64-bit words. */
  const MemLength: nat := MemSize / 8
  /** BLOCK_SIZE: 16 KiB. */
  const BlockSize: nat := 0x4000
  /** BLOCK_LENGTH: a block in 64-bit words. */
  const BlockLength: nat := BlockSize / 8
  /** KEY_SIZE: the key is 64 bytes. */
  const KeySize: nat := 64
  /** KEY_LENGTH: the key in 64-bit words, one per word of a line. */
  const KeyLength: nat := KeySize / 8
  /** The starting value of the running hash. */
  const HashSeed: Word := 0x12345

  /** Block lengths the mask arithmetic supports: powers of two of at least one line. */
  predicate BlockLengthOk(blockLength: nat)
  {
    8 <= blockLength < TWO64 && IsPow2(blockLength)
  }

  /** BLOCK_MASK: `(BLOCK_LENGTH - 1) & ~7` in 64-bit arithmetic, the start of the last line. */
  function BlockMask(blockLength: nat): (mask: Word)
    requires BlockLengthOk(blockLength)
    ensures mask == blockLength - 8
  {
    BlockMaskIs(blockLength);
    BitAnd(blockLength - 1, TWO64 - 8)
  }

  lemma BlockMaskIs(blockLength: nat)
    requires BlockLengthOk(blockLength)
    ensures BitAnd(blockLength - 1, TWO64 - 8) == blockLength - 8
  {
    var lg := Log2(blockLength);
    BlockLengthLog(blockLength);
    Pow2Word();
    PageMaskValue(lg, 64);
  }

  /** The exponent of a supported block length lies between 3 and 64. */
  lemma BlockLengthLog(blockLength: nat)
    requires BlockLengthOk(blockLength)
    ensures 3 <= Log2(blockLength) <= 64
  {
    var lg := Log2(blockLength);
    PageLengthLogAtLeast3(blockLength);
    if lg > 64 {
      Pow2Word();
      Pow2Monotone(64, lg);
    }
  }

  /** The benchmark's own sizes: 2048-word blocks, mask 2040, and 131072 blocks. */
  lemma BenchmarkSizes()
    ensures BlockLength == 2048 && BlockLengthOk(BlockLength)
    ensures BlockMask(BlockLength) == 2040
    ensures MemLength == 131072 * BlockLength && KeyLength == 8
  {
    assert Pow2(11) == 2048 by {
      Pow2Of32();
      Pow2Word();
    }
  }

  /**
   * `hash & BLOCK_MASK`: where in its source block a line reads. It starts on
   * a multiple of 8 and all 8 words it reads lie inside the block.
   */
  function LineOffset(hash: Word, blockLength: nat): (off: nat)
    requires BlockLengthOk(blockLength)
    ensures off % 8 == 0 && off + KeyLength <= blockLength
  {
    PowerOfTwoMultipleOf8(blockLength);
    MaskedAddressInPage(hash, blockLength);
    BitAnd(hash, BlockMask(blockLength))
  }

  /** `hash % i`: the block block i reads from, always an earlier one. */
  function SourceBlock(hash: Word, i: nat): (src: nat)
    requires 1 <= i
    ensures src < i
  {
    hash % i
  }

  /** The benchmark's variables: the memory, the key, `hash` and `lastPageData`. */
  datatype MixOf<S> = Mix(mem: S, key: S, hash: Word, last: Word)
  type MixState = MixOf<seq<Word>>

  /** The state before block 1: block 0 zeroed, key zero, hash at its seed. */
  function InitialState(mem: seq<Word>, blockLength: nat): (s: MixState)
    requires blockLength <= |mem|
    ensures |s.mem| == |mem| && |s.key| == KeyLength
    ensures forall x :: 0 <= x < blockLength ==> s.mem[x] == 0
    ensures s.mem[blockLength..] == mem[blockLength..]
  {
    Mix(Zeros(blockLength) + mem[blockLength..], Zeros(KeyLength), HashSeed, 0)
  }

  /**
   * What the lines of one block have produced so far: the words written to the
   * destination block, in order, and the key, `hash` and `lastPageData`.
   */
  datatype FillOf<S> = Fill(written: S, key: S, hash: Word, last: Word)
  type FillState = FillOf<seq<Word>>

  /** The running hash after mixing in one word read from the source block. */
  function NextHash(hash: Word, pageData: Word, keyData: Word, last: Word): (h: Word)
  {
    Add(hash, Xor(Mul(pageData, keyData), last))
  }

  /** Step k of a line reading at `off` in the source block `src`. */
  function Step(f: FillState, src: seq<Word>, off: nat, k: nat): (r: FillState)
    requires k < |f.key| && off + k < |src|
    ensures |r.written| == |f.written| + 1 && |r.key| == |f.key|
  {
    var pageData := src[off + k];
    var hash := NextHash(f.hash, pageData, f.key[k], f.last);
    Fill(f.written + [hash], f.key[k := hash], hash, pageData)
  }

  /**
   * One step in the benchmark's terms: `hash` gains `(pageData * key[k]) ^ lastPageData`
   * modulo 2^64, key[k] and the destination word both become the new hash, and
   * `lastPageData` becomes the word read. The rest of the key is untouched.
   */
  lemma {:induction false} StepEffect(f: FillState, src: seq<Word>, off: nat, k: nat)
    requires k < |f.key| && off + k < |src|
    ensures Step(f, src, off, k).hash == (f.hash + BitXor((src[off + k] * f.key[k]) % TWO64, f.last) % TWO64) % TWO64
    ensures Step(f, src, off, k).written == f.written + [Step(f, src, off, k).hash]
    ensures Step(f, src, off, k).key == f.key[k := Step(f, src, off, k).hash]
    ensures Step(f, src, off, k).last == src[off + k]
  {
  }

  /** The first n steps of a line reading at `off`. */
  function Group(f: FillState, src: seq<Word>, off: nat, n: nat): (r: FillState)
    requires n <= KeyLength == |f.key| && off + KeyLength <= |src|
    ensures |r.written| == |f.written| + n && |r.key| == KeyLength
    decreases n, 1
  {
    if n == 0 then f else LastStep(f, src, off, n)
  }

  /** Step n - 1 after the first n - 1 steps. */
  function LastStep(f: FillState, src: seq<Word>, off: nat, n: nat): (r: FillState)
    requires 1 <= n <= KeyLength == |f.key| && off + KeyLength <= |src|
    ensures |r.written| == |f.written| + n && |r.key| == KeyLength
    decreases n, 0
  {
    Step(Group(f, src, off, n - 1), src, off, n - 1)
  }

  /** Group n + 1 is step n after group n. */
  lemma GroupNext(f: FillState, src: seq<Word>, off: nat, n: nat)
    requires n + 1 <= KeyLength == |f.key| && off + KeyLength <= |src|
    ensures Group(f, src, off, n + 1) == Step(Group(f, src, off, n), src, off, n)
  {
  }

  /** Appending h and storing it at key[k] extends an agreement of the last k words with the key's first k. */
  lemma {:induction false} StoreBoth(written: seq<Word>, key: seq<Word>, at: nat, k: nat, h: Word)
    requires |written| == at + k && k < |key| && written[at..] == key[..k]
    ensures (written + [h])[at..] == key[k := h][..k + 1]
  {
    var w1 := (written + [h])[at..];
    var c1 := key[k := h][..k + 1];
    assert forall x :: 0 <= x < k ==> w1[x] == written[at..][x];
    assert forall x :: 0 <= x < k ==> c1[x] == key[..k][x];
  }

  /** The words a line has written so far are the key's first n words. */
  lemma {:induction false} GroupStoresKey(f: FillState, src: seq<Word>, off: nat, n: nat)
    requires n <= KeyLength == |f.key| && off + KeyLength <= |src|
    ensures Group(f, src, off, n).written[|f.written|..] == Group(f, src, off, n).key[..n]
  {
    if n > 0 {
      var t := Group(f, src, off, n - 1);
      GroupStoresKey(f, src, off, n - 1);
      StoreBoth(t.written, t.key, |f.written|, n - 1, Step(t, src, off, n - 1).hash);
    }
  }

  /** A line only appends: what was written before it stays. */
  lemma {:induction false} GroupAppends(f: FillState, src: seq<Word>, off: nat, n: nat)
    requires n <= KeyLength == |f.key| && off + KeyLength <= |src|
    ensures Group(f, src, off, n).written[..|f.written|] == f.written
  {
    if n > 0 {
      var t := Group(f, src, off, n - 1);
      GroupAppends(f, src, off, n - 1);
      assert (t.written + [Step(t, src, off, n - 1).hash])[..|f.written|] == t.written[..|f.written|];
    }
  }

  /**
   * The first g lines of a block read from the source block `src`: each line
   * reads at the offset the hash selects when the line starts.
   */
  function Lines(f: FillState, src: seq<Word>, blockLength: nat, g: nat): (r: FillState)
    requires BlockLengthOk(blockLength) && |f.key| == KeyLength && |src| == blockLength && 8 * g <= blockLength
    ensures |r.written| == |f.written| + 8 * g && |r.key| == KeyLength
    decreases g, 1
  {
    if g == 0 then f else LastLine(f, src, blockLength, g)
  }

  /** Line g - 1, read at the offset the hash selects after the first g - 1 lines. */
  function LastLine(f: FillState, src: seq<Word>, blockLength: nat, g: nat): (r: FillState)
    requires BlockLengthOk(blockLength) && |f.key| == KeyLength && |src| == blockLength && 1 <= g && 8 * g <= blockLength
    ensures |r.written| == |f.written| + 8 * g && |r.key| == KeyLength
    decreases g, 0
  {
    var t := Lines(f, src, blockLength, g - 1);
    Group(t, src, LineOffset(t.hash, blockLength), KeyLength)
  }

  /** Lines next = g + 1 is line g, read at the offset the current hash selects, after lines g. */
  lemma {:induction false} LinesNext(f: FillState, src: seq<Word>, blockLength: nat, g: nat, next: nat)
    requires BlockLengthOk(blockLength) && |f.key| == KeyLength && |src| == blockLength
    requires next == g + 1 && 8 * next <= blockLength
    ensures Lines(f, src, blockLength, next)
         == Group(Lines(f, src, blockLength, g), src, LineOffset(Lines(f, src, blockLength, g).hash, blockLength), KeyLength)
  {
  }

  /** Later lines only append: the words of the first h lines stay. */
  lemma {:induction false} LinesAppend(f: FillState, src: seq<Word>, blockLength: nat, h: nat, g: nat)
    requires BlockLengthOk(blockLength) && |f.key| == KeyLength && |src| == blockLength && 8 * g <= blockLength
    requires h <= g
    ensures Lines(f, src, blockLength, g).written[..|f.written| + 8 * h] == Lines(f, src, blockLength, h).written
  {
    if h < g {
      var p := g - 1;
      LineAppends(f, src, blockLength, p, g);
      LinesAppend(f, src, blockLength, h, p);
      PrefixOfPrefix(Lines(f, src, blockLength, g).written, Lines(f, src, blockLength, p).written,
                     Lines(f, src, blockLength, h).written);
    }
  }

  /** Line g only appends to what lines g had written. */
  lemma {:induction false} LineAppends(f: FillState, src: seq<Word>, blockLength: nat, g: nat, next: nat)
    requires BlockLengthOk(blockLength) && |f.key| == KeyLength && |src| == blockLength
    requires next == g + 1 && 8 * next <= blockLength
    ensures Lines(f, src, blockLength, next).written[..|Lines(f, src, blockLength, g).written|]
         == Lines(f, src, blockLength, g).written
  {
    var t := Lines(f, src, blockLength, g);
    LinesNext(f, src, blockLength, g, next);
    GroupAppends(t, src, LineOffset(t.hash, blockLength), KeyLength);
  }

  /** A prefix of a prefix is a prefix. */
  lemma PrefixOfPrefix(w: seq<Word>, t: seq<Word>, r: seq<Word>)
    requires |t| <= |w| && w[..|t|] == t && |r| <= |t| && t[..|r|] == r
    ensures w[..|r|] == r
  {
    assert w[..|r|] == w[..|t|][..|r|];
  }

  /** The words line g writes are the key it leaves. */
  lemma {:induction false} LineHoldsKey(f: FillState, src: seq<Word>, blockLength: nat, g: nat, next: nat)
    requires BlockLengthOk(blockLength) && |f.key| == KeyLength && |src| == blockLength
    requires next == g + 1 && 8 * next <= blockLength
    ensures Lines(f, src, blockLength, next).written[|Lines(f, src, blockLength, g).written|..]
         == Lines(f, src, blockLength, next).key
  {
    var t := Lines(f, src, blockLength, g);
    LinesNext(f, src, blockLength, g, next);
    GroupStoresKey(t, src, LineOffset(t.hash, blockLength), KeyLength);
    assert Lines(f, src, blockLength, next).key[..KeyLength] == Lines(f, src, blockLength, next).key;
  }

  /** All the lines of a block, from the key, hash and last word it starts with. */
  function BlockWords(src: seq<Word>, key: seq<Word>, hash: Word, last: Word, blockLength: nat): (r: FillState)
    requires BlockLengthOk(blockLength) && |src| == blockLength && |key| == KeyLength
    ensures |r.written| == blockLength && |r.key| == KeyLength
  {
    PowerOfTwoMultipleOf8(blockLength);
    Lines(Fill([], key, hash, last), src, blockLength, blockLength / 8)
  }

  /** A block's words written into memory at `at`, with the key, hash and last word they leave. */
  function Placed(mem: seq<Word>, at: nat, f: FillState): (s: MixState)
    requires at + |f.written| <= |mem|
    ensures |s.mem| == |mem|
  {
    Mix(Splice(mem, at, f.written), f.key, f.hash, f.last)
  }

  /**
   * Block i: read from block `hash % i`, which lies below it, and write all of
   * block i. Nothing outside block i changes.
   */
  function BlockTurn(s: MixState, blockLength: nat, i: nat): (r: MixState)
    requires BlockLengthOk(blockLength) && |s.key| == KeyLength
    requires 1 <= i && PageOffset(i, blockLength) + blockLength <= |s.mem|
    ensures |r.mem| == |s.mem| && |r.key| == KeyLength
    ensures SameOutside(r.mem, s.mem, PageOffset(i, blockLength), PageOffset(i, blockLength) + blockLength)
  {
    var from := PageOffset(SourceBlock(s.hash, i), blockLength);
    EarlierPage(SourceBlock(s.hash, i), i, blockLength);
    Placed(s.mem, PageOffset(i, blockLength),
           BlockWords(s.mem[from..from + blockLength], s.key, s.hash, s.last, blockLength))
  }

  /** BlockTurn with its two block addresses supplied. */
  lemma {:induction false} BlockTurnIs(s: MixState, blockLength: nat, i: nat, from: nat, to: nat)
    requires BlockLengthOk(blockLength) && |s.key| == KeyLength
    requires 1 <= i && to == PageOffset(i, blockLength) && to + blockLength <= |s.mem|
    requires from == PageOffset(SourceBlock(s.hash, i), blockLength)
    ensures from + blockLength <= to
    ensures BlockTurn(s, blockLength, i)
         == Placed(s.mem, to, BlockWords(s.mem[from..from + blockLength], s.key, s.hash, s.last, blockLength))
  {
    EarlierPage(SourceBlock(s.hash, i), i, blockLength);
  }

  /** Blocks 1 .. upTo-1 in order, from state s. Block 0 and the blocks from upTo on do not change. */
  function Mixed(s: MixState, blockLength: nat, upTo: nat): (r: MixState)
    requires BlockLengthOk(blockLength) && |s.key| == KeyLength
    requires 1 <= upTo && PageOffset(upTo, blockLength) <= |s.mem|
    ensures |r.mem| == |s.mem| && |r.key| == KeyLength
    ensures SameOutside(r.mem, s.mem, blockLength, PageOffset(upTo, blockLength))
    decreases upTo
  {
    if upTo == 1 then
      SameOutsideRefl(s.mem, blockLength, blockLength);
      s
    else
      var i := upTo - 1;
      NextPage(i, upTo, blockLength);
      LaterPage(1, i, blockLength);
      var t := Mixed(s, blockLength, i);
      var r := BlockTurn(t, blockLength, i);
      SameOutsideJoin(r.mem, t.mem, s.mem, blockLength, PageOffset(i, blockLength), PageOffset(upTo, blockLength));
      r
  }

  /** Mixed up to next = i + 1 is block i after the blocks before it. */
  lemma MixedNext(s: MixState, blockLength: nat, i: nat, next: nat)
    requires BlockLengthOk(blockLength) && |s.key| == KeyLength
    requires 1 <= i && next == i + 1 && PageOffset(next, blockLength) <= |s.mem|
    ensures PageOffset(next, blockLength) == PageOffset(i, blockLength) + blockLength
    ensures Mixed(s, blockLength, next) == BlockTurn(Mixed(s, blockLength, i), blockLength, i)
  {
    NextPage(i, next, blockLength);
    LaterPage(1, i, blockLength);
  }

  /** Once blocks below a are written, filling up to b never changes them again. */
  lemma {:induction false} MixedStable(s: MixState, blockLength: nat, a: nat, b: nat)
    requires BlockLengthOk(blockLength) && |s.key| == KeyLength
    requires 1 <= a <= b && PageOffset(b, blockLength) <= |s.mem|
    ensures PageOffset(a, blockLength) <= PageOffset(b, blockLength)
    ensures SameOutside(Mixed(s, blockLength, b).mem, Mixed(s, blockLength, a).mem,
                        PageOffset(a, blockLength), PageOffset(b, blockLength))
  {
    LaterPage(a, b, blockLength);
    if b == a {
      SameOutsideRefl(Mixed(s, blockLength, a).mem, PageOffset(a, blockLength), PageOffset(a, blockLength));
    } else {
      var i := b - 1;
      MixedNext(s, blockLength, i, b);
      LaterPage(a, i, blockLength);
      MixedStable(s, blockLength, a, i);
      SameOutsideJoin(Mixed(s, blockLength, b).mem, Mixed(s, blockLength, i).mem, Mixed(s, blockLength, a).mem,
                      PageOffset(a, blockLength), PageOffset(i, blockLength), PageOffset(b, blockLength));
    }
  }

  // ---------------------------------------------------------------------------------------
  // The fill does not depend on what the allocated memory held.

  /** Two states that agree on the key, the hash, the last read word and the memory below x. */
  predicate StatesAgreeBelow(s1: MixState, s2: MixState, x: nat)
  {
    |s1.mem| == |s2.mem| && x <= |s1.mem| && s1.mem[..x] == s2.mem[..x]
    && s1.key == s2.key && s1.hash == s2.hash && s1.last == s2.last
  }

  /** A block reads only below itself: states that agree below block i agree up to its end afterwards. */
  lemma {:induction false} BlockTurnAgree(s1: MixState, s2: MixState, blockLength: nat, i: nat, next: nat)
    requires BlockLengthOk(blockLength) && |s1.key| == KeyLength
    requires 1 <= i && next == i + 1 && PageOffset(next, blockLength) <= |s1.mem|
    requires StatesAgreeBelow(s1, s2, PageOffset(i, blockLength))
    ensures PageOffset(next, blockLength) == PageOffset(i, blockLength) + blockLength
    ensures StatesAgreeBelow(BlockTurn(s1, blockLength, i), BlockTurn(s2, blockLength, i), PageOffset(next, blockLength))
  {
    NextPage(i, next, blockLength);
    var to := PageOffset(i, blockLength);
    var from := PageOffset(SourceBlock(s1.hash, i), blockLength);
    BlockTurnIs(s1, blockLength, i, from, to);
    BlockTurnIs(s2, blockLength, i, from, to);
    var src := s1.mem[from..from + blockLength];
    assert s2.mem[from..from + blockLength] == src by {
      SliceOfPrefix(s1.mem, s2.mem, to, from, from + blockLength);
    }
    var f := BlockWords(src, s1.key, s1.hash, s1.last, blockLength);
    SpliceAgree(s1.mem, s2.mem, to, f.written, PageOffset(next, blockLength));
  }

  /** Memories that agree below `at` still agree below the end of the words stored at `at`. */
  lemma SpliceAgree(m1: seq<Word>, m2: seq<Word>, at: nat, words: seq<Word>, hi: nat)
    requires |m1| == |m2| && at + |words| <= |m1| && hi == at + |words| && m1[..at] == m2[..at]
    ensures Splice(m1, at, words)[..hi] == Splice(m2, at, words)[..hi]
  {
    SplicePrefix(m1, at, words, hi);
    SplicePrefix(m2, at, words, hi);
  }

  /** States that agree on block 0, the key, the hash and the last word read still agree below block upTo once blocks 1 .. upTo-1 are mixed. */
  lemma {:induction false} MixedAgree(s1: MixState, s2: MixState, blockLength: nat, upTo: nat)
    requires BlockLengthOk(blockLength) && |s1.key| == KeyLength
    requires 1 <= upTo && PageOffset(upTo, blockLength) <= |s1.mem|
    requires StatesAgreeBelow(s1, s2, blockLength)
    ensures StatesAgreeBelow(Mixed(s1, blockLength, upTo), Mixed(s2, blockLength, upTo), PageOffset(upTo, blockLength))
  {
    if upTo == 1 {
      assert PageOffset(upTo, blockLength) == blockLength;
    } else {
      var i := upTo - 1;
      MixedNext(s1, blockLength, i, upTo);
      MixedNext(s2, blockLength, i, upTo);
      MixedAgree(s1, s2, blockLength, i);
      BlockTurnAgree(Mixed(s1, blockLength, i), Mixed(s2, blockLength, i), blockLength, i, upTo);
    }
  }

  /**
   * The filled memory is a function of the sizes alone: whatever malloc returned,
   * block 0 is zeroed before anything is read, and every other block is written
   * before any later block reads it.
   */
  lemma {:induction false} FillIgnoresGarbage(m1: seq<Word>, m2: seq<Word>, blockLength: nat, numBlocks: nat)
    requires BlockLengthOk(blockLength) && 1 <= numBlocks
    requires |m1| == |m2| == numBlocks * blockLength
    ensures Mixed(InitialState(m1, blockLength), blockLength, numBlocks)
         == Mixed(InitialState(m2, blockLength), blockLength, numBlocks)
  {
    LaterPage(1, numBlocks, blockLength);
    var s1 := InitialState(m1, blockLength);
    var s2 := InitialState(m2, blockLength);
    assert s1.mem[..blockLength] == s2.mem[..blockLength];
    MixedAgree(s1, s2, blockLength, numBlocks);
    var r1 := Mixed(s1, blockLength, numBlocks).mem;
    var r2 := Mixed(s2, blockLength, numBlocks).mem;
    assert r1 == r1[..|r1|] && r2 == r2[..|r2|];
  }

  // ---------------------------------------------------------------------------------------
  // The benchmark's loops.

  /** Memory below the destination block is as it was, so a line reads its source block's words. */
  lemma {:induction false} ReadSource(m0: seq<Word>, cur: seq<Word>, src: seq<Word>, srcBase: nat, dstBase: nat,
                   written: seq<Word>, x: nat, y: nat)
    requires srcBase + |src| <= dstBase && dstBase + |written| <= |m0| && src == m0[srcBase..srcBase + |src|]
    requires cur == Splice(m0, dstBase, written) && x < |src| && y == srcBase + x
    ensures cur[y] == src[x]
  {
    SameOutsideBelow(cur, m0, dstBase, dstBase + |written|);
    assert cur[y] == cur[..dstBase][y];
  }

  /** Storing a step's hash in memory and in the key is the step, placed. */
  lemma {:induction false} StorePlaced(m0: seq<Word>, dstBase: nat, f: FillState, src: seq<Word>, off: nat, k: nat,
                    cur: seq<Word>, key: seq<Word>, at: nat, h: Word, pageData: Word,
                    hash: Word, keyData: Word, last: Word)
    requires k < |f.key| && off + k < |src| && dstBase + |f.written| < |m0|
    requires cur == Splice(m0, dstBase, f.written) && key == f.key && at == dstBase + |f.written|
    requires hash == f.hash && keyData == f.key[k] && last == f.last
    requires pageData == src[off + k] && h == NextHash(hash, pageData, keyData, last)
    ensures Mix(cur[at := h], key[k := h], h, pageData) == Placed(m0, dstBase, Step(f, src, off, k))
  {
    SpliceNext(m0, dstBase, f.written, h);
  }

  /**
   * One iteration of the middle loop: line g of the block at `dstBase`, read at
   * `sourceBlock + (hash & BLOCK_MASK)` and written at `destBlock + j`, through
   * the innermost loop's eight steps.
   */
  method MixLine(mem: array<Word>, key: array<Word>, ghost m0: seq<Word>, ghost src: seq<Word>, ghost f0: FillState,
                 ghost g: nat, ghost next: nat, srcBase: nat, dstBase: nat, blockLength: nat, mask: Word, j: nat,
                 hash: Word, last: Word) returns (hash': Word, last': Word)
    requires mem != key && key.Length == KeyLength && |f0.key| == KeyLength && f0.written == []
    requires BlockLengthOk(blockLength) && mask == BlockMask(blockLength) && |src| == blockLength
    requires srcBase + blockLength <= dstBase && dstBase + blockLength <= |m0| == mem.Length
    requires src == m0[srcBase..srcBase + blockLength] && j == 8 * g && next == g + 1 && 8 * next <= blockLength
    requires Mix(mem[..], key[..], hash, last) == Placed(m0, dstBase, Lines(f0, src, blockLength, g))
    modifies mem, key
    ensures Mix(mem[..], key[..], hash', last') == Placed(m0, dstBase, Lines(f0, src, blockLength, next))
  {
    LinesNext(f0, src, blockLength, g, next);
    ghost var f := Lines(f0, src, blockLength, g);
    ghost var off := LineOffset(f.hash, blockLength);
    var sourceLine := srcBase + BitAnd(hash, mask);
    var destLine := dstBase + j;
    hash', last' := MixGroup(mem, key, m0, src, f, off, srcBase, dstBase, sourceLine, destLine, hash, last);
  }

  /**
   * The arrays a block is mixed in: the memory, which held m0 when the block
   * started, and a separate key; the source block `src` lies below the
   * destination block.
   */
  predicate BlockLayout(mem: array<Word>, key: array<Word>, m0: seq<Word>, src: seq<Word>, srcBase: nat, dstBase: nat)
  {
    mem != key && key.Length == KeyLength && |m0| == mem.Length
    && srcBase + |src| <= dstBase <= |m0| && src == m0[srcBase..srcBase + |src|]
  }

  /** The innermost loop: the eight steps of a line reading at `sourceLine` and writing at `destLine`. */
  method MixGroup(mem: array<Word>, key: array<Word>, ghost m0: seq<Word>, ghost src: seq<Word>, ghost f: FillState,
                  ghost off: nat, srcBase: nat, dstBase: nat, sourceLine: nat, destLine: nat,
                  hash: Word, last: Word) returns (hash': Word, last': Word)
    requires BlockLayout(mem, key, m0, src, srcBase, dstBase) && |f.key| == KeyLength && off + KeyLength <= |src|
    requires dstBase + |f.written| + KeyLength <= |m0| && sourceLine == srcBase + off && destLine == dstBase + |f.written|
    requires Mix(mem[..], key[..], hash, last) == Placed(m0, dstBase, f)
    modifies mem, key
    ensures Mix(mem[..], key[..], hash', last') == Placed(m0, dstBase, Group(f, src, off, KeyLength))
  {
    hash', last' := hash, last;
    var k := 0;
    while k < KeyLength
      invariant k <= KeyLength
      invariant Mix(mem[..], key[..], hash', last') == Placed(m0, dstBase, Group(f, src, off, k))
    {
      ghost var next := k + 1;
      hash', last' := MixWordStep(mem, key, m0, src, f, off, srcBase, dstBase, sourceLine, destLine, k, next, hash', last');
      k := k + 1;
    }
  }

  /**
   * One iteration of the innermost loop: step k of a line reading at
   * `sourceLine` and writing at `destLine`, on the memory and key arrays.
   */
  method MixWordStep(mem: array<Word>, key: array<Word>, ghost m0: seq<Word>, ghost src: seq<Word>, ghost f: FillState,
                 ghost off: nat, srcBase: nat, dstBase: nat, sourceLine: nat, destLine: nat, k: nat, ghost next: nat,
                 hash: Word, last: Word) returns (hash': Word, last': Word)
    requires BlockLayout(mem, key, m0, src, srcBase, dstBase) && |f.key| == KeyLength && k < KeyLength && next == k + 1
    requires off + KeyLength <= |src| && dstBase + |f.written| + KeyLength <= |m0|
    requires sourceLine == srcBase + off && destLine == dstBase + |f.written|
    requires Mix(mem[..], key[..], hash, last) == Placed(m0, dstBase, Group(f, src, off, k))
    modifies mem, key
    ensures Mix(mem[..], key[..], hash', last') == Placed(m0, dstBase, Group(f, src, off, next))
  {
    GroupNext(f, src, off, k);
    ghost var g := Group(f, src, off, k);
    ghost var cur := mem[..];
    ReadSource(m0, cur, src, srcBase, dstBase, g.written, off + k, sourceLine + k);
    var pageData := mem[sourceLine + k];
    var keyData := key[k];
    hash' := NextHash(hash, pageData, keyData, last);
    StorePlaced(m0, dstBase, g, src, off, k, cur, key[..], destLine + k, hash', pageData, hash, keyData, last);
    key[k] := hash';
    mem[destLine + k] := hash';
    last' := pageData;
  }

  /**
   * The middle loop: the lines of the block at `dstBase`, each reading from
   * the block at `srcBase`, which lies below it.
   */
  method MixBlock(mem: array<Word>, key: array<Word>, srcBase: nat, dstBase: nat, blockLength: nat,
                  hash: Word, last: Word) returns (hash': Word, last': Word)
    requires mem != key && key.Length == KeyLength && BlockLengthOk(blockLength)
    requires srcBase + blockLength <= dstBase && dstBase + blockLength <= mem.Length
    modifies mem, key
    ensures Mix(mem[..], key[..], hash', last')
         == Placed(old(mem[..]), dstBase,
                   BlockWords(old(mem[..])[srcBase..srcBase + blockLength], old(key[..]), hash, last, blockLength))
  {
    PowerOfTwoMultipleOf8(blockLength);
    ghost var m0 := mem[..];
    ghost var src := m0[srcBase..srcBase + blockLength];
    ghost var f0 := Fill([], key[..], hash, last);
    SpliceEmpty(m0, dstBase);
    var mask := BlockMask(blockLength);
    hash', last' := hash, last;
    var j := 0;
    ghost var g := 0;
    while j < blockLength
      invariant j == 8 * g <= blockLength
      invariant Mix(mem[..], key[..], hash', last') == Placed(m0, dstBase, Lines(f0, src, blockLength, g))
    {
      ghost var next := g + 1;
      LineFits(g, next, blockLength);
      hash', last' := MixLine(mem, key, m0, src, f0, g, next, srcBase, dstBase, blockLength, mask, j, hash', last');
      j, g := j + 8, next;
    }
    assert g == blockLength / 8;
  }

  /** One more line fits in a block that has room beyond its first g lines. */
  lemma {:induction false} LineFits(g: nat, next: nat, blockLength: nat)
    requires 8 * g < blockLength && blockLength % 8 == 0 && next == g + 1
    ensures 8 * next <= blockLength
  {
    var q := blockLength / 8;
    assert blockLength == 8 * q;
    assert g < q;
  }

  /**
   * The benchmark: zero block 0, then fill blocks 1 .. numBlocks-1, block i from
   * block `hash % i`.
   */
  method FillMemory(mem: array<Word>, blockLength: nat, numBlocks: nat)
    requires BlockLengthOk(blockLength) && 1 <= numBlocks && mem.Length == numBlocks * blockLength
    modifies mem
    ensures mem[..] == Mixed(InitialState(old(mem[..]), blockLength), blockLength, numBlocks).mem
  {
    LaterPage(1, numBlocks, blockLength);
    ghost var m0 := mem[..];
    var i := 0;
    while i < blockLength
      invariant i <= blockLength
      invariant mem[..] == Zeros(i) + m0[i..]
    {
      ZeroNext(mem[..], m0, i);
      mem[i] := 0;
      i := i + 1;
    }
    var hash: Word := HashSeed;
    var lastPageData: Word := 0;
    var key := new Word[KeyLength](_ => 0);
    ghost var s0 := InitialState(m0, blockLength);
    assert key[..] == Zeros(KeyLength);
    assert Mix(mem[..], key[..], hash, lastPageData) == s0;
    i := 1;
    while i < numBlocks
      invariant 1 <= i <= numBlocks && PageOffset(i, blockLength) <= mem.Length
      invariant Mix(mem[..], key[..], hash, lastPageData) == Mixed(s0, blockLength, i)
    {
      var next := i + 1;
      LaterPage(next, numBlocks, blockLength);
      MixedNext(s0, blockLength, i, next);
      ghost var cur := Mix(mem[..], key[..], hash, lastPageData);
      var sourceBlock := (hash % i) * blockLength;
      var destBlock := i * blockLength;
      BlockTurnIs(cur, blockLength, i, sourceBlock, destBlock);
      hash, lastPageData := MixBlock(mem, key, sourceBlock, destBlock, blockLength, hash, lastPageData);
      assert Mix(mem[..], key[..], hash, lastPageData) == BlockTurn(cur, blockLength, i);
      i := next;
    }
    assert i == numBlocks;
  }

  lemma {:induction false} ZeroNext(cur: seq<Word>, m0: seq<Word>, i: nat)
    requires i < |m0| && cur == Zeros(i) + m0[i..]
    ensures cur[i := 0] == Zeros(i + 1) + m0[i + 1..]
  {
    var z := Zeros(i + 1) + m0[i + 1..];
    assert |cur[i := 0]| == |z|;
    forall x | 0 <= x < |z|
      ensures cur[i := 0][x] == z[x]
    {
      if x < i {
        assert cur[x] == Zeros(i)[x];
      } else if x > i {
        assert cur[x] == m0[i..][x - i];
      }
    }
  }
}
