/**
 * The reference implementation (keystretch-ref.c): one context with an
 * 8-word key and the last word read, one thread, pages filled in order
 * 1, 2, ..., numPages-1, each from an earlier page chosen by the key, and
 * the derived key taken from the last page.
 */
module Reference {
  import opened Words
  import opened Engine
  import opened Mixing
  import opened K = Keystretch

  /** The words of the context's key, `uint64 key[8]`. */
  const LaneWords: nat := 8

  /** The context's hashing state: `key` and `lastPageData`. */
  datatype LaneOf<S> = Lane(key: S, last: Word)
  type Lane = LaneOf<seq<Word>>

  /** What some steps of a pass leave: the words stored so far and the lane. */
  datatype RunOf<S> = Run(out: S, lane: LaneOf<S>)
  type Run = RunOf<seq<Word>>

  /** The memory and the context's hashing state. */
  datatype StateOf<S> = State(mem: S, lane: LaneOf<S>)
  type State = StateOf<seq<Word>>

  predicate LaneOk(s: Lane)
  {
    |s.key| == LaneWords
  }

  /** The reference word rule: `key[i&7] += (pageData*key[(i+1)&7]) ^ lastPageData`, modulo 2^64. */
  function RefMix(keyWord: Word, nextKey: Word, pageData: Word, last: Word): Word
  {
    Add(keyWord, Xor(Mul(pageData, nextKey), last))
  }

  /** Step i of a pass, reading pageData; `i & 7` is `i % 8`. */
  function Step(s: Lane, pageData: Word, i: nat): (r: Lane)
    requires LaneOk(s)
    ensures LaneOk(r)
  {
    Lane(s.key[i % 8 := RefMix(s.key[i % 8], s.key[(i + 1) % 8], pageData, s.last)], pageData)
  }

  /** The first n steps of a pass over the source page `from`, each storing the key word it updated. */
  function Steps(from: seq<Word>, s: Lane, n: nat): (r: Run)
    requires LaneOk(s) && n <= |from|
    ensures LaneOk(r.lane) && |r.out| == n
  {
    if n == 0 then Run([], s)
    else
      var p := Steps(from, s, n - 1);
      var lane := Step(p.lane, from[n - 1], n - 1);
      Run(p.out + [lane.key[(n - 1) % 8]], lane)
  }

  /**
   * Word i of a pass is key word `i & 7` right after step i updated it,
   * and after step i the last word read is `from[i]`.
   */
  lemma {:induction false} StepsStoreUpdatedKey(from: seq<Word>, s: Lane, n: nat, i: nat)
    requires LaneOk(s) && i < n <= |from|
    ensures Steps(from, s, n).out[i] == Steps(from, s, i + 1).lane.key[i % 8]
    ensures Steps(from, s, i + 1).lane.last == from[i]
    decreases n
  {
    if i < n - 1 {
      StepsStoreUpdatedKey(from, s, n - 1, i);
    }
  }

  /** A pass reads the source page only at the indices it has reached: 0 .. n-1. */
  lemma {:induction false} StepsReadPrefix(from: seq<Word>, from': seq<Word>, s: Lane, n: nat)
    requires LaneOk(s) && n <= |from| && n <= |from'| && from[..n] == from'[..n]
    ensures Steps(from, s, n) == Steps(from', s, n)
    decreases n
  {
    if n > 0 {
      assert from[n - 1] == from[..n][n - 1];
      assert from[..n - 1] == from[..n][..n - 1] && from'[..n - 1] == from'[..n][..n - 1];
      StepsReadPrefix(from, from', s, n - 1);
    }
  }

  /** m whole passes: the lane carries from pass to pass; `out` is the last pass's words (none for m = 0). */
  function RefPasses(from: seq<Word>, s: Lane, m: nat): (r: Run)
    requires LaneOk(s)
    ensures LaneOk(r.lane) && |r.out| == if m == 0 then 0 else |from|
  {
    if m == 0 then Run([], s) else Steps(from, RefPasses(from, s, m - 1).lane, |from|)
  }

  /**
   * One pass on the state: a page's worth of steps reading the source page
   * at fromBase as memory holds it, stored from the destination page's
   * first word on.
   */
  function PassOn(s: State, pageLength: nat, fromBase: nat, toBase: nat): (r: State)
    requires LaneOk(s.lane) && fromBase + pageLength <= toBase && toBase + pageLength <= |s.mem|
    ensures LaneOk(r.lane) && |r.mem| == |s.mem|
    ensures SameOutside(r.mem, s.mem, toBase, toBase + pageLength)
    ensures var run := Steps(s.mem[fromBase .. fromBase + pageLength], s.lane, pageLength);
            r.lane == run.lane && r.mem[toBase .. toBase + pageLength] == run.out
  {
    var run := Steps(s.mem[fromBase .. fromBase + pageLength], s.lane, pageLength);
    State(Splice(s.mem, toBase, run.out), run.lane)
  }

  /** The state after one inner-loop iteration: step i reads `mem[fromBase + i]` and stores the key word at t. */
  function StepState(s: State, fromBase: nat, i: nat, t: nat): (r: State)
    requires LaneOk(s.lane) && fromBase + i < |s.mem| && t < |s.mem|
  {
    var lane := Step(s.lane, s.mem[fromBase + i], i);
    State(s.mem[t := lane.key[i % 8]], lane)
  }

  /** The state i steps into a pass from s0: the first i words stored from toBase on. */
  function PassState(s0: State, pageLength: nat, fromBase: nat, toBase: nat, i: nat): (r: State)
    requires LaneOk(s0.lane) && fromBase + pageLength <= toBase && toBase + pageLength <= |s0.mem| && i <= pageLength
  {
    var run := Steps(s0.mem[fromBase .. fromBase + pageLength], s0.lane, i);
    State(Splice(s0.mem, toBase, run.out), run.lane)
  }

  /** One more inner-loop iteration takes a pass one step further. */
  lemma PassAdvance(s0: State, pageLength: nat, fromBase: nat, toBase: nat, i: nat, t: nat, i': nat)
    requires LaneOk(s0.lane) && fromBase + pageLength <= toBase && toBase + pageLength <= |s0.mem| && i < pageLength
    requires t == toBase + i && i' == i + 1
    ensures StepState(PassState(s0, pageLength, fromBase, toBase, i), fromBase, i, t)
              == PassState(s0, pageLength, fromBase, toBase, i')
  {
    var from := s0.mem[fromBase .. fromBase + pageLength];
    var run := Steps(from, s0.lane, i);
    var before := PassState(s0, pageLength, fromBase, toBase, i);
    assert before.mem[fromBase + i] == from[i];
    SpliceNext(s0.mem, toBase, run.out, Step(run.lane, from[i], i).key[i % 8]);
  }

  /** fillPage on the state: m passes, each restarting at the destination page. */
  function FillPasses(s: State, pageLength: nat, fromBase: nat, toBase: nat, m: nat): (r: State)
    requires LaneOk(s.lane) && fromBase + pageLength <= toBase && toBase + pageLength <= |s.mem|
    ensures LaneOk(r.lane) && |r.mem| == |s.mem|
    decreases m
  {
    if m == 0 then s else PassOn(FillPasses(s, pageLength, fromBase, toBase, m - 1), pageLength, fromBase, toBase)
  }

  /** Only the destination page changes, however many passes. */
  lemma {:induction false} FillPassesFrame(s: State, pageLength: nat, fromBase: nat, toBase: nat, m: nat)
    requires LaneOk(s.lane) && fromBase + pageLength <= toBase && toBase + pageLength <= |s.mem|
    ensures SameOutside(FillPasses(s, pageLength, fromBase, toBase, m).mem, s.mem, toBase, toBase + pageLength)
    decreases m
  {
    if m > 0 {
      var q := FillPasses(s, pageLength, fromBase, toBase, m - 1);
      FillPassesFrame(s, pageLength, fromBase, toBase, m - 1);
      SameOutsideTrans(PassOn(q, pageLength, fromBase, toBase).mem, q.mem, s.mem, toBase, toBase + pageLength);
    }
  }

  /** Every pass reads the source page as it was before the first. */
  lemma SourceKept(s: State, pageLength: nat, fromBase: nat, toBase: nat, m: nat)
    requires LaneOk(s.lane) && fromBase + pageLength <= toBase && toBase + pageLength <= |s.mem|
    ensures FillPasses(s, pageLength, fromBase, toBase, m).mem[fromBase .. fromBase + pageLength]
              == s.mem[fromBase .. fromBase + pageLength]
  {
    FillPassesFrame(s, pageLength, fromBase, toBase, m);
    SameOutsideSlice(FillPasses(s, pageLength, fromBase, toBase, m).mem, s.mem, toBase, toBase + pageLength,
                     fromBase, fromBase + pageLength);
  }

  /** The lane runs through all the passes, each over the unchanged source page. */
  lemma {:induction false} FillPassesLane(s: State, pageLength: nat, fromBase: nat, toBase: nat, m: nat)
    requires LaneOk(s.lane) && fromBase + pageLength <= toBase && toBase + pageLength <= |s.mem|
    ensures FillPasses(s, pageLength, fromBase, toBase, m).lane
              == RefPasses(s.mem[fromBase .. fromBase + pageLength], s.lane, m).lane
    decreases m
  {
    if m > 0 {
      FillPassesLane(s, pageLength, fromBase, toBase, m - 1);
      SourceKept(s, pageLength, fromBase, toBase, m - 1);
    }
  }

  /**
   * Every pass restarts at the destination page: for any multiplier only
   * the destination page changes, the source page is read as it was, the
   * lane runs through all passes, and after at least one pass the page
   * holds the last pass's words.
   */
  lemma FillPassesMeaning(s: State, pageLength: nat, fromBase: nat, toBase: nat, m: nat)
    requires LaneOk(s.lane) && fromBase + pageLength <= toBase && toBase + pageLength <= |s.mem|
    ensures var r := FillPasses(s, pageLength, fromBase, toBase, m);
            var p := RefPasses(s.mem[fromBase .. fromBase + pageLength], s.lane, m);
            && SameOutside(r.mem, s.mem, toBase, toBase + pageLength)
            && r.lane == p.lane
            && (m >= 1 ==> r.mem[toBase .. toBase + pageLength] == p.out)
  {
    FillPassesFrame(s, pageLength, fromBase, toBase, m);
    FillPassesLane(s, pageLength, fromBase, toBase, m);
    if m > 0 {
      FillPassesPage(s, pageLength, fromBase, toBase, m - 1);
    }
  }

  /** After pass k + 1 the destination page holds that pass's words. */
  lemma FillPassesPage(s: State, pageLength: nat, fromBase: nat, toBase: nat, k: nat)
    requires LaneOk(s.lane) && fromBase + pageLength <= toBase && toBase + pageLength <= |s.mem|
    ensures FillPasses(s, pageLength, fromBase, toBase, k + 1).mem[toBase .. toBase + pageLength]
              == RefPasses(s.mem[fromBase .. fromBase + pageLength], s.lane, k + 1).out
  {
    FillPassesLane(s, pageLength, fromBase, toBase, k);
    SourceKept(s, pageLength, fromBase, toBase, k);
  }

  /** hashMem's source page for page `to`: `(uint32)key[0] % toPageNum`, always an earlier page. */
  function SourcePageRef(key0: Word, to: nat): (from: nat)
    requires to >= 1
    ensures from < to
  {
    (key0 % TWO32) % to
  }

  /** Whole pages in memory and an 8-word key. */
  predicate RefLayout(s: State, pageLength: nat, numPages: nat)
  {
    1 <= pageLength && |s.mem| == numPages * pageLength && LaneOk(s.lane)
  }

  /** Page `to` filled from the page its key picks. */
  function PageStep(s: State, pageLength: nat, numPages: nat, mult: nat, to: nat): (r: State)
    requires RefLayout(s, pageLength, numPages) && 1 <= to < numPages
    ensures RefLayout(r, pageLength, numPages)
    ensures SameOutside(r.mem, s.mem, PageOffset(to, pageLength), PageOffset(to, pageLength) + pageLength)
  {
    var from := SourcePageRef(s.lane.key[0], to);
    PagesDisjoint(from, to, pageLength, numPages);
    var fromBase, toBase := PageOffset(from, pageLength), PageOffset(to, pageLength);
    FillPassesMeaning(s, pageLength, fromBase, toBase, mult);
    FillPasses(s, pageLength, fromBase, toBase, mult)
  }

  /**
   * hashMem: pages 1, 2, ..., upTo-1 filled in increasing order. Page 0
   * and the pages from upTo on are as they were.
   */
  function RefSchedule(s0: State, pageLength: nat, numPages: nat, mult: nat, upTo: nat): (r: State)
    requires RefLayout(s0, pageLength, numPages) && 1 <= upTo <= FirstStop(numPages)
    ensures RefLayout(r, pageLength, numPages)
    ensures SameOutside(r.mem, s0.mem, pageLength, PageOffset(upTo, pageLength))
  {
    if upTo == 1 then s0
    else
      var s := RefSchedule(s0, pageLength, numPages, mult, upTo - 1);
      var r := PageStep(s, pageLength, numPages, mult, upTo - 1);
      PageOffsetNext(upTo - 1, pageLength);
      SameOutsideJoin(r.mem, s.mem, s0.mem, pageLength, PageOffset(upTo - 1, pageLength), PageOffset(upTo, pageLength));
      r
  }
  /** One more iteration of hashMem's loop fills page `to`. */
  lemma RefScheduleStep(s0: State, pageLength: nat, numPages: nat, mult: nat, to: nat, next: nat)
    requires RefLayout(s0, pageLength, numPages) && 1 <= to < numPages && next == to + 1
    ensures RefSchedule(s0, pageLength, numPages, mult, next)
              == PageStep(RefSchedule(s0, pageLength, numPages, mult, to), pageLength, numPages, mult, to)
  {
  }


  // What hashMem reads

  /**
   * Two memories that agree below `lo`, each rewritten only in [lo, hi)
   * and to the same words there, agree below `hi`.
   */
  lemma AgreeAfterWrite(a1: seq<Word>, a2: seq<Word>, b1: seq<Word>, b2: seq<Word>, lo: nat, hi: nat)
    requires AgreeBelow(b1, b2, lo) && lo <= hi <= |b1|
    requires SameOutside(a1, b1, lo, hi) && SameOutside(a2, b2, lo, hi) && a1[lo..hi] == a2[lo..hi]
    ensures AgreeBelow(a1, a2, hi)
  {
    forall j | lo <= j < hi
      ensures a1[j] == a2[j]
    {
      assert a1[j] == a1[lo..hi][j - lo] && a2[j] == a2[lo..hi][j - lo];
    }
  }

  /**
   * With at least one pass, fillPage reads nothing at or above the
   * destination page: same lane and memories agreeing below the
   * destination give the same lane and memories agreeing up to its end.
   */
  lemma FillPassesAgree(s1: State, s2: State, pageLength: nat, fromBase: nat, toBase: nat, m: nat)
    requires LaneOk(s1.lane) && fromBase + pageLength <= toBase && toBase + pageLength <= |s1.mem| && m >= 1
    requires s1.lane == s2.lane && AgreeBelow(s1.mem, s2.mem, toBase)
    ensures var r1 := FillPasses(s1, pageLength, fromBase, toBase, m);
            var r2 := FillPasses(s2, pageLength, fromBase, toBase, m);
            r1.lane == r2.lane && AgreeBelow(r1.mem, r2.mem, toBase + pageLength)
  {
    assert s2.mem[fromBase .. fromBase + pageLength] == s1.mem[fromBase .. fromBase + pageLength];
    FillPassesMeaning(s1, pageLength, fromBase, toBase, m);
    FillPassesMeaning(s2, pageLength, fromBase, toBase, m);
    AgreeAfterWrite(FillPasses(s1, pageLength, fromBase, toBase, m).mem, FillPasses(s2, pageLength, fromBase, toBase, m).mem,
                    s1.mem, s2.mem, toBase, toBase + pageLength);
  }

  /**
   * With at least one pass, filling page `to` reads only the pages below
   * it: two states with the same lane whose memories agree below page
   * `to` still have the same lane and agree up to the end of page `to`.
   */
  lemma PageStepAgree(s1: State, s2: State, pageLength: nat, numPages: nat, mult: nat, to: nat, next: nat)
    requires RefLayout(s1, pageLength, numPages) && 1 <= to < numPages && next == to + 1 && mult >= 1
    requires s1.lane == s2.lane && AgreeBelow(s1.mem, s2.mem, PageOffset(to, pageLength))
    ensures RefLayout(s2, pageLength, numPages)
    ensures var r1 := PageStep(s1, pageLength, numPages, mult, to);
            var r2 := PageStep(s2, pageLength, numPages, mult, to);
            r1.lane == r2.lane && AgreeBelow(r1.mem, r2.mem, PageOffset(next, pageLength))
  {
    var from := SourcePageRef(s1.lane.key[0], to);
    PagesDisjoint(from, to, pageLength, numPages);
    PageOffsetNext(to, pageLength);
    FillPassesAgree(s1, s2, pageLength, PageOffset(from, pageLength), PageOffset(to, pageLength), mult);
  }

  /**
   * With at least one pass per page, hashMem reads nothing above page 0
   * before writing it: two states with the same lane whose page 0 agrees
   * are, after filling pages 1 .. upTo-1, equal in the lane and on every
   * page below upTo.
   */
  lemma {:induction false} RefScheduleAgree(s1: State, s2: State, pageLength: nat, numPages: nat, mult: nat, upTo: nat)
    requires RefLayout(s1, pageLength, numPages) && mult >= 1 && 1 <= upTo <= FirstStop(numPages)
    requires s1.lane == s2.lane && AgreeBelow(s1.mem, s2.mem, pageLength)
    ensures RefLayout(s2, pageLength, numPages)
    ensures var r1 := RefSchedule(s1, pageLength, numPages, mult, upTo);
            var r2 := RefSchedule(s2, pageLength, numPages, mult, upTo);
            r1.lane == r2.lane && AgreeBelow(r1.mem, r2.mem, PageOffset(upTo, pageLength))
    decreases upTo
  {
    if upTo > 1 {
      var to := upTo - 1;
      RefScheduleAgree(s1, s2, pageLength, numPages, mult, to);
      var q1, q2 := RefSchedule(s1, pageLength, numPages, mult, to), RefSchedule(s2, pageLength, numPages, mult, to);
      PageStepAgree(q1, q2, pageLength, numPages, mult, to, upTo);
      RefScheduleStep(s1, pageLength, numPages, mult, to, upTo);
      RefScheduleStep(s2, pageLength, numPages, mult, to, upTo);
    }
  }

  /** With no passes hashMem changes nothing: every page, the last included, is left as it was. */
  lemma {:induction false} RefScheduleWithoutPasses(s0: State, pageLength: nat, numPages: nat, upTo: nat)
    requires RefLayout(s0, pageLength, numPages) && 1 <= upTo <= FirstStop(numPages)
    ensures RefSchedule(s0, pageLength, numPages, 0, upTo) == s0
    decreases upTo
  {
    if upTo > 1 {
      RefScheduleWithoutPasses(s0, pageLength, numPages, upTo - 1);
      RefScheduleStep(s0, pageLength, numPages, 0, upTo - 1, upTo);
    }
  }


  // ---------------------------------------------------------------------
  // keystretch, reference version

  /** Sizes the reference code can work with: pages of at least 8 words (the lane is seeded from 8), at least one. */
  predicate RefSizesOk(z: Sizes)
  {
    8 <= z.pageLength && 1 <= z.numPages && z.memoryLength == z.pageLength * z.numPages
  }

  /** Page 0 lies inside memory. */
  lemma RefFirstPage(z: Sizes)
    requires RefSizesOk(z)
    ensures LaneWords <= z.pageLength <= z.memoryLength
  {
    MulGrows(1, z.numPages, z.pageLength);
  }

  /** The last page, numPages - 1, ends where memory ends. */
  lemma LastPage(numPages: nat, pageLength: nat)
    requires 1 <= numPages
    ensures PageOffset(numPages - 1, pageLength) + pageLength == numPages * pageLength
  {
    assert (numPages - 1) * pageLength + pageLength == numPages * pageLength;
  }

  /**
   * The memory and context the reference keystretch hands to hashMem:
   * page 0 is the PBKDF2 (one round) of the stretched key, the key the
   * PBKDF2 of page 0's first 8 words, `lastPageData` page 0's first word,
   * and the rest of memory whatever `malloc` returned (`heapWords`).
   */
  function RefSeeded(prf: Prf, password: seq<byte>, salt: seq<byte>, rounds: nat, z: Sizes,
                     derivedKeySize: nat, heapWords: seq<Word>): (s: State)
    requires Pbkdf2Ok(prf) && RefSizesOk(z) && |heapWords| == z.memoryLength
    ensures RefLayout(s, z.pageLength, z.numPages)
    ensures s.mem[z.pageLength..] == heapWords[z.pageLength..]
  {
    var stretched := prf(password, salt, rounds, derivedKeySize);
    RefFirstPage(z);
    var page0 := WordsOf(prf(stretched, salt, 1, 8 * z.pageLength), z.pageLength);
    var key := WordsOf(prf(BytesOfWords(page0[..LaneWords]), salt, 1, 8 * LaneWords), LaneWords);
    State(page0 + heapWords[z.pageLength..], Lane(key, page0[0]))
  }

  /** Memory and context after the reference hashMem. */
  function RefMixed(prf: Prf, password: seq<byte>, salt: seq<byte>, rounds: nat, mult: nat, z: Sizes,
                    derivedKeySize: nat, heapWords: seq<Word>): (s: State)
    requires Pbkdf2Ok(prf) && RefSizesOk(z) && |heapWords| == z.memoryLength
    ensures RefLayout(s, z.pageLength, z.numPages)
  {
    RefSchedule(RefSeeded(prf, password, salt, rounds, z, derivedKeySize, heapWords),
                z.pageLength, z.numPages, mult, FirstStop(z.numPages))
  }

  /** The reference derived key: PBKDF2 (one round) of the last page, salted. */
  function RefDerivedKey(prf: Prf, password: seq<byte>, salt: seq<byte>, rounds: nat, mult: nat, z: Sizes,
                         derivedKeySize: nat, heapWords: seq<Word>): (key: seq<byte>)
    requires Pbkdf2Ok(prf) && RefSizesOk(z) && |heapWords| == z.memoryLength
    ensures |key| == derivedKeySize
  {
    var last := PageOffset(z.numPages - 1, z.pageLength);
    LastPage(z.numPages, z.pageLength);
    var mem := RefMixed(prf, password, salt, rounds, mult, z, derivedKeySize, heapWords).mem;
    prf(BytesOfWords(mem[last .. last + z.pageLength]), salt, 1, derivedKeySize)
  }

  /**
   * The derived key depends on the mixed memory only through its last page,
   * numPages - 1: two runs (any passwords, round counts, multipliers and
   * heap contents) whose mixed memories agree on that page derive the same
   * key.
   */
  lemma DerivedFromLastPage(prf: Prf, salt: seq<byte>, z: Sizes, derivedKeySize: nat,
                            password1: seq<byte>, rounds1: nat, mult1: nat, heap1: seq<Word>,
                            password2: seq<byte>, rounds2: nat, mult2: nat, heap2: seq<Word>)
    requires Pbkdf2Ok(prf) && RefSizesOk(z) && |heap1| == z.memoryLength && |heap2| == z.memoryLength
    requires var m1 := RefMixed(prf, password1, salt, rounds1, mult1, z, derivedKeySize, heap1).mem;
             var m2 := RefMixed(prf, password2, salt, rounds2, mult2, z, derivedKeySize, heap2).mem;
             forall i :: PageOffset(z.numPages - 1, z.pageLength) <= i < z.memoryLength ==> m1[i] == m2[i]
    ensures RefDerivedKey(prf, password1, salt, rounds1, mult1, z, derivedKeySize, heap1)
              == RefDerivedKey(prf, password2, salt, rounds2, mult2, z, derivedKeySize, heap2)
  {
    var last := PageOffset(z.numPages - 1, z.pageLength);
    LastPage(z.numPages, z.pageLength);
    var m1 := RefMixed(prf, password1, salt, rounds1, mult1, z, derivedKeySize, heap1).mem;
    var m2 := RefMixed(prf, password2, salt, rounds2, mult2, z, derivedKeySize, heap2).mem;
    assert m1[last .. last + z.pageLength] == m2[last .. last + z.pageLength];
  }

  /** RefDerivedKey read off a given mixed memory. */
  lemma KeyOfLastPage(prf: Prf, password: seq<byte>, salt: seq<byte>, rounds: nat, mult: nat, z: Sizes,
                      derivedKeySize: nat, heapWords: seq<Word>, mem: seq<Word>)
    requires Pbkdf2Ok(prf) && RefSizesOk(z) && |heapWords| == z.memoryLength
    requires mem == RefMixed(prf, password, salt, rounds, mult, z, derivedKeySize, heapWords).mem
    ensures var last := PageOffset(z.numPages - 1, z.pageLength);
            last + z.pageLength == |mem|
            && RefDerivedKey(prf, password, salt, rounds, mult, z, derivedKeySize, heapWords)
                 == prf(BytesOfWords(mem[last .. last + z.pageLength]), salt, 1, derivedKeySize)
  {
    LastPage(z.numPages, z.pageLength);
  }

  /** hashMem never writes page 0: it still holds the PBKDF2 of the stretched key. */
  lemma RefFirstPageKept(prf: Prf, password: seq<byte>, salt: seq<byte>, rounds: nat, mult: nat, z: Sizes,
                         derivedKeySize: nat, heapWords: seq<Word>)
    requires Pbkdf2Ok(prf) && RefSizesOk(z) && |heapWords| == z.memoryLength
    ensures var s := RefMixed(prf, password, salt, rounds, mult, z, derivedKeySize, heapWords);
            (8 * z.pageLength) % 8 == 0 && z.pageLength <= |s.mem|
            && s.mem[..z.pageLength] == WordsOfBytes(prf(prf(password, salt, rounds, derivedKeySize), salt, 1, 8 * z.pageLength))
  {
    var s0 := RefSeeded(prf, password, salt, rounds, z, derivedKeySize, heapWords);
    var s := RefMixed(prf, password, salt, rounds, mult, z, derivedKeySize, heapWords);
    WholeWords(z.pageLength);
    MulGrows(1, z.numPages, z.pageLength);
    var page0 := WordsOfBytes(prf(prf(password, salt, rounds, derivedKeySize), salt, 1, 8 * z.pageLength));
    assert s0.mem[..z.pageLength] == page0;
    SameOutsideBelow(s.mem, s0.mem, z.pageLength, PageOffset(FirstStop(z.numPages), z.pageLength));
  }

  /** Seeding from two heaps gives the same lane and the same page 0. */
  lemma RefSeedsAgree(prf: Prf, password: seq<byte>, salt: seq<byte>, rounds: nat, z: Sizes,
                      derivedKeySize: nat, heap1: seq<Word>, heap2: seq<Word>)
    requires Pbkdf2Ok(prf) && RefSizesOk(z) && |heap1| == z.memoryLength && |heap2| == z.memoryLength
    ensures var s1 := RefSeeded(prf, password, salt, rounds, z, derivedKeySize, heap1);
            var s2 := RefSeeded(prf, password, salt, rounds, z, derivedKeySize, heap2);
            s1.lane == s2.lane && AgreeBelow(s1.mem, s2.mem, z.pageLength)
  {
    RefFirstPage(z);
  }

  /**
   * When every page gets at least one pass, or there is only page 0, the
   * reference keystretch does not depend on what `malloc` returned: the
   * mixed memory, and so the derived key, are the same for any two heaps.
   */
  lemma RefDerivedKeyIgnoresHeap(prf: Prf, password: seq<byte>, salt: seq<byte>, rounds: nat, mult: nat, z: Sizes,
                                 derivedKeySize: nat, heap1: seq<Word>, heap2: seq<Word>)
    requires Pbkdf2Ok(prf) && RefSizesOk(z) && |heap1| == z.memoryLength && |heap2| == z.memoryLength
    requires mult >= 1 || z.numPages == 1
    ensures RefMixed(prf, password, salt, rounds, mult, z, derivedKeySize, heap1)
              == RefMixed(prf, password, salt, rounds, mult, z, derivedKeySize, heap2)
    ensures RefDerivedKey(prf, password, salt, rounds, mult, z, derivedKeySize, heap1)
              == RefDerivedKey(prf, password, salt, rounds, mult, z, derivedKeySize, heap2)
  {
    var s1 := RefSeeded(prf, password, salt, rounds, z, derivedKeySize, heap1);
    var s2 := RefSeeded(prf, password, salt, rounds, z, derivedKeySize, heap2);
    RefSeedsAgree(prf, password, salt, rounds, z, derivedKeySize, heap1, heap2);
    var upTo := FirstStop(z.numPages);
    if z.numPages == 1 {
      assert s1.mem == s2.mem;
    } else {
      RefScheduleAgree(s1, s2, z.pageLength, z.numPages, mult, upTo);
      var m1 := RefSchedule(s1, z.pageLength, z.numPages, mult, upTo).mem;
      var m2 := RefSchedule(s2, z.pageLength, z.numPages, mult, upTo).mem;
      assert PageOffset(upTo, z.pageLength) == |m1|;
      assert m1 == m2;
    }
  }

  /**
   * With a multiplier of 0 and two pages or more, the reference hashMem
   * writes nothing and the derived key is the PBKDF2 of the last page as
   * `malloc` returned it: the key depends on uninitialised memory.
   */
  lemma RefKeyReadsHeap(prf: Prf, password: seq<byte>, salt: seq<byte>, rounds: nat, z: Sizes,
                        derivedKeySize: nat, heapWords: seq<Word>)
    requires Pbkdf2Ok(prf) && RefSizesOk(z) && |heapWords| == z.memoryLength && z.numPages >= 2
    ensures var last := PageOffset(z.numPages - 1, z.pageLength);
            last + z.pageLength == |heapWords|
            && RefDerivedKey(prf, password, salt, rounds, 0, z, derivedKeySize, heapWords)
                 == prf(BytesOfWords(heapWords[last .. last + z.pageLength]), salt, 1, derivedKeySize)
  {
    var s0 := RefSeeded(prf, password, salt, rounds, z, derivedKeySize, heapWords);
    RefScheduleWithoutPasses(s0, z.pageLength, z.numPages, FirstStop(z.numPages));
    var last := PageOffset(z.numPages - 1, z.pageLength);
    LastPage(z.numPages, z.pageLength);
    PageOffsetNext(z.numPages - 1, z.pageLength);
    KeyOfLastPage(prf, password, salt, rounds, 0, z, derivedKeySize, heapWords, s0.mem);
    assert s0.mem[last .. last + z.pageLength] == heapWords[last .. last + z.pageLength] by {
      SameSuffixSlice(s0.mem, heapWords, z.pageLength, last, last + z.pageLength);
    }
  }

  /** Two sequences equal from `lo` on are equal on any slice starting at or after `lo`. */
  lemma SameSuffixSlice(a: seq<Word>, b: seq<Word>, lo: nat, i: nat, j: nat)
    requires |a| == |b| && lo <= i <= j <= |a| && a[lo..] == b[lo..]
    ensures a[i..j] == b[i..j]
  {
    forall k | i <= k < j
      ensures a[k] == b[k]
    {
      assert a[k] == a[lo..][k - lo] && b[k] == b[lo..][k - lo];
    }
  }

  /**
   * The set-up before hashMem: page 0 from the stretched key, the context
   * over memory with `lastPageData = mem[0]`, and its key from page 0's
   * first 8 words.
   */
  method Seed(prf: Prf, derivedKey: array<byte>, salt: seq<byte>, m: array<Word>, z: Sizes, mult: nat,
              ghost password: seq<byte>, ghost rounds: nat)
    returns (c: Context)
    requires Pbkdf2Ok(prf) && RefSizesOk(z) && m.Length == z.memoryLength
    requires derivedKey[..] == prf(password, salt, rounds, derivedKey.Length)
    modifies m
    ensures fresh(c) && fresh(c.key) && c.Valid() && c.mem == m
    ensures c.pageLength == z.pageLength && c.numPages == z.numPages && c.cpuWorkMultiplier == mult
    ensures c.Current() == RefSeeded(prf, password, salt, rounds, z, derivedKey.Length, old(m[..]))
  {
    ghost var s0 := RefSeeded(prf, password, salt, rounds, z, derivedKey.Length, m[..]);
    RefFirstPage(z);
    WholeWords(z.pageLength);
    StoreWords(m, prf(derivedKey[..], salt, 1, 8 * z.pageLength));
    assert m[..] == s0.mem;
    c := new Context(m, z.pageLength, z.numPages, mult);
    WholeWords(LaneWords);
    ghost var page0 := s0.mem[..z.pageLength];
    assert m[..LaneWords] == page0[..LaneWords];
    var keyBytes := prf(BytesOfWords(m[..LaneWords]), salt, 1, 8 * LaneWords);
    StoreWords(c.key, keyBytes);
    assert c.key[..] == WordsOfBytes(keyBytes);
  }

  /**
   * keystretch, reference version: the stages in the order the code runs
   * them. A failed allocation returns false. On success the derived key
   * is the one the stage functions describe for the memory `malloc`
   * returned, which matters only when the multiplier is 0 and there are
   * two pages or more (RefKeyReadsHeap); the context is wiped, memory is
   * wiped exactly when clearMemory is set and stays allocated unless
   * freeMemory is set.
   * numThreads is ignored. Page offsets, the last page's included, are
   * taken without the 32-bit wrap of the code (PageOffsetWraps).
   */
  method Keystretch(prf: Prf, sha256HashRounds: U32, cpuWorkMultiplier: U32, memorySize: nat, pageSize: U32,
                    numThreads: U32, derivedKey: array<byte>, salt: seq<byte>, password: array<byte>,
                    clearPassword: bool, clearMemory: bool, freeMemory: bool, memAllocOk: bool)
    returns (ok: bool, held: set<Buffer>, mem: array?<Word>, c: Context?, ghost heapWords: seq<Word>)
    requires Pbkdf2Ok(prf) && derivedKey != password && derivedKey.Length < TWO32
    requires pageSize >= 8 && RefSizesOk(SizesOf(memorySize, pageSize, derivedKey.Length))
    modifies derivedKey, password
    ensures password[..] == if clearPassword then ZeroBytes(password.Length) else old(password[..])
    ensures ok <==> memAllocOk
    ensures !ok ==> held == {} && derivedKey[..] == prf(old(password[..]), salt, sha256HashRounds, derivedKey.Length)
    ensures ok ==>
              var z := SizesOf(memorySize, pageSize, derivedKey.Length);
              && mem != null && c != null && fresh(mem) && fresh(c) && c.mem == mem
              && |heapWords| == z.memoryLength
              && derivedKey[..] == RefDerivedKey(prf, old(password[..]), salt, sha256HashRounds, cpuWorkMultiplier, z, derivedKey.Length, heapWords)
              && (cpuWorkMultiplier >= 1 || z.numPages == 1 ==>
                    derivedKey[..] == RefDerivedKey(prf, old(password[..]), salt, sha256HashRounds, cpuWorkMultiplier, z, derivedKey.Length,
                                                    Zeros(z.memoryLength)))
              && c.key[..] == Zeros(LaneWords) && c.lastPageData == 0
              && mem[..] == (if clearMemory then Zeros(z.memoryLength)
                             else RefMixed(prf, old(password[..]), salt, sha256HashRounds, cpuWorkMultiplier, z, derivedKey.Length, heapWords).mem)
              && held == (if freeMemory then {} else {MemBuffer})
  {
    ghost var password0 := password[..];
    StretchPassword(prf, sha256HashRounds, derivedKey, salt, password, clearPassword);
    var z := SizesOf(memorySize, pageSize, derivedKey.Length);
    if !memAllocOk {
      ok, held, mem, c, heapWords := false, {}, null, null, [];
      return;
    }
    ok := true;
    mem, c, heapWords := InMemory(prf, derivedKey, salt, z, cpuWorkMultiplier, clearMemory, password0, sha256HashRounds);
    if cpuWorkMultiplier >= 1 || z.numPages == 1 {
      RefDerivedKeyIgnoresHeap(prf, password0, salt, sha256HashRounds, cpuWorkMultiplier, z, derivedKey.Length,
                               heapWords, Zeros(z.memoryLength));
    }
    held := if freeMemory then {} else {MemBuffer};
  }

  /** Allocation, seeding and hashMem: the memory as RefMixed describes it. */
  method Mix(prf: Prf, derivedKey: array<byte>, salt: seq<byte>, z: Sizes, mult: U32,
             ghost password: seq<byte>, ghost rounds: nat)
    returns (m: array<Word>, c: Context, ghost heapWords: seq<Word>)
    requires Pbkdf2Ok(prf) && RefSizesOk(z)
    requires derivedKey[..] == prf(password, salt, rounds, derivedKey.Length)
    ensures fresh(m) && fresh(c) && fresh(c.key) && c.Valid() && c.mem == m && |heapWords| == z.memoryLength
    ensures c.pageLength == z.pageLength && c.numPages == z.numPages
    ensures m[..] == RefMixed(prf, password, salt, rounds, mult, z, derivedKey.Length, heapWords).mem
  {
    m := new Word[z.memoryLength];
    heapWords := m[..];
    c := Seed(prf, derivedKey, salt, m, z, mult, password, rounds);
    c.HashMem();
  }

  /**
   * keystretch once the password is stretched into derivedKey and the
   * memory is allocated: seed it, run hashMem, and finalise.
   */
  method InMemory(prf: Prf, derivedKey: array<byte>, salt: seq<byte>, z: Sizes, mult: U32, clearMemory: bool,
                  ghost password: seq<byte>, ghost rounds: nat)
    returns (m: array<Word>, c: Context, ghost heapWords: seq<Word>)
    requires Pbkdf2Ok(prf) && RefSizesOk(z)
    requires derivedKey[..] == prf(password, salt, rounds, derivedKey.Length)
    modifies derivedKey
    ensures fresh(m) && fresh(c) && c.mem == m && |heapWords| == z.memoryLength
    ensures derivedKey[..] == RefDerivedKey(prf, password, salt, rounds, mult, z, derivedKey.Length, heapWords)
    ensures c.key[..] == Zeros(LaneWords) && c.lastPageData == 0
    ensures m[..] == if clearMemory then Zeros(z.memoryLength)
                     else RefMixed(prf, password, salt, rounds, mult, z, derivedKey.Length, heapWords).mem
  {
    m, c, heapWords := Mix(prf, derivedKey, salt, z, mult, password, rounds);
    ghost var mixed := RefMixed(prf, password, salt, rounds, mult, z, derivedKey.Length, heapWords);
    ghost var dk := RefDerivedKey(prf, password, salt, rounds, mult, z, derivedKey.Length, heapWords);
    KeyOfLastPage(prf, password, salt, rounds, mult, z, derivedKey.Length, heapWords, mixed.mem);
    var last := PageOffset(z.numPages - 1, z.pageLength);
    var keyBytes := prf(BytesOfWords(m[last .. last + z.pageLength]), salt, 1, derivedKey.Length);
    assert keyBytes == dk;
    StoreBytes(derivedKey, keyBytes);
    assert m[..] == mixed.mem;
    c.Wipe();
    assert m[..] == mixed.mem && derivedKey[..] == dk;
    if clearMemory {
      WipeWords(m);
    }
  }

  /** The reference context (`struct ContextStruct`), over memory it shares with keystretch. */
  class Context {
    /** `key[8]`. */
    const key: array<Word>
    var lastPageData: Word
    const mem: array<Word>
    const pageLength: nat
    const numPages: nat
    const cpuWorkMultiplier: nat

    predicate Valid()
    {
      key.Length == LaneWords && key != mem && 1 <= pageLength && mem.Length == numPages * pageLength
    }

    /** The memory and the hashing state as values. */
    function Current(): State
      reads this, key, mem
    {
      State(mem[..], Lane(key[..], lastPageData))
    }

    /**
     * keystretch's set-up of the context: memory, sizes and multiplier,
     * `lastPageData = mem[0]`. The key gets its value from PBKDF2 right after.
     */
    constructor (mem: array<Word>, pageLength: nat, numPages: nat, cpuWorkMultiplier: nat)
      requires 1 <= pageLength && 1 <= numPages && mem.Length == numPages * pageLength
      ensures Valid() && fresh(key)
      ensures this.mem == mem && this.pageLength == pageLength && this.numPages == numPages
      ensures this.cpuWorkMultiplier == cpuWorkMultiplier && lastPageData == mem[0]
    {
      MulGrows(1, numPages, pageLength);
      this.mem := mem;
      this.pageLength := pageLength;
      this.numPages := numPages;
      this.cpuWorkMultiplier := cpuWorkMultiplier;
      this.lastPageData := mem[0];
      this.key := new Word[LaneWords](_ => 0);
    }

    /**
     * One iteration of fillPage's inner loop: read `fromPage[i]`, update
     * key word `i & 7` with it, store that key word at `t`, and remember
     * the word read.
     */
    method StepAt(fromBase: nat, i: nat, t: nat)
      requires Valid() && fromBase + i < t < mem.Length
      modifies key, this`lastPageData, mem
      ensures Current() == StepState(old(Current()), fromBase, i, t)
    {
      var pageData := mem[fromBase + i];
      key[i % 8] := RefMix(key[i % 8], key[(i + 1) % 8], pageData, lastPageData);
      mem[t] := key[i % 8];
      lastPageData := pageData;
    }

    /**
     * One pass of fillPage's inner loop: pageLength steps reading the source
     * page at fromBase in order and storing through a pointer that starts
     * at toBase.
     */
    method Pass(fromBase: nat, toBase: nat)
      requires Valid() && fromBase + pageLength <= toBase && toBase + pageLength <= mem.Length
      modifies key, this`lastPageData, mem
      ensures Current() == PassOn(old(Current()), pageLength, fromBase, toBase)
    {
      ghost var s0 := Current();
      SpliceEmpty(s0.mem, toBase);
      var i, t := 0, toBase;
      while i < pageLength
        invariant i <= pageLength && t == toBase + i
        invariant Current() == PassState(s0, pageLength, fromBase, toBase, i)
      {
        var i1 := i + 1;
        StepAt(fromBase, i, t);
        PassAdvance(s0, pageLength, fromBase, toBase, i, t, i1);
        i, t := i1, t + 1;
      }
    }

    /**
     * fillPage: `while(workMultiplier--)` passes over the destination
     * page, each restarting at its first word. Page offsets are taken
     * without wrapping; the code computes `fromPageNum*c->pageLength` and
     * `toPageNum*c->pageLength` in 32 bits (PageOffsetWraps).
     */
    method FillPage(fromPageNum: nat, toPageNum: nat)
      requires Valid() && fromPageNum < toPageNum < numPages
      modifies key, this`lastPageData, mem
      ensures (PagesDisjoint(fromPageNum, toPageNum, pageLength, numPages);
               Current() == FillPasses(old(Current()), pageLength, PageOffset(fromPageNum, pageLength),
                                       PageOffset(toPageNum, pageLength), cpuWorkMultiplier))
    {
      var fromBase := PageOffset(fromPageNum, pageLength);
      PagesDisjoint(fromPageNum, toPageNum, pageLength, numPages);
      ghost var s0 := Current();
      var workMultiplier := cpuWorkMultiplier;
      ghost var pass := 0;
      while workMultiplier > 0
        invariant pass + workMultiplier == cpuWorkMultiplier
        invariant Current() == FillPasses(s0, pageLength, fromBase, PageOffset(toPageNum, pageLength), pass)
      {
        workMultiplier := workMultiplier - 1;
        var toBase := PageOffset(toPageNum, pageLength);
        Pass(fromBase, toBase);
        pass := pass + 1;
      }
    }

    /** hashMem: pages 1 .. numPages-1 in order, each from `(uint32)key[0] % toPageNum`. */
    method HashMem()
      requires Valid()
      modifies key, this`lastPageData, mem
      ensures Current() == RefSchedule(old(Current()), pageLength, numPages, cpuWorkMultiplier, FirstStop(numPages))
    {
      ghost var s0 := Current();
      var toPageNum := 1;
      while toPageNum < numPages
        invariant 1 <= toPageNum <= FirstStop(numPages)
        invariant Current() == RefSchedule(s0, pageLength, numPages, cpuWorkMultiplier, toPageNum)
      {
        var hash := key[0] % TWO32;
        var fromPageNum := hash % toPageNum;
        FillPage(fromPageNum, toPageNum);
        var next := toPageNum + 1;
        RefScheduleStep(s0, pageLength, numPages, cpuWorkMultiplier, toPageNum, next);
        toPageNum := next;
      }
    }

    /** `memset(&c, 0, sizeof c)` as far as the hashing state goes. */
    method Wipe()
      requires Valid()
      modifies key, this`lastPageData
      ensures key[..] == Zeros(LaneWords) && lastPageData == 0
    {
      WipeWords(key);
      lastPageData := 0;
    }
  }
}
