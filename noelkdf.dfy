// The memory-filling benchmark of noelkdf.c: page 0 comes from PBKDF2,
// and every later page is hashed from the page before it and an earlier
// page picked by the previous page's first word. The page length and the
// number of pages, constants in the benchmark, are parameters here.

module NoelKdf {
  import opened Words
  import opened Engine
  import opened Keystretch

  /** NUM_THREADS. */
  const NumThreads: nat := 1
  /** TOTAL_MEM: 2 GiB. */
  const TotalMem: nat := 0x8000_0000
  /** PAGE_LENGTH: a 16 KiB page in 64-bit words. */
  const PageLength: nat := 16 * 1024 / 8
  /** NUM_PAGES. */
  const NumPages: nat := TotalMem / (NumThreads * 8 * PageLength)

  /** The bytes of "this is a dummy salt". */
  const SaltText: seq<byte> := [0x74, 0x68, 0x69, 0x73, 0x20, 0x69, 0x73, 0x20, 0x61, 0x20,
                                0x64, 0x75, 0x6d, 0x6d, 0x79, 0x20, 0x73, 0x61, 0x6c, 0x74]

  /**
   * `sizeof(salt)` where salt is a `char *`: the size of a pointer, 8 bytes
   * on an LP64 platform, so PBKDF2 sees only the first 8 bytes of the text.
   */
  const SaltLength: nat := 8

  // ---------------------------------------------------------------------
  // hashPage

  /** Successor and Predecessor are the neighbours modulo L, in both directions. */
  lemma NeighboursModulo(j: nat, L: nat)
    requires j < L
    ensures Successor(j, L) == (j + 1) % L && Predecessor(j, L) == (j + L - 1) % L
    ensures Predecessor(Successor(j, L), L) == j && Successor(Predecessor(j, L), L) == j
  {
    if j + 1 == L {
      DivModUnique(j + 1, L, 1, 0);
    } else {
      DivModUnique(j + 1, L, 0, j + 1);
    }
    if j == 0 {
      DivModUnique(L - 1, L, 0, L - 1);
    } else {
      DivModUnique(j + L - 1, L, 1, j - 1);
    }
  }

  /**
   * Word j of a hashed page: the previous page's word j plus the product of
   * the source page's word j with the previous page's next word, exclusive-or
   * the source page's word before j, all modulo 2^64 and both neighbours
   * taken round the page.
   */
  function HashedWord(prev: seq<Word>, from: seq<Word>, j: nat): Word
    requires |prev| == |from| && j < |prev|
  {
    Add(prev[j], Xor(Mul(from[j], prev[Successor(j, |prev|)]), from[Predecessor(j, |prev|)]))
  }

  /** The first n words of the page hashPage writes. */
  function HashedPrefix(prev: seq<Word>, from: seq<Word>, n: nat): (page: seq<Word>)
    requires |prev| == |from| && n <= |prev|
    ensures |page| == n
    decreases n
  {
    if n == 0 then [] else HashedPrefix(prev, from, n - 1) + [HashedWord(prev, from, n - 1)]
  }

  /** Word j of a prefix is word j of the page, however long the prefix. */
  lemma {:induction false} HashedPrefixAt(prev: seq<Word>, from: seq<Word>, n: nat, j: nat)
    requires |prev| == |from| && j < n <= |prev|
    ensures HashedPrefix(prev, from, n)[j] == HashedWord(prev, from, j)
    decreases n
  {
    if j < n - 1 {
      HashedPrefixAt(prev, from, n - 1, j);
    }
  }

  /** The page hashPage writes: word j is HashedWord for every j. */
  function HashedPage(prev: seq<Word>, from: seq<Word>): (page: seq<Word>)
    requires |prev| == |from|
    ensures |page| == |prev|
  {
    HashedPrefix(prev, from, |prev|)
  }

  /** The page as a whole: every word of it is the hashed word at its place. */
  lemma HashedPageWords(prev: seq<Word>, from: seq<Word>)
    requires |prev| == |from|
    ensures forall j :: 0 <= j < |prev| ==> HashedPage(prev, from)[j] == HashedWord(prev, from, j)
  {
    forall j | 0 <= j < |prev|
      ensures HashedPage(prev, from)[j] == HashedWord(prev, from, j)
    {
      HashedPrefixAt(prev, from, |prev|, j);
    }
  }

  /**
   * The page's first and last words as hashPage writes them outside its
   * loop: the first reads the source page's last word, the last reads the
   * previous page's first word.
   */
  lemma HashedPageEnds(prev: seq<Word>, from: seq<Word>)
    requires |prev| == |from| && |prev| >= 2
    ensures var L := |prev|;
            && HashedWord(prev, from, 0) == Add(prev[0], Xor(Mul(from[0], prev[1]), from[L - 1]))
            && HashedWord(prev, from, L - 1) == Add(prev[L - 1], Xor(Mul(from[L - 1], prev[0]), from[L - 2]))
  {
  }

  /** Inside the page both neighbours are the plain ones. */
  lemma HashedPageInside(prev: seq<Word>, from: seq<Word>, j: nat)
    requires |prev| == |from| && 1 <= j && j + 1 < |prev|
    ensures HashedWord(prev, from, j) == Add(prev[j], Xor(Mul(from[j], prev[j + 1]), from[j - 1]))
  {
  }

  /**
   * With i words stored at toBase, the words that hashPage reads for word
   * i, all below toBase, are still those of the two source pages.
   */
  lemma ReadsBelow(m0: seq<Word>, prevBase: nat, fromBase: nat, toBase: nat, L: nat, i: nat, words: seq<Word>, cur: seq<Word>,
                   p: nat, f: nat, pn: nat, fp: nat)
    requires prevBase + L <= toBase && fromBase + L <= toBase && toBase + L <= |m0| && i < L && |words| == i
    requires p == prevBase + i && f == fromBase + i && pn == prevBase + Successor(i, L) && fp == fromBase + Predecessor(i, L)
    requires cur == Splice(m0, toBase, words)
    ensures var prev, from := m0[prevBase .. prevBase + L], m0[fromBase .. fromBase + L];
            cur[p] == prev[i] && cur[f] == from[i] && cur[pn] == prev[Successor(i, L)] && cur[fp] == from[Predecessor(i, L)]
  {
    SameOutsideBelow(cur, m0, toBase, toBase + i);
    assert cur[p] == cur[..toBase][p] && cur[f] == cur[..toBase][f];
    assert cur[pn] == cur[..toBase][pn] && cur[fp] == cur[..toBase][fp];
  }

  /** HashedWord of the four words it reads, however they were fetched. */
  lemma HashedWordOf(prev: seq<Word>, from: seq<Word>, i: nat, p: Word, f: Word, pn: Word, fp: Word)
    requires |prev| == |from| && i < |prev|
    requires p == prev[i] && f == from[i] && pn == prev[Successor(i, |prev|)] && fp == from[Predecessor(i, |prev|)]
    ensures HashedWord(prev, from, i) == Add(p, Xor(Mul(f, pn), fp))
  {
  }

  /** Storing word i of the page after the first i words extends the stored prefix by one. */
  lemma StorePrefixNext(m0: seq<Word>, at: nat, prev: seq<Word>, from: seq<Word>, i: nat, i': nat, w: Word)
    requires |prev| == |from| && i < |prev| && at + |prev| <= |m0| && i' == i + 1 && w == HashedWord(prev, from, i)
    ensures Splice(m0, at, HashedPrefix(prev, from, i))[at + i := w] == Splice(m0, at, HashedPrefix(prev, from, i'))
  {
    var page := HashedPrefix(prev, from, i);
    assert HashedPrefix(prev, from, i') == page + [w];
    SpliceNext(m0, at, page, w);
  }

  /**
   * One store of hashPage: word i of the page, read through the addresses
   * p and f of word i of the two source pages and the addresses pn and fp
   * of its neighbours, is stored at toBase + i.
   */
  method StoreWord(mem: array<Word>, ghost m0: seq<Word>, prevBase: nat, fromBase: nat, toBase: nat, L: nat,
                   i: nat, ghost i': nat, p: nat, f: nat, pn: nat, fp: nat)
    requires prevBase + L <= toBase && fromBase + L <= toBase && toBase + L <= |m0| && i < L && i' == i + 1
    requires p == prevBase + i && f == fromBase + i && pn == prevBase + Successor(i, L) && fp == fromBase + Predecessor(i, L)
    requires mem[..] == Splice(m0, toBase, HashedPrefix(m0[prevBase .. prevBase + L], m0[fromBase .. fromBase + L], i))
    modifies mem
    ensures mem[..] == Splice(m0, toBase, HashedPrefix(m0[prevBase .. prevBase + L], m0[fromBase .. fromBase + L], i'))
  {
    ghost var cur := mem[..];
    ghost var prev, from := m0[prevBase .. prevBase + L], m0[fromBase .. fromBase + L];
    ReadsBelow(m0, prevBase, fromBase, toBase, L, i, HashedPrefix(prev, from, i), cur, p, f, pn, fp);
    var w := Add(mem[p], Xor(Mul(mem[f], mem[pn]), mem[fp]));
    HashedWordOf(prev, from, i, mem[p], mem[f], mem[pn], mem[fp]);
    StorePrefixNext(m0, toBase, prev, from, i, i', w);
    mem[toBase + i] := w;
    assert mem[..] == cur[toBase + i := w];
  }

  /**
   * hashPage: the L words from toBase on become the hash of the page at
   * prevBase with the page at fromBase, both of which lie below toBase,
   * and nothing else in memory changes.
   */
  method HashPage(mem: array<Word>, toBase: nat, prevBase: nat, fromBase: nat, pageLength: nat)
    requires 2 <= pageLength
    requires prevBase + pageLength <= toBase && fromBase + pageLength <= toBase && toBase + pageLength <= mem.Length
    modifies mem
    ensures mem[..] == Splice(old(mem[..]), toBase,
                              HashedPage(old(mem[prevBase .. prevBase + pageLength]), old(mem[fromBase .. fromBase + pageLength])))
  {
    ghost var m0 := mem[..];
    SpliceEmpty(m0, toBase);
    StoreWord(mem, m0, prevBase, fromBase, toBase, pageLength, 0, 1, prevBase, fromBase, prevBase + 1, fromBase + pageLength - 1);
    var i := 1;
    while i < pageLength - 1
      invariant 1 <= i <= pageLength - 1
      invariant mem[..] == Splice(m0, toBase, HashedPrefix(m0[prevBase .. prevBase + pageLength], m0[fromBase .. fromBase + pageLength], i))
    {
      var i1 := i + 1;
      StoreWord(mem, m0, prevBase, fromBase, toBase, pageLength, i, i1, prevBase + i, fromBase + i, prevBase + i + 1, fromBase + i - 1);
      i := i1;
    }
    StoreWord(mem, m0, prevBase, fromBase, toBase, pageLength, i, pageLength, prevBase + i, fromBase + i, prevBase, fromBase + i - 1);
    ghost var prev, from := m0[prevBase .. prevBase + pageLength], m0[fromBase .. fromBase + pageLength];
    assert HashedPage(prev, from) == HashedPrefix(prev, from, pageLength);
  }

  // ---------------------------------------------------------------------
  // hashMem

  /** The source page of page i: `*prevPage % i`, always an earlier page. */
  function FromPage(prev0: Word, i: nat): (from: nat)
    requires i >= 1
    ensures from < i
  {
    prev0 % i
  }

  /** `PAGE_LENGTH*(*prevPage % i)` is the offset of the source page. */
  lemma SourceOffset(prev0: Word, i: nat, L: nat)
    requires i >= 1
    ensures 0 <= L * (prev0 % i) == PageOffset(FromPage(prev0, i), L)
  {
  }

  /** Page 0 as PBKDF2 fills it from the thread's number and the salt. */
  function SeededPage(prf: Prf, threadId: Word, mem: seq<Word>, L: nat): (r: seq<Word>)
    requires Pbkdf2Ok(prf) && L <= |mem|
    ensures |r| == |mem| && r[L..] == mem[L..]
  {
    WordsOf(prf(BytesOfWord(threadId), SaltText[..SaltLength], 1, 8 * L), L) + mem[L..]
  }

  /**
   * One iteration of hashMem's loop: page i is hashed from page i - 1 and
   * page `FromPage` of page i - 1's first word. Only page i changes.
   */
  function PageTurn(s: seq<Word>, L: nat, i: nat): (r: seq<Word>)
    requires 2 <= L && 1 <= i && PageOffset(i, L) + L <= |s|
    ensures SameOutside(r, s, PageOffset(i, L), PageOffset(i, L) + L)
  {
    var prevBase, toBase := PageOffset(i - 1, L), PageOffset(i, L);
    NextPage(i - 1, i, L);
    var from := FromPage(s[prevBase], i);
    EarlierPage(from, i, L);
    var fromBase := PageOffset(from, L);
    Splice(s, toBase, HashedPage(s[prevBase .. prevBase + L], s[fromBase .. fromBase + L]))
  }

  /**
   * hashMem's loop after pages 1, ..., upTo - 1 have been hashed. Page 0
   * and the pages from upTo on are as they were.
   */
  function Filled(mem: seq<Word>, L: nat, upTo: nat): (r: seq<Word>)
    requires 2 <= L && 1 <= upTo && PageOffset(upTo, L) <= |mem|
    ensures SameOutside(r, mem, L, PageOffset(upTo, L))
    decreases upTo
  {
    if upTo == 1 then mem
    else
      var i := upTo - 1;
      NextPage(i, upTo, L);
      LaterPage(1, i, L);
      var s := Filled(mem, L, i);
      var r := PageTurn(s, L, i);
      SameOutsideJoin(r, s, mem, L, PageOffset(i, L), PageOffset(upTo, L));
      r
  }

  /** Filled with the page counts as written at the call: one more page turn. */
  lemma FilledNext(mem: seq<Word>, L: nat, i: nat, next: nat)
    requires 2 <= L && 1 <= i && next == i + 1 && PageOffset(next, L) <= |mem|
    ensures PageOffset(next, L) == PageOffset(i, L) + L
    ensures Filled(mem, L, next) == PageTurn(Filled(mem, L, i), L, i)
  {
    NextPage(i, next, L);
  }

  /** The offsets PageTurn reads and writes lie inside the memory, the two it reads below the one it writes. */
  lemma PageTurnBounds(s: seq<Word>, L: nat, i: nat, prevBase: nat, toBase: nat, fromBase: nat)
    requires 2 <= L && 1 <= i && PageOffset(i, L) + L <= |s|
    requires prevBase == PageOffset(i - 1, L) && toBase == PageOffset(i, L)
    requires fromBase == PageOffset(FromPage(s[prevBase], i), L)
    ensures prevBase + L == toBase && fromBase + L <= toBase
  {
    NextPage(i - 1, i, L);
    EarlierPage(FromPage(s[prevBase], i), i, L);
  }

  /** The store PageTurn makes, given the three page offsets. */
  lemma PageTurnIs(s: seq<Word>, L: nat, i: nat, prevBase: nat, toBase: nat, fromBase: nat)
    requires 2 <= L && 1 <= i && PageOffset(i, L) + L <= |s|
    requires prevBase == PageOffset(i - 1, L) && toBase == PageOffset(i, L)
    requires fromBase == PageOffset(FromPage(s[prevBase], i), L)
    requires prevBase + L == toBase && fromBase + L <= toBase
    ensures PageTurn(s, L, i) == Splice(s, toBase, HashedPage(s[prevBase .. prevBase + L], s[fromBase .. fromBase + L]))
  {
  }

  /**
   * A page once filled stays as it is: between Filled for a pages and for
   * b >= a pages only pages a, ..., b - 1 differ.
   */
  lemma {:induction false} FilledStable(mem: seq<Word>, L: nat, a: nat, b: nat)
    requires 2 <= L && 1 <= a <= b && PageOffset(b, L) <= |mem|
    ensures PageOffset(a, L) <= PageOffset(b, L)
    ensures SameOutside(Filled(mem, L, b), Filled(mem, L, a), PageOffset(a, L), PageOffset(b, L))
    decreases b
  {
    LaterPage(a, b, L);
    if b == a {
      SameOutsideRefl(Filled(mem, L, a), PageOffset(a, L), PageOffset(b, L));
    } else {
      var i := b - 1;
      FilledNext(mem, L, i, b);
      LaterPage(a, i, L);
      FilledStable(mem, L, a, i);
      var s := Filled(mem, L, i);
      var r := Filled(mem, L, b);
      SameOutsideJoin(r, s, Filled(mem, L, a), PageOffset(a, L), PageOffset(i, L), PageOffset(b, L));
    }
  }

  /** What a page turn reads lies below the page it writes, where two memories that agree below it agree. */
  lemma SameReads(s1: seq<Word>, s2: seq<Word>, L: nat, prevBase: nat, toBase: nat, fromBase: nat)
    requires toBase <= |s1| && toBase <= |s2| && s1[..toBase] == s2[..toBase]
    requires prevBase + L == toBase && fromBase + L <= toBase && 1 <= L
    ensures s1[prevBase] == s2[prevBase]
    ensures s1[prevBase .. prevBase + L] == s2[prevBase .. prevBase + L]
    ensures s1[fromBase .. fromBase + L] == s2[fromBase .. fromBase + L]
  {
    assert s1[prevBase] == s1[..toBase][prevBase] && s2[prevBase] == s2[..toBase][prevBase];
    SliceOfPrefix(s1, s2, toBase, prevBase, prevBase + L);
    SliceOfPrefix(s1, s2, toBase, fromBase, fromBase + L);
  }

  /** A page turn reads only below the page it writes: memories that agree below page i agree up to its end afterwards. */
  lemma PageTurnFromPrefix(s1: seq<Word>, s2: seq<Word>, L: nat, i: nat, hi: nat)
    requires 2 <= L && 1 <= i && PageOffset(i, L) + L <= |s1| && |s1| == |s2| && hi == PageOffset(i, L) + L
    requires s1[..PageOffset(i, L)] == s2[..PageOffset(i, L)]
    ensures PageTurn(s1, L, i)[..hi] == PageTurn(s2, L, i)[..hi]
  {
    var prevBase, toBase := PageOffset(i - 1, L), PageOffset(i, L);
    NextPage(i - 1, i, L);
    var fromBase := PageOffset(FromPage(s1[prevBase], i), L);
    PageTurnBounds(s1, L, i, prevBase, toBase, fromBase);
    SameReads(s1, s2, L, prevBase, toBase, fromBase);
    var prev, from := s1[prevBase .. prevBase + L], s1[fromBase .. fromBase + L];
    var page := HashedPage(prev, from);
    PageTurnIs(s1, L, i, prevBase, toBase, fromBase);
    PageTurnIs(s2, L, i, prevBase, toBase, fromBase);
    SplicePrefix(s1, toBase, page, hi);
    SplicePrefix(s2, toBase, page, hi);
  }

  /**
   * The pages filled so far depend on page 0 alone: whatever the rest of
   * the memory held before (malloc does not clear it) is never read before
   * it is written.
   */
  lemma {:induction false} FilledFromPageZero(m1: seq<Word>, m2: seq<Word>, L: nat, upTo: nat)
    requires 2 <= L && 1 <= upTo && PageOffset(upTo, L) <= |m1| && |m1| == |m2| && m1[..L] == m2[..L]
    ensures Filled(m1, L, upTo)[..PageOffset(upTo, L)] == Filled(m2, L, upTo)[..PageOffset(upTo, L)]
    decreases upTo
  {
    if upTo == 1 {
      assert PageOffset(upTo, L) == L;
    } else {
      var i := upTo - 1;
      FilledNext(m1, L, i, upTo);
      FilledNext(m2, L, i, upTo);
      FilledFromPageZero(m1, m2, L, i);
      PageTurnFromPrefix(Filled(m1, L, i), Filled(m2, L, i), L, i, PageOffset(upTo, L));
    }
  }

  /** PBKDF2 of the thread's number, as 8 bytes, with the salt fills page 0. */
  method SeedPage(prf: Prf, mem: array<Word>, pageLength: nat, threadId: Word)
    requires Pbkdf2Ok(prf) && pageLength <= mem.Length
    modifies mem
    ensures mem[..] == SeededPage(prf, threadId, old(mem[..]), pageLength)
  {
    var seed := prf(BytesOfWord(threadId), SaltText[..SaltLength], 1, pageLength * 8);
    WholeWords(pageLength);
    StoreWords(mem, seed);
  }

  /**
   * hashMem for one thread: PBKDF2 fills page 0, then pages 1 to
   * numPages - 1 are hashed in order, `prevPage` always the page just
   * filled and `toPage` the one after it.
   */
  method HashMem(prf: Prf, mem: array<Word>, pageLength: nat, numPages: nat, threadId: Word)
    requires Pbkdf2Ok(prf) && 2 <= pageLength && 1 <= numPages && mem.Length == numPages * pageLength
    modifies mem
    ensures mem[..] == Filled(SeededPage(prf, threadId, old(mem[..]), pageLength), pageLength, numPages)
  {
    LaterPage(1, numPages, pageLength);
    SeedPage(prf, mem, pageLength, threadId);
    ghost var s0 := mem[..];
    var toPage, prevPage := pageLength, 0;
    var i := 1;
    while i < numPages
      invariant 1 <= i <= numPages && toPage == PageOffset(i, pageLength) && prevPage == PageOffset(i - 1, pageLength)
      invariant prevPage + pageLength == toPage && toPage <= |s0|
      invariant mem[..] == Filled(s0, pageLength, i)
    {
      var next := i + 1;
      LaterPage(next, numPages, pageLength);
      FilledNext(s0, pageLength, i, next);
      SourceOffset(mem[prevPage], i, pageLength);
      var fromPage := pageLength * (mem[prevPage] % i);
      ghost var cur := mem[..];
      PageTurnBounds(cur, pageLength, i, prevPage, toPage, fromPage);
      PageTurnIs(cur, pageLength, i, prevPage, toPage, fromPage);
      HashPage(mem, toPage, prevPage, fromPage, pageLength);
      assert mem[..] == PageTurn(cur, pageLength, i);
      prevPage, toPage, i := toPage, toPage + pageLength, next;
    }
    assert i == numPages;
  }
}
