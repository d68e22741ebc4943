/**
 * The page-mixing rule of the production engine (keystretch.c), stated on
 * whole-state values.
 *
 * A walk is what `fillPage` changes as it goes: the memory, the table of
 * lanes, the cursor `k - key` into the lane the page is hashed with,
 * `lastPageData`, the position `i` inside the current group of 8 words and
 * the source address `pageAddr` inside the source page. One hash stores the
 * lane word under the cursor in the destination, reads one source word,
 * folds it into that lane word and moves the cursor on cyclically; after
 * the eighth hash of a group the next group's source address is taken from
 * the last word read, masked with the page mask.
 */
module Engine {
  import opened Words

  /** MAX_THREADS of keystretch.h: the number of lanes, and the look-back margin. */
  const MaxThreads: nat := 16
  /** THREAD_MASK of keystretch.h. */
  const ThreadMask: nat := 15
  /** The words a group reads and stores. */
  const GroupWords: nat := 8

  /**
   * The word rule of keystretch.c: the lane word gains
   * `(pageData*keyData) ^ lastPageData`, all modulo 2^64.
   */
  function MixWord(keyData: Word, pageData: Word, last: Word): Word
  {
    Add(keyData, Xor(Mul(pageData, keyData), last))
  }

  /**
   * What fillPage changes: memory, lane table, cursor `k - key`,
   * `lastPageData`, the inner loop's `i` and `pageAddr`. The datatype is
   * generic in how the memory and the table are held; the model holds
   * them as sequences of words (Walk).
   */
  datatype WalkOf<Store> = Walk(mem: Store, keys: Store, k: nat, last: Word, i: nat, pageAddr: nat)

  /** The state of fillPage over word sequences. */
  type Walk = WalkOf<seq<Word>>

  /** The lane of kl words at `ls` lies in the table, and the cursor in the lane. */
  predicate LaneIn(w: Walk, ls: nat, kl: nat)
  {
    w.k < kl && ls + kl <= |w.keys|
  }

  /**
   * The rest of the current group lies in the source page of mask + 8 words
   * at `fromBase`, and that page lies in memory.
   */
  predicate InSource(w: Walk, fromBase: nat, mask: nat)
  {
    w.i < GroupWords && w.pageAddr + (GroupWords - w.i) <= mask + GroupWords && fromBase + mask + GroupWords <= |w.mem|
  }

  /**
   * One iteration of fillPage's inner loop, storing at `t`:
   * `keyData = *k; *t++ = keyData; pageData = fromPage[pageAddr++];
   * *k++ += (pageData*keyData) ^ lastPageData; if(k == kEnd) k = key;
   * lastPageData = pageData`. After the eighth iteration the next group
   * starts at `lastPageData & pageMask`.
   */
  function Hash(w: Walk, mask: nat, ls: nat, kl: nat, fromBase: nat, t: nat): (r: Walk)
    requires LaneIn(w, ls, kl) && InSource(w, fromBase, mask) && t < |w.mem|
    ensures LaneIn(r, ls, kl) && InSource(r, fromBase, mask) && |r.mem| == |w.mem| && |r.keys| == |w.keys|
  {
    var keyData := w.keys[ls + w.k];
    var mem := w.mem[t := keyData];
    var pageData := mem[fromBase + w.pageAddr];
    var keys := w.keys[ls + w.k := MixWord(keyData, pageData, w.last)];
    var k := if w.k + 1 == kl then 0 else w.k + 1;
    if w.i + 1 == GroupWords then Walk(mem, keys, k, pageData, 0, GroupAddr(pageData, mask))
    else Walk(mem, keys, k, pageData, w.i + 1, w.pageAddr + 1)
  }

  /**
   * A hash that stores elsewhere than it reads: the stored word is the lane
   * word under the cursor, that lane word alone gains the mix of itself, the
   * source word and the last word read, the cursor moves one place round
   * the lane and the source word becomes the last word read.
   */
  lemma HashRule(w: Walk, mask: nat, ls: nat, kl: nat, fromBase: nat, t: nat)
    requires LaneIn(w, ls, kl) && InSource(w, fromBase, mask) && t < |w.mem| && t != fromBase + w.pageAddr
    ensures var r := Hash(w, mask, ls, kl, fromBase, t);
            var keyData := w.keys[ls + w.k];
            var pageData := w.mem[fromBase + w.pageAddr];
            && r.mem == w.mem[t := keyData]
            && r.keys == w.keys[ls + w.k := MixWord(keyData, pageData, w.last)]
            && r.k == Advance(w.k, 1, kl)
            && r.last == pageData
  {
  }

  /** The first n hashes of fillPage, storing from `dst` on. */
  function Hashes(w: Walk, mask: nat, ls: nat, kl: nat, fromBase: nat, dst: nat, n: nat): (r: Walk)
    requires LaneIn(w, ls, kl) && InSource(w, fromBase, mask) && dst + n <= |w.mem|
    ensures LaneIn(r, ls, kl) && InSource(r, fromBase, mask) && |r.mem| == |w.mem| && |r.keys| == |w.keys|
    decreases n
  {
    if n == 0 then w
    else Hash(Hashes(w, mask, ls, kl, fromBase, dst, n - 1), mask, ls, kl, fromBase, dst + (n - 1))
  }

  /** One more hash, storing at t = dst + n. */
  lemma HashesNext(w: Walk, mask: nat, ls: nat, kl: nat, fromBase: nat, dst: nat, n: nat, t: nat)
    requires LaneIn(w, ls, kl) && InSource(w, fromBase, mask) && t == dst + n && t < |w.mem|
    ensures Hashes(w, mask, ls, kl, fromBase, dst, n + 1) == Hash(Hashes(w, mask, ls, kl, fromBase, dst, n), mask, ls, kl, fromBase, t)
  {
  }

  /** a and b are the same length and agree at every index outside [lo, hi). */
  predicate SameOutside(a: seq<Word>, b: seq<Word>, lo: nat, hi: nat)
  {
    |a| == |b| && forall j :: 0 <= j < |a| && !(lo <= j < hi) ==> a[j] == b[j]
  }

  /** No change at all is confined to any range. */
  lemma SameOutsideRefl(a: seq<Word>, lo: nat, hi: nat)
    ensures SameOutside(a, a, lo, hi)
  {
  }

  /** Two rounds of changes confined to [lo, hi) are confined to [lo, hi). */
  lemma SameOutsideTrans(a: seq<Word>, b: seq<Word>, c: seq<Word>, lo: nat, hi: nat)
    requires SameOutside(a, b, lo, hi) && SameOutside(b, c, lo, hi)
    ensures SameOutside(a, c, lo, hi)
  {
  }

  /** Changes confined to [lo, mid) followed by changes confined to [mid, hi) are confined to [lo, hi). */
  lemma SameOutsideJoin(a: seq<Word>, b: seq<Word>, c: seq<Word>, lo: nat, mid: nat, hi: nat)
    requires lo <= mid <= hi && SameOutside(a, b, mid, hi) && SameOutside(b, c, lo, mid)
    ensures SameOutside(a, c, lo, hi)
  {
  }

  /** mem with the words from `at` on replaced by `words`: what a loop storing `words` through a pointer at `at` leaves. */
  function Splice(mem: seq<Word>, at: nat, words: seq<Word>): (r: seq<Word>)
    requires at + |words| <= |mem|
    ensures SameOutside(r, mem, at, at + |words|)
    ensures r[at .. at + |words|] == words
  {
    mem[..at] + words + mem[at + |words|..]
  }

  /** Sequences that agree below n agree on every slice below n. */
  lemma SliceOfPrefix(s1: seq<Word>, s2: seq<Word>, n: nat, x: nat, y: nat)
    requires n <= |s1| && n <= |s2| && s1[..n] == s2[..n] && x <= y <= n
    ensures s1[x..y] == s2[x..y]
  {
    assert forall j :: x <= j < y ==> s1[j] == s1[..n][j] && s2[j] == s2[..n][j];
  }

  /** Storing words at `at` leaves the prefix before `at` followed by the words. */
  lemma SplicePrefix(s: seq<Word>, at: nat, words: seq<Word>, hi: nat)
    requires at + |words| <= |s| && hi == at + |words|
    ensures Splice(s, at, words)[..hi] == s[..at] + words
  {
  }

  /** Storing nothing changes nothing. */
  lemma SpliceEmpty(mem: seq<Word>, at: nat)
    requires at <= |mem|
    ensures Splice(mem, at, []) == mem
  {
  }

  /** Storing one more word continues the splice. */
  lemma SpliceNext(mem: seq<Word>, at: nat, words: seq<Word>, w: Word)
    requires at + |words| < |mem|
    ensures Splice(mem, at, words + [w]) == Splice(mem, at, words)[at + |words| := w]
  {
  }

  /** A second splice of the same length at the same place hides the first. */
  lemma SpliceTwice(mem: seq<Word>, at: nat, a: seq<Word>, b: seq<Word>)
    requires at + |a| <= |mem| && |a| == |b|
    ensures Splice(Splice(mem, at, a), at, b) == Splice(mem, at, b)
  {
  }

  /** Changes confined to [lo, hi) leave any slice that misses [lo, hi) as it was. */
  lemma SameOutsideSlice(a: seq<Word>, b: seq<Word>, lo: nat, hi: nat, x: nat, y: nat)
    requires SameOutside(a, b, lo, hi) && x <= y <= |a| && (y <= lo || hi <= x)
    ensures a[x..y] == b[x..y]
  {
    assert forall j :: 0 <= j < y - x ==> a[x..y][j] == b[x..y][j];
  }

  /** Changes confined to [lo, hi) leave the prefix before lo as it was. */
  lemma SameOutsideBelow(a: seq<Word>, b: seq<Word>, lo: nat, hi: nat)
    requires SameOutside(a, b, lo, hi) && lo <= |a|
    ensures a[..lo] == b[..lo]
  {
    assert forall j :: 0 <= j < lo ==> a[..lo][j] == b[..lo][j];
  }

  /** One hash stores the lane word under the cursor at `t`, and nothing else in memory changes. */
  lemma HashStores(w: Walk, mask: nat, ls: nat, kl: nat, fromBase: nat, t: nat, x: nat)
    requires LaneIn(w, ls, kl) && InSource(w, fromBase, mask) && t < |w.mem| && x < |w.mem|
    ensures Hash(w, mask, ls, kl, fromBase, t).mem[x] == if x == t then w.keys[ls + w.k] else w.mem[x]
  {
  }

  /** One hash changes only the lane word under the cursor. */
  lemma HashKeepsKeys(w: Walk, mask: nat, ls: nat, kl: nat, fromBase: nat, t: nat, y: nat)
    requires LaneIn(w, ls, kl) && InSource(w, fromBase, mask) && t < |w.mem| && y < |w.keys| && !(ls <= y < ls + kl)
    ensures Hash(w, mask, ls, kl, fromBase, t).keys[y] == w.keys[y]
  {
  }

  /** n hashes leave every word outside the n words from `dst` on as it was. */
  lemma {:induction false} HashesKeeps(w: Walk, mask: nat, ls: nat, kl: nat, fromBase: nat, dst: nat, n: nat, x: nat)
    requires LaneIn(w, ls, kl) && InSource(w, fromBase, mask) && dst + n <= |w.mem|
    requires x < |w.mem| && !(dst <= x < dst + n)
    ensures Hashes(w, mask, ls, kl, fromBase, dst, n).mem[x] == w.mem[x]
    decreases n
  {
    if n > 0 {
      HashesKeeps(w, mask, ls, kl, fromBase, dst, n - 1, x);
      HashStores(Hashes(w, mask, ls, kl, fromBase, dst, n - 1), mask, ls, kl, fromBase, dst + (n - 1), x);
    }
  }

  /** n hashes leave every lane table word outside the lane as it was. */
  lemma {:induction false} HashesKeepKeys(w: Walk, mask: nat, ls: nat, kl: nat, fromBase: nat, dst: nat, n: nat, y: nat)
    requires LaneIn(w, ls, kl) && InSource(w, fromBase, mask) && dst + n <= |w.mem|
    requires y < |w.keys| && !(ls <= y < ls + kl)
    ensures Hashes(w, mask, ls, kl, fromBase, dst, n).keys[y] == w.keys[y]
    decreases n
  {
    if n > 0 {
      HashesKeepKeys(w, mask, ls, kl, fromBase, dst, n - 1, y);
      HashKeepsKeys(Hashes(w, mask, ls, kl, fromBase, dst, n - 1), mask, ls, kl, fromBase, dst + (n - 1), y);
    }
  }

  /**
   * n hashes store only into the n words from `dst` on and change only the
   * lane's words of the table.
   */
  lemma HashesFrame(w: Walk, mask: nat, ls: nat, kl: nat, fromBase: nat, dst: nat, n: nat)
    requires LaneIn(w, ls, kl) && InSource(w, fromBase, mask) && dst + n <= |w.mem|
    ensures var r := Hashes(w, mask, ls, kl, fromBase, dst, n);
            SameOutside(r.mem, w.mem, dst, dst + n) && SameOutside(r.keys, w.keys, ls, ls + kl)
  {
    var r := Hashes(w, mask, ls, kl, fromBase, dst, n);
    forall x | 0 <= x < |r.mem| && !(dst <= x < dst + n)
      ensures r.mem[x] == w.mem[x]
    {
      HashesKeeps(w, mask, ls, kl, fromBase, dst, n, x);
    }
    forall y | 0 <= y < |r.keys| && !(ls <= y < ls + kl)
      ensures r.keys[y] == w.keys[y]
    {
      HashesKeepKeys(w, mask, ls, kl, fromBase, dst, n, y);
    }
  }

  /** The cursor of a lane of kl words after n moves one place on from k, wrapping at kl. */
  function Advance(k: nat, n: nat, kl: nat): (c: nat)
    requires k < kl
    ensures c < kl
  {
    if n == 0 then k
    else
      var c := Advance(k, n - 1, kl);
      if c + 1 == kl then 0 else c + 1
  }

  lemma NextModulo(x: nat, n: nat)
    requires n >= 1 && x % n + 1 < n
    ensures (x + 1) % n == x % n + 1
  {
    DivModUnique(x + 1, n, x / n, x % n + 1);
  }

  lemma NextModuloWraps(x: nat, n: nat)
    requires n >= 1 && x % n + 1 == n
    ensures (x + 1) % n == 0
  {
    DivModUnique(x + 1, n, x / n + 1, 0);
  }

  /** Moving a cursor that stands at x modulo n one place on, wrapping at n, leaves it at x + 1 modulo n. */
  lemma CursorStep(x: nat, x1: nat, n: nat, c: nat, c1: nat)
    requires n >= 1 && c == x % n && x1 == x + 1 && c1 == (if c + 1 == n then 0 else c + 1)
    ensures c1 == x1 % n
  {
    if c + 1 < n {
      NextModulo(x, n);
    } else {
      NextModuloWraps(x, n);
    }
  }

  /** n moves round a lane of kl words from k end at (k + n) modulo kl. */
  lemma {:induction false} AdvanceIsModulo(k: nat, n: nat, kl: nat)
    requires k < kl
    ensures Advance(k, n, kl) == (k + n) % kl
  {
    if n == 0 {
      DivModUnique(k, kl, 0, k);
    } else {
      var m := n - 1;
      AdvanceIsModulo(k, m, kl);
      CursorStep(k + m, k + n, kl, Advance(k, m, kl), Advance(k, n, kl));
    }
  }

  /** n hashes move the lane cursor n places round the lane, and the position in the group n places round the group. */
  lemma {:induction false} HashesCursor(w: Walk, mask: nat, ls: nat, kl: nat, fromBase: nat, dst: nat, n: nat)
    requires LaneIn(w, ls, kl) && InSource(w, fromBase, mask) && dst + n <= |w.mem|
    ensures Hashes(w, mask, ls, kl, fromBase, dst, n).k == Advance(w.k, n, kl)
    ensures Hashes(w, mask, ls, kl, fromBase, dst, n).i == Advance(w.i, n, GroupWords)
    decreases n
  {
    if n > 0 {
      HashesCursor(w, mask, ls, kl, fromBase, dst, n - 1);
    }
  }

  /** Hash j stores the lane word under the cursor as the first j hashes left it. */
  lemma HashesStoresAt(w: Walk, mask: nat, ls: nat, kl: nat, fromBase: nat, dst: nat, j: nat)
    requires LaneIn(w, ls, kl) && InSource(w, fromBase, mask) && dst + j < |w.mem|
    ensures var p := Hashes(w, mask, ls, kl, fromBase, dst, j);
            Hashes(w, mask, ls, kl, fromBase, dst, j + 1).mem[dst + j] == p.keys[ls + p.k]
  {
    HashesNext(w, mask, ls, kl, fromBase, dst, j, dst + j);
    HashStores(Hashes(w, mask, ls, kl, fromBase, dst, j), mask, ls, kl, fromBase, dst + j, dst + j);
  }

  /** The hashes after hash j store elsewhere than hash j did. */
  lemma {:induction false} HashesKeepStored(w: Walk, mask: nat, ls: nat, kl: nat, fromBase: nat, dst: nat, n: nat, j: nat)
    requires LaneIn(w, ls, kl) && InSource(w, fromBase, mask) && dst + n <= |w.mem|
    requires j < n
    ensures Hashes(w, mask, ls, kl, fromBase, dst, n).mem[dst + j] == Hashes(w, mask, ls, kl, fromBase, dst, j + 1).mem[dst + j]
    decreases n
  {
    if j + 1 < n {
      HashesKeepStored(w, mask, ls, kl, fromBase, dst, n - 1, j);
      HashStores(Hashes(w, mask, ls, kl, fromBase, dst, n - 1), mask, ls, kl, fromBase, dst + (n - 1), dst + j);
    }
  }

  /**
   * Hash j stores the lane word under the cursor as the first j hashes left
   * it, i.e. before hash j folds its source word into it; later hashes store
   * elsewhere.
   */
  lemma HashesStores(w: Walk, mask: nat, ls: nat, kl: nat, fromBase: nat, dst: nat, n: nat, j: nat)
    requires LaneIn(w, ls, kl) && InSource(w, fromBase, mask) && dst + n <= |w.mem|
    requires j < n
    ensures var p := Hashes(w, mask, ls, kl, fromBase, dst, j);
            Hashes(w, mask, ls, kl, fromBase, dst, n).mem[dst + j] == p.keys[ls + p.k]
  {
    HashesStoresAt(w, mask, ls, kl, fromBase, dst, j);
    HashesKeepStored(w, mask, ls, kl, fromBase, dst, n, j);
  }

  /**
   * While the source page lies before the stores, hash j reads the source
   * word at `pageAddr` as it was before the fill, and makes it the last word
   * read.
   */
  lemma HashReadsSource(w: Walk, mask: nat, ls: nat, kl: nat, fromBase: nat, dst: nat, j: nat)
    requires LaneIn(w, ls, kl) && InSource(w, fromBase, mask) && dst + j < |w.mem| && fromBase + mask + GroupWords <= dst
    ensures var p := Hashes(w, mask, ls, kl, fromBase, dst, j);
            Hashes(w, mask, ls, kl, fromBase, dst, j + 1).last == w.mem[fromBase + p.pageAddr]
  {
    var p := Hashes(w, mask, ls, kl, fromBase, dst, j);
    HashesKeeps(w, mask, ls, kl, fromBase, dst, j, fromBase + p.pageAddr);
    HashesNext(w, mask, ls, kl, fromBase, dst, j, dst + j);
    HashRule(p, mask, ls, kl, fromBase, dst + j);
  }

  // ---------------------------------------------------------------------
  // What a fill reads

  /** a and b are the same length and agree at every index below lo. */
  predicate AgreeBelow(a: seq<Word>, b: seq<Word>, lo: nat)
  {
    |a| == |b| && lo <= |a| && forall j :: 0 <= j < lo ==> a[j] == b[j]
  }

  /** Two walks that can differ only in memory, and there only from lo on. */
  predicate WalksAgree(a: Walk, b: Walk, lo: nat)
  {
    && a.keys == b.keys && a.k == b.k && a.last == b.last && a.i == b.i && a.pageAddr == b.pageAddr
    && AgreeBelow(a.mem, b.mem, lo)
  }

  function Max(a: nat, b: nat): nat
  {
    if a < b then b else a
  }

  /**
   * A hash reads only its source word: on two walks that differ only from
   * lo on, with the source page below lo and the store at or below lo, it
   * stores the same word, leaves the same lane, and the walks then differ
   * only from hi = max(lo, t + 1) on.
   */
  lemma HashAgree(a: Walk, b: Walk, mask: nat, ls: nat, kl: nat, fromBase: nat, t: nat, lo: nat, hi: nat)
    requires LaneIn(a, ls, kl) && InSource(a, fromBase, mask) && t < |a.mem|
    requires WalksAgree(a, b, lo) && t <= lo && fromBase + mask + GroupWords <= lo && hi == Max(lo, t + 1)
    ensures LaneIn(b, ls, kl) && InSource(b, fromBase, mask)
    ensures WalksAgree(Hash(a, mask, ls, kl, fromBase, t), Hash(b, mask, ls, kl, fromBase, t), hi)
  {
  }

  /**
   * n hashes storing from dst on, with the source page below dst: walks that
   * differ only from lo >= dst on end differing only from hi = max(lo, dst + n) on.
   */
  lemma {:induction false} HashesAgree(a: Walk, b: Walk, mask: nat, ls: nat, kl: nat, fromBase: nat, dst: nat, n: nat,
                                       lo: nat, hi: nat)
    requires LaneIn(a, ls, kl) && InSource(a, fromBase, mask) && dst + n <= |a.mem|
    requires WalksAgree(a, b, lo) && dst <= lo && fromBase + mask + GroupWords <= dst && hi == Max(lo, dst + n)
    ensures LaneIn(b, ls, kl) && InSource(b, fromBase, mask)
    ensures WalksAgree(Hashes(a, mask, ls, kl, fromBase, dst, n), Hashes(b, mask, ls, kl, fromBase, dst, n), hi)
    decreases n
  {
    if n > 0 {
      var m := n - 1;
      var t := dst + m;
      var mid := Max(lo, t);
      HashesAgree(a, b, mask, ls, kl, fromBase, dst, m, lo, mid);
      var pa := Hashes(a, mask, ls, kl, fromBase, dst, m);
      var pb := Hashes(b, mask, ls, kl, fromBase, dst, m);
      HashAgree(pa, pb, mask, ls, kl, fromBase, t, mid, hi);
      HashesNext(a, mask, ls, kl, fromBase, dst, m, t);
      HashesNext(b, mask, ls, kl, fromBase, dst, m, t);
    }
  }

  // ---------------------------------------------------------------------
  // Addresses inside a page

  /** The source address of a group: `lastPageData & pageMask`. */
  function GroupAddr(last: Word, mask: nat): (a: nat)
    ensures a <= mask
  {
    AndAtMost(last, mask);
    BitAnd(last, mask)
  }

  /** Page lengths the engine is meant for: a power of two of at least 8 words that fits a uint32. */
  predicate PageLengthOk(pageLength: nat)
  {
    8 <= pageLength < TWO32 && IsPow2(pageLength)
  }

  /** `(pageLength - 1) & ~7` in uint32 arithmetic. */
  function PageMask(pageLength: nat): (mask: nat)
    requires PageLengthOk(pageLength)
    ensures mask == pageLength - 8
  {
    PageMaskIs(pageLength);
    BitAnd(pageLength - 1, TWO32 - 8)
  }

  lemma PageMaskIs(pageLength: nat)
    requires PageLengthOk(pageLength)
    ensures BitAnd(pageLength - 1, TWO32 - 8) == pageLength - 8
  {
    var lg := Log2(pageLength);
    PageLengthLog(pageLength);
    Pow2Of32();
    PageMaskValue(lg, 32);
  }

  /** The exponent of an engine page length lies between 3 and 31. */
  lemma PageLengthLog(pageLength: nat)
    requires PageLengthOk(pageLength)
    ensures 3 <= Log2(pageLength) < 32
  {
    var lg := Log2(pageLength);
    Pow2Word();
    if lg >= 32 {
      Pow2Monotone(32, lg);
    }
  }

  /**
   * Every group reads 8 words that start at a multiple of 8 and lie inside
   * the source page.
   */
  lemma GroupReadsInPage(last: Word, pageLength: nat)
    requires PageLengthOk(pageLength)
    ensures GroupAddr(last, PageMask(pageLength)) % 8 == 0
    ensures GroupAddr(last, PageMask(pageLength)) + 8 <= pageLength
  {
    PowerOfTwoMultipleOf8(pageLength);
    MaskedAddressInPage(last, pageLength);
  }

  /** Groups per pass over a page: every word of the page is written once. */
  function GroupsPerPass(pageLength: nat): nat
  {
    pageLength / 8
  }

  lemma PageLengthLogAtLeast3(L: nat)
    requires L >= 8 && IsPow2(L)
    ensures Log2(L) >= 3
  {
  }

  lemma PowerOfTwoMultipleOf8(L: nat)
    requires L >= 8 && IsPow2(L)
    ensures L % 8 == 0 && GroupWords * (L / 8) == L
  {
    var lg := Log2(L);
    PageLengthLogAtLeast3(L);
    Pow2Add(3, lg - 3);
    assert Pow2(3) == 8;
  }

  // ---------------------------------------------------------------------
  // Filling one page

  /** Where fillPage works: the lane lies in the table, the source page before the destination page, both in memory. */
  predicate FillOk(mem: seq<Word>, keys: seq<Word>, pageLength: nat, ls: nat, kl: nat, fromBase: nat, toBase: nat)
  {
    && PageLengthOk(pageLength) && 1 <= kl && ls + kl <= |keys|
    && fromBase + pageLength <= toBase && toBase + pageLength <= |mem|
  }

  /**
   * The state fillPage starts from: the cursor at the lane's first word,
   * `lastPageData = 1`, and the first group's source address `1 & pageMask`.
   */
  function Start(mem: seq<Word>, keys: seq<Word>, mask: nat): Walk
  {
    Walk(mem, keys, 0, 1, 0, GroupAddr(1, mask))
  }

  /**
   * p passes of `len` hashes each over the same destination: the lane,
   * cursor and last word carry from pass to pass, and each pass stores over
   * the previous pass's words.
   */
  function Passes(w: Walk, mask: nat, ls: nat, kl: nat, fromBase: nat, dst: nat, len: nat, p: nat): (r: Walk)
    requires LaneIn(w, ls, kl) && InSource(w, fromBase, mask) && dst + len <= |w.mem|
    ensures LaneIn(r, ls, kl) && InSource(r, fromBase, mask) && |r.mem| == |w.mem| && |r.keys| == |w.keys|
    decreases p
  {
    if p == 0 then w
    else Hashes(Passes(w, mask, ls, kl, fromBase, dst, len, p - 1), mask, ls, kl, fromBase, dst, len)
  }

  /** Any number of passes stores only into the `len` words from `dst` on and changes only the lane's words. */
  lemma {:induction false} PassesFrame(w: Walk, mask: nat, ls: nat, kl: nat, fromBase: nat, dst: nat, len: nat, p: nat)
    requires LaneIn(w, ls, kl) && InSource(w, fromBase, mask) && dst + len <= |w.mem|
    ensures var r := Passes(w, mask, ls, kl, fromBase, dst, len, p);
            SameOutside(r.mem, w.mem, dst, dst + len) && SameOutside(r.keys, w.keys, ls, ls + kl)
    decreases p
  {
    if p > 0 {
      PassesFrame(w, mask, ls, kl, fromBase, dst, len, p - 1);
      var q := Passes(w, mask, ls, kl, fromBase, dst, len, p - 1);
      HashesFrame(q, mask, ls, kl, fromBase, dst, len);
      var r := Hashes(q, mask, ls, kl, fromBase, dst, len);
      assert r == Passes(w, mask, ls, kl, fromBase, dst, len, p);
      SameOutsideTrans(r.mem, q.mem, w.mem, dst, dst + len);
      SameOutsideTrans(r.keys, q.keys, w.keys, ls, ls + kl);
    }
  }

  /**
   * The intended fillPage: `cpuWorkMultiplier` passes over the destination
   * page, each of pageLength hashes (pageLength/8 groups), the lane carried
   * from pass to pass.
   */
  function Fill(mem: seq<Word>, keys: seq<Word>, pageLength: nat, ls: nat, kl: nat, fromBase: nat, toBase: nat, mult: nat): (r: Walk)
    requires FillOk(mem, keys, pageLength, ls, kl, fromBase, toBase)
    ensures |r.mem| == |mem| && |r.keys| == |keys|
  {
    var mask := PageMask(pageLength);
    Passes(Start(mem, keys, mask), mask, ls, kl, fromBase, toBase, pageLength, mult)
  }

  /**
   * The intended fillPage writes only the destination page, and changes
   * only the page's lane in the table.
   */
  lemma FillFrame(mem: seq<Word>, keys: seq<Word>, pageLength: nat, ls: nat, kl: nat, fromBase: nat, toBase: nat, mult: nat)
    requires FillOk(mem, keys, pageLength, ls, kl, fromBase, toBase)
    ensures var r := Fill(mem, keys, pageLength, ls, kl, fromBase, toBase, mult);
            SameOutside(r.mem, mem, toBase, toBase + pageLength) && SameOutside(r.keys, keys, ls, ls + kl)
  {
    var mask := PageMask(pageLength);
    PassesFrame(Start(mem, keys, mask), mask, ls, kl, fromBase, toBase, pageLength, mult);
  }

  /** One more pass, p = q + 1. */
  lemma PassesNext(w: Walk, mask: nat, ls: nat, kl: nat, fromBase: nat, dst: nat, len: nat, q: nat, p: nat)
    requires LaneIn(w, ls, kl) && InSource(w, fromBase, mask) && dst + len <= |w.mem| && p == q + 1
    ensures Passes(w, mask, ls, kl, fromBase, dst, len, p)
              == Hashes(Passes(w, mask, ls, kl, fromBase, dst, len, q), mask, ls, kl, fromBase, dst, len)
  {
  }

  /**
   * Passes over a destination at or below lo, with the source page below it:
   * walks that differ only from lo on still do after no pass, and differ
   * only from max(lo, dst + len) on after one or more.
   */
  lemma {:induction false} PassesAgree(a: Walk, b: Walk, mask: nat, ls: nat, kl: nat, fromBase: nat, dst: nat, len: nat, p: nat,
                                       lo: nat, hi: nat)
    requires LaneIn(a, ls, kl) && InSource(a, fromBase, mask) && dst + len <= |a.mem|
    requires WalksAgree(a, b, lo) && dst <= lo && fromBase + mask + GroupWords <= dst
    requires hi == if p == 0 then lo else Max(lo, dst + len)
    ensures LaneIn(b, ls, kl) && InSource(b, fromBase, mask)
    ensures WalksAgree(Passes(a, mask, ls, kl, fromBase, dst, len, p), Passes(b, mask, ls, kl, fromBase, dst, len, p), hi)
    decreases p
  {
    if p > 0 {
      var q := p - 1;
      var mid := if q == 0 then lo else Max(lo, dst + len);
      PassesAgree(a, b, mask, ls, kl, fromBase, dst, len, q, lo, mid);
      var pa := Passes(a, mask, ls, kl, fromBase, dst, len, q);
      var pb := Passes(b, mask, ls, kl, fromBase, dst, len, q);
      HashesAgree(pa, pb, mask, ls, kl, fromBase, dst, len, mid, hi);
      PassesNext(a, mask, ls, kl, fromBase, dst, len, q, p);
      PassesNext(b, mask, ls, kl, fromBase, dst, len, q, p);
    }
  }

  /**
   * The intended fillPage reads nothing at or above its destination page:
   * run with the same lanes over two memories that agree below the page, it
   * leaves the same lanes, and memories that agree up to the end of the page
   * once at least one pass has run.
   */
  lemma FillAgree(mem1: seq<Word>, mem2: seq<Word>, keys: seq<Word>, pageLength: nat, ls: nat, kl: nat,
                  fromBase: nat, toBase: nat, mult: nat)
    requires FillOk(mem1, keys, pageLength, ls, kl, fromBase, toBase) && AgreeBelow(mem1, mem2, toBase)
    ensures FillOk(mem2, keys, pageLength, ls, kl, fromBase, toBase)
    ensures var r1 := Fill(mem1, keys, pageLength, ls, kl, fromBase, toBase, mult);
            var r2 := Fill(mem2, keys, pageLength, ls, kl, fromBase, toBase, mult);
            r1.keys == r2.keys && AgreeBelow(r1.mem, r2.mem, if mult == 0 then toBase else toBase + pageLength)
  {
    var mask := PageMask(pageLength);
    PassesAgree(Start(mem1, keys, mask), Start(mem2, keys, mask), mask, ls, kl, fromBase, toBase, pageLength, mult, toBase,
                if mult == 0 then toBase else toBase + pageLength);
  }

  /**
   * After at least one pass of the intended fillPage, word j of the
   * destination page holds the lane word the last pass stored there: the one
   * under the cursor after the last pass's first j hashes.
   */
  lemma FillStores(mem: seq<Word>, keys: seq<Word>, pageLength: nat, ls: nat, kl: nat, fromBase: nat, toBase: nat, mult: nat, j: nat)
    requires FillOk(mem, keys, pageLength, ls, kl, fromBase, toBase) && mult >= 1 && j < pageLength
    ensures var mask := PageMask(pageLength);
            var q := Passes(Start(mem, keys, mask), mask, ls, kl, fromBase, toBase, pageLength, mult - 1);
            var p := Hashes(q, mask, ls, kl, fromBase, toBase, j);
            Fill(mem, keys, pageLength, ls, kl, fromBase, toBase, mult).mem[toBase + j] == p.keys[ls + p.k]
  {
    var mask := PageMask(pageLength);
    var q := Passes(Start(mem, keys, mask), mask, ls, kl, fromBase, toBase, pageLength, mult - 1);
    HashesStores(q, mask, ls, kl, fromBase, toBase, pageLength, j);
  }

  /** Each pass of pageLength hashes ends on a group boundary. */
  lemma PassEndsGroup(w: Walk, mask: nat, ls: nat, kl: nat, fromBase: nat, dst: nat, pageLength: nat)
    requires LaneIn(w, ls, kl) && InSource(w, fromBase, mask) && dst + pageLength <= |w.mem| && w.i == 0
    requires pageLength >= 8 && IsPow2(pageLength)
    ensures Hashes(w, mask, ls, kl, fromBase, dst, pageLength).i == 0
  {
    HashesCursor(w, mask, ls, kl, fromBase, dst, pageLength);
    AdvanceIsModulo(0, pageLength, GroupWords);
    PowerOfTwoMultipleOf8(pageLength);
  }

  // ---------------------------------------------------------------------
  // fillPage as written

  /** `numHashes = (pageLength*cpuWorkMultiplier) >> 3`, a uint32 product. */
  function NumHashesAsWritten(pageLength: nat, mult: nat): (n: nat)
    ensures 8 * n <= (pageLength * mult) % TWO32
  {
    ((pageLength * mult) % TWO32) / 8
  }

  /**
   * fillPage as written: `numHashes` groups of 8 hashes whose words are
   * stored through `t`, which starts at `toPage` and is never moved back.
   */
  function FillAsWritten(mem: seq<Word>, keys: seq<Word>, pageLength: nat, ls: nat, kl: nat, fromBase: nat, toBase: nat, mult: nat): (r: Walk)
    requires FillOk(mem, keys, pageLength, ls, kl, fromBase, toBase)
    requires toBase + GroupWords * NumHashesAsWritten(pageLength, mult) <= |mem|
    ensures |r.mem| == |mem| && |r.keys| == |keys|
  {
    var mask := PageMask(pageLength);
    Hashes(Start(mem, keys, mask), mask, ls, kl, fromBase, toBase, GroupWords * NumHashesAsWritten(pageLength, mult))
  }

  /** With a multiplier of 1 the code as written does what the intended fill does. */
  lemma MultiplierOneAgrees(mem: seq<Word>, keys: seq<Word>, pageLength: nat, ls: nat, kl: nat, fromBase: nat, toBase: nat)
    requires FillOk(mem, keys, pageLength, ls, kl, fromBase, toBase)
    ensures toBase + GroupWords * NumHashesAsWritten(pageLength, 1) == toBase + pageLength
    ensures FillAsWritten(mem, keys, pageLength, ls, kl, fromBase, toBase, 1) == Fill(mem, keys, pageLength, ls, kl, fromBase, toBase, 1)
  {
    PowerOfTwoMultipleOf8(pageLength);
  }

  /**
   * With a multiplier of 2 the code as written stores two pages' worth of
   * words from `toPage` on: the first word of the next page receives the
   * lane word under the cursor after one page, where the intended fill
   * leaves that word alone.
   */
  lemma OverrunWithMultiplierTwo(mem: seq<Word>, keys: seq<Word>, pageLength: nat, ls: nat, kl: nat, fromBase: nat, toBase: nat)
    requires FillOk(mem, keys, pageLength, ls, kl, fromBase, toBase)
    requires pageLength <= 0x4000_0000 && toBase + 2 * pageLength <= |mem|
    ensures GroupWords * NumHashesAsWritten(pageLength, 2) == 2 * pageLength
    ensures var mask := PageMask(pageLength);
            var q := Hashes(Start(mem, keys, mask), mask, ls, kl, fromBase, toBase, pageLength);
            FillAsWritten(mem, keys, pageLength, ls, kl, fromBase, toBase, 2).mem[toBase + pageLength] == q.keys[ls + q.k]
    ensures Fill(mem, keys, pageLength, ls, kl, fromBase, toBase, 2).mem[toBase + pageLength] == mem[toBase + pageLength]
  {
    NumHashesOfTwo(pageLength);
    var mask := PageMask(pageLength);
    HashesStores(Start(mem, keys, mask), mask, ls, kl, fromBase, toBase, 2 * pageLength, pageLength);
    FillFrame(mem, keys, pageLength, ls, kl, fromBase, toBase, 2);
  }

  /** With pages of at most 2^30 words, `numHashes` for a multiplier of 2 is two pages' worth of groups. */
  lemma NumHashesOfTwo(pageLength: nat)
    requires PageLengthOk(pageLength) && pageLength <= 0x4000_0000
    ensures GroupWords * NumHashesAsWritten(pageLength, 2) == 2 * pageLength
  {
    PowerOfTwoMultipleOf8(pageLength);
    DivModUnique(pageLength * 2, TWO32, 0, pageLength * 2);
    DivModUnique(pageLength * 2, 8, 2 * (pageLength / 8), 0);
  }

  /**
   * `numHashes` wraps: with 2^28-byte pages (2^25 words) and a multiplier of
   * 2^7, both accepted by the command line, not a single group is hashed and
   * the destination page is never written.
   */
  lemma NumHashesWrapsToZero(mem: seq<Word>, keys: seq<Word>, pageLength: nat, ls: nat, kl: nat, fromBase: nat, toBase: nat, mult: nat)
    requires FillOk(mem, keys, pageLength, ls, kl, fromBase, toBase) && pageLength == 0x200_0000 && mult == 0x80
    ensures NumHashesAsWritten(pageLength, mult) == 0
    ensures FillAsWritten(mem, keys, pageLength, ls, kl, fromBase, toBase, mult) == Start(mem, keys, PageMask(pageLength))
  {
  }

  /** 2^25 words, the largest page the command line accepts, is an engine page length. */
  lemma LargestPageLength()
    ensures PageLengthOk(0x200_0000)
  {
    assert Pow2(25) == 0x200_0000 by {
      Pow2Add(5, 20);
      Pow2Add(10, 10);
      Pow2Add(5, 5);
      assert Pow2(5) == 32;
    }
    Pow2IsPow2(25);
  }

  // ---------------------------------------------------------------------
  // Page addressing and the page schedule

  /** The word offset of a page, computed without wrapping. */
  function PageOffset(page: nat, pageLength: nat): (offset: nat)
    ensures offset == page * pageLength
  {
    page * pageLength
  }

  /** Page `next` = i + 1 starts where page i ends. */
  lemma NextPage(i: nat, next: nat, L: nat)
    requires next == i + 1
    ensures PageOffset(next, L) == PageOffset(i, L) + L
  {
  }

  /** An earlier page ends at or before a later one starts. */
  lemma EarlierPage(from: nat, i: nat, L: nat)
    requires from < i
    ensures PageOffset(from, L) + L <= PageOffset(i, L)
  {
    MulGrows(from + 1, i, L);
    NextPage(from, from + 1, L);
  }

  /** A later page starts at or after an earlier one. */
  lemma LaterPage(a: nat, b: nat, L: nat)
    requires a <= b
    ensures PageOffset(a, L) <= PageOffset(b, L)
  {
    MulGrows(a, b, L);
  }

  /** Distinct pages of a memory of numPages pages occupy disjoint words inside it. */
  lemma PagesDisjoint(p: nat, q: nat, pageLength: nat, numPages: nat)
    requires p < q < numPages
    ensures PageOffset(p, pageLength) + pageLength <= PageOffset(q, pageLength)
    ensures PageOffset(q, pageLength) + pageLength <= numPages * pageLength
  {
    MulGrows(p + 1, q, pageLength);
    MulGrows(q + 1, numPages, pageLength);
  }

  /** Page p + 1 starts where page p ends, and page p >= 1 starts after page 0. */
  lemma PageOffsetNext(p: nat, pageLength: nat)
    requires p >= 1
    ensures pageLength <= PageOffset(p, pageLength)
    ensures PageOffset(p + 1, pageLength) == PageOffset(p, pageLength) + pageLength
  {
    MulGrows(1, p, pageLength);
  }

  lemma MulGrows(a: nat, b: nat, c: nat)
    requires a <= b
    ensures a * c <= b * c
  {
  }

  /** As written, `fromPageNum*pageLength` and `toPageNum*pageLength` are uint32 products. */
  function PageOffsetAsWritten(page: nat, pageLength: nat): (offset: U32)
    ensures offset == PageOffset(page, pageLength) % TWO32
  {
    (page * pageLength) % TWO32
  }

  /**
   * With 16 KB pages (2^11 words) and 64 GB of memory (2^22 pages), page
   * 2^21 is addressed as page 0.
   */
  lemma PageOffsetWraps()
    ensures PageOffsetAsWritten(0x20_0000, 0x800) == PageOffsetAsWritten(0, 0x800)
    ensures PageOffset(0x20_0000, 0x800) + 0x800 <= 0x40_0000 * 0x800
  {
  }

  /**
   * hashMem's source-page rule: pages up to MAX_THREADS read page 0; page p
   * beyond reads page `(uint32)key[0] % (p - MAX_THREADS)`, at least
   * MAX_THREADS pages back. Either way it reads an earlier page.
   */
  function SourcePage(to: nat, key0: Word): (from: nat)
    requires to >= 1
    ensures from < to
    ensures to > MaxThreads ==> from + MaxThreads < to
    ensures to <= MaxThreads ==> from == 0
  {
    if to > MaxThreads then (key0 % TWO32) % (to - MaxThreads) else 0
  }

  /** The first word of page p's lane: `(p & THREAD_MASK) * keyLength`. */
  function LaneStart(to: nat, keyLength: nat): (start: nat)
    ensures start == (to % MaxThreads) * keyLength
    ensures start + keyLength <= MaxThreads * keyLength
  {
    ThreadMaskIsModulo(to);
    MulGrows(to % MaxThreads + 1, MaxThreads, keyLength);
    BitAnd(to, ThreadMask) * keyLength
  }

  /** `p & THREAD_MASK` is p modulo MAX_THREADS. */
  lemma ThreadMaskIsModulo(to: nat)
    ensures BitAnd(to, ThreadMask) == to % MaxThreads
  {
    assert Pow2(4) == 16;
    AndLowMask(to, 4);
  }

  /** Pages p and p + MAX_THREADS share a lane; pages closer than that do not. */
  lemma LanesOfNearbyPages(p: nat, q: nat, keyLength: nat)
    requires p < q && keyLength >= 1
    ensures LaneStart(p, keyLength) == LaneStart(q, keyLength) <==> (q - p) % MaxThreads == 0
  {
    var a, b := p % MaxThreads, q % MaxThreads;
    if a * keyLength == b * keyLength {
      MulCancel(a, b, keyLength);
    }
    ModDifference(p, q, MaxThreads);
  }

  lemma MulCancel(a: nat, b: nat, c: nat)
    requires c >= 1 && a * c == b * c
    ensures a == b
  {
  }

  lemma ModDifference(p: nat, q: nat, n: nat)
    requires p < q && n >= 1
    ensures p % n == q % n <==> (q - p) % n == 0
  {
    DivModUnique(q - p, n, q / n - p / n + (if q % n >= p % n then 0 else -1),
                 if q % n >= p % n then q % n - p % n else q % n - p % n + n);
  }
}
