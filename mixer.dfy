/**
 * The production engine's shared state and its threads (keystretch.c):
 * the memory, the lane table, the shared page counter and the spin-lock
 * token that the contexts pass round their ring.
 *
 * The threads run one at a time here: a turn is what the context holding
 * the token does between taking it and waiting for it again — claim the
 * next page number, pass the token on, then fill the claimed page or stop.
 */
module Mixing {
  import opened Words
  import opened Engine

  /** The number of turns from context h's turn to context c's. */
  function TurnsUntil(h: nat, c: nat, n: nat): (d: nat)
    requires h < n && c < n
    ensures d < n
  {
    if c >= h then c - h else c + n - h
  }

  /** The first page number that stops the thread that claims it: numPages, and never page 0. */
  function FirstStop(numPages: nat): (f: nat)
    ensures f >= 1 && f >= numPages
  {
    if numPages == 0 then 1 else numPages
  }

  /**
   * The thread ring between turns, for n threads over numPages pages, with
   * page number `next` the next to be claimed and context `holder` holding
   * the token. Page numbers 1 .. next - 1 have been claimed, number t by
   * context (t - 1) mod n, so that context c's last one is
   * next - n + TurnsUntil(holder, c, n). A thread has stopped exactly when
   * that number was at least numPages. While no number beyond MAX_THREADS
   * has been claimed, every thread's source page is still page 0.
   */
  predicate RingOk(n: nat, numPages: nat, next: nat, holder: nat, exited: seq<bool>, from: seq<nat>)
  {
    && 1 <= n <= MaxThreads && |from| == n && |exited| == n && holder < n && 1 <= next
    && holder == (next - 1) % n
    && (forall c :: 0 <= c < n ==> (exited[c] <==> next + TurnsUntil(holder, c, n) >= FirstStop(numPages) + n))
    && (next <= MaxThreads + 1 ==> forall c :: 0 <= c < n ==> from[c] == 0)
  }

  /** keystretch's start is a ring state: number 1 next, context 0 holding the token, nobody stopped, every source page 0. */
  lemma RingStarts(n: nat, numPages: nat)
    requires 1 <= n <= MaxThreads
    ensures RingOk(n, numPages, 1, 0, seq(n, _ => false), seq(n, _ => 0))
  {
  }

  /**
   * A turn by a running holder keeps the ring a ring: it claims `next`,
   * passes the token to the next context, stops exactly when `next` is at
   * least numPages, and changes no thread's source page but its own, and
   * not even that one while `next` is at most MAX_THREADS.
   */
  lemma TurnKeepsRing(n: nat, numPages: nat, next: nat, holder: nat, exited: seq<bool>, from: seq<nat>, from': seq<nat>)
    requires RingOk(n, numPages, next, holder, exited, from) && !exited[holder]
    requires |from'| == n && (forall c :: 0 <= c < n && c != holder ==> from'[c] == from[c])
    requires next <= MaxThreads ==> from' == from
    ensures RingOk(n, numPages, next + 1, Successor(holder, n), exited[holder := next >= numPages], from')
  {
    var h := Successor(holder, n);
    CursorStep(next - 1, next, n, holder, h);
    var exited' := exited[holder := next >= numPages];
    forall c | 0 <= c < n
      ensures exited'[c] <==> next + 1 + TurnsUntil(h, c, n) >= FirstStop(numPages) + n
    {
      if c == holder {
        assert next + 1 + TurnsUntil(h, c, n) == next + n;
      } else {
        assert TurnsUntil(h, c, n) + 1 == TurnsUntil(holder, c, n);
      }
    }
  }

  /** While the token is at a running thread, some stopping number is still to be claimed. */
  lemma RunningHolder(n: nat, numPages: nat, next: nat, holder: nat, exited: seq<bool>, from: seq<nat>)
    requires RingOk(n, numPages, next, holder, exited, from) && !exited[holder]
    ensures next < FirstStop(numPages) + n
  {
    assert TurnsUntil(holder, holder, n) == 0;
  }

  /**
   * Once the token reaches a stopped thread, every thread has stopped:
   * numbers 1 up to numPages - 1 and one stopping number per thread have
   * been claimed, and no more.
   */
  lemma StoppedHolder(n: nat, numPages: nat, next: nat, holder: nat, exited: seq<bool>, from: seq<nat>)
    requires RingOk(n, numPages, next, holder, exited, from) && exited[holder] && next <= FirstStop(numPages) + n
    ensures next == FirstStop(numPages) + n
    ensures forall c :: 0 <= c < n ==> exited[c]
  {
    assert TurnsUntil(holder, holder, n) == 0;
  }

  /**
   * The memory and the lane table together. Generic in how they are held,
   * like Engine's walk state; the model holds them as word sequences.
   */
  datatype StoreOf<S> = Store(mem: S, keys: S)
  type Store = StoreOf<seq<Word>>

  /** keystretch's layout: numPages pages of pageLength words, and MAX_THREADS lanes of kl words. */
  predicate Layout(mem: seq<Word>, keys: seq<Word>, pageLength: nat, numPages: nat, kl: nat)
  {
    PageLengthOk(pageLength) && 1 <= kl && |mem| == numPages * pageLength && |keys| == MaxThreads * kl
  }

  /**
   * The page fill for ticket `to` on a store, as hashMem performs it: lane
   * `to & THREAD_MASK`, source page chosen by the source-page rule from the
   * lane's first word, destination page `to`. Only that page and that lane
   * change.
   */
  function PageTurn(s: Store, pageLength: nat, numPages: nat, kl: nat, mult: nat, to: nat): (r: Store)
    requires Layout(s.mem, s.keys, pageLength, numPages, kl) && 1 <= to < numPages
    ensures Layout(r.mem, r.keys, pageLength, numPages, kl)
    ensures SameOutside(r.mem, s.mem, PageOffset(to, pageLength), PageOffset(to, pageLength) + pageLength)
    ensures SameOutside(r.keys, s.keys, LaneStart(to, kl), LaneStart(to, kl) + kl)
  {
    var ls := LaneStart(to, kl);
    var from := SourcePage(to, s.keys[ls]);
    PagesDisjoint(from, to, pageLength, numPages);
    var w := Fill(s.mem, s.keys, pageLength, ls, kl, PageOffset(from, pageLength), PageOffset(to, pageLength), mult);
    FillFrame(s.mem, s.keys, pageLength, ls, kl, PageOffset(from, pageLength), PageOffset(to, pageLength), mult);
    Store(w.mem, w.keys)
  }

  /**
   * hashMem's effect in ticket order: pages 1 .. upTo - 1 filled one after
   * another, each on the memory and lanes the earlier ones left. Page 0 and
   * the pages from upTo on are left as they were.
   */
  function Schedule(mem: seq<Word>, keys: seq<Word>, pageLength: nat, numPages: nat, kl: nat, mult: nat, upTo: nat): (r: Store)
    requires Layout(mem, keys, pageLength, numPages, kl) && 1 <= upTo <= FirstStop(numPages)
    ensures Layout(r.mem, r.keys, pageLength, numPages, kl)
    ensures SameOutside(r.mem, mem, pageLength, PageOffset(upTo, pageLength))
    decreases upTo
  {
    if upTo == 1 then Store(mem, keys)
    else
      var s := Schedule(mem, keys, pageLength, numPages, kl, mult, upTo - 1);
      var r := PageTurn(s, pageLength, numPages, kl, mult, upTo - 1);
      PageOffsetNext(upTo - 1, pageLength);
      SameOutsideJoin(r.mem, s.mem, mem, pageLength, PageOffset(upTo - 1, pageLength), PageOffset(upTo, pageLength));
      r
  }

  /** One more ticket: the schedule up to page `to` followed by page `to`'s fill. */
  lemma ScheduleStep(mem: seq<Word>, keys: seq<Word>, pageLength: nat, numPages: nat, kl: nat, mult: nat, to: nat)
    requires Layout(mem, keys, pageLength, numPages, kl) && 1 <= to < numPages
    ensures Schedule(mem, keys, pageLength, numPages, kl, mult, to + 1)
              == PageTurn(Schedule(mem, keys, pageLength, numPages, kl, mult, to), pageLength, numPages, kl, mult, to)
  {
  }

  /** ScheduleStep with the two page counts given as they are written at the call. */
  lemma ScheduleStepAt(mem: seq<Word>, keys: seq<Word>, pageLength: nat, numPages: nat, kl: nat, mult: nat, to: nat, upTo: nat, next: nat)
    requires Layout(mem, keys, pageLength, numPages, kl) && 1 <= to < numPages && upTo == to && next == to + 1
    ensures Schedule(mem, keys, pageLength, numPages, kl, mult, next)
              == PageTurn(Schedule(mem, keys, pageLength, numPages, kl, mult, upTo), pageLength, numPages, kl, mult, to)
  {
    ScheduleStep(mem, keys, pageLength, numPages, kl, mult, to);
  }

  /** How many pages the ring has filled once tickets up to `next - 1` are drawn: page numbers stop at numPages. */
  function Claimed(next: nat, numPages: nat): (u: nat)
    requires 1 <= next
    ensures 1 <= u <= FirstStop(numPages) && u <= next
    ensures next <= FirstStop(numPages) ==> u == next
  {
    if next < FirstStop(numPages) then next else FirstStop(numPages)
  }

  /**
   * The state i hashes into a group that started reading at a - i: after the
   * group's last hash the next group's source address is the last word read.
   */
  function GroupState(mem: seq<Word>, keys: seq<Word>, k: nat, last: Word, i: nat, a: nat, mask: nat): Walk
  {
    if i == GroupWords then Walk(mem, keys, k, last, 0, GroupAddr(last, mask)) else Walk(mem, keys, k, last, i, a)
  }

  /**
   * Drawing ticket `to` keeps the store in step with the schedule: below
   * numPages the ticket's page fill is the schedule's next page, and from
   * numPages on the ticket changes nothing and neither does the schedule.
   */
  lemma ScheduleAdvance(mem: seq<Word>, keys: seq<Word>, pageLength: nat, numPages: nat, kl: nat, mult: nat,
                        to: nat, next: nat, before: Store, after: Store)
    requires Layout(mem, keys, pageLength, numPages, kl) && 1 <= to && next == to + 1
    requires before == Schedule(mem, keys, pageLength, numPages, kl, mult, Claimed(to, numPages))
    requires to < numPages ==> after == PageTurn(before, pageLength, numPages, kl, mult, to)
    requires to >= numPages ==> after == before
    ensures after == Schedule(mem, keys, pageLength, numPages, kl, mult, Claimed(next, numPages))
  {
    if to < numPages {
      ScheduleStepAt(mem, keys, pageLength, numPages, kl, mult, to, Claimed(to, numPages), Claimed(next, numPages));
    } else {
      assert Claimed(next, numPages) == Claimed(to, numPages);
    }
  }

  // ---------------------------------------------------------------------
  // What hashMem reads

  /**
   * A page fill reads only pages below its own: on two stores with the same
   * lanes whose memories agree below page `to`, at least one pass leaves the
   * same lanes and memories that agree up to the end of page `to`.
   */
  lemma PageTurnAgree(s1: Store, s2: Store, pageLength: nat, numPages: nat, kl: nat, mult: nat, to: nat, next: nat)
    requires Layout(s1.mem, s1.keys, pageLength, numPages, kl) && 1 <= to < numPages && next == to + 1 && mult >= 1
    requires s1.keys == s2.keys && AgreeBelow(s1.mem, s2.mem, PageOffset(to, pageLength))
    ensures Layout(s2.mem, s2.keys, pageLength, numPages, kl)
    ensures var r1 := PageTurn(s1, pageLength, numPages, kl, mult, to);
            var r2 := PageTurn(s2, pageLength, numPages, kl, mult, to);
            r1.keys == r2.keys && AgreeBelow(r1.mem, r2.mem, PageOffset(next, pageLength))
  {
    var ls := LaneStart(to, kl);
    var from := SourcePage(to, s1.keys[ls]);
    PagesDisjoint(from, to, pageLength, numPages);
    PageOffsetNext(to, pageLength);
    FillAgree(s1.mem, s2.mem, s1.keys, pageLength, ls, kl, PageOffset(from, pageLength), PageOffset(to, pageLength), mult);
  }

  /**
   * hashMem with at least one pass reads memory only where it has already
   * written or where page 0 is: started from memories that agree on page 0
   * and the same lanes, the schedule up to page upTo leaves the same lanes and
   * memories that agree on pages 0 .. upTo - 1.
   */
  lemma {:induction false} ScheduleAgree(mem1: seq<Word>, mem2: seq<Word>, keys: seq<Word>, pageLength: nat, numPages: nat,
                                         kl: nat, mult: nat, upTo: nat)
    requires Layout(mem1, keys, pageLength, numPages, kl) && mult >= 1 && 1 <= upTo <= FirstStop(numPages)
    requires AgreeBelow(mem1, mem2, pageLength)
    ensures Layout(mem2, keys, pageLength, numPages, kl)
    ensures var r1 := Schedule(mem1, keys, pageLength, numPages, kl, mult, upTo);
            var r2 := Schedule(mem2, keys, pageLength, numPages, kl, mult, upTo);
            r1.keys == r2.keys && AgreeBelow(r1.mem, r2.mem, PageOffset(upTo, pageLength))
    decreases upTo
  {
    if upTo > 1 {
      var to := upTo - 1;
      ScheduleAgree(mem1, mem2, keys, pageLength, numPages, kl, mult, to);
      var s1 := Schedule(mem1, keys, pageLength, numPages, kl, mult, to);
      var s2 := Schedule(mem2, keys, pageLength, numPages, kl, mult, to);
      PageTurnAgree(s1, s2, pageLength, numPages, kl, mult, to, upTo);
      ScheduleStepAt(mem1, keys, pageLength, numPages, kl, mult, to, to, upTo);
      ScheduleStepAt(mem2, keys, pageLength, numPages, kl, mult, to, to, upTo);
    }
  }

  /** With a multiplier of 0 no page fill hashes anything: hashMem leaves memory and lanes as they were. */
  lemma {:induction false} ScheduleWithoutPasses(mem: seq<Word>, keys: seq<Word>, pageLength: nat, numPages: nat, kl: nat,
                                                 upTo: nat)
    requires Layout(mem, keys, pageLength, numPages, kl) && 1 <= upTo <= FirstStop(numPages)
    ensures Schedule(mem, keys, pageLength, numPages, kl, 0, upTo) == Store(mem, keys)
    decreases upTo
  {
    if upTo > 1 {
      var to := upTo - 1;
      ScheduleWithoutPasses(mem, keys, pageLength, numPages, kl, to);
      ScheduleStepAt(mem, keys, pageLength, numPages, kl, 0, to, to, upTo);
    }
  }

  class Contexts {
    /** The memory: numPages pages of pageLength words. */
    const mem: array<Word>
    /** The lane table: MAX_THREADS lanes of keyLength words. */
    const threadKeys: array<Word>
    const pageLength: nat
    const numPages: nat
    const keyLength: nat
    const cpuWorkMultiplier: nat
    const numThreads: nat
    /** The shared counter `*nextPageNumPtr`: the next page number to be claimed. */
    var nextPageNum: nat
    /** The context whose spinLock is set. */
    var holder: nat
    /** Each thread's local `fromPageNum`, which persists from one page to the next. */
    var fromPageNum: seq<nat>
    /** Which threads have stopped (pthread_exit). */
    var exited: seq<bool>
    /**
     * Whether `memset(contexts, '\0', ...)` has cleared the contexts: their
     * copies of the memory and lane pointers, the sizes, the multiplier and
     * the spin-locks. Those are constants of this object, so their erasure
     * is recorded here rather than written into them.
     */
    var wiped: bool

    /** The shapes keystretch sets up: a power-of-two page length, memory of whole pages, 16 lanes. */
    predicate Valid()
    {
      && PageLengthOk(pageLength) && 1 <= keyLength
      && mem.Length == numPages * pageLength && threadKeys.Length == MaxThreads * keyLength
      && mem != threadKeys
    }

    /** The ring invariant on this object's counter, token, stopped threads and source pages. */
    predicate Ring()
      reads this
    {
      RingOk(numThreads, numPages, nextPageNum, holder, exited, fromPageNum)
    }

    /**
     * keystretch's set-up of the contexts: page number 1 is next
     * (`nextPageNum = 1`), context 0 holds the token, and every thread
     * starts with `fromPageNum = 0`.
     */
    constructor (mem: array<Word>, threadKeys: array<Word>, pageLength: nat, numPages: nat, keyLength: nat,
                 cpuWorkMultiplier: nat, numThreads: nat)
      requires 1 <= numThreads <= MaxThreads
      ensures this.mem == mem && this.threadKeys == threadKeys && this.pageLength == pageLength
      ensures this.numPages == numPages && this.keyLength == keyLength
      ensures this.cpuWorkMultiplier == cpuWorkMultiplier && this.numThreads == numThreads
      ensures nextPageNum == 1 && holder == 0
      ensures fromPageNum == seq(numThreads, _ => 0) && exited == seq(numThreads, _ => false)
      ensures Ring() && !wiped
    {
      this.mem := mem;
      this.threadKeys := threadKeys;
      this.pageLength := pageLength;
      this.numPages := numPages;
      this.keyLength := keyLength;
      this.cpuWorkMultiplier := cpuWorkMultiplier;
      this.numThreads := numThreads;
      nextPageNum := 1;
      holder := 0;
      fromPageNum := seq(numThreads, _ => 0);
      exited := seq(numThreads, _ => false);
      wiped := false;
      RingStarts(numThreads, numPages);
    }

    /**
     * One iteration of fillPage's inner loop on the arrays: the lane word
     * under the cursor is stored at `t`, the source word at `pageAddr` is
     * read, the lane word gains their mix with the last word read and the
     * cursor moves on. If the arrays hold the state n hashes from w0 have
     * left, i words into a group, they end holding the state n + 1 hashes
     * leave.
     */
    method HashWord(ghost w0: Walk, ghost n: nat, ghost n': nat, mask: nat, ls: nat, fromBase: nat, ghost dst: nat,
                    k: nat, last: Word, i: nat, ghost i': nat, pageAddr: nat, ghost pageAddr': nat, t: nat)
      returns (k': nat, last': Word)
      requires mem != threadKeys && LaneIn(w0, ls, keyLength) && InSource(w0, fromBase, mask)
      requires t == dst + n && t < |w0.mem| && i < GroupWords
      requires n' == n + 1 && i' == i + 1 && pageAddr' == pageAddr + 1
      requires Walk(mem[..], threadKeys[..], k, last, i, pageAddr) == Hashes(w0, mask, ls, keyLength, fromBase, dst, n)
      modifies mem, threadKeys
      ensures GroupState(mem[..], threadKeys[..], k', last', i', pageAddr', mask)
                == Hashes(w0, mask, ls, keyLength, fromBase, dst, n')
    {
      ghost var p := Walk(mem[..], threadKeys[..], k, last, i, pageAddr);
      HashesNext(w0, mask, ls, keyLength, fromBase, dst, n, t);
      var keyData := threadKeys[ls + k];
      mem[t] := keyData;
      var pageData := mem[fromBase + pageAddr];
      threadKeys[ls + k] := MixWord(keyData, pageData, last);
      k' := k + 1;
      if k' == keyLength {
        k' := 0;
      }
      last' := pageData;
      assert Hash(p, mask, ls, keyLength, fromBase, t) == GroupState(mem[..], threadKeys[..], k', last', i', pageAddr', mask);
    }

    /**
     * One iteration of fillPage's outer loop: its inner loop's 8 hashes,
     * reading the source page at `fromBase` from `pageAddr` on and storing
     * from `t` on. If the state is the one n hashes from w0 have left, the
     * state afterwards is the one n + 8 hashes leave.
     */
    method HashGroup(ghost w0: Walk, ghost n: nat, ghost n': nat, mask: nat, ls: nat, fromBase: nat, ghost dst: nat,
                     k: nat, last: Word, pageAddr: nat, t: nat)
      returns (k': nat, last': Word)
      requires mem != threadKeys && LaneIn(w0, ls, keyLength) && InSource(w0, fromBase, mask)
      requires t == dst + n && n' == n + GroupWords && dst + n' <= |w0.mem|
      requires Walk(mem[..], threadKeys[..], k, last, 0, pageAddr) == Hashes(w0, mask, ls, keyLength, fromBase, dst, n)
      modifies mem, threadKeys
      ensures Walk(mem[..], threadKeys[..], k', last', 0, GroupAddr(last', mask))
                == Hashes(w0, mask, ls, keyLength, fromBase, dst, n')
    {
      k', last' := k, last;
      var i, a, u := 0, pageAddr, t;
      ghost var m := n;
      while i < GroupWords
        invariant i <= GroupWords && m == n + i && u == dst + m
        invariant GroupState(mem[..], threadKeys[..], k', last', i, a, mask) == Hashes(w0, mask, ls, keyLength, fromBase, dst, m)
      {
        var i1, a1 := i + 1, a + 1;
        ghost var m1 := m + 1;
        k', last' := HashWord(w0, m, m1, mask, ls, fromBase, dst, k', last', i, i1, a, a1, u);
        i, a, u, m := i1, a1, u + 1, m1;
      }
    }

    /**
     * fillPage's outer loop, `while(numHashes--)`: `groups` groups of 8
     * hashes, the first reading from the address the state holds and
     * storing at `dst`, each next one storing right after the one before.
     */
    method HashGroups(ghost w0: Walk, mask: nat, ls: nat, fromBase: nat, dst: nat, k: nat, last: Word, groups: nat)
      returns (k': nat, last': Word)
      requires mem != threadKeys && LaneIn(w0, ls, keyLength) && InSource(w0, fromBase, mask)
      requires dst + GroupWords * groups <= |w0.mem|
      requires w0 == Walk(mem[..], threadKeys[..], k, last, 0, GroupAddr(last, mask))
      modifies mem, threadKeys
      ensures Walk(mem[..], threadKeys[..], k', last', 0, GroupAddr(last', mask))
                == Hashes(w0, mask, ls, keyLength, fromBase, dst, GroupWords * groups)
    {
      k', last' := k, last;
      var numHashes := groups;
      ghost var g, m := 0, 0;
      var t := dst;
      while numHashes > 0
        invariant g + numHashes == groups && m == GroupWords * g && t == dst + m
        invariant Walk(mem[..], threadKeys[..], k', last', 0, GroupAddr(last', mask)) == Hashes(w0, mask, ls, keyLength, fromBase, dst, m)
      {
        ghost var g1, m1 := g + 1, m + GroupWords;
        assert GroupWords * g1 == m1;
        numHashes := numHashes - 1;
        k', last' := HashGroup(w0, m, m1, mask, ls, fromBase, dst, k', last', GroupAddr(last', mask), t);
        g, m, t := g1, m1, t + GroupWords;
      }
    }

    /**
     * fillPage as written: `(pageLength*cpuWorkMultiplier) >> 3` groups,
     * computed in 32 bits, stored through a pointer that starts at the
     * destination page and is never moved back. The caller has to supply
     * the room those groups take.
     */
    method FillPageAsWritten(ls: nat, fromPageNum: nat, toPageNum: nat)
      requires Valid() && fromPageNum < toPageNum < numPages && ls + keyLength <= threadKeys.Length
      requires PageOffset(toPageNum, pageLength) + GroupWords * NumHashesAsWritten(pageLength, cpuWorkMultiplier) <= mem.Length
      modifies mem, threadKeys
      ensures (PagesDisjoint(fromPageNum, toPageNum, pageLength, numPages);
               var r := FillAsWritten(old(mem[..]), old(threadKeys[..]), pageLength, ls, keyLength,
                                      PageOffset(fromPageNum, pageLength), PageOffset(toPageNum, pageLength), cpuWorkMultiplier);
               mem[..] == r.mem && threadKeys[..] == r.keys)
    {
      var fromBase := PageOffset(fromPageNum, pageLength);
      var toBase := PageOffset(toPageNum, pageLength);
      PagesDisjoint(fromPageNum, toPageNum, pageLength, numPages);
      var mask := PageMask(pageLength);
      var numHashes := NumHashesAsWritten(pageLength, cpuWorkMultiplier);
      var k, last := HashGroups(Start(mem[..], threadKeys[..], mask), mask, ls, fromBase, toBase, 0, 1, numHashes);
    }

    /**
     * fillPage as intended: cpuWorkMultiplier passes over the destination
     * page, each of pageLength/8 groups stored from the page's start, the
     * lane, cursor and last word carried from pass to pass. It writes
     * nothing outside the destination page and no lane but the page's.
     */
    method FillPage(ls: nat, fromPageNum: nat, toPageNum: nat)
      requires Valid() && fromPageNum < toPageNum < numPages && ls + keyLength <= threadKeys.Length
      modifies mem, threadKeys
      ensures (PagesDisjoint(fromPageNum, toPageNum, pageLength, numPages);
               var toBase := PageOffset(toPageNum, pageLength);
               var r := Fill(old(mem[..]), old(threadKeys[..]), pageLength, ls, keyLength,
                             PageOffset(fromPageNum, pageLength), toBase, cpuWorkMultiplier);
               && mem[..] == r.mem && threadKeys[..] == r.keys
               && SameOutside(mem[..], old(mem[..]), toBase, toBase + pageLength)
               && SameOutside(threadKeys[..], old(threadKeys[..]), ls, ls + keyLength))
    {
      var fromBase := PageOffset(fromPageNum, pageLength);
      var toBase := PageOffset(toPageNum, pageLength);
      PagesDisjoint(fromPageNum, toPageNum, pageLength, numPages);
      PowerOfTwoMultipleOf8(pageLength);
      var mask := PageMask(pageLength);
      ghost var mem0, keys0 := mem[..], threadKeys[..];
      ghost var w0 := Start(mem0, keys0, mask);
      var k, last := 0, 1;
      var pass := 0;
      while pass < cpuWorkMultiplier
        invariant pass <= cpuWorkMultiplier
        invariant Walk(mem[..], threadKeys[..], k, last, 0, GroupAddr(last, mask))
                    == Passes(w0, mask, ls, keyLength, fromBase, toBase, pageLength, pass)
      {
        ghost var p0 := Walk(mem[..], threadKeys[..], k, last, 0, GroupAddr(last, mask));
        k, last := HashGroups(p0, mask, ls, fromBase, toBase, k, last, pageLength / GroupWords);
        pass := pass + 1;
      }
      FillFrame(mem0, keys0, pageLength, ls, keyLength, fromBase, toBase, cpuWorkMultiplier);
    }

    /**
     * One turn of hashMem's loop, by the context holding the token: it
     * claims page number `(*nextPageNumPtr)++` and hands the token to the
     * next context before anything else. A number at or past numPages
     * stops the thread. Otherwise the page is hashed with lane
     * `toPageNum & THREAD_MASK`; past MAX_THREADS the thread takes its
     * source page from the lane's first word, and up to MAX_THREADS it
     * keeps the one it had, which is still page 0. Either way the source
     * is an earlier page. The page is filled by FillPage, the intended
     * fillPage: the code's own does not move `t` back between passes and
     * takes page offsets in 32 bits (FillPageAsWritten,
     * OverrunWithMultiplierTwo, PageOffsetWraps), and agrees with FillPage
     * for a multiplier of 1 while offsets stay below 2^32 words.
     */
    method Turn()
      requires Valid() && Ring() && !exited[holder]
      modifies this, mem, threadKeys
      ensures Ring()
      ensures nextPageNum == old(nextPageNum) + 1 && holder == Successor(old(holder), numThreads)
      ensures exited == old(exited)[old(holder) := old(nextPageNum) >= numPages]
      ensures old(nextPageNum) >= numPages ==>
                mem[..] == old(mem[..]) && threadKeys[..] == old(threadKeys[..]) && fromPageNum == old(fromPageNum)
      ensures old(nextPageNum) < numPages ==>
                var to, c := old(nextPageNum), old(holder);
                && fromPageNum == old(fromPageNum)[c := SourcePage(to, old(threadKeys[LaneStart(to, keyLength)]))]
                && fromPageNum[c] < to
                && Store(mem[..], threadKeys[..])
                     == PageTurn(Store(old(mem[..]), old(threadKeys[..])), pageLength, numPages, keyLength, cpuWorkMultiplier, to)
    {
      var c := holder;
      var toPageNum := nextPageNum;
      ghost var exited0, from0 := exited, fromPageNum;
      nextPageNum := nextPageNum + 1;
      holder := Successor(c, numThreads);
      exited := exited[c := toPageNum >= numPages];
      if toPageNum >= numPages {
        TurnKeepsRing(numThreads, numPages, toPageNum, c, exited0, from0, from0);
        return;
      }
      var ls := LaneStart(toPageNum, keyLength);
      var hash := threadKeys[ls] % TWO32;
      if toPageNum > MaxThreads {
        fromPageNum := fromPageNum[c := hash % (toPageNum - MaxThreads)];
      }
      TurnKeepsRing(numThreads, numPages, toPageNum, c, exited0, from0, fromPageNum);
      FillPage(ls, fromPageNum[c], toPageNum);
    }

    /** One turn seen against the schedule: the store keeps up with the tickets drawn. */
    method Round(ghost mem0: seq<Word>, ghost keys0: seq<Word>)
      requires Valid() && Ring() && !exited[holder] && Layout(mem0, keys0, pageLength, numPages, keyLength)
      requires Store(mem[..], threadKeys[..]) == Schedule(mem0, keys0, pageLength, numPages, keyLength, cpuWorkMultiplier, Claimed(nextPageNum, numPages))
      modifies this, mem, threadKeys
      ensures Ring() && nextPageNum == old(nextPageNum) + 1
      ensures Store(mem[..], threadKeys[..]) == Schedule(mem0, keys0, pageLength, numPages, keyLength, cpuWorkMultiplier, Claimed(nextPageNum, numPages))
    {
      ghost var to, before := nextPageNum, Store(mem[..], threadKeys[..]);
      Turn();
      ScheduleAdvance(mem0, keys0, pageLength, numPages, keyLength, cpuWorkMultiplier, to, nextPageNum, before, Store(mem[..], threadKeys[..]));
    }

    /**
     * hashMem on every thread, to the end: turns are taken while the token
     * is at a running thread. Every thread stops, after numPages - 1
     * pages and one stopping number per thread have been claimed, and
     * page 0 is never written. Each page is filled by the intended
     * fillPage (see Turn).
     */
    method HashMem()
      requires Valid() && Ring() && nextPageNum == 1 && holder == 0
      modifies this, mem, threadKeys
      ensures Ring() && nextPageNum == FirstStop(numPages) + numThreads
      ensures forall c :: 0 <= c < numThreads ==> exited[c]
      ensures Store(mem[..], threadKeys[..])
                == Schedule(old(mem[..]), old(threadKeys[..]), pageLength, numPages, keyLength, cpuWorkMultiplier, FirstStop(numPages))
    {
      ghost var mem0, keys0 := mem[..], threadKeys[..];
      while !exited[holder]
        invariant Ring()
        invariant nextPageNum <= FirstStop(numPages) + numThreads
        invariant Store(mem[..], threadKeys[..])
                    == Schedule(mem0, keys0, pageLength, numPages, keyLength, cpuWorkMultiplier, Claimed(nextPageNum, numPages))
        decreases FirstStop(numPages) + numThreads - nextPageNum
      {
        RunningHolder(numThreads, numPages, nextPageNum, holder, exited, fromPageNum);
        Round(mem0, keys0);
      }
      StoppedHolder(numThreads, numPages, nextPageNum, holder, exited, fromPageNum);
    }

    /**
     * keystretch's `memset` of the contexts once the lanes are compressed:
     * the contexts are cleared and neither the memory nor the lanes change.
     */
    method Wipe()
      modifies this
      ensures wiped
      ensures nextPageNum == old(nextPageNum) && holder == old(holder)
      ensures fromPageNum == old(fromPageNum) && exited == old(exited)
    {
      wiped := true;
    }
  }
}
