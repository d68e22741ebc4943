// keystretch's outer function (keystretch.c): derive a first key with
// PBKDF2, seed the lanes and page 0 from it and the salt, run the thread
// ring over memory, compress the lanes into the derived key, and wipe
// what the caller asked to have wiped. PBKDF2 itself is a parameter.

module Keystretch {
  import opened Words
  import opened Engine
  import opened Mixing
  import opened KeystretchCli
  import opened HexCodec
  import opened Results

  /**
   * PBKDF2-HMAC-SHA256 (section 5.2 of RFC 8018) as keystretch calls it:
   * password, salt, iteration count and output length in, output bytes out.
   */
  type Prf = (seq<byte>, seq<byte>, nat, nat) -> seq<byte>

  /** The one thing the model relies on about PBKDF2: it returns as many bytes as asked for. */
  ghost predicate Pbkdf2Ok(prf: Prf)
  {
    forall password, salt, rounds, length :: |prf(password, salt, rounds, length)| == length
  }

  // ---------------------------------------------------------------------
  // Sizes

  /** The sizes keystretch derives from its arguments: pages and lanes in 64-bit words. */
  datatype Sizes = Sizes(pageLength: nat, numPages: nat, memoryLength: nat, keyLength: nat)

  /**
   * `pageLength = pageSize/8`, `numPages = (uint32)(memorySize/(pageLength*8))`,
   * `memoryLength = pageLength*numPages` in 64 bits and
   * `keyLength = (derivedKeySize + 7)/8` in 32 bits.
   */
  function SizesOf(memorySize: nat, pageSize: U32, derivedKeySize: U32): (z: Sizes)
    requires pageSize >= 8
    ensures z.memoryLength == z.pageLength * z.numPages && 8 * z.memoryLength <= memorySize
    ensures z.numPages < TWO32 && z.keyLength < TWO32 / 8
  {
    var pageLength := pageSize / 8;
    var numPages := NumPages(memorySize, pageSize);
    Sizes(pageLength, numPages, pageLength * numPages, ((derivedKeySize + 7) % TWO32) / 8)
  }

  /**
   * For a whole number of words per page and no 32-bit wrap, the sizes
   * mean what their names say: pages of pageSize bytes, as many whole
   * pages as the memory holds (less than one page left over), and the
   * fewest words that hold the derived key.
   */
  lemma SizesMeaning(memorySize: nat, pageSize: U32, derivedKeySize: U32)
    requires pageSize >= 8 && pageSize % 8 == 0 && memorySize / pageSize < TWO32 && derivedKeySize <= TWO32 - 8
    ensures var z := SizesOf(memorySize, pageSize, derivedKeySize);
            && 8 * z.pageLength == pageSize
            && z.numPages == memorySize / pageSize
            && 8 * z.memoryLength <= memorySize < 8 * z.memoryLength + pageSize
            && derivedKeySize <= 8 * z.keyLength < derivedKeySize + 8
  {
    var z := SizesOf(memorySize, pageSize, derivedKeySize);
    WholePages(memorySize, pageSize);
    var q := z.numPages;
    assert 8 * z.memoryLength == pageSize * q by {
      assert 8 * (z.pageLength * q) == (8 * z.pageLength) * q;
    }
    KeyWords(derivedKeySize);
  }

  /** The page count is the memory size divided by the page size, with less than a page left over. */
  lemma WholePages(memorySize: nat, pageSize: nat)
    requires pageSize >= 8 && pageSize % 8 == 0 && memorySize / pageSize < TWO32
    ensures pageSize / 8 * 8 == pageSize
    ensures NumPages(memorySize, pageSize) == memorySize / pageSize
    ensures pageSize * (memorySize / pageSize) <= memorySize < pageSize * (memorySize / pageSize) + pageSize
  {
    assert pageSize == 8 * (pageSize / 8) + pageSize % 8;
    DivBounds(memorySize, pageSize);
    SmallMod(memorySize / pageSize, TWO32);
  }

  /** `(derivedKeySize + 7)/8` words, computed in 32 bits, hold the derived key with less than a word to spare. */
  lemma KeyWords(derivedKeySize: nat)
    requires derivedKeySize <= TWO32 - 8
    ensures var k := ((derivedKeySize + 7) % TWO32) / 8; derivedKeySize <= 8 * k < derivedKeySize + 8
  {
    var x := derivedKeySize + 7;
    DivModUnique(x, TWO32, 0, x);
    DivModUnique(x, 8, x / 8, x % 8);
  }

  /** Sizes keystretch can work with: power-of-two pages of at least 8 words, at least one page, non-empty lanes. */
  predicate SizesOk(z: Sizes)
  {
    PageLengthOk(z.pageLength) && 1 <= z.numPages && 1 <= z.keyLength && z.memoryLength == z.pageLength * z.numPages
  }

  /**
   * Parameters the command line accepts, once it also insists on two
   * pages, give sizes keystretch can work with, with words that hold the
   * derived key exactly.
   */
  lemma AcceptedSizes(factor: nat, multiplier: nat, memorySize: nat, pageSize: U32,
                      numThreads: nat, derivedKeySize: U32, saltSize: nat, passwordSize: nat)
    requires AcceptsWithTwoPages(factor, multiplier, memorySize, pageSize, numThreads, derivedKeySize, saltSize, passwordSize)
    ensures var z := SizesOf(memorySize, pageSize, derivedKeySize);
            SizesOk(z) && z.numPages >= 2 && 8 * z.keyLength == derivedKeySize && 8 * z.pageLength == pageSize
  {
    AcceptedShapes(factor, multiplier, memorySize, pageSize, numThreads, derivedKeySize, saltSize, passwordSize);
    var z := SizesOf(memorySize, pageSize, derivedKeySize);
    assert z.numPages == memorySize / pageSize < TWO32;
    SizesMeaning(memorySize, pageSize, derivedKeySize);
  }

  // ---------------------------------------------------------------------
  // Allocation

  /** The two buffers keystretch allocates. */
  datatype Buffer = MemBuffer | KeysBuffer

  /** Whether keystretch goes on after allocating, and which buffers are then still allocated. */
  datatype Allocation = Allocation(proceed: bool, held: set<Buffer>)

  /**
   * keystretch.c's allocation as written: `malloc` for the memory and
   * `calloc` for the lanes, then `return false` if either failed, keeping
   * whichever one succeeded.
   */
  function AllocateAsWritten(memOk: bool, keysOk: bool): (a: Allocation)
    ensures a.proceed <==> memOk && keysOk
    ensures (MemBuffer in a.held <==> memOk) && (KeysBuffer in a.held <==> keysOk)
  {
    Allocation(memOk && keysOk, (if memOk then {MemBuffer} else {}) + (if keysOk then {KeysBuffer} else {}))
  }

  /** With the lane table refused, the memory obtained a moment earlier stays allocated, with nothing pointing at it. */
  lemma AllocationFailureLeaks()
    ensures var a := AllocateAsWritten(true, false);
            !a.proceed && a.held == {MemBuffer}
  {
  }

  /** The allocation as intended: a failure frees what was obtained, so nothing stays allocated. */
  function Allocate(memOk: bool, keysOk: bool): (a: Allocation)
    ensures a.proceed <==> memOk && keysOk
    ensures a.proceed ==> a.held == {MemBuffer, KeysBuffer}
    ensures !a.proceed ==> a.held == {}
  {
    if memOk && keysOk then Allocation(true, {MemBuffer, KeysBuffer}) else Allocation(false, {})
  }

  /** The corrected allocation agrees with the code whenever both allocations succeed. */
  lemma AllocateAgrees(memOk: bool, keysOk: bool)
    ensures Allocate(memOk, keysOk).proceed == AllocateAsWritten(memOk, keysOk).proceed
    ensures memOk && keysOk ==> Allocate(memOk, keysOk) == AllocateAsWritten(memOk, keysOk)
  {
  }

  // ---------------------------------------------------------------------
  // The stages as pure functions

  /**
   * The lanes and memory keystretch hands to hashMem: the lanes are the
   * PBKDF2 (one round) of the stretched key, read as little-endian words,
   * and page 0 the PBKDF2 (one round) of the salt with itself; the rest of
   * memory is whatever `malloc` returned, here `heapWords`.
   */
  function Seeded(prf: Prf, password: seq<byte>, salt: seq<byte>, rounds: nat, z: Sizes,
                  derivedKeySize: nat, heapWords: seq<Word>): (s: Store)
    requires Pbkdf2Ok(prf) && SizesOk(z) && |heapWords| == z.memoryLength
    ensures Layout(s.mem, s.keys, z.pageLength, z.numPages, z.keyLength)
    ensures s.mem[z.pageLength..] == heapWords[z.pageLength..]
  {
    var key := prf(password, salt, rounds, derivedKeySize);
    FirstPage(z);
    var lanes := WordsOf(prf(key, salt, 1, 8 * (MaxThreads * z.keyLength)), MaxThreads * z.keyLength);
    var page0 := WordsOf(prf(salt, salt, 1, 8 * z.pageLength), z.pageLength);
    Store(page0 + heapWords[z.pageLength..], lanes)
  }

  lemma FirstPage(z: Sizes)
    requires SizesOk(z)
    ensures z.pageLength <= z.memoryLength && z.memoryLength == z.numPages * z.pageLength
  {
    MulGrows(1, z.numPages, z.pageLength);
  }

  /** The lanes and memory after hashMem has filled every page in ticket order. */
  function Mixed(prf: Prf, password: seq<byte>, salt: seq<byte>, rounds: nat, mult: nat, z: Sizes,
                 derivedKeySize: nat, heapWords: seq<Word>): (s: Store)
    requires Pbkdf2Ok(prf) && SizesOk(z) && |heapWords| == z.memoryLength
    ensures Layout(s.mem, s.keys, z.pageLength, z.numPages, z.keyLength)
  {
    var s := Seeded(prf, password, salt, rounds, z, derivedKeySize, heapWords);
    Schedule(s.mem, s.keys, z.pageLength, z.numPages, z.keyLength, mult, FirstStop(z.numPages))
  }

  /** Page 0 is read but never rewritten: after mixing it still holds the PBKDF2 of the salt. */
  lemma SaltPageKept(prf: Prf, password: seq<byte>, salt: seq<byte>, rounds: nat, mult: nat, z: Sizes,
                     derivedKeySize: nat, heapWords: seq<Word>)
    requires Pbkdf2Ok(prf) && SizesOk(z) && |heapWords| == z.memoryLength
    ensures var s := Mixed(prf, password, salt, rounds, mult, z, derivedKeySize, heapWords);
            (8 * z.pageLength) % 8 == 0 && z.pageLength <= |s.mem| && s.mem[..z.pageLength] == WordsOfBytes(prf(salt, salt, 1, 8 * z.pageLength))
  {
    var s0 := Seeded(prf, password, salt, rounds, z, derivedKeySize, heapWords);
    var s := Mixed(prf, password, salt, rounds, mult, z, derivedKeySize, heapWords);
    WholeWords(z.pageLength);
    var page0 := WordsOfBytes(prf(salt, salt, 1, 8 * z.pageLength));
    MulGrows(1, z.numPages, z.pageLength);
    assert s0.mem[..z.pageLength] == page0;
    SameOutsideBelow(s.mem, s0.mem, z.pageLength, PageOffset(FirstStop(z.numPages), z.pageLength));
  }

  /** The derived key: PBKDF2 (one round) of the mixed lanes read as bytes, salted again. */
  function DerivedKey(prf: Prf, password: seq<byte>, salt: seq<byte>, rounds: nat, mult: nat, z: Sizes,
                      derivedKeySize: nat, heapWords: seq<Word>): (key: seq<byte>)
    requires Pbkdf2Ok(prf) && SizesOk(z) && |heapWords| == z.memoryLength
    ensures |key| == derivedKeySize
  {
    prf(BytesOfWords(Mixed(prf, password, salt, rounds, mult, z, derivedKeySize, heapWords).keys), salt, 1, derivedKeySize)
  }

  /**
   * What `malloc` left in memory does not reach the derived key: page 0 is
   * written before anything reads memory, and every later page is read only
   * after its own fill has written it. With at least one pass the whole
   * mixed state is the same too; with none, pages 1 .. numPages - 1 keep
   * the heap's words, but nothing reads them.
   */
  lemma DerivedKeyIgnoresHeap(prf: Prf, password: seq<byte>, salt: seq<byte>, rounds: nat, mult: nat, z: Sizes,
                              derivedKeySize: nat, heap1: seq<Word>, heap2: seq<Word>)
    requires Pbkdf2Ok(prf) && SizesOk(z) && |heap1| == z.memoryLength && |heap2| == z.memoryLength
    ensures Mixed(prf, password, salt, rounds, mult, z, derivedKeySize, heap1).keys
              == Mixed(prf, password, salt, rounds, mult, z, derivedKeySize, heap2).keys
    ensures mult >= 1 ==> Mixed(prf, password, salt, rounds, mult, z, derivedKeySize, heap1)
                            == Mixed(prf, password, salt, rounds, mult, z, derivedKeySize, heap2)
    ensures DerivedKey(prf, password, salt, rounds, mult, z, derivedKeySize, heap1)
              == DerivedKey(prf, password, salt, rounds, mult, z, derivedKeySize, heap2)
  {
    var s1 := Seeded(prf, password, salt, rounds, z, derivedKeySize, heap1);
    var s2 := Seeded(prf, password, salt, rounds, z, derivedKeySize, heap2);
    FirstPage(z);
    SeedsAgree(prf, password, salt, rounds, z, derivedKeySize, heap1, heap2);
    var upTo := FirstStop(z.numPages);
    if mult == 0 {
      ScheduleWithoutPasses(s1.mem, s1.keys, z.pageLength, z.numPages, z.keyLength, upTo);
      ScheduleWithoutPasses(s2.mem, s2.keys, z.pageLength, z.numPages, z.keyLength, upTo);
    } else {
      ScheduleAgree(s1.mem, s2.mem, s1.keys, z.pageLength, z.numPages, z.keyLength, mult, upTo);
      var m1 := Schedule(s1.mem, s1.keys, z.pageLength, z.numPages, z.keyLength, mult, upTo);
      var m2 := Schedule(s2.mem, s2.keys, z.pageLength, z.numPages, z.keyLength, mult, upTo);
      assert PageOffset(upTo, z.pageLength) == |m1.mem|;
      assert m1.mem == m2.mem;
    }
  }

  /** Two seedings differ only in the heap's words, none of which is on page 0. */
  lemma SeedsAgree(prf: Prf, password: seq<byte>, salt: seq<byte>, rounds: nat, z: Sizes,
                   derivedKeySize: nat, heap1: seq<Word>, heap2: seq<Word>)
    requires Pbkdf2Ok(prf) && SizesOk(z) && |heap1| == z.memoryLength && |heap2| == z.memoryLength
    ensures var s1 := Seeded(prf, password, salt, rounds, z, derivedKeySize, heap1);
            var s2 := Seeded(prf, password, salt, rounds, z, derivedKeySize, heap2);
            s1.keys == s2.keys && AgreeBelow(s1.mem, s2.mem, z.pageLength)
  {
    FirstPage(z);
  }

  /**
   * The key keystretch derives from its inputs alone: DerivedKey over any
   * heap contents, all-zero ones taken as representative
   * (DerivedKeyIgnoresHeap).
   */
  function StretchedKey(prf: Prf, password: seq<byte>, salt: seq<byte>, rounds: nat, mult: nat, z: Sizes,
                        derivedKeySize: nat): (key: seq<byte>)
    requires Pbkdf2Ok(prf) && SizesOk(z)
    ensures |key| == derivedKeySize
  {
    DerivedKey(prf, password, salt, rounds, mult, z, derivedKeySize, Zeros(z.memoryLength))
  }

  // ---------------------------------------------------------------------
  // Buffers

  /** A PBKDF2 output written through a `uint8 *` cast over the first words of a word buffer. */
  method StoreWords(dst: array<Word>, bytes: seq<byte>)
    requires |bytes| % 8 == 0 && |bytes| / 8 <= dst.Length
    modifies dst
    ensures dst[..] == WordsOfBytes(bytes) + old(dst[..])[|bytes| / 8..]
  {
    ghost var before := dst[..];
    var n := |bytes| / 8;
    for i := 0 to n
      invariant forall j :: 0 <= j < i ==> dst[j] == WordsOfBytes(bytes)[j]
      invariant forall j :: i <= j < dst.Length ==> dst[j] == before[j]
    {
      WordsOfBytesAt(bytes, i);
      dst[i] := WordOfBytes(bytes[8 * i .. 8 * i + 8]);
    }
    assert dst[..] == WordsOfBytes(bytes) + before[n..];
  }

  /** A PBKDF2 output written into a byte buffer of its length. */
  method StoreBytes(dst: array<byte>, bytes: seq<byte>)
    requires |bytes| == dst.Length
    modifies dst
    ensures dst[..] == bytes
  {
    for i := 0 to dst.Length
      invariant dst[..i] == bytes[..i]
    {
      dst[i] := bytes[i];
    }
  }

  /** `memset(p, 0, ...)` over a word buffer. */
  method WipeWords(a: array<Word>)
    modifies a
    ensures a[..] == Zeros(a.Length)
  {
    for i := 0 to a.Length
      invariant a[..i] == Zeros(i)
    {
      a[i] := 0;
    }
  }

  /** `memset(p, '\0', ...)` over a byte buffer. */
  method WipeBytes(a: array<byte>)
    modifies a
    ensures a[..] == ZeroBytes(a.Length)
  {
    for i := 0 to a.Length
      invariant a[..i] == ZeroBytes(i)
    {
      a[i] := 0;
    }
  }

  // ---------------------------------------------------------------------
  // The stages on buffers

  /** Step 1: the first PBKDF2 into derivedKey, then the password wiped if asked. */
  method StretchPassword(prf: Prf, rounds: nat, derivedKey: array<byte>, salt: seq<byte>,
                         password: array<byte>, clearPassword: bool)
    requires Pbkdf2Ok(prf) && derivedKey != password
    modifies derivedKey, password
    ensures derivedKey[..] == prf(old(password[..]), salt, rounds, derivedKey.Length)
    ensures password[..] == if clearPassword then ZeroBytes(password.Length) else old(password[..])
  {
    StoreBytes(derivedKey, prf(password[..], salt, rounds, derivedKey.Length));
    if clearPassword {
      WipeBytes(password);
    }
  }

  /**
   * keystretch once the password is stretched into derivedKey and both
   * buffers are allocated: seed, hashMem, derive the key from the lanes,
   * and wipe the lanes and the contexts.
   */
  method InMemory(prf: Prf, derivedKey: array<byte>, salt: seq<byte>, z: Sizes, mult: U32, numThreads: U32,
                  clearMemory: bool, ghost password: seq<byte>, ghost rounds: nat)
    returns (m: array<Word>, keys: array<Word>, ring: Contexts, ghost heapWords: seq<Word>)
    requires Pbkdf2Ok(prf) && SizesOk(z) && 1 <= numThreads <= MaxThreads
    requires derivedKey[..] == prf(password, salt, rounds, derivedKey.Length)
    modifies derivedKey
    ensures fresh(m) && fresh(keys) && fresh(ring) && ring.wiped && |heapWords| == z.memoryLength
    ensures derivedKey[..] == DerivedKey(prf, password, salt, rounds, mult, z, derivedKey.Length, heapWords)
    ensures keys[..] == Zeros(MaxThreads * z.keyLength)
    ensures m[..] == if clearMemory then Zeros(z.memoryLength)
                     else Mixed(prf, password, salt, rounds, mult, z, derivedKey.Length, heapWords).mem
  {
    m, keys, ring, heapWords := Mix(prf, derivedKey, salt, z, mult, numThreads, password, rounds);
    ghost var mixed := Mixed(prf, password, salt, rounds, mult, z, derivedKey.Length, heapWords);
    Finish(prf, keys, salt, derivedKey);
    ring.Wipe();
    assert m[..] == mixed.mem;
    if clearMemory {
      WipeWords(m);
    }
  }

  /**
   * Allocation, seeding and hashMem: memory and lanes as Mixed describes
   * them. The stretched key in derivedKey is consumed (zeroed) on the way.
   */
  method Mix(prf: Prf, derivedKey: array<byte>, salt: seq<byte>, z: Sizes, mult: U32, numThreads: U32,
             ghost password: seq<byte>, ghost rounds: nat)
    returns (m: array<Word>, keys: array<Word>, ring: Contexts, ghost heapWords: seq<Word>)
    requires Pbkdf2Ok(prf) && SizesOk(z) && 1 <= numThreads <= MaxThreads
    requires derivedKey[..] == prf(password, salt, rounds, derivedKey.Length)
    modifies derivedKey
    ensures fresh(m) && fresh(keys) && fresh(ring) && m != keys && |heapWords| == z.memoryLength
    ensures Store(m[..], keys[..]) == Mixed(prf, password, salt, rounds, mult, z, derivedKey.Length, heapWords)
  {
    m := new Word[z.memoryLength];
    keys := new Word[MaxThreads * z.keyLength](_ => 0);
    heapWords := m[..];
    ghost var s0 := Seeded(prf, password, salt, rounds, z, derivedKey.Length, heapWords);
    SeedLanes(prf, derivedKey, salt, keys);
    PageOffsetNext(1, z.pageLength);
    StoreWords(m, prf(salt, salt, 1, 8 * z.pageLength));
    assert Store(m[..], keys[..]) == s0;
    ring := new Contexts(m, keys, z.pageLength, z.numPages, z.keyLength, mult, numThreads);
    ring.HashMem();
  }

  /** The lanes from one round of PBKDF2 over the stretched key, which is then wiped. */
  method SeedLanes(prf: Prf, derivedKey: array<byte>, salt: seq<byte>, threadKeys: array<Word>)
    requires Pbkdf2Ok(prf)
    modifies derivedKey, threadKeys
    ensures threadKeys[..] == WordsOfBytes(prf(old(derivedKey[..]), salt, 1, 8 * threadKeys.Length))
    ensures derivedKey[..] == ZeroBytes(derivedKey.Length)
  {
    var bytes := prf(derivedKey[..], salt, 1, 8 * threadKeys.Length);
    StoreWords(threadKeys, bytes);
    WipeBytes(derivedKey);
  }

  /** The lanes compressed into the derived key, then wiped. */
  method Finish(prf: Prf, threadKeys: array<Word>, salt: seq<byte>, derivedKey: array<byte>)
    requires Pbkdf2Ok(prf)
    modifies derivedKey, threadKeys
    ensures derivedKey[..] == prf(BytesOfWords(old(threadKeys[..])), salt, 1, derivedKey.Length)
    ensures threadKeys[..] == Zeros(threadKeys.Length)
  {
    StoreBytes(derivedKey, prf(BytesOfWords(threadKeys[..]), salt, 1, derivedKey.Length));
    WipeWords(threadKeys);
  }

  /**
   * keystretch: the stages in the order the code runs them, with the ring
   * of numThreads contexts for hashMem. A failed allocation returns false
   * without freeing the buffer that was obtained, if one was
   * (AllocationFailureLeaks). On success the derived key is the one the
   * stage functions describe for the memory `malloc` returned (`heapWords`),
   * which is StretchedKey whatever that memory held (DerivedKeyIgnoresHeap);
   * the lanes and the contexts are wiped, memory is wiped exactly when
   * clearMemory is set, and both buffers stay allocated unless freeMemory
   * is set. Pages are filled by the intended fillPage (see Mixing's Turn).
   */
  method Keystretch(prf: Prf, sha256HashRounds: U32, cpuWorkMultiplier: U32, memorySize: nat, pageSize: U32,
                    numThreads: U32, derivedKey: array<byte>, salt: seq<byte>, password: array<byte>,
                    clearPassword: bool, clearMemory: bool, freeMemory: bool, memAllocOk: bool, keysAllocOk: bool)
    returns (ok: bool, held: set<Buffer>, mem: array?<Word>, threadKeys: array?<Word>, contexts: Contexts?,
             ghost heapWords: seq<Word>)
    requires Pbkdf2Ok(prf) && derivedKey != password && derivedKey.Length < TWO32
    requires pageSize >= 8 && SizesOk(SizesOf(memorySize, pageSize, derivedKey.Length))
    requires 1 <= numThreads <= MaxThreads
    modifies derivedKey, password
    ensures password[..] == if clearPassword then ZeroBytes(password.Length) else old(password[..])
    ensures ok <==> memAllocOk && keysAllocOk
    ensures !ok ==> (MemBuffer in held <==> memAllocOk) && (KeysBuffer in held <==> keysAllocOk)
    ensures !ok ==> derivedKey[..] == prf(old(password[..]), salt, sha256HashRounds, derivedKey.Length)
    ensures ok ==>
              var z := SizesOf(memorySize, pageSize, derivedKey.Length);
              && mem != null && threadKeys != null && fresh(mem) && fresh(threadKeys)
              && contexts != null && fresh(contexts) && contexts.wiped
              && |heapWords| == z.memoryLength
              && derivedKey[..] == DerivedKey(prf, old(password[..]), salt, sha256HashRounds, cpuWorkMultiplier, z, derivedKey.Length, heapWords)
              && derivedKey[..] == StretchedKey(prf, old(password[..]), salt, sha256HashRounds, cpuWorkMultiplier, z, derivedKey.Length)
              && threadKeys[..] == Zeros(MaxThreads * z.keyLength)
              && mem[..] == (if clearMemory then Zeros(z.memoryLength)
                             else Mixed(prf, old(password[..]), salt, sha256HashRounds, cpuWorkMultiplier, z, derivedKey.Length, heapWords).mem)
              && held == (if freeMemory then {} else {MemBuffer, KeysBuffer})
  {
    ghost var password0 := password[..];
    StretchPassword(prf, sha256HashRounds, derivedKey, salt, password, clearPassword);
    var z := SizesOf(memorySize, pageSize, derivedKey.Length);
    var allocation := AllocateAsWritten(memAllocOk, keysAllocOk);
    if !allocation.proceed {
      ok, held, mem, threadKeys, contexts, heapWords := false, allocation.held, null, null, null, [];
      return;
    }
    ok := true;
    mem, threadKeys, contexts, heapWords := InMemory(prf, derivedKey, salt, z, cpuWorkMultiplier, numThreads, clearMemory, password0, sha256HashRounds);
    DerivedKeyIgnoresHeap(prf, password0, salt, sha256HashRounds, cpuWorkMultiplier, z, derivedKey.Length, heapWords, Zeros(z.memoryLength));
    held := if freeMemory then {} else {MemBuffer, KeysBuffer};
  }

  // ---------------------------------------------------------------------
  // The password hashing competition entry point

  /** PHS's fixed page: 16 KB, that is 2048 words, a power of two. */
  lemma PhsPageLength()
    ensures 0x4000 / 8 == 2048 && PageLengthOk(2048)
  {
    Pow2Add(3, 8);
    assert Pow2(3) == 8 && Pow2(8) == 256 by { Pow2Word(); }
    Pow2IsPow2(11);
  }

  /**
   * With at least one 16 KB page of memory and a non-empty output that
   * does not wrap in 32 bits, PHS gives keystretch sizes it can work
   * with: 2048-word pages, as many as the memory holds.
   */
  lemma PhsSizes(mCost: U32, outlen: nat)
    requires 0x4000 <= mCost && 1 <= outlen <= TWO32 - 8
    ensures var z := SizesOf(mCost, 0x4000, outlen);
            SizesOk(z) && z.pageLength == 2048 && z.numPages == mCost / 0x4000 && outlen <= 8 * z.keyLength
  {
    DivBounds(mCost, 0x4000);
    SizesMeaning(mCost, 0x4000, outlen);
    PhsPageLength();
  }

  /**
   * PHS: keystretch with 4096 PBKDF2 rounds, t_cost as the CPU multiplier,
   * m_cost bytes of memory in 16 KB pages and two threads. The password
   * cannot be wiped and stays as it was; the memory is neither wiped nor
   * freed. The result is 1 exactly when keystretch succeeds; on failure
   * the buffer that was obtained, if any, stays allocated.
   */
  method Phs(prf: Prf, out: array<byte>, input: array<byte>, salt: seq<byte>, tCost: U32, mCost: U32,
             memAllocOk: bool, keysAllocOk: bool)
    returns (r: int, ghost held: set<Buffer>, ghost heapWords: seq<Word>)
    requires Pbkdf2Ok(prf) && out != input && 1 <= out.Length <= TWO32 - 8 && 0x4000 <= mCost
    modifies out, input
    ensures input[..] == old(input[..])
    ensures r == (if memAllocOk && keysAllocOk then 1 else 0)
    ensures r == 0 ==> (MemBuffer in held <==> memAllocOk) && (KeysBuffer in held <==> keysAllocOk)
    ensures r == 0 ==> out[..] == prf(input[..], salt, 4096, out.Length)
    ensures r == 1 ==>
              var z := SizesOf(mCost, 0x4000, out.Length);
              && SizesOk(z) && |heapWords| == z.memoryLength
              && out[..] == DerivedKey(prf, input[..], salt, 4096, tCost, z, out.Length, heapWords)
              && out[..] == StretchedKey(prf, input[..], salt, 4096, tCost, z, out.Length)
              && held == {MemBuffer, KeysBuffer}
  {
    PhsSizes(mCost, out.Length);
    var ok, mem, threadKeys, contexts;
    ok, held, mem, threadKeys, contexts, heapWords := Keystretch(prf, 4096, tCost, mCost, 0x4000, 2, out, salt, input,
                                                       false, false, false, memAllocOk, keysAllocOk);
    r := if ok then 1 else 0;
  }

  // ---------------------------------------------------------------------
  // The keystretch command

  /**
   * How the `keystretch` command ends: `usage` (status 1), "Key stretching
   * failed." (status 1), or the derived key printed in hex (status 0).
   */
  datatype Outcome = UsageError(reason: Usage) | StretchFailed | Printed(hex: string)

  /** Argument text whose characters are bytes, as C's `char` is. */
  predicate IsByteText(s: string)
  {
    forall j :: 0 <= j < |s| ==> s[j] as int < 256
  }

  /** The bytes `(uint8 *)password` reads from an argument. */
  function TextBytes(s: string): (b: seq<byte>)
    requires IsByteText(s)
    ensures |b| == |s| && forall j :: 0 <= j < |s| ==> b[j] == s[j] as int
  {
    seq(|s|, j requires 0 <= j < |s| => s[j] as int)
  }

  /**
   * A command line readArguments accepts: eight arguments, six well-formed
   * integers, an even-length salt, and a salt buffer obtained.
   */
  ghost predicate ArgumentsRead(argv: seq<string>, parse: Parser, saltAllocOk: bool)
  {
    |argv| == 9 && (forall i :: 1 <= i <= 6 ==> ValidInteger(parse, argv[i])) && |argv[7]| % 2 == 0 && saltAllocOk
  }

  /** The corrected validator's reason for the arguments readArguments reads from argv. */
  ghost function ArgumentsVerdict(argv: seq<string>, parse: Parser): Option<Usage>
    requires IntegersValid(parse, argv)
  {
    CorrectedVerdict(ToU32(parse(argv[1]).value), ToU32(parse(argv[2]).value), ToU32(parse(argv[3]).value) * 0x10_0000,
                     PageSizeOfKbAsWritten(ToU32(parse(argv[4]).value)), ToU32(parse(argv[5]).value),
                     ToU32(parse(argv[6]).value), |argv[7]| / 2, |argv[8]|)
  }

  /** A command line `main` stretches: read, and then accepted with room for two pages. */
  ghost predicate CommandAccepted(argv: seq<string>, parse: Parser, saltAllocOk: bool)
  {
    && ArgumentsRead(argv, parse, saltAllocOk)
    && AcceptsWithTwoPages(ToU32(parse(argv[1]).value), ToU32(parse(argv[2]).value), ToU32(parse(argv[3]).value) * 0x10_0000,
                           PageSizeOfKbAsWritten(ToU32(parse(argv[4]).value)), ToU32(parse(argv[5]).value),
                           ToU32(parse(argv[6]).value), |argv[7]| / 2, |argv[8]|)
  }

  /**
   * keystretch_main.c's `main`: read and validate the arguments, stretch
   * the password with the hashing factor as the PBKDF2 round count and
   * clearPassword set (clearMemory and freeMemory not), print the derived
   * key in hex and wipe it. The validation is the corrected one, which also
   * insists on two pages (TooFewPagesAccepted shows what the code's own
   * lets through). `saltAllocOk`, `memAllocOk` and `keysAllocOk` are the
   * outcomes of the salt's, the memory's and the lanes' allocations. When
   * stretching fails the buffer still holds the first PBKDF2 output, which
   * `main` neither wipes nor frees.
   */
  method Command(prf: Prf, argv: seq<string>, parse: Parser, saltAllocOk: bool, memAllocOk: bool, keysAllocOk: bool)
    returns (out: Outcome, password: array<byte>, derivedKey: array<byte>,
             ghost args: Arguments, ghost key: seq<byte>)
    requires Pbkdf2Ok(prf)
    requires forall i :: 0 <= i < |argv| ==> IsCString(argv[i]) && IsByteText(argv[i])
    ensures |argv| != 9 ==> out == UsageError(WrongArgumentCount)
    ensures !out.UsageError? <==> CommandAccepted(argv, parse, saltAllocOk)
    ensures |argv| == 9 && !IntegersValid(parse, argv) ==> out.UsageError? && out.reason.InvalidInteger?
    ensures out.UsageError? && out.reason.InvalidInteger? ==>
              var i := out.reason.index;
              |argv| == 9 && 1 <= i <= 6 && !ValidInteger(parse, argv[i]) && forall j :: 1 <= j < i ==> ValidInteger(parse, argv[j])
    ensures out == UsageError(SaltOddLength) <==> IntegersValid(parse, argv) && |argv[7]| % 2 == 1
    ensures out == UsageError(SaltNoMemory) <==> IntegersValid(parse, argv) && |argv[7]| % 2 == 0 && !saltAllocOk
    ensures ArgumentsRead(argv, parse, saltAllocOk) && out.UsageError? ==> Some(out.reason) == ArgumentsVerdict(argv, parse)
    ensures !out.UsageError? ==>
              && |argv| == 9 && (forall i :: 1 <= i <= 6 ==> ValidInteger(parse, argv[i])) && args.password == argv[8]
              && args.hashingFactor == ToU32(parse(argv[1]).value) && args.multiplier == ToU32(parse(argv[2]).value)
              && args.memorySize == ToU32(parse(argv[3]).value) * 0x10_0000
              && args.pageSize == PageSizeOfKbAsWritten(ToU32(parse(argv[4]).value))
              && args.numThreads == ToU32(parse(argv[5]).value)
              && args.derivedKeySize == ToU32(parse(argv[6]).value)
              && |args.salt| == |argv[7]| / 2
              && (forall i :: 0 <= i < ValidPairs(argv[7]) ==> args.salt[i] == PairValue(argv[7], i))
              && AcceptsWithTwoPages(args.hashingFactor, args.multiplier, args.memorySize, args.pageSize, args.numThreads,
                                     args.derivedKeySize, |args.salt|, |args.password|)
              && password.Length == |argv[8]| && password[..] == ZeroBytes(|argv[8]|)
              && derivedKey.Length == args.derivedKeySize
              && (out.StretchFailed? <==> !(memAllocOk && keysAllocOk))
              && (out.StretchFailed? ==> derivedKey[..] == prf(TextBytes(argv[8]), args.salt, args.hashingFactor, args.derivedKeySize))
              && (out.Printed? ==> PrintsKey(prf, args, out.hex, key) && derivedKey[..] == ZeroBytes(args.derivedKeySize))
  {
    var read := ReadArguments(argv, parse, saltAllocOk);
    if read.Err? {
      out, password, derivedKey := UsageError(read.error), new byte[0], new byte[0];
      args, key := Arguments(0, 0, 0, 0, 0, 0, [], ""), [];
      return;
    }
    var a := read.value;
    args := a;
    var check := VerifyParametersCorrected(a.hashingFactor, a.multiplier, a.memorySize, a.pageSize, a.numThreads,
                                           a.derivedKeySize, |a.salt|, |a.password|);
    if check.Some? {
      out, password, derivedKey, key := UsageError(check.value), new byte[0], new byte[0], [];
      return;
    }
    out, password, derivedKey, key := StretchAndPrint(prf, a, memAllocOk, keysAllocOk);
  }

  /**
   * What `main` prints for accepted arguments: the hex of the key that
   * keystretch derives from the password's bytes, the salt, the hashing
   * factor as round count and the multiplier, over the sizes the arguments
   * give, over memory whatever `malloc` returned (Keystretch's contract).
   */
  ghost predicate PrintsKey(prf: Prf, a: Arguments, hex: string, key: seq<byte>)
    requires Pbkdf2Ok(prf)
  {
    && IsByteText(a.password) && a.pageSize >= 8
    && var z := SizesOf(a.memorySize, a.pageSize, a.derivedKeySize);
    && SizesOk(z) && |key| == a.derivedKeySize && hex == Encode(key)
    && key == StretchedKey(prf, TextBytes(a.password), a.salt, a.hashingFactor, a.multiplier, z, |key|)
  }

  /** The keystretch call in `main`: the arguments' parameters, clearPassword set, memory neither cleared nor freed. */
  method StretchArguments(prf: Prf, a: Arguments, derivedKey: array<byte>, password: array<byte>, memAllocOk: bool, keysAllocOk: bool)
    returns (ok: bool)
    requires Pbkdf2Ok(prf) && IsByteText(a.password) && a.pageSize >= 8 && 1 <= a.numThreads <= MaxThreads
    requires SizesOk(SizesOf(a.memorySize, a.pageSize, a.derivedKeySize))
    requires derivedKey != password && derivedKey.Length == a.derivedKeySize && password[..] == TextBytes(a.password)
    modifies derivedKey, password
    ensures password[..] == ZeroBytes(password.Length)
    ensures ok <==> memAllocOk && keysAllocOk
    ensures !ok ==> derivedKey[..] == prf(TextBytes(a.password), a.salt, a.hashingFactor, a.derivedKeySize)
    ensures ok ==> derivedKey[..] == StretchedKey(prf, TextBytes(a.password), a.salt, a.hashingFactor, a.multiplier,
                                                  SizesOf(a.memorySize, a.pageSize, a.derivedKeySize), a.derivedKeySize)
  {
    var held, mem, threadKeys, contexts;
    ghost var heapWords;
    ok, held, mem, threadKeys, contexts, heapWords := Keystretch(prf, a.hashingFactor, a.multiplier, a.memorySize, a.pageSize,
                                                                 a.numThreads, derivedKey, a.salt, password,
                                                                 true, false, false, memAllocOk, keysAllocOk);
  }

  /**
   * `main` once the arguments are accepted: calloc the key buffer, run
   * keystretch with clearPassword set, then print the key and wipe its
   * buffer.
   */
  method StretchAndPrint(prf: Prf, a: Arguments, memAllocOk: bool, keysAllocOk: bool)
    returns (out: Outcome, password: array<byte>, derivedKey: array<byte>, ghost key: seq<byte>)
    requires Pbkdf2Ok(prf) && IsByteText(a.password)
    requires AcceptsWithTwoPages(a.hashingFactor, a.multiplier, a.memorySize, a.pageSize, a.numThreads,
                                 a.derivedKeySize, |a.salt|, |a.password|)
    ensures !out.UsageError?
    ensures password.Length == |a.password| && password[..] == ZeroBytes(|a.password|)
    ensures derivedKey.Length == a.derivedKeySize
    ensures out.StretchFailed? <==> !(memAllocOk && keysAllocOk)
    ensures out.StretchFailed? ==> derivedKey[..] == prf(TextBytes(a.password), a.salt, a.hashingFactor, a.derivedKeySize)
    ensures out.Printed? ==> PrintsKey(prf, a, out.hex, key) && derivedKey[..] == ZeroBytes(a.derivedKeySize)
  {
    AcceptedSizes(a.hashingFactor, a.multiplier, a.memorySize, a.pageSize, a.numThreads, a.derivedKeySize, |a.salt|, |a.password|);
    derivedKey := new byte[a.derivedKeySize];
    password := new byte[|a.password|];
    StoreBytes(password, TextBytes(a.password));
    var ok := StretchArguments(prf, a, derivedKey, password, memAllocOk, keysAllocOk);
    key := derivedKey[..];
    if !ok {
      out := StretchFailed;
      return;
    }
    var hex := PrintHex(derivedKey[..]);
    WipeBytes(derivedKey);
    out := Printed(hex);
  }
}
