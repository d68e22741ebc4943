/**
 * The `keystretch` command: argument reading and parameter validation
 * (keystretch_main.c). `usage(...)`, which prints and exits with status 1,
 * is an error result naming the check that failed.
 */
module KeystretchCli {
  import opened Words
  import opened Results
  import opened HexCodec
  import opened Engine

  /** The reasons `usage` is called with. */
  datatype Usage =
    | WrongArgumentCount
    | InvalidInteger(index: nat)
    | SaltOddLength
    | SaltNoMemory
    | InvalidHashingFactor
    | InvalidMultiplier
    | InvalidMemorySize
    | InvalidPageSize
    | InvalidThreadCount
    | InvalidDerivedKeySize
    | InvalidSaltSize
    | InvalidPasswordSize
    | PageSizeNotPowerOfTwo
    | DerivedKeySizeNotPowerOfTwo

  /** The values `readArguments` hands to `main`. */
  datatype Arguments = Arguments(
    hashingFactor: U32, multiplier: U32, memorySize: nat, pageSize: U32,
    numThreads: U32, derivedKeySize: U32, salt: seq<byte>, password: string)

  /**
   * What `strtol(p, &end, 0)` recognises: `None` when the text does not end
   * in a number (the `*endPtr != '\0'` test), otherwise the long it denotes.
   * The C library's number syntax is not part of this model.
   */
  type Parser = string -> Option<int>

  /** The long -> uint32 conversion: reduction modulo 2^32. */
  function ToU32(v: int): (r: U32)
    ensures 0 <= v < TWO32 ==> r == v
    ensures (r - v) % TWO32 == 0
  {
    v % TWO32
  }

  /** readUint32: an empty argument or one with trailing text is a usage error. */
  function ReadUint32(parse: Parser, argv: seq<string>, index: nat): (r: Result<U32, Usage>)
    requires index < |argv|
    ensures r.Err? <==> argv[index] == "" || parse(argv[index]).None?
    ensures r.Err? ==> r.error == InvalidInteger(index)
    ensures r.Ok? ==> r.value == ToU32(parse(argv[index]).value)
  {
    var p := argv[index];
    if p == "" then Err(InvalidInteger(index))
    else match parse(p)
      case None => Err(InvalidInteger(index))
      case Some(v) => Ok(ToU32(v))
  }

  /** Argument i is a well-formed integer. */
  predicate ValidInteger(parse: Parser, arg: string)
  {
    arg != "" && parse(arg).Some?
  }

  /** Eight arguments, the first six of them well-formed integers. */
  predicate IntegersValid(parse: Parser, argv: seq<string>)
  {
    |argv| == 9 && forall i :: 1 <= i <= 6 ==> ValidInteger(parse, argv[i])
  }

  /**
   * readArguments: exactly eight arguments (argc == 9); the memory size is in
   * MB and the page size in KB; the salt is hex. `allocOk` is the outcome of
   * the salt's `malloc`. The first malformed argument is the one reported:
   * a malformed integer before anything about the salt.
   * The page size is the 32-bit product the code computes, which wraps for
   * more than 2^22 KB (see PageSizeWrapsToValidSize).
   */
  method ReadArguments(argv: seq<string>, parse: Parser, allocOk: bool) returns (r: Result<Arguments, Usage>)
    requires forall i :: 0 <= i < |argv| ==> IsCString(argv[i])
    ensures |argv| != 9 ==> r == Err(WrongArgumentCount)
    ensures r.Ok? <==> |argv| == 9 && (forall i :: 1 <= i <= 6 ==> ValidInteger(parse, argv[i]))
                       && |argv[7]| % 2 == 0 && allocOk
    ensures r.Err? && |argv| == 9 && r.error.InvalidInteger? ==>
              var i := r.error.index;
              1 <= i <= 6 && !ValidInteger(parse, argv[i]) && forall j :: 1 <= j < i ==> ValidInteger(parse, argv[j])
    ensures |argv| == 9 && !IntegersValid(parse, argv) ==> r.Err? && r.error.InvalidInteger?
    ensures r == Err(SaltOddLength) <==> IntegersValid(parse, argv) && |argv[7]| % 2 == 1
    ensures r == Err(SaltNoMemory) <==> IntegersValid(parse, argv) && |argv[7]| % 2 == 0 && !allocOk
    ensures r.Ok? ==>
      && r.value.hashingFactor == ToU32(parse(argv[1]).value)
      && r.value.multiplier == ToU32(parse(argv[2]).value)
      && r.value.memorySize == ToU32(parse(argv[3]).value) * 0x10_0000
      && r.value.pageSize == PageSizeOfKbAsWritten(ToU32(parse(argv[4]).value))
      && r.value.numThreads == ToU32(parse(argv[5]).value)
      && r.value.derivedKeySize == ToU32(parse(argv[6]).value)
      && |r.value.salt| == |argv[7]| / 2
      && (forall i :: 0 <= i < ValidPairs(argv[7]) ==> r.value.salt[i] == PairValue(argv[7], i))
      && r.value.password == argv[8]
  {
    if |argv| != 9 {
      return Err(WrongArgumentCount);
    }
    var factor := ReadUint32(parse, argv, 1);
    if factor.Err? { return Err(factor.error); }
    var multiplier := ReadUint32(parse, argv, 2);
    if multiplier.Err? { return Err(multiplier.error); }
    var mb := ReadUint32(parse, argv, 3);
    if mb.Err? { return Err(mb.error); }
    var kb := ReadUint32(parse, argv, 4);
    if kb.Err? { return Err(kb.error); }
    var threads := ReadUint32(parse, argv, 5);
    if threads.Err? { return Err(threads.error); }
    var keySize := ReadUint32(parse, argv, 6);
    if keySize.Err? { return Err(keySize.error); }
    var salt := ReadHexSalt(argv[7], allocOk);
    if salt.Err? {
      return Err(if salt.error == OddLength then SaltOddLength else SaltNoMemory);
    }
    // `readUint32(argv, 3) * (1LL << 20)` is computed in 64 bits and cannot
    // wrap; `readUint32(argv, 4) * (1 << 10)` is computed in 32 bits and can.
    r := Ok(Arguments(factor.value, multiplier.value, mb.value * 0x10_0000, PageSizeOfKbAsWritten(kb.value),
                      threads.value, keySize.value, salt.value, argv[8]));
  }

  /** The page size in bytes for a size in KB, as intended: computed without wrapping. */
  function PageSizeOfKb(kb: U32): (size: nat)
    ensures size / 0x400 == kb && size % 0x400 == 0
  {
    kb * 0x400
  }

  /**
   * As written, `readUint32(argv, 4) * (1 << 10)` is a uint32 product and
   * wraps modulo 2^32.
   */
  function PageSizeOfKbAsWritten(kb: U32): (size: U32)
    ensures size == PageSizeOfKb(kb) % TWO32
  {
    (kb * 0x400) % TWO32
  }

  /** A page of 4 GiB + 1 KB wraps to a 1 KB page that the validator accepts. */
  lemma PageSizeWrapsToValidSize()
    ensures PageSizeOfKbAsWritten(0x40_0001) == 0x400
    ensures PageSizeOfKb(0x40_0001) > 0x1000_0000
    ensures PageSizeRangeOk(PageSizeOfKbAsWritten(0x40_0001))
    ensures IsPowerOfTwo(PageSizeOfKbAsWritten(0x40_0001))
  {
    assert Pow2(10) == 0x400 by { Pow2Add(5, 5); assert Pow2(5) == 32; }
    assert Pow2(10) == PageSizeOfKbAsWritten(0x40_0001);
  }

  /** Without the wrap, any size of more than 2^18 KB is out of the page-size range. */
  lemma PageSizeOfKbInRange(kb: U32)
    ensures PageSizeRangeOk(PageSizeOfKb(kb)) <==> 1 <= kb <= 0x4_0000
  {
  }

  // ---------------------------------------------------------------------
  // verifyParameters

  predicate PageSizeRangeOk(pageSize: nat)
  {
    0x100 <= pageSize <= 0x1000_0000
  }

  predicate FactorOk(factor: nat) { factor <= 0x10_0000 }
  predicate MultiplierOk(multiplier: nat) { 1 <= multiplier <= 0x10_0000 }
  /** From 1 MB to 400 GB. */
  predicate MemorySizeOk(memorySize: nat) { 0x10_0000 <= memorySize <= 0x1_0000_0000 * 100 }
  predicate ThreadCountOk(numThreads: nat) { 1 <= numThreads <= MaxThreads }
  predicate DerivedKeySizeOk(derivedKeySize: nat) { 8 <= derivedKeySize <= 0x10_0000 }
  predicate SaltSizeOk(saltSize: nat) { 4 <= saltSize <= 0x200 }

  /** The range checks of verifyParameters (keystretch_main.c), in order. */
  predicate RangesOk(factor: nat, multiplier: nat, memorySize: nat, pageSize: nat,
                     numThreads: nat, derivedKeySize: nat, saltSize: nat, passwordSize: nat)
  {
    && FactorOk(factor)
    && MultiplierOk(multiplier)
    && MemorySizeOk(memorySize)
    && PageSizeRangeOk(pageSize)
    && ThreadCountOk(numThreads)
    && DerivedKeySizeOk(derivedKeySize)
    && SaltSizeOk(saltSize)
    && passwordSize != 0
  }

  /** What verifyParameters lets through. */
  ghost predicate Accepts(factor: nat, multiplier: nat, memorySize: nat, pageSize: nat,
                    numThreads: nat, derivedKeySize: nat, saltSize: nat, passwordSize: nat)
  {
    && RangesOk(factor, multiplier, memorySize, pageSize, numThreads, derivedKeySize, saltSize, passwordSize)
    && (IsPowerOfTwo(pageSize))
    && (IsPowerOfTwo(derivedKeySize))
  }

  /**
   * The reason verifyParameters gives, if any: the first failing check in
   * the order keystretch_main.c makes them.
   */
  ghost function Verdict(factor: nat, multiplier: nat, memorySize: nat, pageSize: nat,
                         numThreads: nat, derivedKeySize: nat, saltSize: nat, passwordSize: nat): (r: Option<Usage>)
    ensures r.None? <==> Accepts(factor, multiplier, memorySize, pageSize, numThreads, derivedKeySize, saltSize, passwordSize)
  {
    if !FactorOk(factor) then Some(InvalidHashingFactor)
    else if !MultiplierOk(multiplier) then Some(InvalidMultiplier)
    else if !MemorySizeOk(memorySize) then Some(InvalidMemorySize)
    else if !PageSizeRangeOk(pageSize) then Some(InvalidPageSize)
    else if !ThreadCountOk(numThreads) then Some(InvalidThreadCount)
    else if !DerivedKeySizeOk(derivedKeySize) then Some(InvalidDerivedKeySize)
    else if !SaltSizeOk(saltSize) then Some(InvalidSaltSize)
    else if passwordSize == 0 then Some(InvalidPasswordSize)
    else if !IsPowerOfTwo(pageSize) then Some(PageSizeNotPowerOfTwo)
    else if !IsPowerOfTwo(derivedKeySize) then Some(DerivedKeySizeNotPowerOfTwo)
    else None
  }

  /**
   * The `while((x & 1) == 0) x >>= 1;` loop followed by `x != 1`: strips the
   * factors of two and reports whether nothing else was left. Terminates
   * because x is not 0.
   */
  method OnlyFactorsOfTwo(x: nat) returns (isPow2: bool)
    requires x != 0
    ensures isPow2 <==> IsPowerOfTwo(x)
  {
    var y := x;
    while y % 2 == 0
      invariant y != 0
      invariant IsPow2(y) == IsPow2(x)
      decreases y
    {
      y := y / 2;
    }
    isPow2 := y == 1;
    PowerOfTwoHalving(x);
  }

  /**
   * verifyParameters: the range checks in order, then the two power-of-two
   * tests; the first failure is reported, so each reason is returned
   * exactly when its check fails and every earlier one passes.
   */
  method VerifyParameters(factor: U32, multiplier: U32, memorySize: nat, pageSize: nat,
                          numThreads: U32, derivedKeySize: U32, saltSize: nat, passwordSize: nat)
    returns (r: Option<Usage>)
    ensures r.None? <==> Accepts(factor, multiplier, memorySize, pageSize, numThreads, derivedKeySize, saltSize, passwordSize)
    ensures r == Some(InvalidHashingFactor) <==> !FactorOk(factor)
    ensures r == Some(InvalidMultiplier) <==> FactorOk(factor) && !MultiplierOk(multiplier)
    ensures r == Some(InvalidMemorySize) <==> FactorOk(factor) && MultiplierOk(multiplier) && !MemorySizeOk(memorySize)
    ensures r == Some(InvalidPageSize) <==>
              FactorOk(factor) && MultiplierOk(multiplier) && MemorySizeOk(memorySize) && !PageSizeRangeOk(pageSize)
    ensures r == Some(InvalidThreadCount) <==>
              FactorOk(factor) && MultiplierOk(multiplier) && MemorySizeOk(memorySize) && PageSizeRangeOk(pageSize)
              && !ThreadCountOk(numThreads)
    ensures r == Some(InvalidDerivedKeySize) <==>
              FactorOk(factor) && MultiplierOk(multiplier) && MemorySizeOk(memorySize) && PageSizeRangeOk(pageSize)
              && ThreadCountOk(numThreads) && !DerivedKeySizeOk(derivedKeySize)
    ensures r == Some(InvalidSaltSize) <==>
              FactorOk(factor) && MultiplierOk(multiplier) && MemorySizeOk(memorySize) && PageSizeRangeOk(pageSize)
              && ThreadCountOk(numThreads) && DerivedKeySizeOk(derivedKeySize) && !SaltSizeOk(saltSize)
    ensures r == Some(InvalidPasswordSize) <==>
              FactorOk(factor) && MultiplierOk(multiplier) && MemorySizeOk(memorySize) && PageSizeRangeOk(pageSize)
              && ThreadCountOk(numThreads) && DerivedKeySizeOk(derivedKeySize) && SaltSizeOk(saltSize) && passwordSize == 0
    ensures r == Some(PageSizeNotPowerOfTwo) <==>
              RangesOk(factor, multiplier, memorySize, pageSize, numThreads, derivedKeySize, saltSize, passwordSize)
              && !IsPowerOfTwo(pageSize)
    ensures r == Some(DerivedKeySizeNotPowerOfTwo) <==>
              RangesOk(factor, multiplier, memorySize, pageSize, numThreads, derivedKeySize, saltSize, passwordSize)
              && IsPowerOfTwo(pageSize) && !IsPowerOfTwo(derivedKeySize)
    ensures r == Verdict(factor, multiplier, memorySize, pageSize, numThreads, derivedKeySize, saltSize, passwordSize)
  {
    if factor > 0x10_0000 { return Some(InvalidHashingFactor); }
    if multiplier < 1 || multiplier > 0x10_0000 { return Some(InvalidMultiplier); }
    if memorySize > 0x1_0000_0000 * 100 || memorySize < 0x10_0000 { return Some(InvalidMemorySize); }
    if pageSize > 0x1000_0000 || pageSize < 0x100 { return Some(InvalidPageSize); }
    if numThreads == 0 || numThreads > MaxThreads { return Some(InvalidThreadCount); }
    if derivedKeySize < 8 || derivedKeySize > 0x10_0000 { return Some(InvalidDerivedKeySize); }
    if saltSize > 0x200 || saltSize < 4 { return Some(InvalidSaltSize); }
    if passwordSize == 0 { return Some(InvalidPasswordSize); }
    var pagePow2 := OnlyFactorsOfTwo(pageSize);
    if !pagePow2 { return Some(PageSizeNotPowerOfTwo); }
    var keyPow2 := OnlyFactorsOfTwo(derivedKeySize);
    if !keyPow2 { return Some(DerivedKeySizeNotPowerOfTwo); }
    return None;
  }

  /** The number of whole pages the memory holds, as keystretch computes it. */
  function NumPages(memorySize: nat, pageSize: nat): (n: nat)
    requires pageSize >= 8
    ensures n * (pageSize / 8 * 8) <= memorySize
  {
    var d := pageSize / 8 * 8;
    var q := memorySize / d;
    DivBounds(memorySize, d);
    ModAtMost(q, TWO32);
    MulGrows(q % TWO32, q, d);
    q % TWO32
  }

  /**
   * As written, the validator accepts a page larger than the whole memory:
   * 1 MB of memory with 256 MB pages leaves no page at all.
   */
  lemma TooFewPagesAccepted()
    ensures Accepts(0, 1, 0x10_0000, 0x1000_0000, 1, 8, 4, 1)
    ensures NumPages(0x10_0000, 0x1000_0000) == 0
  {
    assert Pow2(3) == 8;
    assert Pow2(14) == 0x4000 by { Pow2Add(7, 7); assert Pow2(7) == 128; }
    Pow2Add(14, 14);
    assert Pow2(28) == 0x1000_0000;
  }

  /** Accepted and with room for at least two pages. */
  ghost predicate AcceptsWithTwoPages(factor: nat, multiplier: nat, memorySize: nat, pageSize: nat,
                                numThreads: nat, derivedKeySize: nat, saltSize: nat, passwordSize: nat)
  {
    && Accepts(factor, multiplier, memorySize, pageSize, numThreads, derivedKeySize, saltSize, passwordSize)
    && memorySize >= 2 * pageSize
  }

  /**
   * The reason the corrected validator gives: verifyParameters' own, and
   * otherwise an invalid memory size when two pages do not fit.
   */
  ghost function CorrectedVerdict(factor: nat, multiplier: nat, memorySize: nat, pageSize: nat,
                                  numThreads: nat, derivedKeySize: nat, saltSize: nat, passwordSize: nat): (r: Option<Usage>)
    ensures r.None? <==> AcceptsWithTwoPages(factor, multiplier, memorySize, pageSize, numThreads,
                                              derivedKeySize, saltSize, passwordSize)
    ensures var v := Verdict(factor, multiplier, memorySize, pageSize, numThreads, derivedKeySize, saltSize, passwordSize);
            && (r != v <==> v.None? && memorySize < 2 * pageSize)
            && (r != v ==> r == Some(InvalidMemorySize))
  {
    var v := Verdict(factor, multiplier, memorySize, pageSize, numThreads, derivedKeySize, saltSize, passwordSize);
    if v.None? && memorySize < 2 * pageSize then Some(InvalidMemorySize) else v
  }

  /**
   * verifyParameters with the missing test: memory smaller than two pages is
   * an invalid memory size. Every reason the code gives is kept.
   */
  method VerifyParametersCorrected(factor: U32, multiplier: U32, memorySize: nat, pageSize: nat,
                                   numThreads: U32, derivedKeySize: U32, saltSize: nat, passwordSize: nat)
    returns (r: Option<Usage>)
    ensures r.None? <==> AcceptsWithTwoPages(factor, multiplier, memorySize, pageSize, numThreads,
                                              derivedKeySize, saltSize, passwordSize)
    ensures var v := Verdict(factor, multiplier, memorySize, pageSize, numThreads, derivedKeySize, saltSize, passwordSize);
            (v.Some? ==> r == v) && (v.None? ==> (r.Some? <==> memorySize < 2 * pageSize) && (r.Some? ==> r.value == InvalidMemorySize))
    ensures r == CorrectedVerdict(factor, multiplier, memorySize, pageSize, numThreads, derivedKeySize, saltSize, passwordSize)
  {
    r := VerifyParameters(factor, multiplier, memorySize, pageSize, numThreads, derivedKeySize, saltSize, passwordSize);
    if r.None? && memorySize < 2 * pageSize {
      r := Some(InvalidMemorySize);
    }
  }

  /**
   * Accepted parameters give the shapes the key-stretching core relies on:
   * whole pages of a power-of-two number (at least 32) of words, at least two
   * of them, a uint32 page count that does not wrap, and whole-word keys.
   */
  lemma AcceptedShapes(factor: nat, multiplier: nat, memorySize: nat, pageSize: nat,
                       numThreads: nat, derivedKeySize: nat, saltSize: nat, passwordSize: nat)
    requires AcceptsWithTwoPages(factor, multiplier, memorySize, pageSize, numThreads, derivedKeySize, saltSize, passwordSize)
    ensures pageSize % 8 == 0 && IsPow2(pageSize / 8) && pageSize / 8 >= 32
    ensures NumPages(memorySize, pageSize) == memorySize / pageSize >= 2
    ensures derivedKeySize % 8 == 0 && 1 <= derivedKeySize / 8
  {
    PageShape(pageSize);
    WordMultiple(derivedKeySize);
    PagesBelow2To32(memorySize, pageSize);
    DivAtLeast(memorySize, pageSize);
  }

  /** An accepted page size is a power of two of at least 32 words. */
  lemma PageShape(pageSize: nat)
    requires IsPowerOfTwo(pageSize) && PageSizeRangeOk(pageSize)
    ensures pageSize % 8 == 0 && IsPow2(pageSize / 8) && pageSize / 8 >= 32
  {
    var k: nat :| Pow2(k) == pageSize;
    Pow2Small(k);
    Pow2Add(3, k - 3);
    assert Pow2(3) == 8;
    Pow2IsPow2(k - 3);
  }

  /** A power of two of at least 8 bytes is a whole number of words. */
  lemma WordMultiple(size: nat)
    requires IsPowerOfTwo(size) && size >= 8
    ensures size % 8 == 0
  {
    var k: nat :| Pow2(k) == size;
    Pow2Small(k);
    Pow2Add(3, k - 3);
    assert Pow2(3) == 8;
  }

  /** At most 100 * 2^32 bytes in pages of at least 256 bytes: fewer than 2^32 pages. */
  lemma PagesBelow2To32(m: nat, p: nat)
    requires m <= 0x1_0000_0000 * 100 && p >= 0x100
    ensures m / p < TWO32
  {
    DivModUnique(m, p, m / p, m % p);
  }

  lemma MulBoth(a: nat, b: nat, c: nat, d: nat)
    requires a >= c && b >= d
    ensures a * b >= c * d
  {
  }

  /** Small powers of two: Pow2(k) >= 8 exactly when k >= 3 (and >= 256 when k >= 8). */
  lemma Pow2Small(k: nat)
    ensures Pow2(k) >= 8 <==> k >= 3
    ensures Pow2(k) >= 0x100 <==> k >= 8
  {
    Pow2Word();
    assert Pow2(3) == 8 && Pow2(7) == 128;
    if k >= 8 {
      Pow2Monotone(8, k);
    } else if k >= 3 {
      Pow2Monotone(3, k);
      Pow2Monotone(k, 7);
    } else {
      Pow2Monotone(k, 2);
    }
  }

  lemma DivAtLeast(m: nat, p: nat)
    requires p > 0 && m >= 2 * p
    ensures m / p >= 2
  {
    DivModUnique(m, p, m / p, m % p);
    if m / p < 2 {
      MulBoth(p, 1, p, m / p);
    }
  }
}
