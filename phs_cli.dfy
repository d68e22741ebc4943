/**
 * The `phs_keystretch` command (phs_main.c): the same argument conventions
 * and hex codec as the `keystretch` command, with the five arguments of the
 * password hashing competition interface and fewer checks.
 */
module PhsCli {
  import opened Words
  import opened Results
  import opened HexCodec
  import opened KeystretchCli

  /** The values `readArguments` hands to `main`. */
  datatype PhsArguments = PhsArguments(
    derivedKeySize: U32, password: string, salt: seq<byte>, multiplier: U32, memorySize: nat)

  /**
   * readArguments: exactly five arguments (argc == 6), in the order key size,
   * password, hex salt, t_cost, m_cost in MB. The first malformed argument
   * is the one reported, the salt being read between the key size and
   * t_cost.
   */
  method ReadArguments(argv: seq<string>, parse: Parser, allocOk: bool) returns (r: Result<PhsArguments, Usage>)
    requires forall i :: 0 <= i < |argv| ==> IsCString(argv[i])
    ensures |argv| != 6 ==> r == Err(WrongArgumentCount)
    ensures r.Ok? <==> |argv| == 6 && ValidInteger(parse, argv[1]) && |argv[3]| % 2 == 0 && allocOk
                       && ValidInteger(parse, argv[4]) && ValidInteger(parse, argv[5])
    ensures r == Err(InvalidInteger(1)) <==> |argv| == 6 && !ValidInteger(parse, argv[1])
    ensures r == Err(SaltOddLength) <==> |argv| == 6 && ValidInteger(parse, argv[1]) && |argv[3]| % 2 == 1
    ensures r == Err(SaltNoMemory) <==> |argv| == 6 && ValidInteger(parse, argv[1]) && |argv[3]| % 2 == 0 && !allocOk
    ensures r == Err(InvalidInteger(4)) <==>
              |argv| == 6 && ValidInteger(parse, argv[1]) && |argv[3]| % 2 == 0 && allocOk && !ValidInteger(parse, argv[4])
    ensures r == Err(InvalidInteger(5)) <==>
              |argv| == 6 && ValidInteger(parse, argv[1]) && |argv[3]| % 2 == 0 && allocOk && ValidInteger(parse, argv[4])
              && !ValidInteger(parse, argv[5])
    ensures r.Ok? ==>
      && r.value.derivedKeySize == ToU32(parse(argv[1]).value)
      && r.value.password == argv[2]
      && |r.value.salt| == |argv[3]| / 2
      && (forall i :: 0 <= i < ValidPairs(argv[3]) ==> r.value.salt[i] == PairValue(argv[3], i))
      && r.value.multiplier == ToU32(parse(argv[4]).value)
      && r.value.memorySize == ToU32(parse(argv[5]).value) * 0x10_0000
  {
    if |argv| != 6 {
      return Err(WrongArgumentCount);
    }
    var keySize := ReadUint32(parse, argv, 1);
    if keySize.Err? { return Err(keySize.error); }
    var password := argv[2];
    var salt := ReadHexSalt(argv[3], allocOk);
    if salt.Err? {
      return Err(if salt.error == OddLength then SaltOddLength else SaltNoMemory);
    }
    var multiplier := ReadUint32(parse, argv, 4);
    if multiplier.Err? { return Err(multiplier.error); }
    var mb := ReadUint32(parse, argv, 5);
    if mb.Err? { return Err(mb.error); }
    r := Ok(PhsArguments(keySize.value, password, salt.value, multiplier.value, mb.value * 0x10_0000));
  }

  /** The range checks of verifyParameters (phs_main.c), in order. */
  predicate PhsRangesOk(multiplier: nat, memorySize: nat, derivedKeySize: nat, saltSize: nat, passwordSize: nat)
  {
    && MultiplierOk(multiplier)
    && MemorySizeOk(memorySize)
    && DerivedKeySizeOk(derivedKeySize)
    && SaltSizeOk(saltSize)
    && passwordSize != 0
  }

  /** What verifyParameters lets through. */
  ghost predicate PhsAccepts(multiplier: nat, memorySize: nat, derivedKeySize: nat, saltSize: nat, passwordSize: nat)
  {
    PhsRangesOk(multiplier, memorySize, derivedKeySize, saltSize, passwordSize) && IsPowerOfTwo(derivedKeySize)
  }

  /**
   * verifyParameters: the range checks in order, then the power-of-two test
   * on the key size; the first failure is reported, so each reason is
   * returned exactly when its check fails and every earlier one passes.
   */
  method VerifyParameters(multiplier: U32, memorySize: nat, derivedKeySize: U32, saltSize: nat, passwordSize: nat)
    returns (r: Option<Usage>)
    ensures r.None? <==> PhsAccepts(multiplier, memorySize, derivedKeySize, saltSize, passwordSize)
    ensures r == Some(InvalidMultiplier) <==> !MultiplierOk(multiplier)
    ensures r == Some(InvalidMemorySize) <==> MultiplierOk(multiplier) && !MemorySizeOk(memorySize)
    ensures r == Some(InvalidDerivedKeySize) <==>
              MultiplierOk(multiplier) && MemorySizeOk(memorySize) && !DerivedKeySizeOk(derivedKeySize)
    ensures r == Some(InvalidSaltSize) <==>
              MultiplierOk(multiplier) && MemorySizeOk(memorySize) && DerivedKeySizeOk(derivedKeySize) && !SaltSizeOk(saltSize)
    ensures r == Some(InvalidPasswordSize) <==>
              MultiplierOk(multiplier) && MemorySizeOk(memorySize) && DerivedKeySizeOk(derivedKeySize) && SaltSizeOk(saltSize)
              && passwordSize == 0
    ensures r == Some(DerivedKeySizeNotPowerOfTwo) <==>
              PhsRangesOk(multiplier, memorySize, derivedKeySize, saltSize, passwordSize) && !IsPowerOfTwo(derivedKeySize)
  {
    if multiplier < 1 || multiplier > 0x10_0000 { return Some(InvalidMultiplier); }
    if memorySize > 0x1_0000_0000 * 100 || memorySize < 0x10_0000 { return Some(InvalidMemorySize); }
    if derivedKeySize < 8 || derivedKeySize > 0x10_0000 { return Some(InvalidDerivedKeySize); }
    if saltSize > 0x200 || saltSize < 4 { return Some(InvalidSaltSize); }
    if passwordSize == 0 { return Some(InvalidPasswordSize); }
    var keyPow2 := OnlyFactorsOfTwo(derivedKeySize);
    if !keyPow2 { return Some(DerivedKeySizeNotPowerOfTwo); }
    return None;
  }

  /**
   * As written, `main` passes the 64-bit memory size to PHS, whose `m_cost`
   * is an `unsigned int`: the size is reduced modulo 2^32.
   */
  function MemoryCostAsWritten(memorySize: nat): (mCost: U32)
    ensures mCost == memorySize % TWO32
    ensures memorySize < TWO32 ==> mCost == memorySize
  {
    memorySize % TWO32
  }

  /** 4096 MB passes verifyParameters but reaches the core as 0 bytes: no pages. */
  lemma MemoryCostTruncated()
    ensures PhsAccepts(1, 4096 * 0x10_0000, 8, 4, 1)
    ensures MemoryCostAsWritten(4096 * 0x10_0000) == 0
    ensures NumPages(MemoryCostAsWritten(4096 * 0x10_0000), 0x4000) == 0
  {
    assert Pow2(3) == 8;
  }

  /**
   * Every accepted memory size, passed on without truncation, holds at least
   * 64 of the 16 KB pages PHS uses.
   */
  lemma AcceptedMemoryHoldsPages(multiplier: nat, memorySize: nat, derivedKeySize: nat, saltSize: nat, passwordSize: nat)
    requires PhsAccepts(multiplier, memorySize, derivedKeySize, saltSize, passwordSize)
    ensures NumPages(memorySize, 0x4000) == memorySize / 0x4000 >= 64
  {
    PagesBelow2To32(memorySize, 0x4000);
  }
}
