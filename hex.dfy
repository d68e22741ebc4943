/**
 * The hexadecimal codec of the two command-line front ends: salts are read
 * from a hex string (upper or lower case) and derived keys are printed as
 * upper-case hex, high nibble first — the Base16 alphabet of section 8 of
 * RFC 4648. The two front ends carry identical copies of this code.
 */
module HexCodec {
  import opened Words
  import opened Results

  /** The Base16 alphabet, in value order. */
  const HexDigits: string := "0123456789ABCDEF"

  /** The alphabet lists '0'..'9' then 'A'..'F'. */
  lemma AlphabetAt(v: nat)
    requires v < 16
    ensures HexDigits[v] as int == if v < 10 then '0' as int + v else 'A' as int + v - 10
  {
    assert HexDigits[0] == '0' && HexDigits[1] == '1' && HexDigits[2] == '2' && HexDigits[3] == '3';
    assert HexDigits[4] == '4' && HexDigits[5] == '5' && HexDigits[6] == '6' && HexDigits[7] == '7';
    assert HexDigits[8] == '8' && HexDigits[9] == '9' && HexDigits[10] == 'A' && HexDigits[11] == 'B';
    assert HexDigits[12] == 'C' && HexDigits[13] == 'D' && HexDigits[14] == 'E' && HexDigits[15] == 'F';
  }

  /** Reference: the characters the decoder accepts. */
  predicate IsHexDigit(c: char)
  {
    '0' <= c <= '9' || 'A' <= c <= 'F' || 'a' <= c <= 'f'
  }

  /** Reference: the value of a hex digit, either case. */
  function DigitValue(c: char): (v: nat)
    requires IsHexDigit(c)
    ensures v < 16
    ensures HexDigits[v] == c || HexDigits[v] == (c as int - 32) as char
  {
    var v := if '0' <= c <= '9' then c as int - '0' as int
             else if 'A' <= c <= 'F' then c as int - 'A' as int + 10
             else c as int - 'a' as int + 10;
    AlphabetAt(v);
    v
  }

  /** `toupper` in the C locale. */
  function ToUpper(c: char): char
  {
    if 'a' <= c <= 'z' then (c as int - 32) as char else c
  }

  /** The nibble a character stands for after `toupper`, if it is a digit. */
  function Nibble(c: char): Option<nat>
  {
    var u := ToUpper(c);
    if '0' <= u <= '9' then Some(u as int - '0' as int)
    else if 'A' <= u <= 'F' then Some(u as int - 'A' as int + 10)
    else None
  }

  /**
   * readHexByte: decodes the pair (hi, lo) into the destination byte.
   * Returns whether it succeeded and the destination's new value, which is
   * the old one when either character is not a hex digit.
   */
  function ReadHexByte(dest: byte, hi: char, lo: char): (r: (bool, byte))
    ensures r.0 <==> IsHexDigit(hi) && IsHexDigit(lo)
    ensures r.0 ==> r.1 == 16 * DigitValue(hi) + DigitValue(lo)
    ensures !r.0 ==> r.1 == dest
  {
    match Nibble(hi)
    case None => (false, dest)
    case Some(h) =>
      match Nibble(lo)
      case None => (false, dest)
      // `byte <<= 4; byte |= low`: the nibbles do not overlap, so `|` adds
      case Some(l) => (true, h * 16 + l)
  }

  /** findHexDigit: the character for a value; an upper-case hex digit for a nibble. */
  function FindHexDigit(value: byte): (c: char)
    ensures value < 16 ==> c == HexDigits[value]
    ensures value < 16 ==> IsHexDigit(c) && DigitValue(c) == value
  {
    AlphabetAt(value % 16);
    if value <= 9 then ('0' as int + value) as char
    else (('A' as int + value - 10) % 256) as char
  }

  /** Reference encoding: two upper-case digits per byte, high nibble first. */
  function Encode(values: seq<byte>): (s: string)
    ensures |s| == 2 * |values|
  {
    if values == [] then []
    else [HexDigits[values[0] / 16], HexDigits[values[0] % 16]] + Encode(values[1..])
  }

  lemma {:induction false} EncodeAppend(a: seq<byte>, b: seq<byte>)
    ensures Encode(a + b) == Encode(a) + Encode(b)
  {
    if a == [] {
      assert a + b == b;
    } else {
      assert (a + b)[0] == a[0];
      assert (a + b)[1..] == a[1..] + b;
      EncodeAppend(a[1..], b);
    }
  }

  lemma {:induction false} EncodeAt(values: seq<byte>, i: nat)
    requires i < |values|
    ensures Encode(values)[2 * i] == HexDigits[values[i] / 16]
    ensures Encode(values)[2 * i + 1] == HexDigits[values[i] % 16]
  {
    if i > 0 {
      EncodeAt(values[1..], i - 1);
    }
  }

  /**
   * printHex: emits the Base16 encoding of the bytes, two characters per
   * byte, high nibble first.
   */
  method PrintHex(values: seq<byte>) returns (out: string)
    ensures |out| == 2 * |values|
    ensures out == Encode(values)
  {
    out := [];
    var i := 0;
    while i < |values|
      invariant 0 <= i <= |values|
      invariant out == Encode(values[..i])
    {
      var value := values[i];
      // putchar(findHexDigit(0xf & (value >> 4))); putchar(findHexDigit(0xf & value))
      out := out + [FindHexDigit(value / 16), FindHexDigit(value % 16)];
      EncodeAppend(values[..i], [value]);
      assert values[..i + 1] == values[..i] + [value];
      i := i + 1;
    }
    assert values[..i] == values;
  }

  /** Every printed character is a digit or an upper-case letter A-F. */
  lemma EncodeIsUpperCase(values: seq<byte>)
    ensures forall j :: 0 <= j < |Encode(values)| ==> '0' <= Encode(values)[j] <= '9' || 'A' <= Encode(values)[j] <= 'F'
  {
    var s := Encode(values);
    forall j | 0 <= j < |s| ensures '0' <= s[j] <= '9' || 'A' <= s[j] <= 'F' {
      var i := j / 2;
      EncodeAt(values, i);
      AlphabetAt(values[i] / 16);
      AlphabetAt(values[i] % 16);
      assert j == 2 * i || j == 2 * i + 1;
    }
  }

  /** Decoding the printed pair of byte i with readHexByte gives the byte back. */
  lemma EncodeRoundTrip(values: seq<byte>, i: nat, dest: byte)
    requires i < |values|
    ensures ReadHexByte(dest, Encode(values)[2 * i], Encode(values)[2 * i + 1]) == (true, values[i])
  {
    EncodeAt(values, i);
    PairRoundTrip(values[i], dest);
  }

  /** The two digits printed for a byte decode back to that byte. */
  lemma PairRoundTrip(value: byte, dest: byte)
    ensures ReadHexByte(dest, HexDigits[value / 16], HexDigits[value % 16]) == (true, value)
  {
    var v: nat := value;
    var hi, lo := v / 16, v % 16;
    var c1, c2 := FindHexDigit(hi), FindHexDigit(lo);
    assert IsHexDigit(c1) && DigitValue(c1) == hi;
    assert IsHexDigit(c2) && DigitValue(c2) == lo;
    var r := ReadHexByte(dest, c1, c2);
    assert r.0 && r.1 == 16 * hi + lo;
  }

  /** No C string contains a NUL character. */
  predicate IsCString(p: string)
  {
    forall j :: 0 <= j < |p| ==> p[j] != '\0'
  }

  /** The number of leading character pairs of p that are both hex digits. */
  function ValidPairs(p: string): (n: nat)
    ensures n <= |p| / 2
    ensures forall i :: 0 <= i < n ==> IsHexDigit(p[2 * i]) && IsHexDigit(p[2 * i + 1])
    ensures n < |p| / 2 ==> !(IsHexDigit(p[2 * n]) && IsHexDigit(p[2 * n + 1]))
    decreases |p|
  {
    if |p| < 2 || !(IsHexDigit(p[0]) && IsHexDigit(p[1])) then 0
    else
      var n := ValidPairs(p[2..]);
      assert forall i :: 0 <= i < 1 + n ==> IsHexDigit(p[2 * i]) && IsHexDigit(p[2 * i + 1]) by {
        forall i | 1 <= i < 1 + n ensures IsHexDigit(p[2 * i]) && IsHexDigit(p[2 * i + 1]) {
          var q := p[2..];
          assert IsHexDigit(q[2 * (i - 1)]) && IsHexDigit(q[2 * (i - 1) + 1]);
        }
      }
      assert n < |p[2..]| / 2 ==> p[2..][2 * n] == p[2 * (n + 1)] && p[2..][2 * n + 1] == p[2 * (n + 1) + 1];
      1 + n
  }

  /** The value of the pair of characters at 2i, 2i+1. */
  function PairValue(p: string, i: nat): byte
    requires 2 * i + 1 < |p| && IsHexDigit(p[2 * i]) && IsHexDigit(p[2 * i + 1])
  {
    16 * DigitValue(p[2 * i]) + DigitValue(p[2 * i + 1])
  }

  datatype SaltError = OddLength | NoMemory

  /**
   * readHexSalt: an odd number of digits is a usage error; otherwise the salt
   * has |p|/2 bytes, of which the leading valid pairs are decoded. Decoding
   * stops silently at the first pair that is not two hex digits; the bytes
   * from there on are whatever the allocation held. `allocOk` is the outcome
   * of the salt's `malloc`.
   */
  method ReadHexSalt(p: string, allocOk: bool) returns (r: Result<seq<byte>, SaltError>)
    requires IsCString(p)
    ensures r == Err(OddLength) <==> |p| % 2 == 1
    ensures r == Err(NoMemory) <==> |p| % 2 == 0 && !allocOk
    ensures r.Ok? ==> |r.value| == |p| / 2
    ensures r.Ok? ==> forall i :: 0 <= i < ValidPairs(p) ==> r.value[i] == PairValue(p, i)
  {
    if |p| % 2 == 1 {
      return Err(OddLength);
    }
    var saltLength := |p| / 2;
    if !allocOk {
      return Err(NoMemory);
    }
    var salt := new byte[saltLength];
    var n := ValidPairs(p);
    var i := 0;
    var decoding := true;
    while decoding && 2 * i < |p|
      invariant 0 <= i <= saltLength
      invariant i <= n
      invariant !decoding ==> i == n
      invariant forall j :: 0 <= j < i ==> salt[j] == PairValue(p, j)
      decreases saltLength - i, decoding
    {
      var (ok, b) := ReadHexByte(salt[i], p[2 * i], p[2 * i + 1]);
      if ok {
        salt[i] := b;
        i := i + 1;
      } else {
        decoding := false;
      }
    }
    return Ok(salt[..]);
  }

  /** Every encoded pair is valid, so a printed key reads back completely. */
  lemma {:induction false} EncodedPairsValid(values: seq<byte>)
    ensures ValidPairs(Encode(values)) == |values|
    ensures forall i :: 0 <= i < |values| ==> PairValue(Encode(values), i) == values[i]
  {
    var s := Encode(values);
    forall i | 0 <= i < |values|
      ensures IsHexDigit(s[2 * i]) && IsHexDigit(s[2 * i + 1]) && PairValue(s, i) == values[i]
    {
      EncodeRoundTrip(values, i, 0);
    }
  }
}
