/** Base58 acceptance of Solana public keys: the decoder, an encoder that inverts it, and length bounds. */
module Base58 {
  import opened Collections
  import opened Text

  // ---------- Positional numerals in any base ----------

  ghost predicate Digits(base: nat, ds: seq<nat>) {
    forall i :: 0 <= i < |ds| ==> ds[i] < base
  }

  ghost function Value(base: nat, ds: seq<nat>): nat {
    if ds == [] then 0 else Value(base, ds[..|ds| - 1]) * base + ds[|ds| - 1]
  }

  /** The shortest numeral of `n`; none for zero. Base 256 is `int.to_bytes` with the minimal length. */
  function Numeral(base: nat, n: nat): seq<nat>
    requires base >= 2
  {
    if n == 0 then [] else Numeral(base, n / base) + [n % base]
  }

  ghost function Power(base: nat, k: nat): nat {
    if k == 0 then 1 else Power(base, k - 1) * base
  }

  lemma {:induction false} NumeralValue(base: nat, n: nat)
    requires base >= 2
    ensures Digits(base, Numeral(base, n)) && Value(base, Numeral(base, n)) == n
    ensures n > 0 ==> Numeral(base, n)[0] > 0
  {
    if n > 0 {
      NumeralValue(base, n / base);
      var front := Numeral(base, n / base);
      assert Numeral(base, n)[..|front|] == front;
      if n / base == 0 { assert n % base == n; }
    }
  }

  lemma TimesAtLeast(k: nat, base: nat)
    requires k >= 1
    ensures k * base >= base
  {
  }

  lemma TimesMonotone(a: nat, b: nat, base: nat)
    requires a <= b
    ensures a * base <= b * base
  {
  }

  lemma DivMod(q: nat, base: nat, d: nat)
    requires d < base
    ensures (q * base + d) / base == q && (q * base + d) % base == d
  {
    var x := q * base + d;
    var p, r := x / base, x % base;
    assert x == p * base + r && 0 <= r < base;
    if p < q {
      TimesAtLeast(q - p, base);
    } else if p > q {
      TimesAtLeast(p - q, base);
    }
  }

  lemma NumeralStep(base: nat, q: nat, d: nat)
    requires base >= 2 && d < base && q * base + d > 0
    ensures Numeral(base, q * base + d) == Numeral(base, q) + [d]
  {
    DivMod(q, base, d);
  }

  lemma NumeralSnoc(base: nat, front: seq<nat>, last: nat, q: nat)
    requires base >= 2 && last < base
    requires Value(base, front) == q && Numeral(base, q) == front
    requires q > 0 || last > 0
    ensures Value(base, front + [last]) > 0
    ensures Numeral(base, Value(base, front + [last])) == front + [last]
  {
    var ds := front + [last];
    assert ds[..|front|] == front && ds[|ds| - 1] == last;
    if q > 0 { TimesAtLeast(q, base); }
    NumeralStep(base, q, last);
  }

  /** A numeral without leading zeros is the shortest one of its value. */
  lemma {:induction false} ValueNumeral(base: nat, ds: seq<nat>)
    requires base >= 2 && Digits(base, ds)
    requires ds != [] ==> ds[0] > 0
    ensures Numeral(base, Value(base, ds)) == ds
    ensures ds != [] ==> Value(base, ds) > 0
  {
    if ds != [] {
      var front, last := ds[..|ds| - 1], ds[|ds| - 1];
      assert ds == front + [last];
      ValueNumeral(base, front);
      NumeralSnoc(base, front, last, Value(base, front));
    }
  }

  ghost function Zeros(k: nat): seq<nat> {
    seq(k, _ => 0)
  }

  lemma {:induction false} LeadingZeros(base: nat, k: nat, ds: seq<nat>)
    ensures Value(base, Zeros(k) + ds) == Value(base, ds)
  {
    var zs := Zeros(k) + ds;
    if ds != [] {
      assert zs[..|zs| - 1] == Zeros(k) + ds[..|ds| - 1];
      LeadingZeros(base, k, ds[..|ds| - 1]);
    } else if k > 0 {
      assert zs[..k - 1] == Zeros(k - 1) + [];
      LeadingZeros(base, k - 1, []);
    } else {
      assert zs == [];
    }
  }

  lemma BelowNextPower(v: nat, p: nat, base: nat, d: nat)
    requires v < p && d < base
    ensures v * base + d < p * base
  {
    TimesMonotone(v + 1, p, base);
  }

  lemma {:induction false} ValueUpperBound(base: nat, ds: seq<nat>)
    requires Digits(base, ds)
    ensures Value(base, ds) < Power(base, |ds|)
  {
    if ds != [] {
      var front := ds[..|ds| - 1];
      ValueUpperBound(base, front);
      BelowNextPower(Value(base, front), Power(base, |front|), base, ds[|ds| - 1]);
    }
  }

  lemma {:induction false} ValueLowerBound(base: nat, ds: seq<nat>)
    requires ds != [] && ds[0] > 0
    ensures Power(base, |ds| - 1) <= Value(base, ds)
  {
    var front := ds[..|ds| - 1];
    if front != [] {
      ValueLowerBound(base, front);
      TimesMonotone(Power(base, |front| - 1), Value(base, front), base);
    }
  }

  // ---------- int.bit_length and int.to_bytes ----------

  function BitLength(n: nat): nat {
    if n == 0 then 0 else 1 + BitLength(n / 2)
  }

  /** Big-endian, `length` bytes wide; Python raises OverflowError when `n` does not fit. */
  function ToBytes(n: nat, length: nat): seq<nat> {
    if length == 0 then [] else ToBytes(n / 256, length - 1) + [n % 256]
  }

  lemma BitLengthByte(n: nat)
    requires n >= 256
    ensures BitLength(n) == 8 + BitLength(n / 256)
  {
    var n2, n4 := n / 2, n / 4;
    var n8, n16 := n / 8, n / 16;
    assert BitLength(n) == 2 + BitLength(n4) by { assert n2 / 2 == n4; }
    assert BitLength(n4) == 2 + BitLength(n16) by { assert n4 / 2 == n8 && n8 / 2 == n16; }
    var n32, n64 := n / 32, n / 64;
    assert BitLength(n16) == 2 + BitLength(n64) by { assert n16 / 2 == n32 && n32 / 2 == n64; }
    var n128 := n / 128;
    assert BitLength(n64) == 2 + BitLength(n / 256) by { assert n64 / 2 == n128 && n128 / 2 == n / 256; }
  }

  lemma BitLengthSmall(n: nat)
    requires 0 < n < 256
    ensures 1 <= BitLength(n) <= 8
  {
    var n2, n4 := n / 2, n / 4;
    var n8, n16 := n / 8, n / 16;
    assert BitLength(n16) <= 4 by { BitLengthTiny(n16); }
    assert BitLength(n4) <= 2 + BitLength(n16) by { assert n4 / 2 == n8 && n8 / 2 == n16; }
    assert BitLength(n) <= 2 + BitLength(n4) by { assert n2 / 2 == n4; }
  }

  lemma BitLengthTiny(n: nat)
    requires n < 16
    ensures BitLength(n) <= 4
  {
    assert BitLength(n / 2) <= 1 + BitLength(n / 4);
    assert BitLength(n / 4) <= 1 + BitLength(n / 8);
    assert BitLength(n / 8) <= 1;
  }

  /** The length the code asks for is exactly the length of the shortest numeral. */
  lemma {:induction false} ShortestBytes(n: nat)
    ensures ToBytes(n, (BitLength(n) + 7) / 8) == Numeral(256, n)
  {
    if n == 0 {
    } else if n < 256 {
      BitLengthSmall(n);
      assert (BitLength(n) + 7) / 8 == 1;
      assert ToBytes(n / 256, 0) == [] && Numeral(256, n / 256) == [];
    } else {
      BitLengthByte(n);
      ShortestBytes(n / 256);
      assert (BitLength(n) + 7) / 8 == (BitLength(n / 256) + 7) / 8 + 1;
    }
  }

  // ---------- The alphabet ----------

  // 123456789ABCDEFGHJKLMNPQRSTUVWXYZabcdefghijkmnopqrstuvwxyz, run by run:
  // zero, capital I and O, and small L are missing.

  function Offset(c: char, first: char): nat
    requires first <= c
  {
    c as int - first as int
  }

  /** `_BASE58_VALUES[character]`, or nothing for a KeyError. */
  function DigitOf(c: char): (r: Option<nat>)
    ensures r.Some? ==> r.value < 58 && CharOf(r.value) == c
    ensures c == '1' <==> r == Some(0)
  {
    if '1' <= c <= '9' then Some(Offset(c, '1'))
    else if 'A' <= c <= 'H' then Some(9 + Offset(c, 'A'))
    else if 'J' <= c <= 'N' then Some(17 + Offset(c, 'J'))
    else if 'P' <= c <= 'Z' then Some(22 + Offset(c, 'P'))
    else if 'a' <= c <= 'k' then Some(33 + Offset(c, 'a'))
    else if 'm' <= c <= 'z' then Some(44 + Offset(c, 'm'))
    else None
  }

  function CharOf(d: nat): char
    requires d < 58
  {
    if d < 9 then ('1' as int + d) as char
    else if d < 17 then ('A' as int + d - 9) as char
    else if d < 22 then ('J' as int + d - 17) as char
    else if d < 33 then ('P' as int + d - 22) as char
    else if d < 44 then ('a' as int + d - 33) as char
    else ('m' as int + d - 44) as char
  }

  const NUMERALS := "123456789"
  const CAPITALS := "ABCDEFGH" + "JKLMN" + "PQRSTUVWXYZ"
  const SMALLS := "abcdefghijk" + "mnopqrstuvwxyz"
  const ALPHABET := NUMERALS + CAPITALS + SMALLS

  lemma NumeralAt(d: nat)
    requires d < 9
    ensures |NUMERALS| == 9 && NUMERALS[d] == CharOf(d)
  {
  }

  lemma CapitalAt(d: nat)
    requires 9 <= d < 33
    ensures |CAPITALS| == 24 && CAPITALS[d - 9] == CharOf(d)
  {
    if d < 17 {
      assert CAPITALS[d - 9] == "ABCDEFGH"[d - 9];
    } else if d < 22 {
      assert CAPITALS[d - 9] == "JKLMN"[d - 17];
    } else {
      assert CAPITALS[d - 9] == "PQRSTUVWXYZ"[d - 22];
    }
  }

  lemma SmallAt(d: nat)
    requires 33 <= d < 58
    ensures |SMALLS| == 25 && SMALLS[d - 33] == CharOf(d)
  {
    if d < 44 {
      assert SMALLS[d - 33] == "abcdefghijk"[d - 33];
    } else {
      assert SMALLS[d - 33] == "mnopqrstuvwxyz"[d - 44];
    }
  }

  /** A digit is the place of its character in the alphabet. */
  lemma AlphabetMeaning(d: nat)
    requires d < 58
    ensures |ALPHABET| == 58 && ALPHABET[d] == CharOf(d) && DigitOf(ALPHABET[d]) == Some(d)
  {
    if d < 9 {
      NumeralAt(d);
    } else if d < 33 {
      CapitalAt(d);
    } else {
      SmallAt(d);
    }
    DigitOfCharOf(d);
  }

  /** And only the alphabet's characters are digits. */
  lemma DigitMeaning(c: char)
    ensures DigitOf(c).Some? <==> c in ALPHABET
    ensures DigitOf(c).Some? ==> DigitOf(c).value < 58 && ALPHABET[DigitOf(c).value] == c
  {
    var digit := DigitOf(c);
    if digit.Some? {
      AlphabetMeaning(digit.value);
    }
    AlphabetMeaning(0);
    if c in ALPHABET {
      var d :| 0 <= d < |ALPHABET| && ALPHABET[d] == c;
      AlphabetMeaning(d);
    }
  }

  lemma DigitOfCharOf(d: nat)
    requires d < 58
    ensures DigitOf(CharOf(d)) == Some(d)
  {
  }

  ghost predicate InAlphabet(s: string) {
    forall i :: 0 <= i < |s| ==> DigitOf(s[i]).Some?
  }

  ghost function DigitsOf(s: string): seq<nat>
    requires InAlphabet(s)
  {
    seq(|s|, i requires 0 <= i < |s| => DigitOf(s[i]).value)
  }

  ghost function CharsOf(ds: seq<nat>): string
    requires Digits(58, ds)
  {
    seq(|ds|, i requires 0 <= i < |ds| => CharOf(ds[i]))
  }

  /** `len(s) - len(s.lstrip("1"))` */
  function LeadingOnes(s: string): (k: nat)
    ensures k <= |s|
    ensures forall i :: 0 <= i < k ==> s[i] == '1'
    ensures k < |s| ==> s[k] != '1'
  {
    if s != [] && s[0] == '1' then 1 + LeadingOnes(s[1..]) else 0
  }

  ghost function CountZeros(bytes: seq<nat>): (k: nat)
    ensures k <= |bytes|
    ensures forall i :: 0 <= i < k ==> bytes[i] == 0
    ensures k < |bytes| ==> bytes[k] != 0
  {
    if bytes != [] && bytes[0] == 0 then 1 + CountZeros(bytes[1..]) else 0
  }

  ghost function Ones(k: nat): string {
    seq(k, _ => '1')
  }

  // ---------- Decoder, encoder ----------

  ghost function Decode(s: string): seq<nat>
    requires InAlphabet(s)
  {
    Zeros(LeadingOnes(s)) + Numeral(256, Value(58, DigitsOf(s)))
  }

  ghost function Encode(bytes: seq<nat>): string {
    var k := CountZeros(bytes);
    NumeralValue(58, Value(256, bytes[k..]));
    Ones(k) + CharsOf(Numeral(58, Value(256, bytes[k..])))
  }

  ghost predicate Accepted(s: string) {
    s != [] && InAlphabet(s) && |Decode(s)| == 32
  }

  datatype Normalized = NoAddress | Address(text: string) | Rejected

  /** The decoding loop; a character outside the alphabet raises KeyError. */
  method ReadNumber(s: string) returns (number: Option<nat>)
    ensures number.Some? <==> InAlphabet(s)
    ensures number.Some? ==> number.value == Value(58, DigitsOf(s))
  {
    var acc: nat := 0;
    for n := 0 to |s|
      invariant InAlphabet(s[..n])
      invariant acc == Value(58, DigitsOf(s[..n]))
    {
      var digit := DigitOf(s[n]);
      if digit.None? { return None; }
      acc := acc * 58 + digit.value;
      assert DigitsOf(s[..n + 1])[..n] == DigitsOf(s[..n]);
    }
    assert s[..|s|] == s;
    return Some(acc);
  }

  /** `normalize_solana_address` */
  method NormalizeSolana(address: Option<string>) returns (r: Normalized)
    ensures address.None? <==> r.NoAddress?
    ensures address.Some? ==>
              r == if Strip(address.value) == [] then Address([])
                   else if Accepted(Strip(address.value)) then Address(Strip(address.value)) else Rejected
  {
    if address.None? { return NoAddress; }
    var normalized := Strip(address.value);
    if normalized == [] { return Address([]); }
    var number := ReadNumber(normalized);
    if number.None? { return Rejected; }
    var decoded := if number.value != 0 then ToBytes(number.value, (BitLength(number.value) + 7) / 8) else [];
    ShortestBytes(number.value);
    var leadingZeroes := LeadingOnes(normalized);
    if leadingZeroes + |decoded| != 32 { return Rejected; }
    return Address(normalized);
  }

  /** A string splits into its leading ones and a rest whose first digit is not zero. */
  lemma SplitOnes(s: string) returns (k: nat, rest: seq<nat>)
    requires InAlphabet(s)
    ensures k == LeadingOnes(s) && Digits(58, rest)
    ensures DigitsOf(s) == Zeros(k) + rest
    ensures rest != [] ==> rest[0] > 0
    ensures Value(58, DigitsOf(s)) == Value(58, rest)
    ensures s == Ones(k) + CharsOf(rest)
  {
    k := LeadingOnes(s);
    rest := DigitsOf(s[k..]);
    DigitsOfSplit(s, k);
    RestOfDigits(s, k);
    LeadingZeros(58, k, rest);
  }

  lemma RestOfDigits(s: string, k: nat)
    requires InAlphabet(s) && k == LeadingOnes(s) && InAlphabet(s[k..])
    ensures var rest := DigitsOf(s[k..]);
            Digits(58, rest) && (rest != [] ==> rest[0] > 0) && s == Ones(k) + CharsOf(rest)
  {
    CharsOfDigits(s[k..]);
    assert s == s[..k] + s[k..] && s[..k] == Ones(k);
    assert k < |s| ==> s[k..][0] == s[k];
  }

  lemma DigitsOfSplit(s: string, k: nat)
    requires InAlphabet(s) && k <= |s| && forall i :: 0 <= i < k ==> s[i] == '1'
    ensures InAlphabet(s[k..]) && DigitsOf(s) == Zeros(k) + DigitsOf(s[k..])
  {
    assert forall i :: 0 <= i < |s[k..]| ==> s[k..][i] == s[k + i];
    var whole, split := DigitsOf(s), Zeros(k) + DigitsOf(s[k..]);
    forall i | 0 <= i < |s| ensures whole[i] == split[i] {
      if i >= k {
        assert s[k..][i - k] == s[i];
      }
    }
    assert whole == split;
  }

  lemma CharsOfDigits(s: string)
    requires InAlphabet(s)
    ensures Digits(58, DigitsOf(s)) && CharsOf(DigitsOf(s)) == s
  {
  }

  /** Leading zeros and a numeral, written in the alphabet and read back. */
  lemma DigitsOfChars(k: nat, rest: seq<nat>)
    requires Digits(58, rest)
    ensures var s := Ones(k) + CharsOf(rest);
            InAlphabet(s) && DigitsOf(s) == Zeros(k) + rest
  {
    var s := Ones(k) + CharsOf(rest);
    var digits := Zeros(k) + rest;
    forall i | 0 <= i < |s| ensures DigitOf(s[i]) == Some(digits[i]) {
      if i >= k {
        assert s[i] == CharOf(rest[i - k]);
        DigitOfCharOf(rest[i - k]);
      }
    }
    assert DigitsOf(s) == digits;
  }

  lemma CountZerosPrefix(k: nat, bytes: seq<nat>)
    requires bytes != [] ==> bytes[0] > 0
    ensures CountZeros(Zeros(k) + bytes) == k && (Zeros(k) + bytes)[k..] == bytes
  {
    var all := Zeros(k) + bytes;
    var z := CountZeros(all);
    assert forall i :: 0 <= i < k ==> all[i] == 0;
    assert bytes != [] ==> all[k] == bytes[0];
  }

  /** The encoder undoes the decoder. */
  lemma {:induction false} EncodeDecode(s: string)
    requires InAlphabet(s)
    ensures Encode(Decode(s)) == s
  {
    var k, rest := SplitOnes(s);
    var v := Value(58, rest);
    NumeralValue(256, v);
    CountZerosPrefix(k, Numeral(256, v));
    ValueNumeral(58, rest);
  }

  lemma LeadingOnesPrefix(k: nat, rest: seq<nat>)
    requires Digits(58, rest) && (rest != [] ==> rest[0] > 0)
    ensures LeadingOnes(Ones(k) + CharsOf(rest)) == k
  {
    var s := Ones(k) + CharsOf(rest);
    var n := LeadingOnes(s);
    assert forall i :: 0 <= i < k ==> s[i] == '1';
    if n > k {
      assert s[k] == CharOf(rest[0]);
      DigitOfCharOf(rest[0]);
    }
  }

  lemma TailNumeral(bytes: seq<nat>, k: nat)
    requires Digits(256, bytes) && k == CountZeros(bytes)
    ensures Zeros(k) + Numeral(256, Value(256, bytes[k..])) == bytes
  {
    ValueNumeral(256, bytes[k..]);
    assert bytes == bytes[..k] + bytes[k..] && bytes[..k] == Zeros(k);
  }

  /** The decoder undoes the encoder: every byte string has an encoding. */
  lemma {:induction false} DecodeEncode(bytes: seq<nat>)
    requires Digits(256, bytes)
    ensures InAlphabet(Encode(bytes)) && Decode(Encode(bytes)) == bytes
  {
    var k := CountZeros(bytes);
    var tail := bytes[k..];
    var v := Value(256, tail);
    var rest := Numeral(58, v);
    NumeralValue(58, v);
    var s := Encode(bytes);
    LeadingOnesPrefix(k, rest);
    DigitsOfChars(k, rest);
    assert LeadingOnes(s) == k && DigitsOf(s) == Zeros(k) + rest;
    LeadingZeros(58, k, rest);
    assert Value(58, DigitsOf(s)) == v;
    TailNumeral(bytes, k);
  }

  // ---------- Theorems ----------

  /** Two accepted addresses name the same key exactly when they are the same string. */
  lemma {:induction false} KeyEquality(s: string, t: string)
    requires Accepted(s) && Accepted(t)
    ensures Decode(s) == Decode(t) <==> s == t
  {
    EncodeDecode(s);
    EncodeDecode(t);
  }

  /** Every 32-byte key has an accepted address. */
  lemma {:induction false} EveryKeyHasAnAddress(key: seq<nat>)
    requires Digits(256, key) && |key| == 32
    ensures Accepted(Encode(key)) && Decode(Encode(key)) == key
  {
    DecodeEncode(key);
    assert DigitsOf([]) == [];
  }

  lemma {:induction false} PowerMonotone(base: nat, j: nat, k: nat)
    requires base >= 1 && j <= k
    ensures 1 <= Power(base, j) <= Power(base, k)
    decreases k
  {
    if j < k {
      PowerMonotone(base, j, k - 1);
      TimesMonotone(1, base, Power(base, k - 1));
      assert Power(base, k) == Power(base, k - 1) * base;
    } else if j > 0 {
      PowerMonotone(base, j - 1, j - 1);
      TimesMonotone(1, base, Power(base, j - 1));
      assert Power(base, j) == Power(base, j - 1) * base;
    }
  }

  lemma {:induction false} SmallerBase(k: nat)
    ensures Power(58, k) <= Power(256, k)
  {
    if k > 0 {
      SmallerBase(k - 1);
    }
  }

  lemma MulAssoc(a: nat, b: nat, c: nat)
    ensures (a * b) * c == a * (b * c)
  {
  }

  lemma {:induction false} PowerAdd(base: nat, j: nat, k: nat)
    ensures Power(base, j + k) == Power(base, j) * Power(base, k)
  {
    if k > 0 {
      PowerAdd(base, j, k - 1);
      assert Power(base, j + k) == Power(base, j + k - 1) * base;
      MulAssoc(Power(base, j), Power(base, k - 1), base);
    }
  }

  lemma {:induction false} KnownPowers()
    ensures Power(58, 11) == 24986644000165537792
    ensures Power(58, 21) == 10764351351569111513009094806216900608
    ensures Power(58, 22) == 624332378391008467754527498760580235264
    ensures Power(256, 16) == 340282366920938463463374607431768211456
  {
    assert Power(58, 2) == 3364 && Power(58, 4) == 11316496 && Power(58, 6) == 38068692544;
    assert Power(58, 8) == 128063081718016 && Power(58, 10) == 430804206899405824;
    PowerAdd(58, 10, 11);
    PowerAdd(58, 11, 11);
    assert Power(256, 2) == 65536 && Power(256, 4) == 4294967296 && Power(256, 6) == 281474976710656;
    assert Power(256, 8) == 18446744073709551616;
    PowerAdd(256, 8, 8);
  }

  lemma {:induction false} ThirtyTwoBytes()
    ensures Power(58, 43) < Power(256, 32) <= Power(58, 44)
  {
    KnownPowers();
    PowerAdd(58, 21, 22);
    PowerAdd(58, 22, 22);
    PowerAdd(256, 16, 16);
  }

  /** 32 bytes fit in 44 digits, and so do shorter keys with the room their leading ones leave. */
  lemma {:induction false} DigitsSuffice(m: nat)
    requires m <= 32
    ensures Power(256, m) <= Power(58, m + 12)
    decreases 32 - m
  {
    if m == 32 {
      ThirtyTwoBytes();
    } else {
      DigitsSuffice(m + 1);
      assert Power(256, m + 1) == Power(256, m) * 256;
      assert Power(58, m + 13) == Power(58, m + 12) * 58;
    }
  }

  /** The schema's limit of 44 characters turns no valid key away, and no key is shorter than 32. */
  lemma {:induction false} AcceptedLength(s: string)
    requires Accepted(s)
    ensures 32 <= |s| <= 44
  {
    var k, rest := SplitOnes(s);
    var v := Value(58, rest);
    NumeralValue(256, v);
    assert k + |Numeral(256, v)| == 32 && |s| == k + |rest|;
    NotFewerDigits(rest, Numeral(256, v));
    NotManyMoreDigits(rest, Numeral(256, v));
  }

  /** Base 58 needs at least as many digits as base 256. */
  lemma {:induction false} NotFewerDigits(rest: seq<nat>, bytes: seq<nat>)
    requires Digits(58, rest) && Value(58, rest) == Value(256, bytes)
    requires bytes != [] ==> bytes[0] > 0
    ensures |rest| >= |bytes|
  {
    if bytes != [] {
      ValueUpperBound(58, rest);
      ValueLowerBound(256, bytes);
      SmallerBase(|bytes| - 1);
      PowersTell(58, |rest|, |bytes| - 1);
    }
  }

  /** And at most twelve more, for up to 32 bytes. */
  lemma {:induction false} NotManyMoreDigits(rest: seq<nat>, bytes: seq<nat>)
    requires Digits(256, bytes) && Value(58, rest) == Value(256, bytes) && |bytes| <= 32
    requires rest != [] ==> rest[0] > 0
    ensures |rest| <= |bytes| + 12
  {
    if rest != [] {
      ValueUpperBound(256, bytes);
      ValueLowerBound(58, rest);
      DigitsSuffice(|bytes|);
      PowersTell(58, |bytes| + 12, |rest| - 1);
    }
  }

  lemma {:induction false} PowersTell(base: nat, j: nat, k: nat)
    requires base >= 1
    ensures Power(base, j) > Power(base, k) ==> j > k
  {
    if j <= k { PowerMonotone(base, j, k); }
  }

  /** Both ends of the range are reached: the all-zero key and the all-0xff key. */
  lemma {:induction false} LengthBoundsAreSharp()
    ensures var low := Encode(Zeros(32)); Accepted(low) && |low| == 32
    ensures var high := Encode(seq(32, _ => 255)); Accepted(high) && |high| == 44
  {
    EveryKeyHasAnAddress(Zeros(32));
    CountZerosPrefix(32, []);
    assert Zeros(32) + [] == Zeros(32);
    var key := seq(32, _ => 255);
    EveryKeyHasAnAddress(key);
    AcceptedLength(Encode(key));
    var v := Value(256, key);
    ValueLowerBound(256, key);
    assert key[CountZeros(key)..] == key;
    NumeralValue(58, v);
    ValueUpperBound(58, Numeral(58, v));
    if |Numeral(58, v)| <= 43 {
      PowerMonotone(58, |Numeral(58, v)|, 43);
      AllOnes(32);
      ThirtyTwoBytes();
    }
  }

  lemma {:induction false} AllOnes(k: nat)
    ensures Value(256, seq(k, _ => 255)) == Power(256, k) - 1
  {
    if k > 0 {
      assert seq(k, _ => 255)[..k - 1] == seq(k - 1, _ => 255);
      AllOnes(k - 1);
    }
  }
}
