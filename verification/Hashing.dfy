/** Digests, decimal rendering, and the string encodings that the audit services hash.

    The hash function itself is a parameter of every definition: nothing is assumed about it except
    that it returns 64 hexadecimal characters. In particular it is NOT assumed to be injective. The
    binding results say "equal, or two distinct strings among those actually hashed collide".
  */
module Hashing {

  predicate IsHex(c: char) {
    '0' <= c <= '9' || 'a' <= c <= 'f'
  }

  predicate IsDigest(s: string) {
    |s| == 64 && forall i | 0 <= i < |s| :: IsHex(s[i])
  }

  type Digest = s: string | IsDigest(s) witness seq(64, _ => '0')

  type HashFunction = string -> Digest

  predicate Collides(h: HashFunction, a: string, b: string) {
    a != b && h(a) == h(b)
  }

  /** Two distinct strings of `hashed` have the same digest. */
  ghost predicate Collision(h: HashFunction, hashed: set<string>) {
    exists a, b | a in hashed && b in hashed :: Collides(h, a, b)
  }

  lemma SameDigest(h: HashFunction, hashed: set<string>, a: string, b: string)
    requires a in hashed && b in hashed
    requires h(a) == h(b)
    ensures a == b || Collision(h, hashed)
  {
    assert a == b || Collides(h, a, b);
  }

  // ---------------------------------------------------------------------------------------------
  // Decimal rendering of an integer, as in an f-string
  // ---------------------------------------------------------------------------------------------

  function Digit(d: nat): (c: char)
    requires d < 10
    ensures '0' <= c <= '9'
  {
    ['0', '1', '2', '3', '4', '5', '6', '7', '8', '9'][d]
  }

  function DigitValue(c: char): int {
    c as int - '0' as int
  }

  function Digits(n: nat): string {
    if n < 10 then [Digit(n)] else Digits(n / 10) + [Digit(n % 10)]
  }

  function DigitsValue(s: string): int {
    if s == [] then 0 else 10 * DigitsValue(s[..|s| - 1]) + DigitValue(s[|s| - 1])
  }

  function Decimal(n: int): string {
    if n < 0 then "-" + Digits(-n) else Digits(n)
  }

  lemma DigitsValueSnoc(s: string, c: char)
    ensures DigitsValue(s + [c]) == 10 * DigitsValue(s) + DigitValue(c)
  {
    assert (s + [c])[..|s|] == s;
  }

  lemma DigitIsValue(d: nat)
    requires d < 10
    ensures DigitValue(Digit(d)) == d
  {
  }

  lemma {:induction false} DigitsRoundTrip(n: nat)
    ensures DigitsValue(Digits(n)) == n
  {
    DigitIsValue(n % 10);
    if n < 10 {
      DigitsValueSnoc([], Digit(n));
      assert [] + [Digit(n)] == [Digit(n)];
    } else {
      DigitsRoundTrip(n / 10);
      DigitsValueSnoc(Digits(n / 10), Digit(n % 10));
    }
  }

  lemma {:induction false} DigitsAreDigits(n: nat)
    ensures |Digits(n)| > 0
    ensures forall i | 0 <= i < |Digits(n)| :: '0' <= Digits(n)[i] <= '9'
  {
    if n >= 10 {
      DigitsAreDigits(n / 10);
    }
  }

  /** Rendering loses nothing, signs included. */
  lemma DecimalInjective(m: int, n: int)
    requires Decimal(m) == Decimal(n)
    ensures m == n
  {
    DigitsAreDigits(if m < 0 then -m else m);
    DigitsAreDigits(if n < 0 then -n else n);
    DigitsRoundTrip(if m < 0 then -m else m);
    DigitsRoundTrip(if n < 0 then -n else n);
    assert Decimal(m)[0] == Decimal(n)[0];
    if m < 0 && n < 0 {
      assert Decimal(m)[1..] == Digits(-m) && Decimal(n)[1..] == Digits(-n);
    }
  }

  lemma DecimalHasNoColon(n: int)
    ensures ':' !in Decimal(n)
  {
    DigitsAreDigits(if n < 0 then -n else n);
  }

  function Pow10(k: nat): nat {
    if k == 0 then 1 else 10 * Pow10(k - 1)
  }

  lemma {:induction false} DigitsLength(n: nat, k: nat)
    requires 0 < k && n < Pow10(k)
    ensures |Digits(n)| <= k
  {
    if n >= 10 {
      assert k > 1;
      DigitsLength(n / 10, k - 1);
    }
  }

  /** The range of the BIGINT column that stores sequence numbers. */
  predicate IsBigInt(n: int) {
    -0x8000_0000_0000_0000 <= n < 0x8000_0000_0000_0000
  }

  lemma BigIntIsShort(n: int)
    requires IsBigInt(n)
    ensures |Decimal(n)| <= 20
  {
    assert Pow10(5) == 100000;
    assert Pow10(10) == 100000 * 100000;
    assert Pow10(15) == 100000 * 100000 * 100000;
    assert Pow10(19) == 10000 * 100000 * 100000 * 100000;
    DigitsLength(if n < 0 then -n else n, 19);
  }

  // ---------------------------------------------------------------------------------------------
  // The chain payload: previous hash, data hash, salt, sequence number, with no separator
  // ---------------------------------------------------------------------------------------------

  function ChainPayload(previousHash: string, dataHash: string, salt: string, sequence: int): string {
    previousHash + dataHash + salt + Decimal(sequence)
  }

  function ComputeChainHash(h: HashFunction, previousHash: string, dataHash: string, salt: string, sequence: int)
    : Digest
  {
    h(ChainPayload(previousHash, dataHash, salt, sequence))
  }

  lemma CutAt(a: string, b: string, a': string, b': string)
    requires |a| == |a'| && a + b == a' + b'
    ensures a == a' && b == b'
  {
    assert (a + b)[..|a|] == a && (a' + b')[..|a|] == a';
    assert (a + b)[|a|..] == b && (a' + b')[|a|..] == b';
  }

  /** The parts of the payload in their order: previous hash, data hash, salt, number, and nothing between them. */
  lemma ChainPayloadParts(p: string, d: string, salt: string, n: int)
    ensures var whole := ChainPayload(p, d, salt, n);
            && |whole| == |p| + |d| + |salt| + |Decimal(n)|
            && whole[..|p|] == p && whole[|p|..|p| + |d|] == d
            && whole[|p| + |d|..|p| + |d| + |salt|] == salt && whole[|p| + |d| + |salt|..] == Decimal(n)
  {
  }

  /** The salt is part of the payload: with other salts all else being equal gives another payload. */
  lemma ChainPayloadSalt(p: string, d: string, n: int, salt: string, salt': string)
    requires ChainPayload(p, d, salt, n) == ChainPayload(p, d, salt', n)
    ensures salt == salt'
  {
    var whole, number := ChainPayload(p, d, salt, n), Decimal(n);
    assert |salt| == |salt'|;
    assert whole[|p| + |d|..|p| + |d| + |salt|] == salt;
    assert ChainPayload(p, d, salt', n)[|p| + |d|..|p| + |d| + |salt|] == salt';
  }

  /** With equally long hash fields, the separator-free payload still determines every field. */
  lemma ChainPayloadInjective(p: string, d: string, n: int, p': string, d': string, n': int, salt: string)
    requires |p| == |p'| && |d| == |d'|
    requires ChainPayload(p, d, salt, n) == ChainPayload(p', d', salt, n')
    ensures p == p' && d == d' && n == n'
  {
    CutAt(p + d + salt, Decimal(n), p' + d' + salt, Decimal(n'));
    CutAt(p + d, salt, p' + d', salt);
    CutAt(p, d, p', d');
    DecimalInjective(n, n');
  }

  /** Changing one hash field alone always changes the payload, whatever the lengths. */
  lemma ChainPayloadOneField(p: string, d: string, p': string, d': string, n: int, salt: string)
    requires ChainPayload(p, d, salt, n) == ChainPayload(p', d', salt, n)
    ensures p == p' ==> d == d'
    ensures d == d' ==> p == p'
  {
    var x, x' := ChainPayload(p, d, salt, n), ChainPayload(p', d', salt, n);
    if p == p' {
      assert |d| == |d'|;
      ChainPayloadInjective(p, d, n, p', d', n, salt);
    } else if d == d' {
      assert |p| == |p'|;
      ChainPayloadInjective(p, d, n, p', d', n, salt);
    }
  }
}
