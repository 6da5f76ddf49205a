/** Base 58 encoding of byte strings. Big numbers are integers here; what OpenSSL makes of byte vectors is
    written out. */
module Base58 {
  import opened Common

  type octet = x: nat | x < 256

  // ---------------------------------------------------------------- digits of numbers

  /** The digits of n, most significant first, none for zero. */
  function Digits(base: nat, n: nat): (r: seq<nat>)
    requires base >= 2
    ensures forall i | 0 <= i < |r| :: r[i] < base
    decreases n
  {
    if n == 0 then []
    else
      DivLess(n, base);
      Digits(base, n / base) + [n % base]
  }

  lemma DivLess(n: nat, base: nat)
    requires n > 0 && base >= 2
    ensures n / base < n
  {
    var q := n / base;
    assert base * q <= n;
    Mono(2, base, q);
  }

  function Value(base: nat, ds: seq<nat>): nat {
    if ds == [] then 0 else Value(base, ds[..|ds| - 1]) * base + ds[|ds| - 1]
  }

  function LeadingZeros(ds: seq<nat>): (k: nat)
    ensures k <= |ds| && (k < |ds| ==> ds[k] != 0) && forall i | 0 <= i < k :: ds[i] == 0
  {
    if ds == [] || ds[0] != 0 then 0 else 1 + LeadingZeros(ds[1..])
  }

  function Zeros(k: nat): (r: seq<octet>)
    ensures |r| == k && forall i | 0 <= i < k :: r[i] == 0
  {
    seq(k, _ => 0)
  }

  lemma DivMod(n: nat, base: nat)
    requires base >= 2
    ensures n / base * base + n % base == n
  {
  }

  lemma ValueSnoc(base: nat, ds: seq<nat>, d: nat)
    ensures Value(base, ds + [d]) == Value(base, ds) * base + d
  {
    assert (ds + [d])[..|ds|] == ds;
  }

  lemma {:induction false} ValueOfDigits(base: nat, n: nat)
    requires base >= 2
    ensures Value(base, Digits(base, n)) == n
    decreases n
  {
    hide Value;
    if n > 0 {
      DivLess(n, base);
      ValueOfDigits(base, n / base);
      ValueSnoc(base, Digits(base, n / base), n % base);
      DivMod(n, base);
    } else {
      ValueZero(base, []);
    }
  }

  lemma {:induction false} ValueZero(base: nat, ds: seq<nat>)
    requires forall i | 0 <= i < |ds| :: ds[i] == 0
    ensures Value(base, ds) == 0
  {
    if ds != [] {
      ValueZero(base, ds[..|ds| - 1]);
    }
  }

  lemma Recombine(base: nat, v: nat, d: nat)
    requires base >= 2 && d < base
    ensures (v * base + d) / base == v && (v * base + d) % base == d
  {
    var n := v * base + d;
    var q := n / base;
    assert q * base <= n < q * base + base;
    assert (q + 1) * base == q * base + base && (v + 1) * base == v * base + base;
    if q < v {
      Mono(q + 1, v, base);
    } else if q > v {
      Mono(v + 1, q, base);
    }
  }

  /** Digits without leading zeros are those of their value. */
  lemma {:induction false} DigitsOfValue(base: nat, ds: seq<nat>)
    requires base >= 2 && (forall i | 0 <= i < |ds| :: ds[i] < base) && (ds != [] ==> ds[0] != 0)
    ensures Digits(base, Value(base, ds)) == ds && (ds != [] ==> Value(base, ds) > 0)
  {
    if ds != [] {
      var k := |ds| - 1;
      DigitsOfValue(base, ds[..k]);
      Recombine(base, Value(base, ds[..k]), ds[k]);
      if k > 0 {
        assert Value(base, ds[..k]) * base > 0;
      }
    }
  }

  /** Leading zeros do not count. */
  lemma {:induction false} ValueStrip(base: nat, ds: seq<nat>)
    ensures Value(base, ds[LeadingZeros(ds)..]) == Value(base, ds)
  {
    var z := LeadingZeros(ds);
    if z == |ds| {
      ValueZero(base, ds);
    } else {
      var k := |ds| - 1;
      if z == k {
        assert ds[z..] == [ds[k]];
        ValueZero(base, ds[..k]);
        assert Value(base, [ds[k]]) == Value(base, []) * base + ds[k];
      } else {
        LeadingZerosPrefix(ds, k);
        ValueStrip(base, ds[..k]);
        assert ds[z..][..|ds[z..]| - 1] == ds[..k][z..];
      }
    }
  }

  lemma {:induction false} LeadingZerosIs(ds: seq<nat>, z: nat)
    requires z <= |ds| && (z < |ds| ==> ds[z] != 0) && forall i | 0 <= i < z :: ds[i] == 0
    ensures LeadingZeros(ds) == z
  {
  }

  lemma LeadingZerosPrefix(ds: seq<nat>, k: nat)
    requires LeadingZeros(ds) < k <= |ds|
    ensures LeadingZeros(ds[..k]) == LeadingZeros(ds)
  {
    LeadingZerosIs(ds[..k], LeadingZeros(ds));
  }

  // ---------------------------------------------------------------- the alphabet

  /** pszBase58: digits and letters without 0, I, O and l. */
  function DigitChar(d: nat): (c: char)
    requires d < 58
  {
    if d < 9 then '1' + d as char
    else if d < 17 then 'A' + (d - 9) as char
    else if d < 22 then 'J' + (d - 17) as char
    else if d < 33 then 'P' + (d - 22) as char
    else if d < 44 then 'a' + (d - 33) as char
    else 'm' + (d - 44) as char
  }

  /** strchr(pszBase58, c) - pszBase58, or -1. */
  function CharDigit(c: char): (d: int)
    ensures -1 <= d < 58
  {
    if '1' <= c <= '9' then c as int - '1' as int
    else if 'A' <= c <= 'H' then c as int - 'A' as int + 9
    else if 'J' <= c <= 'N' then c as int - 'J' as int + 17
    else if 'P' <= c <= 'Z' then c as int - 'P' as int + 22
    else if 'a' <= c <= 'k' then c as int - 'a' as int + 33
    else if 'm' <= c <= 'z' then c as int - 'm' as int + 44
    else -1
  }

  lemma AlphabetInverse(d: nat, c: char)
    ensures d < 58 ==> CharDigit(DigitChar(d)) == d
    ensures CharDigit(c) >= 0 ==> DigitChar(CharDigit(c)) == c
    ensures CharDigit(c) >= 0 ==> !IsSpace(c)
  {
  }

  predicate IsSpace(c: char) { c == ' ' || '\t' <= c <= '\r' }

  function Chars(ds: seq<nat>): (s: string)
    requires forall i | 0 <= i < |ds| :: ds[i] < 58
    ensures |s| == |ds| && forall i | 0 <= i < |ds| :: s[i] == DigitChar(ds[i])
  {
    seq(|ds|, i requires 0 <= i < |ds| => DigitChar(ds[i]))
  }

  predicate InAlphabet(s: string) { forall i | 0 <= i < |s| :: CharDigit(s[i]) >= 0 }

  function DigitsOf(s: string): (ds: seq<nat>)
    requires InAlphabet(s)
    ensures |ds| == |s| && forall i | 0 <= i < |s| :: ds[i] == CharDigit(s[i])
  {
    seq(|s|, i requires 0 <= i < |s| => CharDigit(s[i]))
  }

  function Ones(k: nat): string { seq(k, _ => '1') }

  // ---------------------------------------------------------------- byte vectors of big numbers

  function LittleEndian(s: seq<octet>): nat { if s == [] then 0 else s[0] + 256 * LittleEndian(s[1..]) }

  lemma {:induction false} LittleEndianReversed(b: seq<octet>)
    ensures LittleEndian(Reversed(b)) == Value(256, b)
  {
    if b != [] {
      LittleEndianReversed(b[..|b| - 1]);
      assert Reversed(b)[1..] == Reversed(b[..|b| - 1]);
    }
  }

  lemma {:induction false} LittleEndianPadded(s: seq<octet>)
    ensures LittleEndian(s + [0]) == LittleEndian(s)
  {
    if s != [] {
      LittleEndianPadded(s[1..]);
      assert (s + [0])[1..] == s[1..] + [0];
    } else {
      assert ([] + [0])[1..] == [];
    }
  }

  /** One more byte if the last would read as a sign. */
  function WithSign(le: seq<octet>): seq<octet> { if le != [] && le[|le| - 1] >= 0x80 then le + [0] else le }

  /** CBigNum::getvch of a number that is not negative: least significant byte first. */
  function GetVch(n: nat): seq<octet> { WithSign(Reversed(Digits(256, n))) }

  // ---------------------------------------------------------------- encoding

  /** The encoding of a byte string: a one for each leading zero, then the number in base 58. */
  function Encoded(b: seq<octet>): string { Ones(LeadingZeros(b)) + Chars(Digits(58, Value(256, b))) }

  method EncodeBase58(b: seq<octet>) returns (str: string)
    ensures str == Encoded(b)
  {
    hide Value, LittleEndian;
    var vchTmp := Reversed(b) + [0];
    LittleEndianReversed(b);
    LittleEndianPadded(Reversed(b));
    var bn := LittleEndian(vchTmp);
    ghost var n := bn;
    str := "";
    while bn > 0
      invariant Chars(Digits(58, bn)) + Reversed(str) == Chars(Digits(58, n))
      decreases bn
    {
      DivLess(bn, 58);
      ghost var before := str;
      var rem := bn % 58;
      bn := bn / 58;
      str := str + [DigitChar(rem)];
      assert Reversed(str) == [DigitChar(rem)] + Reversed(before);
      assert Chars(Digits(58, bn) + [rem]) == Chars(Digits(58, bn)) + [DigitChar(rem)];
    }
    ghost var digits := str;
    var p := 0;
    while p < |b| && b[p] == 0
      invariant p <= LeadingZeros(b) && str == digits + Ones(p)
    {
      str := str + ['1'];
      p := p + 1;
    }
    assert p == LeadingZeros(b);
    assert Reversed(str) == Ones(p) + Reversed(digits);
    str := Reversed(str);
  }

  // ---------------------------------------------------------------- decoding

  function Spaces(s: string): (k: nat)
    ensures k <= |s|
  {
    if s == [] || !IsSpace(s[0]) then 0 else 1 + Spaces(s[1..])
  }

  /** The part of a string before the first character that is not in the alphabet. */
  function Body(s: string): (body: string)
    ensures body <= s && InAlphabet(body) && (|body| < |s| ==> CharDigit(s[|body|]) < 0)
  {
    if s == [] || CharDigit(s[0]) < 0 then []
    else
      assert forall i | 0 < i < |s| :: s[1..][i - 1] == s[i];
      [s[0]] + Body(s[1..])
  }

  function Decoded(body: string): seq<octet>
    requires InAlphabet(body)
  {
    Zeros(LeadingZeros(DigitsOf(body))) + Digits(256, Value(58, DigitsOf(body)))
  }

  /** Spaces may stand around it, but nothing else. */
  predicate Readable(psz: string) {
    var s := psz[Spaces(psz)..];
    var rest := s[|Body(s)|..];
    Spaces(rest) == |rest|
  }

  /** The loops over white space. */
  method SkipSpaces(psz: string, p0: nat) returns (p: nat)
    requires p0 <= |psz|
    ensures p == p0 + Spaces(psz[p0..]) <= |psz|
  {
    p := p0;
    while p < |psz| && IsSpace(psz[p])
      invariant p0 <= p <= |psz| && p + Spaces(psz[p..]) == p0 + Spaces(psz[p0..])
    {
      assert psz[p..][1..] == psz[p + 1..];
      p := p + 1;
    }
  }

  /** The loop that multiplies the digits together. */
  method ReadDigits(psz: string, start: nat) returns (p: nat, bn: nat)
    requires start <= |psz|
    ensures var body := Body(psz[start..]);
            p == start + |body| <= |psz| && bn == Value(58, DigitsOf(body))
  {
    hide Value, CharDigit, Body;
    ghost var s := psz[start..];
    ghost var body := Body(s);
    forall k | 0 <= k < |body| ensures psz[start + k] == body[k] == s[k] && CharDigit(body[k]) >= 0 {
    }
    p, bn := start, 0;
    DigitsPrefix(body, 0);
    while p < |psz| && CharDigit(psz[p]) >= 0
      invariant start <= p <= start + |body| && bn == Value(58, DigitsOf(body)[..p - start])
      invariant p < start + |body| ==> psz[p] == body[p - start]
    {
      assert psz[p] == s[p - start];
      DigitsPrefix(body, p + 1 - start);
      bn := bn * 58 + CharDigit(psz[p]);
      p := p + 1;
    }
    assert DigitsOf(body)[..p - start] == DigitsOf(body);
  }

  /** The loop that counts the leading ones. */
  method CountOnes(psz: string, start: nat) returns (nLeadingZeros: nat)
    requires start <= |psz|
    ensures nLeadingZeros == LeadingZeros(DigitsOf(Body(psz[start..])))
  {
    hide Body, IsSpace;
    ghost var s := psz[start..];
    ghost var body := Body(s);
    nLeadingZeros := 0;
    var q := start;
    OneIsZero(s, body, 0);
    while q < |psz| && psz[q] == '1'
      invariant start <= q <= |psz| && nLeadingZeros == q - start <= LeadingZeros(DigitsOf(body))
      invariant q < |psz| && psz[q] == '1' <==> nLeadingZeros < LeadingZeros(DigitsOf(body))
    {
      q := q + 1;
      nLeadingZeros := nLeadingZeros + 1;
      OneIsZero(s, body, nLeadingZeros);
      assert q < |psz| ==> psz[q] == s[nLeadingZeros];
    }
  }

  /** DecodeBase58 of a string without zero characters. */
  method DecodeBase58(psz: string) returns (ok: bool, vchRet: seq<octet>)
    ensures ok <==> Readable(psz)
    ensures ok ==> vchRet == Decoded(Body(psz[Spaces(psz)..]))
  {
    hide Value, Digits, Body, Spaces, LeadingZeros, CharDigit;
    var start := SkipSpaces(psz, 0);
    assert psz[0..] == psz;
    var p, bn := ReadDigits(psz, start);
    assert psz[p..] == psz[start..][p - start..];
    p := SkipSpaces(psz, p);
    if p < |psz| {
      return false, [];
    }
    var vchTmp := GetVch(bn);
    Trimmed(bn);
    if |vchTmp| >= 2 && vchTmp[|vchTmp| - 1] == 0 && vchTmp[|vchTmp| - 2] >= 0x80 {
      vchTmp := vchTmp[..|vchTmp| - 1];
    }
    var nLeadingZeros := CountOnes(psz, start);
    vchRet := Zeros(nLeadingZeros) + Reversed(vchTmp);
    ok := true;
  }

  /** The sign byte is all that the trimming takes off. */
  lemma SignTrimmed(le: seq<octet>)
    requires le != [] ==> le[|le| - 1] != 0
    ensures var v := WithSign(le);
            (if |v| >= 2 && v[|v| - 1] == 0 && v[|v| - 2] >= 0x80 then v[..|v| - 1] else v) == le
  {
    assert (le + [0])[..|le|] == le;
  }

  lemma ReversedTwice<T>(s: seq<T>)
    ensures Reversed(Reversed(s)) == s
  {
  }

  lemma Trimmed(n: nat)
    ensures var v := GetVch(n);
            var trimmed := if |v| >= 2 && v[|v| - 1] == 0 && v[|v| - 2] >= 0x80 then v[..|v| - 1] else v;
            Reversed(trimmed) == Digits(256, n)
  {
    hide Digits, WithSign, Reversed;
    if n > 0 {
      FirstDigit(256, n);
    } else {
      NoDigits();
    }
    ReversedTwice(Digits(256, n));
    SignTrimmed(Reversed(Digits(256, n)));
  }

  lemma NoDigits()
    ensures Digits(256, 0) == []
  {
  }

  lemma {:induction false} FirstDigit(base: nat, n: nat)
    requires base >= 2 && n > 0
    ensures Digits(base, n) != [] && Digits(base, n)[0] != 0
    decreases n
  {
    DivLess(n, base);
    assert n == n / base * base + n % base;
    if n / base > 0 {
      FirstDigit(base, n / base);
    }
  }

  lemma DigitsPrefix(body: string, k: nat)
    requires InAlphabet(body) && k <= |body|
    ensures var ds := DigitsOf(body);
            Value(58, ds[..k]) == if k == 0 then 0 else Value(58, ds[..k - 1]) * 58 + ds[k - 1]
  {
    var ds := DigitsOf(body);
    if k > 0 {
      assert ds[..k][..k - 1] == ds[..k - 1];
    }
  }

  lemma CharOne(c: char)
    ensures c == '1' <==> CharDigit(c) == 0
  {
    AlphabetInverse(0, c);
  }

  /** The character 1 is the digit zero. */
  lemma OneIsZero(s: string, body: string, i: nat)
    requires body <= s && InAlphabet(body) && (|body| < |s| ==> CharDigit(s[|body|]) < 0)
    requires i <= LeadingZeros(DigitsOf(body))
    ensures i < |s| && s[i] == '1' <==> i < LeadingZeros(DigitsOf(body))
  {
    hide CharDigit;
    var ds := DigitsOf(body);
    if i < |s| {
      CharOne(s[i]);
      if i < |body| {
        assert ds[i] == CharDigit(s[i]);
      }
    }
  }

  // ---------------------------------------------------------------- round trips

  lemma BodyOfAlphabet(s: string)
    requires InAlphabet(s)
    ensures Body(s) == s && Spaces(s) == 0 && Readable(s)
  {
    hide CharDigit;
    assert s[0..] == s && Body(s) == s;
    if s != [] {
      AlphabetInverse(0, s[0]);
      assert CharDigit(s[0]) >= 0;
    }
  }

  lemma EncodedDigits(b: seq<octet>)
    ensures InAlphabet(Encoded(b))
    ensures DigitsOf(Encoded(b)) == Zeros(LeadingZeros(b)) + Digits(58, Value(256, b))
  {
    hide Value, Digits, LeadingZeros, CharDigit, DigitChar;
    var e := Encoded(b);
    var k := LeadingZeros(b);
    CharOne('1');
    forall i | 0 <= i < |e| ensures CharDigit(e[i]) == if i < k then 0 else Digits(58, Value(256, b))[i - k] {
      if i >= k {
        AlphabetInverse(Digits(58, Value(256, b))[i - k], e[i]);
      }
    }
  }

  /** Leading zeros in front of a number without any. */
  lemma PaddedDigits(base: nat, k: nat, n: nat)
    requires base >= 2
    ensures var ds := Zeros(k) + Digits(base, n);
            LeadingZeros(ds) == k && ds[k..] == Digits(base, n) && Value(base, ds) == n
  {
    var ds := Zeros(k) + Digits(base, n);
    if n > 0 {
      FirstDigit(base, n);
    }
    LeadingZerosIs(ds, k);
    assert ds[k..] == Digits(base, n);
    ValueStrip(base, ds);
    ValueOfDigits(base, n);
  }

  lemma ZerosFirst(ds: seq<nat>)
    ensures var k := LeadingZeros(ds);
            ds == Zeros(k) + ds[k..] && (ds[k..] != [] ==> ds[k..][0] != 0)
  {
  }

  /** A digit string is its leading zeros and the digits of its value. */
  lemma SplitDigits(base: nat, ds: seq<nat>)
    requires base >= 2 && forall i | 0 <= i < |ds| :: ds[i] < base
    ensures ds == Zeros(LeadingZeros(ds)) + Digits(base, Value(base, ds))
  {
    hide Digits, Value, LeadingZeros;
    ZerosFirst(ds);
    DigitsOfValue(base, ds[LeadingZeros(ds)..]);
    ValueStrip(base, ds);
  }

  /** What is encoded can be decoded, leading zeros included. */
  lemma DecodeEncoded(b: seq<octet>)
    ensures InAlphabet(Encoded(b)) && Decoded(Encoded(b)) == b
    ensures Readable(Encoded(b)) && Body(Encoded(b)[Spaces(Encoded(b))..]) == Encoded(b)
  {
    hide Digits, Value, LeadingZeros, Encoded, Readable, Body, Spaces;
    EncodedDigits(b);
    BodyOfAlphabet(Encoded(b));
    PaddedDigits(58, LeadingZeros(b), Value(256, b));
    SplitDigits(256, b);
    assert Encoded(b)[0..] == Encoded(b);
  }

  /** Every string of the alphabet is the encoding of what it decodes to. */
  lemma EncodeDecoded(s: string)
    requires InAlphabet(s)
    ensures Encoded(Decoded(s)) == s
  {
    hide Digits, Value, LeadingZeros, CharDigit, DigitChar;
    var ds := DigitsOf(s);
    PaddedDigits(256, LeadingZeros(ds), Value(58, ds));
    SplitDigits(58, ds);
    CharOne('1');
    var e := Encoded(Decoded(s));
    var k := LeadingZeros(ds);
    forall i | 0 <= i < |s| ensures |e| == |s| && e[i] == s[i] {
      assert CharDigit(s[i]) >= 0 && ds[i] == CharDigit(s[i]);
      AlphabetInverse(0, s[i]);
      CharOne(s[i]);
    }
  }
}
