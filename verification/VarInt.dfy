/** The variable-length integers of serialize.h: base 128, most significant digit first, every digit but the
    last with its high bit set and one added to what it carries, so that no number has two encodings. */
module VarInt {
  import opened Common
  import opened Coins

  const TWO31: nat := 0x8000_0000
  const TWO32: nat := 0x1_0000_0000
  const TWO64: nat := 0x1_0000_0000_0000_0000

  /** The digits of n, all marked as being followed by more. */
  function Prefix(n: nat): (r: seq<byte>)
    ensures |r| > 0
  {
    if n <= 127 then [(128 + n) as byte] else Prefix(n / 128 - 1) + [(128 + n % 128) as byte]
  }

  function Encode(n: nat): (r: seq<byte>)
    ensures |r| > 0
  {
    if n <= 127 then [n as byte] else Prefix(n / 128 - 1) + [(n % 128) as byte]
  }

  /** An int: the test for a single digit is also true of a negative number, of which only the lowest seven
      bits are written. */
  function EncodeInt(n: int): (r: seq<byte>)
    ensures |r| > 0
  {
    if n < 0 then [(n % 128) as byte] else Encode(n)
  }

  /** A negative number is not read back. */
  lemma StoredExactly(n: int)
    ensures Stored(n) == n <==> n >= 0
  {
  }

  /** GetSizeOfVarInt. */
  method GetSizeOfVarInt(n0: int) returns (nRet: nat)
    ensures nRet == |EncodeInt(n0)|
  {
    nRet := 0;
    var n := n0;
    while true
      invariant n0 < 0 ==> nRet == 0 && n == n0
      invariant n0 >= 0 ==> n >= 0 && nRet + (if nRet == 0 then |Encode(n)| else |Prefix(n)|) == |Encode(n0)|
      decreases n
    {
      nRet := nRet + 1;
      if n <= 0x7F {
        break;
      }
      n := n / 128 - 1;
    }
  }

  /** What is written in all when n is left and the digits in tmp are found. */
  function Pending(n: int, tmp: seq<byte>): seq<byte>
    requires n < 0 ==> tmp == []
  {
    if tmp == [] then EncodeInt(n) else Prefix(n) + Reversed(tmp)
  }

  /** The lowest digit, marked unless it is the last one. */
  function Digit(n: int, marked: bool): byte { if marked then (n % 128 + 128) as byte else (n % 128) as byte }

  lemma OneMoreDigit(n: int, tmp: seq<byte>)
    requires n < 0 ==> tmp == []
    ensures var tmp' := tmp + [Digit(n, tmp != [])];
            if n <= 127 then Reversed(tmp') == Pending(n, tmp) else Pending(n / 128 - 1, tmp') == Pending(n, tmp)
  {
    var tmp' := tmp + [Digit(n, tmp != [])];
    assert tmp'[..|tmp|] == tmp;
    assert Reversed(tmp') == [tmp'[|tmp|]] + Reversed(tmp);
    if n > 127 {
      Regrouped(Prefix(n / 128 - 1), [tmp'[|tmp|]], Reversed(tmp));
    }
  }

  lemma Regrouped(a: seq<byte>, b: seq<byte>, c: seq<byte>)
    ensures a + (b + c) == a + b + c
  {
  }

  lemma NothingFound(n: int)
    ensures Pending(n, []) == EncodeInt(n)
  {
  }

  /** WriteVarInt: the digits are found from the last to the first and then written in reverse. */
  method WriteVarInt(os: seq<byte>, n0: int) returns (out: seq<byte>)
    ensures out == os + EncodeInt(n0)
  {
    hide Pending, EncodeInt, Reversed, Digit;
    var tmp: seq<byte> := [];
    var n := n0;
    NothingFound(n0);
    while true
      invariant (n < 0 ==> tmp == []) && Pending(n, tmp) == EncodeInt(n0)
      decreases n
    {
      ghost var before := tmp;
      tmp := tmp + [Digit(n, |tmp| > 0)];
      OneMoreDigit(n, before);
      if n <= 0x7F {
        break;
      }
      n := n / 128 - 1;
    }
    out := WriteReversed(os, tmp);
  }

  /** The second loop of WriteVarInt. */
  method WriteReversed(os: seq<byte>, tmp: seq<byte>) returns (out: seq<byte>)
    ensures out == os + Reversed(tmp)
  {
    ghost var all := Reversed(tmp);
    hide Reversed;
    out := os;
    var len := |tmp|;
    while len > 0
      invariant 0 <= len <= |tmp| && out == os + all[..|tmp| - len]
    {
      TakeNext(os, all, |tmp| - len);
      len := len - 1;
      out := out + [tmp[len]];
    }
    assert all[..|tmp|] == all;
  }

  lemma TakeNext(a: seq<byte>, b: seq<byte>, k: nat)
    requires k < |b|
    ensures a + b[..k + 1] == a + b[..k] + [b[k]]
  {
  }

  /** (n << 7) | (chData & 0x7F), and n++, in an unsigned type with `modulus` values. */
  function Shift(n: nat, b: byte, modulus: nat): nat
    requires modulus > 0
  {
    (n * 128 + b as int % 128) % modulus
  }

  function Bump(n: nat, modulus: nat): nat
    requires modulus > 0
  {
    (n + 1) % modulus
  }

  lemma NoWrap(n: nat, b: byte, modulus: nat)
    requires n * 128 + b as int % 128 < modulus
    ensures Shift(n, b, modulus) == n * 128 + b as int % 128
  {
    SmallMod(n * 128 + b as int % 128, modulus);
  }

  lemma SmallMod(x: nat, m: nat)
    requires x < m
    ensures x % m == x
  {
  }

  /** ReadVarInt. */
  function Read(s: seq<byte>, pos: nat, n: nat, modulus: nat): Option<(nat, nat)>
    requires modulus > 0
    decreases |s| - pos
  {
    if pos >= |s| then None
    else
      var m := Shift(n, s[pos], modulus);
      if s[pos] >= 128 then Read(s, pos + 1, Bump(m, modulus), modulus) else Some((m, pos + 1))
  }

  method ReadVarInt(s: seq<byte>, pos0: nat, modulus: nat) returns (ok: bool, n: nat, pos: nat)
    requires modulus > 0
    ensures ok == Read(s, pos0, 0, modulus).Some? && (ok ==> (n, pos) == Read(s, pos0, 0, modulus).value)
  {
    hide Shift, Bump;
    n, pos := 0, pos0;
    while pos < |s|
      invariant Read(s, pos, n, modulus) == Read(s, pos0, 0, modulus)
      decreases |s| - pos
    {
      var chData := s[pos];
      n := Shift(n, chData, modulus);
      pos := pos + 1;
      if chData >= 128 {
        n := Bump(n, modulus);
      } else {
        return true, n, pos;
      }
    }
    ok := false;
  }

  /** The stream holds `part` from pos on. */
  ghost predicate At(s: seq<byte>, pos: nat, part: seq<byte>) { pos + |part| <= |s| && s[pos..pos + |part|] == part }

  lemma AtSplit(s: seq<byte>, pos: nat, a: seq<byte>, b: seq<byte>)
    requires At(s, pos, a + b)
    ensures At(s, pos, a) && At(s, pos + |a|, b)
  {
    var whole := s[pos..pos + |a + b|];
    assert whole[..|a|] == a && whole[|a|..] == b;
    assert s[pos..pos + |a|] == whole[..|a|];
    assert s[pos + |a|..pos + |a| + |b|] == whole[|a|..];
  }

  lemma AtOne(s: seq<byte>, pos: nat, b: byte)
    requires At(s, pos, [b])
    ensures pos < |s| && s[pos] == b
  {
    assert s[pos..pos + 1][0] == s[pos];
  }

  lemma ReadMore(s: seq<byte>, pos: nat, n: nat, d: nat, modulus: nat)
    requires pos < |s| && d < 128 && s[pos] as int == 128 + d && n * 128 + d + 1 < modulus
    ensures Read(s, pos, n, modulus) == Read(s, pos + 1, n * 128 + d + 1, modulus)
  {
    NoWrap(n, s[pos], modulus);
    SmallMod(n * 128 + d + 1, modulus);
  }

  lemma ReadLast(s: seq<byte>, pos: nat, n: nat, d: nat, modulus: nat)
    requires pos < |s| && d < 128 && s[pos] as int == d && n * 128 + d < modulus
    ensures Read(s, pos, n, modulus) == Some((n * 128 + d, pos + 1))
  {
    NoWrap(n, s[pos], modulus);
  }

  lemma {:induction false} ReadPrefix(s: seq<byte>, pos: nat, n: nat, modulus: nat)
    requires n + 1 < modulus && At(s, pos, Prefix(n))
    ensures Read(s, pos, 0, modulus) == Read(s, pos + |Prefix(n)|, n + 1, modulus)
  {
    hide Shift, Bump, At;
    if n <= 127 {
      AtOne(s, pos, (128 + n) as byte);
      ReadMore(s, pos, 0, n, modulus);
    } else {
      var k := n / 128 - 1;
      AtSplit(s, pos, Prefix(k), [(128 + n % 128) as byte]);
      AtOne(s, pos + |Prefix(k)|, (128 + n % 128) as byte);
      ReadPrefix(s, pos, k, modulus);
      ReadMore(s, pos + |Prefix(k)|, k + 1, n % 128, modulus);
    }
  }

  /** Reading what was written gives the number back and stops right behind it. */
  lemma ReadEncoded(s: seq<byte>, pos: nat, n: int, modulus: nat)
    requires At(s, pos, EncodeInt(n)) && Stored(n) < modulus && modulus > 128
    ensures Read(s, pos, 0, modulus) == Some((Stored(n), pos + |EncodeInt(n)|))
  {
    hide Shift, Bump, At, Read;
    if n <= 127 {
      AtOne(s, pos, Stored(n) as byte);
      ReadLast(s, pos, 0, Stored(n), modulus);
    } else {
      var k := n / 128 - 1;
      AtSplit(s, pos, Prefix(k), [(n % 128) as byte]);
      AtOne(s, pos + |Prefix(k)|, (n % 128) as byte);
      ReadPrefix(s, pos, k, modulus);
      ReadLast(s, pos + |Prefix(k)|, k + 1, n % 128, modulus);
    }
  }

  /** Every number has exactly one encoding: a byte string that is read completely is what would be written
      for the number read. */
  lemma {:induction false} EncodingUnique(s: seq<byte>, n: nat, modulus: nat)
    requires modulus > 0 && s != [] && Read(s, 0, 0, modulus) == Some((n, |s|)) && Value(s, 0) < modulus
    ensures s == Encode(n)
  {
    ReadValue(s, 0, 0, modulus);
    ValueUnique(s);
  }

  /** The number that a digit string carries, without any bound. */
  function Value(s: seq<byte>, n: nat): nat {
    if s == [] then n
    else
      var m := n * 128 + s[0] as int % 128;
      Value(s[1..], if s[0] >= 128 then m + 1 else m)
  }

  lemma {:induction false} ValueGrows(s: seq<byte>, n: nat)
    ensures Value(s, n) >= n
  {
    if s != [] {
      var m := n * 128 + s[0] as int % 128;
      ValueGrows(s[1..], if s[0] >= 128 then m + 1 else m);
    }
  }

  lemma ReadEnd(s: seq<byte>, pos: nat, n: nat, modulus: nat)
    requires modulus > 0 && Read(s, pos, n, modulus).Some?
    ensures pos < |s|
  {
  }

  lemma {:induction false} ReadValue(s: seq<byte>, pos: nat, n: nat, modulus: nat)
    requires modulus > 0 && pos < |s| && Read(s, pos, n, modulus).Some? && Read(s, pos, n, modulus).value.1 == |s|
        && Value(s[pos..], n) < modulus
    ensures Read(s, pos, n, modulus).value.0 == Value(s[pos..], n)
    ensures s[|s| - 1] < 128 && forall i | pos <= i < |s| - 1 :: s[i] >= 128
    decreases |s| - pos
  {
    hide Shift, Bump;
    var t := s[pos..];
    var m := n * 128 + s[pos] as int % 128;
    assert t[0] == s[pos] && t[1..] == s[pos + 1..];
    ValueGrows(t[1..], if s[pos] >= 128 then m + 1 else m);
    if s[pos] >= 128 {
      ReadMore(s, pos, n, s[pos] as int - 128, modulus);
      ReadEnd(s, pos + 1, m + 1, modulus);
      ReadValue(s, pos + 1, m + 1, modulus);
    } else {
      ReadLast(s, pos, n, s[pos] as int, modulus);
    }
  }

  lemma {:induction false} ValueSnoc(s: seq<byte>, b: byte, n: nat)
    ensures Value(s + [b], n) == Value(s, n) * 128 + b as int % 128 + if b >= 128 then 1 else 0
  {
    if s == [] {
      assert (s + [b])[1..] == [];
    } else {
      var m := n * 128 + s[0] as int % 128;
      assert (s + [b])[1..] == s[1..] + [b];
      ValueSnoc(s[1..], b, if s[0] >= 128 then m + 1 else m);
    }
  }

  lemma {:induction false} PrefixUnique(s: seq<byte>)
    requires s != [] && forall i | 0 <= i < |s| :: s[i] >= 128
    ensures Value(s, 0) > 0 && s == Prefix(Value(s, 0) - 1)
  {
    hide Value, Prefix;
    var k := |s| - 1;
    assert s == s[..k] + [s[k]];
    ValueSnoc(s[..k], s[k], 0);
    if k > 0 {
      PrefixUnique(s[..k]);
    } else {
      assert s[..k] == [];
    }
    PrefixDigit(s[..k], s[k]);
  }

  lemma PrefixDigit(head: seq<byte>, d: byte)
    requires d >= 128 && (head != [] ==> Value(head, 0) > 0 && head == Prefix(Value(head, 0) - 1))
    ensures var n := Value(head, 0) * 128 + (d as int - 128); head + [d] == Prefix(n)
  {
    var v, n := Value(head, 0), Value(head, 0) * 128 + (d as int - 128);
    if v > 0 {
      assert n > 127 && n / 128 - 1 == v - 1 && n % 128 == d as int - 128;
    }
  }

  lemma ValueUnique(s: seq<byte>)
    requires s != [] && s[|s| - 1] < 128 && forall i | 0 <= i < |s| - 1 :: s[i] >= 128
    ensures s == Encode(Value(s, 0))
  {
    hide Prefix, Encode, Value;
    var k := |s| - 1;
    var head := s[..k];
    EmptyValue();
    assert s == head + [s[k]];
    ValueSnoc(head, s[k], 0);
    if k > 0 {
      PrefixUnique(head);
    }
    LastDigit(Value(head, 0), s[k]);
  }

  lemma EmptyValue()
    ensures Value([], 0) == 0
  {
  }

  lemma LastDigit(v: nat, d: byte)
    requires d < 128
    ensures Encode(v * 128 + d as int) == if v == 0 then [d] else Prefix(v - 1) + [d]
  {
    var n := v * 128 + d as int;
    if v > 0 {
      assert n > 127 && n / 128 - 1 == v - 1 && n % 128 == d as int;
    }
  }
}
