/** Binary numerals of bindings/python/rad_util.py: int2bin, bin2int and binary_range. */
module BinaryNumbers {
  predicate IsBits(s: string) {
    forall i :: 0 <= i < |s| ==> s[i] == '0' || s[i] == '1'
  }

  function Bit(c: char): nat {
    if c == '1' then 1 else 0
  }

  function Pow2(n: nat): (p: nat)
    ensures p > 0
  {
    if n == 0 then 1 else 2 * Pow2(n - 1)
  }

  /** The number that a numeral denotes, most significant digit first: int(s, 2). */
  function Bin2Int(s: string): nat {
    if s == "" then 0 else 2 * Bin2Int(s[..|s| - 1]) + Bit(s[|s| - 1])
  }

  /** s is the n-digit numeral of i. */
  predicate IsNumeral(s: string, i: nat, n: nat) {
    |s| == n && IsBits(s) && Bin2Int(s) == i
  }

  /** A number has at most one numeral of n digits, so it reads back as itself only. */
  lemma {:induction false} NumeralUnique(s: string, t: string, i: nat, n: nat)
    requires IsNumeral(s, i, n) && IsNumeral(t, i, n)
    ensures s == t
    decreases n
  {
    if n > 0 {
      var m := n - 1;
      NumeralUnique(s[..m], t[..m], Bin2Int(s[..m]), m);
      assert s == s[..m] + [s[m]];
      assert t == t[..m] + [t[m]];
    }
  }

  lemma {:induction false} ValueBound(s: string)
    ensures Bin2Int(s) < Pow2(|s|)
    decreases |s|
  {
    if s != "" {
      ValueBound(s[..|s| - 1]);
    }
  }

  /** x followed by n binary zeros. */
  function Scale(x: nat, n: nat): (r: nat)
    ensures x == 0 ==> r == 0
    ensures x > 0 ==> r >= Pow2(n)
  {
    if n == 0 then x else 2 * Scale(x, n - 1)
  }

  lemma {:induction false} ValueConcat(a: string, b: string)
    ensures Bin2Int(a + b) == Scale(Bin2Int(a), |b|) + Bin2Int(b)
    decreases |b|
  {
    if b == "" {
      assert a + b == a;
    } else {
      var m := |b| - 1;
      ValueConcat(a, b[..m]);
      assert (a + b)[..|a + b| - 1] == a + b[..m];
    }
  }

  lemma {:induction false} ZeroIffNoOnes(s: string)
    requires IsBits(s)
    ensures Bin2Int(s) == 0 <==> '1' !in s
    decreases |s|
  {
    if s != "" {
      var n := |s| - 1;
      ZeroIffNoOnes(s[..n]);
      assert s == s[..n] + [s[n]];
    }
  }

  lemma {:induction false} PowMonotone(m: nat, n: nat)
    requires m <= n
    ensures Pow2(m) <= Pow2(n)
    decreases n
  {
    if m < n {
      PowMonotone(m, n - 1);
    }
  }

  // int2bin

  /** The digits that hex(i) shows. */
  function HexDigits(i: nat): (ds: seq<nat>)
    ensures |ds| > 0 && forall k :: 0 <= k < |ds| ==> ds[k] < 16
  {
    if i < 16 then [i] else HexDigits(i / 16) + [i % 16]
  }

  const HEX2BIN: seq<string> :=
    ["0000", "0001", "0010", "0011", "0100", "0101", "0110", "0111",
     "1000", "1001", "1010", "1011", "1100", "1101", "1110", "1111"]

  function MapDigits(ds: seq<nat>): string
    requires forall k :: 0 <= k < |ds| ==> ds[k] < 16
  {
    if ds == [] then "" else MapDigits(ds[..|ds| - 1]) + HEX2BIN[ds[|ds| - 1]]
  }

  lemma FourBits(a: char, b: char, c: char, d: char)
    ensures Bin2Int([a, b, c, d]) == 8 * Bit(a) + 4 * Bit(b) + 2 * Bit(c) + Bit(d)
  {
    var s := [a, b, c, d];
    assert s[..3] == [a, b, c] && [a, b, c][..2] == [a, b] && [a, b][..1] == [a] && [a][..0] == [];
    assert Bin2Int([a]) == Bit(a);
    assert Bin2Int([a, b]) == 2 * Bin2Int([a]) + Bit(b);
    assert Bin2Int([a, b, c]) == 2 * Bin2Int([a, b]) + Bit(c);
  }

  lemma NibbleValue(d: nat)
    requires d < 16
    ensures |HEX2BIN[d]| == 4 && IsBits(HEX2BIN[d]) && Bin2Int(HEX2BIN[d]) == d
  {
    var s := HEX2BIN[d];
    assert s == [s[0], s[1], s[2], s[3]];
    FourBits(s[0], s[1], s[2], s[3]);
  }

  lemma ScaleFour(x: nat)
    ensures Scale(x, 4) == 16 * x
  {
    assert Scale(x, 1) == 2 * x;
    assert Scale(x, 2) == 4 * x;
    assert Scale(x, 3) == 8 * x;
  }

  lemma {:induction false} HexValue(i: nat)
    ensures IsBits(MapDigits(HexDigits(i))) && Bin2Int(MapDigits(HexDigits(i))) == i
    decreases i
  {
    var ds := HexDigits(i);
    var n := |ds| - 1;
    NibbleValue(ds[n]);
    if i < 16 {
      assert ds[..0] == [];
      assert MapDigits(ds) == "" + HEX2BIN[i];
      assert "" + HEX2BIN[i] == HEX2BIN[i];
    } else {
      HexValue(i / 16);
      assert ds[..n] == HexDigits(i / 16);
      ValueConcat(MapDigits(ds[..n]), HEX2BIN[ds[n]]);
      ScaleFour(i / 16);
    }
  }

  datatype Converted = Ok(bits: string) | ValueError | KeyError

  function Zeros(n: nat): (s: string)
    ensures |s| == n && forall i :: 0 <= i < n ==> s[i] == '0'
  {
    if n == 0 then "" else Zeros(n - 1) + "0"
  }

  lemma ZerosValue(n: nat)
    ensures IsBits(Zeros(n)) && Bin2Int(Zeros(n)) == 0
  {
    ZeroIffNoOnes(Zeros(n));
  }

  /** Number of digits before anything is cut off: four for each hexadecimal digit. */
  function FullLength(i: nat): nat {
    4 * |HexDigits(i)|
  }

  lemma {:induction false} MappedLength(ds: seq<nat>)
    requires forall k :: 0 <= k < |ds| ==> ds[k] < 16
    ensures |MapDigits(ds)| == 4 * |ds|
    decreases |ds|
  {
    if ds != [] {
      MappedLength(ds[..|ds| - 1]);
      NibbleValue(ds[|ds| - 1]);
    }
  }

  /** The hexadecimal digits of i, each replaced by its four binary digits. */
  method HexToBits(i: nat) returns (result: string)
    ensures IsNumeral(result, i, FullLength(i))
  {
    HexValue(i);
    MappedLength(HexDigits(i));
    result := MapDigits(HexDigits(i));
  }

  /** Where result[:-n] ends and result[-n:] starts. */
  function CutAt(length: nat, n: int): (cut: nat)
    ensures cut <= length
    ensures n > 0 ==> cut == length - n || (cut == 0 && length < n)
    ensures n <= 0 ==> cut == -n || (cut == length && length < -n)
  {
    if n > 0 then if length > n then length - n else 0
    else if -n < length then -n else length
  }

  /** The n-digit numeral of i, or an error when the digits cut off are not all zero. Without a positive n the
      digits that are left still denote i, and a negative i has no digits at all. */
  method Int2Bin(i: int, n: int) returns (r: Converted)
    ensures r.KeyError? <==> i < 0
    ensures i >= 0 && n >= 1 ==> (r.ValueError? <==> i >= Pow2(n))
    ensures i >= 0 && n <= 0 ==> (r.ValueError? <==> i >= Pow2(FullLength(i) - CutAt(FullLength(i), n)))
    ensures r.Ok? ==> i >= 0 && IsNumeral(r.bits, i, if n >= 1 then n else FullLength(i) - CutAt(FullLength(i), n))
  {
    if i < 0 {
      return KeyError;
    }
    var result := HexToBits(i);
    var cut := CutAt(|result|, n);
    Truncated(result, cut);
    if n >= 1 {
      PowMonotone(|result| - cut, n);
    }
    ValueBound(result);
    if '1' in result[..cut] {
      return ValueError;
    }
    result := result[cut..];
    var padding := Zeros(if n > |result| then n - |result| else 0);
    ZerosValue(|padding|);
    Padded(padding, result);
    return Ok(padding + result);
  }

  /** Digits cut off at the front are all zero exactly when the rest has room for the number. */
  lemma Truncated(s: string, cut: nat)
    requires IsBits(s) && cut <= |s|
    ensures '1' in s[..cut] <==> Bin2Int(s) >= Pow2(|s| - cut)
    ensures '1' !in s[..cut] ==> Bin2Int(s[cut..]) == Bin2Int(s)
  {
    var front, back := s[..cut], s[cut..];
    assert s == front + back;
    ValueConcat(front, back);
    ValueBound(back);
    ZeroIffNoOnes(front);
  }

  lemma Padded(zeros: string, s: string)
    requires IsBits(zeros) && Bin2Int(zeros) == 0 && IsBits(s)
    ensures IsNumeral(zeros + s, Bin2Int(s), |zeros| + |s|)
  {
    ValueConcat(zeros, s);
  }

  // binary_range

  /** The digits in reverse order. */
  function Reverse(s: string): (r: string)
    ensures |r| == |s|
  {
    if s == "" then "" else Reverse(s[1..]) + [s[0]]
  }

  /** Adding one, least significant digit first; the carry out of the last digit is lost. */
  function Increment(v: string): (r: string)
    ensures |r| == |v|
  {
    if v == "" then "" else if v[0] == '0' then "1" + v[1..] else "0" + Increment(v[1..])
  }

  /** Adding one carries out of the last digit. */
  predicate Carries(v: string) {
    v == "" || (v[0] != '0' && Carries(v[1..]))
  }

  lemma ReverseCons(c: char, rest: string)
    ensures Bin2Int(Reverse([c] + rest)) == 2 * Bin2Int(Reverse(rest)) + Bit(c)
  {
    assert ([c] + rest)[1..] == rest;
    assert Reverse([c] + rest)[..|rest|] == Reverse(rest);
  }

  lemma {:induction false} ReverseBits(v: string)
    requires IsBits(v)
    ensures IsBits(Reverse(v))
    decreases |v|
  {
    if v != "" {
      ReverseBits(v[1..]);
    }
  }

  /** Incrementing adds one to the number, or wraps to zero from the greatest one. */
  lemma {:induction false} IncrementValue(v: string)
    requires IsBits(v)
    ensures IsBits(Increment(v))
    ensures Bin2Int(Reverse(Increment(v))) == if Carries(v) then 0 else Bin2Int(Reverse(v)) + 1
    ensures Carries(v) <==> Bin2Int(Reverse(v)) + 1 == Pow2(|v|)
    decreases |v|
  {
    if v != "" {
      IncrementValue(v[1..]);
      IncrementCons(v[0], v[1..]);
      FirstAndRest(v);
    }
  }

  /** The step of the induction on the number of digits. */
  lemma IncrementCons(c: char, rest: string)
    requires (c == '0' || c == '1') && IsBits(rest) && IsBits(Increment(rest))
    requires Bin2Int(Reverse(Increment(rest))) == if Carries(rest) then 0 else Bin2Int(Reverse(rest)) + 1
    requires Carries(rest) <==> Bin2Int(Reverse(rest)) + 1 == Pow2(|rest|)
    ensures var v := [c] + rest;
            && IsBits(Increment(v))
            && Bin2Int(Reverse(Increment(v))) == (if Carries(v) then 0 else Bin2Int(Reverse(v)) + 1)
            && (Carries(v) <==> Bin2Int(Reverse(v)) + 1 == Pow2(|v|))
  {
    var v := [c] + rest;
    assert v[1..] == rest;
    ReverseCons(c, rest);
    ValueBound(Reverse(rest));
    if c == '0' {
      ReverseCons('1', rest);
      assert Increment(v) == ['1'] + rest;
    } else {
      ReverseCons('0', Increment(rest));
      assert Increment(v) == ['0'] + Increment(rest);
    }
  }

  lemma FirstAndRest(v: string)
    requires v != ""
    ensures v == [v[0]] + v[1..]
  {
  }

  /** The ripple has turned i ones into zeros and, unless it ran off the end, the zero behind them into a one. */
  ghost predicate Rippled(w: string, u: string, i: nat) {
    && i <= |w| == |u|
    && (forall k :: 0 <= k < i ==> w[k] != '0' && u[k] == '0')
    && (i < |w| ==> w[i] == '0' && u[i] == '1')
    && (forall k :: i < k < |w| ==> u[k] == w[k])
  }

  lemma {:induction false} RippledIsIncrement(w: string, u: string, i: nat)
    requires Rippled(w, u, i)
    ensures u == Increment(w) && (Carries(w) <==> i == |w|)
    decreases i
  {
    if i > 0 {
      RippledIsIncrement(w[1..], u[1..], i - 1);
      assert u == "0" + u[1..];
    } else if w != "" {
      assert u == "1" + w[1..];
    }
  }

  /** The ripple of one increment: flips digits until a zero becomes a one. */
  method RippleIncrement(v: array<char>) returns (carry: bool)
    modifies v
    ensures v[..] == Increment(old(v[..])) && carry == Carries(old(v[..]))
  {
    var toggle: seq<int> := [1] + seq(v.Length, _ => 0);
    var i := 0;
    while i < v.Length && toggle[i] == 1
      invariant i <= v.Length && |toggle| == v.Length + 1
      invariant toggle[i] == 0 || toggle[i] == 1
      invariant forall k :: i < k <= v.Length ==> toggle[k] == 0
      invariant toggle[i] == 1 ==> forall k :: 0 <= k < i ==> old(v[k]) != '0' && v[k] == '0'
      invariant toggle[i] == 1 ==> forall k :: i <= k < v.Length ==> v[k] == old(v[k])
      invariant toggle[i] == 0 ==> i > 0 && Rippled(old(v[..]), v[..], i - 1)
      decreases v.Length - i
    {
      if v[i] == '0' {
        v[i] := '1';
        toggle := toggle[i + 1 := 0];
      } else {
        v[i] := '0';
        toggle := toggle[i + 1 := 1];
      }
      i := i + 1;
    }
    carry := toggle[v.Length] == 1;
    RippledIsIncrement(old(v[..]), v[..], if carry || toggle[i] == 1 then i else i - 1);
  }

  /** All numerals of the given width, in order. */
  method BinaryRange(bits: nat) returns (l: seq<string>)
    ensures bits >= 1 ==> |l| == Pow2(bits)
    ensures bits >= 1 ==> forall k :: 0 <= k < |l| ==> IsNumeral(l[k], k, bits)
    ensures bits == 0 ==> l == []
  {
    l := [];
    var v := new char[bits](_ => '0');
    ReverseZeros(v[..]);
    var toggled := bits == 0;
    while !toggled
      invariant v.Length == bits && IsBits(v[..])
      invariant forall k :: 0 <= k < |l| ==> IsNumeral(l[k], k, bits)
      invariant bits == 0 ==> l == [] && toggled
      invariant if toggled then bits == 0 || |l| == Pow2(bits) else Bin2Int(Reverse(v[..])) == |l| < Pow2(bits)
      decreases Pow2(bits) - |l|, !toggled
    {
      ReverseBits(v[..]);
      l := l + [Reverse(v[..])];
      IncrementValue(v[..]);
      ValueBound(Reverse(v[..]));
      toggled := RippleIncrement(v);
    }
  }

  lemma {:induction false} ReverseZeros(v: string)
    requires forall i :: 0 <= i < |v| ==> v[i] == '0'
    ensures Bin2Int(Reverse(v)) == 0
    decreases |v|
  {
    if v != "" {
      ReverseCons(v[0], v[1..]);
      assert v == [v[0]] + v[1..];
      ReverseZeros(v[1..]);
    }
  }
}
