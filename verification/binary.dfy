/**
 Operand width, the MSB-first bit strings fed to the circuit, and the
 reverse-and-parse decoding of measured strings.
 */
module Binary {
  import opened Results

  function Pow2(n: nat): (r: nat)
    ensures r >= 1
  {
    if n == 0 then 1 else 2 * Pow2(n - 1)
  }

  lemma Pow2Monotone(i: nat, j: nat)
    requires i < j
    ensures Pow2(i) < Pow2(j)
    decreases j
  {
    if i < j - 1 {
      Pow2Monotone(i, j - 1);
    }
  }

  /**
   When w is the least m >= 1 with 2^m above both operands, both operands are
   below 2^t (t >= 1) exactly when w <= t.
   */
  lemma LeastWidth(a: nat, b: nat, w: nat, t: nat)
    requires w >= 1 && t >= 1 && a < Pow2(w) && b < Pow2(w)
    requires forall m :: 1 <= m < w ==> Pow2(m) <= a || Pow2(m) <= b
    ensures a < Pow2(t) && b < Pow2(t) <==> w <= t
  {
    if w < t {
      Pow2Monotone(w, t);
    }
  }

  /**
   The width loop of quantum_adder: the smallest m >= 1 with 2^m above both
   operands, plus one guard bit. The encodings are one character wider still.
   */
  method Width(a: nat, b: nat) returns (width: nat)
    ensures width >= 2
    ensures a < Pow2(width - 1) && b < Pow2(width - 1)
    ensures forall m :: 1 <= m < width - 1 ==> Pow2(m) <= a || Pow2(m) <= b
  {
    width := 1;
    while Pow2(width) <= a || Pow2(width) <= b
      invariant width >= 1
      invariant forall m :: 1 <= m < width ==> Pow2(m) <= a || Pow2(m) <= b
      decreases a + b - Pow2(width)
    {
      width := width + 1;
    }
    width := width + 1;
  }

  predicate IsBit(c: char) {
    c == '0' || c == '1'
  }

  predicate IsBits(s: string) {
    forall i :: 0 <= i < |s| ==> IsBit(s[i])
  }

  function BitChar(d: nat): char
    requires d < 2
  {
    if d == 1 then '1' else '0'
  }

  function BitValue(c: char): nat {
    if c == '1' then 1 else 0
  }

  /** The unsigned number an MSB-first bit string denotes. */
  function Value(s: string): nat {
    if |s| == 0 then 0 else 2 * Value(s[..|s| - 1]) + BitValue(s[|s| - 1])
  }

  lemma {:induction false} ValueBound(s: string)
    ensures Value(s) < Pow2(|s|)
    decreases |s|
  {
    if |s| > 0 {
      ValueBound(s[..|s| - 1]);
    }
  }

  /** Appending y after x shifts x's value up by |y| places. */
  lemma {:induction false} ValueAppend(x: string, y: string)
    ensures Value(x + y) == Value(x) * Pow2(|y|) + Value(y)
    decreases |y|
  {
    if |y| == 0 {
      assert x + y == x;
    } else {
      var y' := y[..|y| - 1];
      assert (x + y)[..|x + y| - 1] == x + y';
      ValueAppend(x, y');
      assert Value(x + y) == 2 * Value(x + y') + BitValue(y[|y| - 1]);
      assert Value(y) == 2 * Value(y') + BitValue(y[|y| - 1]);
      ShiftStep(Value(x), Pow2(|y'|), Value(y'), BitValue(y[|y| - 1]));
    }
  }

  lemma ShiftStep(v: int, p: int, w: int, b: int)
    ensures 2 * (v * p + w) + b == v * (2 * p) + (2 * w + b)
  {
  }

  function Zeros(n: nat): (r: string)
    ensures |r| == n
  {
    seq(n, _ => '0')
  }

  lemma {:induction false} ValueZeros(n: nat)
    ensures Value(Zeros(n)) == 0
    decreases n
  {
    if n > 0 {
      assert Zeros(n)[..n - 1] == Zeros(n - 1);
      ValueZeros(n - 1);
    }
  }

  /** Leading zeros do not change the value. */
  lemma ValueLeadingZeros(n: nat, s: string)
    ensures Value(Zeros(n) + s) == Value(s)
  {
    ValueAppend(Zeros(n), s);
    ValueZeros(n);
  }

  lemma DivUnique(n: nat, q: nat, r: nat, d: nat)
    requires d > 0 && r < d && n == q * d + r
    ensures n / d == q
  {
    var q', r' := n / d, n % d;
    assert (q' - q) * d == r - r' by {
      assert q' * d + r' == n;
    }
    SmallMultiple(q' - q, d);
  }

  lemma SmallMultiple(x: int, d: int)
    requires d > 0 && -d < x * d < d
    ensures x == 0
  {
  }

  /** MSB-first: every prefix of a bit string denotes the value with the remaining low bits dropped. */
  lemma ValuePrefix(s: string, i: nat)
    requires i <= |s|
    ensures Value(s[..i]) == Value(s) / Pow2(|s| - i)
  {
    assert s == s[..i] + s[i..];
    ValueAppend(s[..i], s[i..]);
    ValueBound(s[i..]);
    DivUnique(Value(s), Value(s[..i]), Value(s[i..]), Pow2(|s| - i));
  }

  /** bin(n)[2:]: the binary digits of n, most significant first, without leading zeros. */
  function ToBinary(n: nat): (r: string)
    ensures IsBits(r) && |r| >= 1
    ensures Value(r) == n
    ensures n == 0 ==> r == "0"
    ensures n > 0 ==> r[0] == '1' && Pow2(|r| - 1) <= n < Pow2(|r|)
  {
    if n < 2 then
      [BitChar(n)]
    else
      var h := ToBinary(n / 2);
      var r := h + [BitChar(n % 2)];
      assert r[..|r| - 1] == h;
      r
  }

  /** str.zfill(w) on an unsigned digit string: pad with '0' on the left up to w, never truncate. */
  function ZFill(s: string, w: nat): (r: string)
    ensures |r| == if |s| < w then w else |s|
    ensures r[|r| - |s|..] == s
    ensures forall i :: 0 <= i < |r| - |s| ==> r[i] == '0'
  {
    if |s| < w then Zeros(w - |s|) + s else s
  }

  /** bin(n)[2:].zfill(w). */
  function Encode(n: nat, w: nat): string {
    ZFill(ToBinary(n), w)
  }

  lemma EncodeValue(n: nat, w: nat)
    ensures IsBits(Encode(n, w)) && |Encode(n, w)| >= 1
    ensures Value(Encode(n, w)) == n
  {
    var b := ToBinary(n);
    if |b| < w {
      ValueLeadingZeros(w - |b|, b);
    }
  }

  /**
   With the width from the loop, each operand's string has exactly width+1
   characters, starts with two '0's, and its prefixes hold its top bits.
   */
  lemma EncodeShape(n: nat, width: nat)
    requires width >= 2 && n < Pow2(width - 1)
    ensures var s := Encode(n, width + 1);
      && |s| == width + 1
      && s[0] == '0' && s[1] == '0'
      && IsBits(s) && Value(s) == n
      && forall i :: 0 <= i <= |s| ==> Value(s[..i]) == n / Pow2(|s| - i)
  {
    var b := ToBinary(n);
    if n > 0 && |b| > width - 1 {
      Pow2Monotone(width - 1, |b| - 1);
    }
    assert |b| <= width - 1;
    var s := Encode(n, width + 1);
    EncodeValue(n, width + 1);
    forall i | 0 <= i <= |s|
      ensures Value(s[..i]) == n / Pow2(|s| - i)
    {
      ValuePrefix(s, i);
    }
  }

  function Reverse(s: string): (r: string)
    ensures |r| == |s|
  {
    seq(|s|, i requires 0 <= i < |s| => s[|s| - 1 - i])
  }

  lemma ReverseReverse(s: string)
    ensures Reverse(Reverse(s)) == s
  {
    var r := Reverse(Reverse(s));
    forall i | 0 <= i < |s|
      ensures r[i] == s[i]
    {
      assert Reverse(s)[|s| - 1 - i] == s[i];
    }
  }

  /** int(s, 2) on a measured string: only '0'/'1' characters, at least one of them. */
  function ParseBinary(s: string): (r: Result<nat>)
    ensures r.Ok? <==> |s| >= 1 && IsBits(s)
    ensures r.Ok? ==> r.value < Pow2(|s|)
    ensures r.Err? ==> r.error == InvalidInput
  {
    ValueBound(s);
    if |s| >= 1 && IsBits(s) then Ok(Value(s)) else Err(InvalidInput)
  }

  /** One key of the counts dictionary: reversed (b[::-1]), then parsed base 2. */
  function Decode(measured: string): Result<nat> {
    ParseBinary(Reverse(measured))
  }

  /** Decoding the reversed encoding of n gives n back, whatever the width. */
  lemma DecodeEncode(n: nat, w: nat)
    ensures Decode(Reverse(Encode(n, w))) == Ok(n)
  {
    EncodeValue(n, w);
    ReverseReverse(Encode(n, w));
  }

  /** A bit string that starts with '1' is exactly the binary form of its value. */
  lemma {:induction false} ToBinaryValue(s: string)
    requires IsBits(s) && |s| >= 1 && s[0] == '1'
    ensures ToBinary(Value(s)) == s
    decreases |s|
  {
    if |s| > 1 {
      var s', last := s[..|s| - 1], s[|s| - 1];
      assert IsBits(s') && s'[0] == '1';
      ToBinaryValue(s');
      var h := Value(s');
      assert h >= 1 by {
        assert ToBinary(h)[0] == '1';
      }
      var v := Value(s);
      assert v == 2 * h + BitValue(last);
      DivUnique(v, h, BitValue(last), 2);
      assert v >= 2 && v % 2 == BitValue(last);
      assert ToBinary(v) == ToBinary(h) + [BitChar(v % 2)];
      assert BitChar(v % 2) == last;
      assert s == s' + [last];
    }
  }

  /** The number of '0' characters a string starts with. */
  function LeadingZeros(s: string): (n: nat)
    ensures n <= |s|
    ensures forall i :: 0 <= i < n ==> s[i] == '0'
    ensures n < |s| ==> s[n] != '0'
  {
    if |s| == 0 || s[0] != '0' then 0 else 1 + LeadingZeros(s[1..])
  }

  /** bin(0)[2:].zfill(w) is w zeros for w >= 1. */
  lemma ZeroEncoding(w: nat)
    requires w >= 1
    ensures Encode(0, w) == Zeros(w)
  {
    assert ToBinary(0) == "0";
    if w > 1 {
      assert Zeros(w - 1) + "0" == Zeros(w);
    }
  }

  /** A string of zeros is the encoding of 0 at its own width. */
  lemma EncodeZeroWidth(s: string)
    requires |s| >= 1 && forall i :: 0 <= i < |s| ==> s[i] == '0'
    ensures Value(s) == 0 && Encode(0, |s|) == s
  {
    assert s == Zeros(|s|);
    ValueZeros(|s|);
    ZeroEncoding(|s|);
  }

  /** A bit string with a '1' after n zeros is the encoding of its value at its own width. */
  lemma EncodeNonZeroWidth(s: string, n: nat)
    requires IsBits(s) && n < |s| && s[n] == '1'
    requires forall i :: 0 <= i < n ==> s[i] == '0'
    ensures Encode(Value(s), |s|) == s
  {
    var rest := s[n..];
    assert s == Zeros(n) + rest;
    ValueLeadingZeros(n, rest);
    assert IsBits(rest) && rest[0] == '1' by {
      assert forall i :: 0 <= i < |rest| ==> rest[i] == s[n + i];
    }
    ToBinaryValue(rest);
    assert ToBinary(Value(s)) == rest;
    assert ZFill(rest, |s|) == s;
  }

  /**
   The other direction of the round trip: a measured string that decodes to v
   is the reversed encoding of v at the string's own width.
   */
  lemma EncodeDecode(measured: string)
    requires Decode(measured).Ok?
    ensures Reverse(Encode(Decode(measured).value, |measured|)) == measured
  {
    var s := Reverse(measured);
    assert Decode(measured).value == Value(s);
    var n := LeadingZeros(s);
    if n == |s| {
      EncodeZeroWidth(s);
    } else {
      assert s[n] == '1';
      EncodeNonZeroWidth(s, n);
    }
    ReverseReverse(measured);
  }

  /**
   The list of decoded results in main: every key of the counts, reversed and
   parsed; the first key int() rejects raises.
   */
  function DecodeAll(keys: seq<string>): (r: Result<seq<nat>>)
    ensures r.Ok? <==> forall i :: 0 <= i < |keys| ==> Decode(keys[i]).Ok?
    ensures r.Ok? ==> |r.value| == |keys| && forall i :: 0 <= i < |keys| ==> Decode(keys[i]) == Ok(r.value[i])
    ensures r.Err? ==> r.error == InvalidInput
  {
    if |keys| == 0 then
      Ok([])
    else
      var v :- Decode(keys[0]);
      var rest :- DecodeAll(keys[1..]);
      assert forall i :: 1 <= i < |keys| ==> keys[i] == keys[1..][i - 1];
      Ok([v] + rest)
  }
}
