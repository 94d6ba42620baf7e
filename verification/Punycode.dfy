/**
  * The Punycode codec of the idna package (sections 6.1 to 6.3 of RFC 3492).
  *
  * Strings are sequences of Unicode scalar values.  The decoder is specified by
  * the function `Decoded`, over unbounded integers; the encoder is specified by
  * what `Decoded` makes of its output.
  */
module Punycode {
  import opened Common

  const MAX_RUNE := 0x10_ffff

  const BASE := 36
  const DAMP := 700
  const INITIAL_BIAS := 72
  const INITIAL_N := 128
  const SKEW := 38
  const TMAX := 26
  const TMIN := 1

  /** The decoder refuses to grow its output beyond this length. */
  const MAX_OUTPUT := 1024

  const HYPHEN: Scalar := 45

  predicate IsScalar(r: int) {
    0 <= r <= MAX_RUNE && !(0xd800 <= r <= 0xdfff)
  }

  type Scalar = r: int | IsScalar(r) witness 0

  type Text = seq<Scalar>

  datatype Result<T> = Ok(value: T) | Err

  /** a + b * c, and whether that exceeds 31 bits. */
  function Madd(a: int, b: int, c: int): (r: (int, bool))
    requires 0 <= a <= MAX_INT32 && 0 <= b <= MAX_INT32 && 0 <= c <= MAX_INT32
    ensures r.1 <==> a + b * c > MAX_INT32
    ensures !r.1 ==> r.0 == a + b * c && a <= r.0
  {
    var p := b * c;
    MulMonotonic(0, b, c);
    if p > MAX_INT32 - a then (0, true) else (Wrap32(a + Wrap32(p)), false)
  }

  type Digit = d: int | 0 <= d < BASE

  function DecodeDigit(x: Scalar): (r: Result<Digit>)
    ensures r.Ok? <==> 48 <= x <= 57 || 65 <= x <= 90 || 97 <= x <= 122
    ensures r.Ok? ==> x != HYPHEN
  {
    if 48 <= x <= 57 then Ok(x - (48 - 26))
    else if 65 <= x <= 90 then Ok(x - 65)
    else if 97 <= x <= 122 then Ok(x - 97)
    else Err
  }

  function EncodeDigit(d: Digit): (x: Scalar)
    ensures DecodeDigit(x) == Ok(d)
    ensures 48 <= x <= 57 || 97 <= x <= 122
  {
    if d < 26 then d + 97 else d + (48 - 26)
  }

  /** The characters that stand for digits in what is encoded. */
  predicate IsLowerDigit(x: int) {
    97 <= x <= 122 || 48 <= x <= 57
  }

  /** The digit threshold in force at the k'th place, for k a multiple of BASE. */
  function Threshold(k: int, bias: int): (t: int)
    ensures TMIN <= t <= TMAX
    ensures TMIN <= k - bias <= TMAX ==> t == k - bias
  {
    if k <= bias then TMIN else if k >= bias + TMAX then TMAX else k - bias
  }

  // ----- Bias adaptation -----

  function Shrink(delta: nat, k: nat): (bias: nat)
    decreases delta
  {
    if delta > ((BASE - TMIN) * TMAX) / 2 then Shrink(delta / (BASE - TMIN), k + BASE)
    else k + (BASE - TMIN + 1) * delta / (delta + SKEW)
  }

  function Adapted(delta: nat, numPoints: nat, firstTime: bool): (bias: nat)
    requires numPoints > 0
  {
    var d := if firstTime then delta / DAMP else delta / 2;
    QuotientAtMost(d, numPoints);
    Shrink(d + d / numPoints, 0)
  }

  /** The largest value that `steps` divisions bring within one final step. */
  function ShrinkCap(steps: nat): (cap: nat) {
    if steps == 0 then 456 else (BASE - TMIN) * ShrinkCap(steps - 1)
  }

  /** The bias stays a small number whatever delta a 31-bit run can produce. */
  lemma {:induction false} ShrinkBounded(delta: nat, k: nat, steps: nat)
    requires delta < ShrinkCap(steps)
    ensures Shrink(delta, k) <= k + BASE * steps + BASE
  {
    if delta > 455 {
      ShrinkBounded(delta / 35, k + BASE, steps - 1);
    } else {
      QuotientBelow(BASE * delta, delta + SKEW, BASE);
    }
  }

  lemma AdaptedBounded(delta: nat, numPoints: nat, firstTime: bool)
    requires numPoints > 0 && delta <= MAX_INT32
    ensures Adapted(delta, numPoints, firstTime) <= 6 * BASE
  {
    var d := if firstTime then delta / DAMP else delta / 2;
    QuotientAtMost(d, numPoints);
    assert ShrinkCap(3) == 456 * 35 * 35 * 35;
    ShrinkBounded(d + d / numPoints, 0, 5);
  }

  lemma QuotientAtMost(d: nat, x: nat)
    requires x > 0
    ensures 0 <= d / x <= d
  {
    QuotientBelow(d, x, d + 1);
  }

  lemma QuotientBelow(d: nat, x: nat, bound: nat)
    requires x > 0 && d < bound * x
    ensures 0 <= d / x < bound
  {
    var q := d / x;
    assert d == q * x + d % x;
    if q >= bound {
      MulMonotonic(bound, q, x);
      assert false;
    }
  }

  lemma MulMonotonic(a: int, b: int, c: nat)
    requires a <= b
    ensures a * c <= b * c
  {
  }

  lemma DivModUnique(q: nat, x: nat, p: nat)
    requires p < x
    ensures (q * x + p) / x == q && (q * x + p) % x == p
  {
    var y := q * x + p;
    var d := y / x - q;
    assert y == (y / x) * x + y % x;
    assert d * x == p - y % x;
    if d > 0 { MulMonotonic(1, d, x); assert false; }
    if d < 0 { MulMonotonic(d, -1, x); assert false; }
  }

  method Adapt(delta: nat, numPoints: nat, firstTime: bool) returns (bias: nat)
    requires 0 < numPoints <= MAX_INT32 && delta <= MAX_INT32
    ensures bias == Adapted(delta, numPoints, firstTime)
    ensures bias <= 6 * BASE
  {
    AdaptedBounded(delta, numPoints, firstTime);
    var d := if firstTime then delta / DAMP else delta / 2;
    QuotientAtMost(d, numPoints);
    d := d + d / numPoints;
    assert InInt32(d);
    var k := 0;
    while d > ((BASE - TMIN) * TMAX) / 2
      invariant 0 <= d && 0 <= k
      invariant Shrink(d, k) == Adapted(delta, numPoints, firstTime)
    {
      d := d / (BASE - TMIN);
      k := k + BASE;
    }
    bias := k + (BASE - TMIN + 1) * d / (d + SKEW);
  }

  // ----- Decoding -----

  /** What the decoder keeps between two insertions. */
  datatype Decoder = Decoder(i: nat, n: nat, bias: nat, output: seq<int>)

  /**
    * Splits off the digits of one variable-length integer at `pos`: those up to
    * the first that is below its threshold.  Also the position after them.
    */
  function ReadDigits(e: Text, pos: nat, k: nat, bias: nat): (r: Result<(seq<Digit>, nat)>)
    requires pos <= |e|
    ensures r.Ok? ==> 0 < |r.value.0| == r.value.1 - pos && r.value.1 <= |e|
    decreases |e| - pos
  {
    if pos == |e| || DecodeDigit(e[pos]).Err? then Err
    else
      var digit := DecodeDigit(e[pos]).value;
      if digit < Threshold(k, bias) then Ok(([digit], pos + 1))
      else
        var more := ReadDigits(e, pos + 1, k + BASE, bias);
        if more.Err? then Err else Ok(([digit] + more.value.0, more.value.1))
  }

  /** i plus the value of the digits, the first having weight w; Err if anything exceeds 31 bits. */
  function WeighDigits(digits: seq<Digit>, k: nat, bias: nat, i: nat, w: nat): (r: Result<nat>)
    requires i <= MAX_INT32 && w <= MAX_INT32
    ensures r.Ok? ==> i <= r.value <= MAX_INT32
  {
    if digits == [] then Ok(i)
    else
      var sum := Madd(i, digits[0], w);
      if sum.1 then Err
      else if |digits| == 1 then Ok(sum.0)
      else
        var product := Madd(0, w, BASE - Threshold(k, bias));
        if product.1 then Err else WeighDigits(digits[1..], k + BASE, bias, sum.0, product.0)
  }

  function AddDigits(read: Result<(seq<Digit>, nat)>, k: nat, bias: nat, i: nat, w: nat): (r: Result<(nat, nat)>)
    requires i <= MAX_INT32 && w <= MAX_INT32
    ensures r.Ok? ==> read.Ok? && r.value.1 == read.value.1 && i <= r.value.0 <= MAX_INT32
  {
    if read.Err? then Err
    else
      var sum := WeighDigits(read.value.0, k, bias, i, w);
      if sum.Err? then Err else Ok((sum.value, read.value.1))
  }

  /** Reads one variable-length integer at `pos`, adding it to `i`. */
  function ReadRun(e: Text, pos: nat, bias: nat, i: nat): (r: Result<(nat, nat)>)
    requires pos <= |e| && i <= MAX_INT32
    ensures r.Ok? ==> i <= r.value.0 <= MAX_INT32 && pos < r.value.1 <= |e|
  {
    AddDigits(ReadDigits(e, pos, BASE, bias), BASE, bias, i, 1)
  }

  /** Inserts the code point that the running total `i` stands for. */
  function Insert(d: Decoder, i: nat): (r: Result<Decoder>)
    requires d.i <= i
    ensures r.Ok? ==> |r.value.output| == |d.output| + 1 <= MAX_OUTPUT && 0 < r.value.i <= |r.value.output|
  {
    var x := |d.output| + 1;
    QuotientAtMost(i, x);
    var n := d.n + i / x;
    var at := i % x;
    if |d.output| >= MAX_OUTPUT || n > MAX_RUNE then Err
    else Ok(Decoder(at + 1, n, Adapted(i - d.i, x, d.i == 0), d.output[..at] + [n] + d.output[at..]))
  }

  function Insertions(e: Text, pos: nat, d: Decoder): (r: Result<seq<int>>)
    requires pos <= |e| && d.i <= MAX_INT32
    decreases |e| - pos
  {
    if pos == |e| then Ok(d.output)
    else
      var run := ReadRun(e, pos, d.bias, d.i);
      if run.Err? then Err
      else
        var next := Insert(d, run.value.0);
        if next.Err? then Err else Insertions(e, run.value.1, next.value)
  }

  /** The index of the last occurrence of c, or -1. */
  function LastIndex(e: Text, c: Scalar): (r: int)
    ensures -1 <= r < |e|
    ensures r >= 0 ==> e[r] == c
    ensures forall x :: r < x < |e| ==> e[x] != c
  {
    if e == [] then -1 else if e[|e| - 1] == c then |e| - 1 else LastIndex(e[..|e| - 1], c)
  }

  /** Go's conversion of a rune: a surrogate half becomes U+FFFD. */
  function ToScalar(r: int): (x: Scalar) {
    if IsScalar(r) then r else 0xfffd
  }

  function ToText(runes: seq<int>): (t: Text)
    ensures |t| == |runes|
    ensures forall x :: 0 <= x < |t| ==> t[x] == ToScalar(runes[x])
  {
    seq(|runes|, x requires 0 <= x < |runes| => ToScalar(runes[x]))
  }

  function Start(basic: seq<int>): (d: Decoder) {
    Decoder(0, INITIAL_N, INITIAL_BIAS, basic)
  }

  function Decoded(e: Text): (r: Result<Text>) {
    if e == [] then Ok([])
    else
      var pos := 1 + LastIndex(e, HYPHEN);
      if pos == 1 then Err
      else if pos == |e| then Ok(e[..|e| - 1])
      else
        var runes := Insertions(e, pos, Start(if pos == 0 then [] else e[..pos - 1]));
        if runes.Err? then Err else Ok(ToText(runes.value))
  }

  /** The inner loop of `decode`: one variable-length integer. */
  method ReadInteger(encoded: Text, start: nat, bias: nat, oldI: nat) returns (r: Result<(nat, nat)>)
    requires start <= |encoded| && oldI <= MAX_INT32 && bias <= 6 * BASE
    ensures r == ReadRun(encoded, start, bias, oldI)
  {
    hide Threshold, Madd;
    var pos, i, w, k := start, oldI, 1, BASE;
    ghost var places: nat := 0;
    while true
      invariant 0 <= pos <= |encoded| && oldI <= i <= MAX_INT32
      invariant 0 <= w <= MAX_INT32 && k == BASE * (places + 1)
      invariant Pow10(places) <= w
      invariant ReadRun(encoded, start, bias, oldI) == AddDigits(ReadDigits(encoded, pos, k, bias), k, bias, i, w)
      decreases |encoded| - pos
    {
      if pos == |encoded| || DecodeDigit(encoded[pos]).Err? {
        return Err;
      }
      var digit := DecodeDigit(encoded[pos]).value;
      pos := pos + 1;
      var sum := Madd(i, digit, w);
      if sum.1 {
        return Err;
      }
      i := sum.0;
      var t := Threshold(k, bias);
      if digit < t {
        return Ok((i, pos));
      }
      var product := Madd(0, w, BASE - t);
      if product.1 {
        return Err;
      }
      Pow10Step(places, w, BASE - t);
      w, places := product.0, places + 1;
      Pow10Small(places, w);
      k := k + BASE;
      assert InInt32(k);
    }
  }

  /** The rest of the body of the main loop of `decode`: one insertion. */
  method InsertRune(d: Decoder, total: nat) returns (r: Result<Decoder>)
    requires d.i <= total <= MAX_INT32 && d.n <= MAX_RUNE
    ensures r == Insert(d, total)
    ensures r.Ok? ==> r.value.bias <= 6 * BASE && r.value.n <= MAX_RUNE
  {
    if |d.output| >= MAX_OUTPUT {
      return Err;
    }
    var x := |d.output| + 1;
    var bias := Adapt(total - d.i, x, d.i == 0);
    QuotientAtMost(total, x);
    var n := Wrap32(d.n + total / x);
    var i := total % x;
    if n < 0 || n > MAX_RUNE {
      return Err;
    }
    r := Ok(Decoder(i + 1, n, bias, d.output[..i] + [n] + d.output[i..]));
  }

  method Decode(encoded: Text) returns (r: Result<Text>)
    ensures r == Decoded(encoded)
  {
    if encoded == [] {
      return Ok([]);
    }
    var pos := 1 + LastIndex(encoded, HYPHEN);
    if pos == 1 {
      return Err;
    }
    if pos == |encoded| {
      return Ok(encoded[..|encoded| - 1]);
    }
    var output: seq<int> := [];
    if pos != 0 {
      output := encoded[..pos - 1];
    }
    var d := Start(output);
    ghost var want := Insertions(encoded, pos, d);
    while pos < |encoded|
      invariant 0 <= pos <= |encoded|
      invariant d.i <= MAX_INT32 && d.n <= MAX_RUNE && d.bias <= 6 * BASE
      invariant want == Insertions(encoded, pos, d)
      decreases |encoded| - pos
    {
      var run := ReadInteger(encoded, pos, d.bias, d.i);
      if run.Err? {
        return Err;
      }
      var next := InsertRune(d, run.value.0);
      if next.Err? {
        return Err;
      }
      pos, d := run.value.1, next.value;
    }
    r := Ok(ToText(d.output));
  }

  ghost function Pow10(e: int): (p: nat)
    ensures p > 0
  {
    if e <= 0 then 1 else 10 * Pow10(e - 1)
  }

  lemma Pow10Step(e: nat, w: nat, factor: nat)
    requires Pow10(e) <= w && 10 <= factor
    ensures Pow10(e + 1) <= w * factor
  {
    MulMonotonic(10, factor, w);
  }

  lemma {:induction false} Pow10Small(e: nat, w: nat)
    requires Pow10(e) <= w <= MAX_INT32
    ensures e <= 9
  {
    assert Pow10(5) == 100_000;
    if e > 9 {
      Pow10Monotonic(10, e);
      assert false;
    }
  }

  lemma {:induction false} Pow10Monotonic(a: nat, b: nat)
    requires a <= b
    ensures Pow10(a) <= Pow10(b)
  {
    if a < b { Pow10Monotonic(a, b - 1); }
  }

  // ----- One variable-length integer, there and back -----

  /** The digits that encode q from place k on. */
  function Digits(q: nat, k: nat, bias: nat): (ds: seq<Digit>)
    ensures |ds| > 0
    decreases q
  {
    var t := Threshold(k, bias);
    if q < t then [q]
    else
      QuotientAtMost(q - t, BASE - t);
      [t + (q - t) % (BASE - t)] + Digits((q - t) / (BASE - t), k + BASE, bias)
  }

  /** The digits spelt as characters. */
  function Spelt(ds: seq<Digit>): (t: Text)
    ensures |t| == |ds|
    ensures forall x :: 0 <= x < |t| ==> t[x] == EncodeDigit(ds[x])
  {
    seq(|ds|, x requires 0 <= x < |ds| => EncodeDigit(ds[x]))
  }

  lemma DigitsNext(q: nat, k: nat, bias: nat, t: nat, digit: int, rest: int)
    requires t == Threshold(k, bias) <= q && digit == t + (q - t) % (BASE - t) && rest == (q - t) / (BASE - t)
    ensures 0 <= rest < q && 0 <= digit < BASE
    ensures Digits(q, k, bias) == [digit] + Digits(rest, k + BASE, bias)
    ensures Spelt(Digits(q, k, bias)) == [EncodeDigit(digit)] + Spelt(Digits(rest, k + BASE, bias))
  {
    hide EncodeDigit;
    QuotientAtMost(q - t, BASE - t);
    assert Digits(q, k, bias) == [digit] + Digits(rest, k + BASE, bias);
  }

  lemma DigitsLast(q: nat, k: nat, bias: nat)
    requires q < Threshold(k, bias)
    ensures Digits(q, k, bias) == [q]
  {
  }

  /** Splitting off the spelt digits of q gives them back. */
  lemma {:induction false} ReadDigitsInvertsDigits(e: Text, pos: nat, q: nat, k: nat, bias: nat)
    requires pos + |Digits(q, k, bias)| <= |e|
    requires e[pos..pos + |Digits(q, k, bias)|] == Spelt(Digits(q, k, bias))
    ensures ReadDigits(e, pos, k, bias) == Ok((Digits(q, k, bias), pos + |Digits(q, k, bias)|))
    decreases q
  {
    hide Digits, Threshold;
    var t := Threshold(k, bias);
    var ds := Digits(q, k, bias);
    assert e[pos] == e[pos..pos + |ds|][0] == EncodeDigit(ds[0]);
    if q < t {
      DigitsLast(q, k, bias);
    } else {
      var digit, rest := t + (q - t) % (BASE - t), (q - t) / (BASE - t);
      DigitsNext(q, k, bias, t, digit, rest);
      assert e[pos + 1..pos + |ds|] == e[pos..pos + |ds|][1..] == Spelt(Digits(rest, k + BASE, bias));
      ReadDigitsInvertsDigits(e, pos + 1, rest, k + BASE, bias);
    }
  }

  /** The weights reached while every threshold so far was TMIN. */
  predicate LowWeight(w: int) {
    w in {1, 35, 1225, 42_875, 1_500_625, 52_521_875, 1_838_265_625}
  }

  /** Values below this never make a weight exceed 31 bits. */
  const SAFE_DELTA := 1_838_265_625

  lemma WeightStep(q: nat, k: nat, bias: nat, w: nat)
    requires k < bias + TMAX ==> LowWeight(w)
    requires q >= Threshold(k, bias)
    requires q * w < SAFE_DELTA && w > 0
    ensures 0 < w * (BASE - Threshold(k, bias)) <= MAX_INT32
    ensures k + BASE < bias + TMAX ==> LowWeight(w * (BASE - Threshold(k, bias)))
  {
    var t := Threshold(k, bias);
    MulMonotonic(t, q, w);
    MulMonotonic(1, BASE - t, w);
    if k >= bias + TMAX {
      assert t == TMAX;
    } else {
      MulMonotonic(1, t, w);
      assert w < SAFE_DELTA;
      MulMonotonic(BASE - t, 35, w);
    }
  }

  /** q, its least significant digit and the remaining quotient. */
  lemma DigitSplit(q: nat, t: nat, w: nat)
    requires TMIN <= t <= TMAX && t <= q
    ensures var digit, rest := t + (q - t) % (BASE - t), (q - t) / (BASE - t);
            && t <= digit < BASE && 0 <= rest < q && digit * w >= 0
            && q * w == digit * w + rest * (w * (BASE - t))
  {
    var c := BASE - t;
    var digit, rest := t + (q - t) % c, (q - t) / c;
    assert q - t == rest * c + (q - t) % c;
    QuotientAtMost(q - t, c);
    MulMonotonic(0, digit, w);
    SplitProduct(q, digit, rest, c, w);
  }

  lemma SplitProduct(q: nat, digit: nat, rest: nat, c: nat, w: nat)
    requires q == digit + rest * c
    ensures q * w == digit * w + rest * (w * c)
  {
    calc {
      q * w;
      (digit + rest * c) * w;
      digit * w + (rest * c) * w;
      digit * w + rest * (w * c);
    }
  }

  /** All that one more digit does to the running total, the weight and what is left to encode. */
  lemma DigitSplitAt(q: nat, k: nat, bias: nat, i: nat, w: nat)
    returns (digit: Digit, rest: nat, i': nat, w': nat)
    requires 0 < w && q * w < SAFE_DELTA && q >= Threshold(k, bias)
    requires k < bias + TMAX ==> LowWeight(w)
    ensures digit == Threshold(k, bias) + (q - Threshold(k, bias)) % (BASE - Threshold(k, bias))
    ensures rest == (q - Threshold(k, bias)) / (BASE - Threshold(k, bias)) < q
    ensures w' == w * (BASE - Threshold(k, bias)) && 0 < w' <= MAX_INT32
    ensures i' == i + digit * w && i' + rest * w' == i + q * w && rest * w' >= 0
    ensures k + BASE < bias + TMAX ==> LowWeight(w')
  {
    var t := Threshold(k, bias);
    DigitSplit(q, t, w);
    WeightStep(q, k, bias, w);
    digit, rest, w' := t + (q - t) % (BASE - t), (q - t) / (BASE - t), w * (BASE - t);
    MulMonotonic(0, rest, w');
    i' := i + digit * w;
  }

  lemma WeighDigitsStep(ds: seq<Digit>, k: nat, bias: nat, i: nat, w: nat, i': nat, w': nat)
    requires |ds| > 1 && i <= MAX_INT32 && w <= MAX_INT32
    requires i' == i + ds[0] * w <= MAX_INT32
    requires w' == w * (BASE - Threshold(k, bias)) <= MAX_INT32
    ensures WeighDigits(ds, k, bias, i, w) == WeighDigits(ds[1..], k + BASE, bias, i', w')
  {
  }

  /** The digits of q stand for q, and no weight overflows on the way. */
  lemma {:induction false} WeighDigitsIsProduct(q: nat, k: nat, bias: nat, i: nat, w: nat, total: nat)
    requires 0 < w <= MAX_INT32 && q * w < SAFE_DELTA
    requires i <= MAX_INT32 && total == i + q * w <= MAX_INT32
    requires k < bias + TMAX ==> LowWeight(w)
    ensures WeighDigits(Digits(q, k, bias), k, bias, i, w) == Ok(total)
    decreases q
  {
    var ds := Digits(q, k, bias);
    if q >= Threshold(k, bias) {
      var digit, rest, i', w' := DigitSplitAt(q, k, bias, i, w);
      assert ds[0] == digit && ds[1..] == Digits(rest, k + BASE, bias);
      WeighDigitsStep(ds, k, bias, i, w, i', w');
      WeighDigitsIsProduct(rest, k + BASE, bias, i', w', total);
    } else {
      assert Madd(i, q, w) == (total, false);
    }
  }

  /** Reading an encoded integer back adds exactly that integer. */
  lemma ReadRunInvertsDigits(e: Text, pos: nat, q: nat, bias: nat, i: nat)
    requires q < SAFE_DELTA && i + q <= MAX_INT32
    requires pos + |Digits(q, BASE, bias)| <= |e|
    requires e[pos..pos + |Digits(q, BASE, bias)|] == Spelt(Digits(q, BASE, bias))
    ensures ReadRun(e, pos, bias, i) == Ok((i + q, pos + |Digits(q, BASE, bias)|))
  {
    ReadDigitsInvertsDigits(e, pos, q, BASE, bias);
    WeighDigitsIsProduct(q, BASE, bias, i, 1, i + q);
  }

  // ----- What the decoder has rebuilt so far -----

  /** The elements of s below m, and those equal to m at indices below j, in order. */
  ghost function Kept(s: Text, m: int, j: int): (r: seq<int>) {
    if s == [] then []
    else
      var last := |s| - 1;
      Kept(s[..last], m, j) + if s[last] < m || (s[last] == m && last < j) then [s[last]] else []
  }

  lemma {:induction false} KeptAtMost(s: Text, m: int, j: int)
    ensures |Kept(s, m, j)| <= |s|
    ensures |Kept(s, m, j)| == |s| ==> Kept(s, m, j) == s && forall x :: 0 <= x < |s| ==> s[x] <= m && (s[x] == m ==> x < j)
    ensures |Kept(s, m, j)| < |s| ==> exists x :: 0 <= x < |s| && s[x] >= m && (s[x] == m ==> x >= j)
  {
    if s != [] {
      var last := |s| - 1;
      KeptAtMost(s[..last], m, j);
      assert s == s[..last] + [s[last]];
      if |Kept(s[..last], m, j)| < last {
        var x :| 0 <= x < last && s[..last][x] >= m && (s[..last][x] == m ==> x >= j);
        assert s[x] >= m;
      }
    }
  }

  /** Kept does not tell apart bounds between which s has nothing. */
  lemma {:induction false} KeptSame(s: Text, m: int, j: int, m': int, j': int)
    requires forall x :: 0 <= x < |s| ==>
               (s[x] < m || (s[x] == m && x < j) <==> s[x] < m' || (s[x] == m' && x < j'))
    ensures Kept(s, m, j) == Kept(s, m', j')
  {
    if s != [] {
      var last := |s| - 1;
      assert forall x :: 0 <= x < last ==> s[..last][x] == s[x];
      KeptSame(s[..last], m, j, m', j');
    }
  }

  lemma {:induction false} KeptPrefix(s: Text, m: int, j: int, k: nat)
    requires k <= |s|
    ensures Kept(s[..k], m, j) <= Kept(s, m, j)
  {
    if k == |s| {
      assert s[..k] == s;
    } else {
      var last := |s| - 1;
      assert s[..last][..k] == s[..k];
      KeptPrefix(s[..last], m, j, k);
    }
  }

  /** Where the element at j, equal to m, belongs among the elements kept before it. */
  lemma {:induction false} KeptInsert(s: Text, m: int, j: nat)
    requires j < |s| && s[j] == m
    ensures var p, before := |Kept(s[..j], m, j)|, Kept(s, m, j);
            && p <= |before|
            && Kept(s, m, j + 1) == before[..p] + [m] + before[p..]
  {
    var last := |s| - 1;
    KeptPrefix(s, m, j, j);
    if j == last {
      KeptSame(s[..last], m, j, m, j + 1);
    } else {
      var front := s[..last];
      KeptInsert(front, m, j);
      assert front[..j] == s[..j];
      KeptPrefix(front, m, j, j);
    }
  }

  lemma KeptExtend(s: Text, m: int, j: nat)
    requires j < |s|
    ensures Kept(s[..j + 1], m, j + 1) == Kept(s[..j], m, j) + if s[j] <= m then [s[j]] else []
  {
    assert s[..j + 1][..j] == s[..j];
    KeptSame(s[..j], m, j + 1, m, j);
  }

  // ----- Keeping encoder and decoder in step -----

  /**
    * The encoder, scanning s for code point n and about to look at index j with
    * h code points handled, has accumulated exactly the delta that takes the
    * decoder d, which has rebuilt those h code points, to (n, position of j).
    */
  ghost predicate InStep(s: Text, n: int, j: nat, b: nat, delta: int, d: Decoder)
    requires j <= |s|
  {
    var h, p := |Kept(s, n, j)|, |Kept(s[..j], n, j)|;
    && d.output == Kept(s, n, j)
    && INITIAL_N <= d.n <= n && d.i <= h && b <= h
    && (d.n == n ==> d.i <= p)
    && (d.i == 0 <==> h == b)
    && delta == (n - d.n) * (h + 1) + p - d.i
  }

  /** The decoder after it reads the delta the encoder emits at index j. */
  ghost function NextDecoder(s: Text, j: nat, b: nat, delta: nat, d: Decoder): (d': Decoder)
    requires j < |s|
  {
    var n := s[j];
    Decoder(|Kept(s[..j], n, j)| + 1, n, Adapted(delta, |d.output| + 1, |d.output| == b), Kept(s, n, j + 1))
  }

  lemma InStepDelta(s: Text, n: int, j: nat, b: nat, delta: int, d: Decoder)
    requires j <= |s| && InStep(s, n, j, b, delta, d)
    ensures delta >= 0 && |Kept(s[..j], n, j)| <= |Kept(s, n, j)|
    ensures |Kept(s, n, j)| <= MAX_OUTPUT && n <= MAX_RUNE + 1 ==> d.i + delta < SAFE_DELTA
  {
    hide Kept;
    var h := |Kept(s, n, j)|;
    KeptPrefix(s, n, j, j);
    if d.n < n {
      MulMonotonic(1, n - d.n, h + 1);
    }
    if h <= MAX_OUTPUT && n <= MAX_RUNE + 1 {
      MulMonotonic(n - d.n, MAX_RUNE, h + 1);
    }
  }

  lemma InStepSkip(s: Text, n: int, j: nat, b: nat, delta: int, d: Decoder)
    requires j < |s| && s[j] != n && InStep(s, n, j, b, delta, d)
    ensures InStep(s, n, j + 1, b, if s[j] < n then delta + 1 else delta, d)
    ensures Kept(s, n, j + 1) == Kept(s, n, j)
  {
    KeptSame(s, n, j, n, j + 1);
    KeptExtend(s, n, j);
  }

  lemma InsertAt(d: Decoder, delta: nat, n: nat, h: nat, p: nat)
    requires d.n <= n <= MAX_RUNE && p <= h == |d.output| < MAX_OUTPUT
    requires delta == (n - d.n) * (h + 1) + p - d.i
    ensures Insert(d, d.i + delta)
         == Ok(Decoder(p + 1, n, Adapted(delta, h + 1, d.i == 0), d.output[..p] + [n] + d.output[p..]))
  {
    DivModUnique(n - d.n, h + 1, p);
  }

  lemma InStepEmit(s: Text, j: nat, b: nat, delta: nat, d: Decoder)
    requires j < |s| && INITIAL_N <= s[j] && InStep(s, s[j], j, b, delta, d)
    ensures InStep(s, s[j], j + 1, b, 0, NextDecoder(s, j, b, delta, d))
    ensures |Kept(s, s[j], j + 1)| == |Kept(s, s[j], j)| + 1
  {
    KeptInsert(s, s[j], j);
    KeptExtend(s, s[j], j);
  }

  lemma InStepInsert(s: Text, j: nat, b: nat, delta: nat, d: Decoder)
    requires j < |s| && INITIAL_N <= s[j] && InStep(s, s[j], j, b, delta, d)
    requires |Kept(s, s[j], j)| < MAX_OUTPUT
    ensures Insert(d, d.i + delta) == Ok(NextDecoder(s, j, b, delta, d))
  {
    hide Insert, Adapted, Kept;
    var n := s[j];
    KeptInsert(s, n, j);
    InsertAt(d, delta, n, |Kept(s, n, j)|, |Kept(s[..j], n, j)|);
  }

  /** The end of one scan is the start of the next. */
  lemma InStepNext(s: Text, n: int, b: nat, delta: int, d: Decoder)
    requires InStep(s, n, |s|, b, delta, d)
    ensures InStep(s, n + 1, 0, b, delta + 1, d)
    ensures Kept(s, n + 1, 0) == Kept(s, n, |s|)
  {
    assert s[..|s|] == s;
    KeptSame(s, n, |s|, n + 1, 0);
  }

  lemma InStepJump(s: Text, n: int, m: int, b: nat, delta: int, d: Decoder)
    requires n <= m && InStep(s, n, 0, b, delta, d)
    requires forall x :: 0 <= x < |s| && s[x] >= n ==> s[x] >= m
    ensures InStep(s, m, 0, b, delta + (m - n) * (|Kept(s, n, 0)| + 1), d)
    ensures Kept(s, m, 0) == Kept(s, n, 0)
  {
    KeptSame(s, n, 0, m, 0);
    var h := |Kept(s, n, 0)|;
    assert (m - d.n) * (h + 1) == (n - d.n) * (h + 1) + (m - n) * (h + 1);
  }

  /** Whatever follows, decoding `core` from `start` in state d0 leads to d at its end. */
  ghost predicate Leads(core: Text, start: nat, d0: Decoder, d: Decoder)
    requires start <= |core|
  {
    && d0.i <= MAX_INT32 && d.i <= MAX_INT32
    && forall rest: Text :: Insertions(core + rest, start, d0) == Insertions(core + rest, |core|, d)
  }

  /** One encoded integer is one insertion. */
  lemma InsertionStep(e: Text, pos: nat, d: Decoder, q: nat, d': Decoder)
    requires q < SAFE_DELTA && d.i + q <= MAX_INT32 && d'.i <= MAX_INT32
    requires pos + |Digits(q, BASE, d.bias)| <= |e|
    requires e[pos..pos + |Digits(q, BASE, d.bias)|] == Spelt(Digits(q, BASE, d.bias))
    requires Insert(d, d.i + q) == Ok(d')
    ensures Insertions(e, pos, d) == Insertions(e, pos + |Digits(q, BASE, d.bias)|, d')
  {
    hide ReadRun, Insert, Digits;
    ReadRunInvertsDigits(e, pos, q, d.bias, d.i);
  }

  lemma LeadsOne(core: Text, d: Decoder, q: nat, d': Decoder)
    requires q < SAFE_DELTA && d.i + q <= MAX_INT32 && d'.i <= MAX_INT32
    requires Insert(d, d.i + q) == Ok(d')
    ensures Leads(core + Spelt(Digits(q, BASE, d.bias)), |core|, d, d')
  {
    hide Insertions, Insert, Digits;
    var ds := Spelt(Digits(q, BASE, d.bias));
    var core' := core + ds;
    forall rest: Text
      ensures Insertions(core' + rest, |core|, d) == Insertions(core' + rest, |core'|, d')
    {
      var e := core' + rest;
      assert e[|core|..|core| + |ds|] == ds;
      InsertionStep(e, |core|, d, q, d');
    }
  }

  lemma LeadsFurther(core: Text, start: nat, d0: Decoder, d: Decoder, ds: Text, d': Decoder)
    requires start <= |core|
    requires Leads(core, start, d0, d)
    requires Leads(core + ds, |core|, d, d')
    ensures Leads(core + ds, start, d0, d')
  {
    hide Insertions;
    forall rest: Text
      ensures Insertions(core + ds + rest, start, d0) == Insertions(core + ds + rest, |core + ds|, d')
    {
      assert core + ds + rest == core + (ds + rest);
    }
  }

  /** Whatever follows, decoding `core` from `start` in state d0 is an error. */
  ghost predicate Fails(core: Text, start: nat, d0: Decoder)
    requires start <= |core|
  {
    d0.i <= MAX_INT32 && forall rest: Text :: Insertions(core + rest, start, d0) == Err
  }

  /** A decoder that is full reads no further integer. */
  lemma FullFails(core: Text, start: nat, d0: Decoder, d: Decoder, ds: Text)
    requires start <= |core| && Leads(core, start, d0, d) && |d.output| >= MAX_OUTPUT && ds != []
    ensures Fails(core + ds, start, d0)
  {
    hide ReadRun;
    forall rest: Text
      ensures Insertions(core + ds + rest, start, d0) == Err
    {
      assert core + ds + rest == core + (ds + rest);
    }
  }

  lemma FailsFurther(core: Text, start: nat, d0: Decoder, ds: Text)
    requires start <= |core| && Fails(core, start, d0)
    ensures Fails(core + ds, start, d0)
  {
    hide Insertions;
    forall rest: Text
      ensures Insertions(core + ds + rest, start, d0) == Err
    {
      assert core + ds + rest == core + (ds + rest);
    }
  }

  // ----- The invariant of the encoder -----

  /** The innermost loop of `encode`: one variable-length integer. */
  method WriteInteger(output: Text, delta: nat, bias: nat) returns (r: Text)
    requires delta <= MAX_INT32 && bias <= 6 * BASE
    ensures r == output + Spelt(Digits(delta, BASE, bias))
  {
    hide Pow10, Digits, Spelt, Threshold;
    r := output;
    var q, k := delta, BASE;
    ghost var places: nat := 0;
    Pow10Zero();
    while true
      invariant 0 <= q && k == BASE * (places + 1) && places <= 10
      invariant q * Pow10(places) <= delta
      invariant r + Spelt(Digits(q, k, bias)) == output + Spelt(Digits(delta, BASE, bias))
      decreases q
    {
      var t := Threshold(k, bias);
      if q < t {
        break;
      }
      var digit, rest := t + (q - t) % (BASE - t), (q - t) / (BASE - t);
      DigitsNext(q, k, bias, t, digit, rest);
      FewPlaces(q, t, places, delta);
      assert r + ([EncodeDigit(digit)] + Spelt(Digits(rest, k + BASE, bias)))
          == r + [EncodeDigit(digit)] + Spelt(Digits(rest, k + BASE, bias));
      r := r + [EncodeDigit(digit)];
      q, k, places := rest, k + BASE, places + 1;
      assert InInt32(k);
    }
    DigitsLast(q, k, bias);
    r := r + [EncodeDigit(q)];
  }

  lemma Pow10Zero()
    ensures Pow10(0) == 1
  {
  }

  lemma FewPlaces(q: nat, t: nat, places: nat, delta: nat)
    requires TMIN <= t <= TMAX && t <= q && q * Pow10(places) <= delta <= MAX_INT32
    ensures places <= 9
    ensures (q - t) / (BASE - t) * Pow10(places + 1) <= delta
  {
    var power, c := Pow10(places), BASE - t;
    MulMonotonic(1, q, power);
    Pow10Small(places, power);
    RestFits(q, t);
    TenthAtMost((q - t) / c, c, q, power);
  }

  lemma RestFits(q: nat, t: nat)
    requires TMIN <= t <= TMAX && t <= q
    ensures 0 <= (q - t) / (BASE - t) && (q - t) / (BASE - t) * (BASE - t) <= q
  {
    var c := BASE - t;
    QuotientAtMost(q - t, c);
    assert q - t == (q - t) / c * c + (q - t) % c;
  }

  lemma TenthAtMost(rest: nat, c: nat, q: nat, power: nat)
    requires 10 <= c && rest * c <= q
    ensures rest * (10 * power) <= q * power
  {
    MulMonotonic(10, c, rest);
    MulMonotonic(rest * 10, q, power);
    assert rest * (10 * power) == (rest * 10) * power;
  }

  /**
    * The encoder's state while it scans for n at index j: `core` is what it has
    * written after the prefix, its digits starting at `start`.
    */
  datatype Encoder = Encoder(delta: int, bias: nat, h: nat, core: Text)

  ghost predicate Encoding(s: Text, n: int, j: nat, b: nat, e: Encoder, start: nat, d: Decoder) {
    && j <= |s| && start <= |e.core|
    && e.bias == d.bias <= 6 * BASE && e.h == |Kept(s, n, j)|
    && InStep(s, n, j, b, e.delta, d)
    && (if e.h <= MAX_OUTPUT || e.h == b then Leads(e.core, start, Start(Kept(s, INITIAL_N, 0)), d)
        else Fails(e.core, start, Start(Kept(s, INITIAL_N, 0))))
    && (forall x :: start <= x < |e.core| ==> IsLowerDigit(e.core[x]))
    && (start < |e.core| <==> b < e.h)
  }

  lemma EncodingStarts(s: Text, core: Text)
    ensures var b := |Kept(s, INITIAL_N, 0)|;
            Encoding(s, INITIAL_N, 0, b, Encoder(0, INITIAL_BIAS, b, core), |core|, Start(Kept(s, INITIAL_N, 0)))
  {
    assert s[..0] == [];
  }

  lemma EncodingBounds(s: Text, n: int, j: nat, b: nat, e: Encoder, start: nat, d: Decoder)
    requires Encoding(s, n, j, b, e, start, d)
    ensures e.delta >= 0 && b <= e.h <= |s|
    ensures e.h < |s| && j == 0 ==> exists x :: 0 <= x < |s| && s[x] >= n
    ensures e.bias <= 6 * BASE
    ensures e.h <= MAX_OUTPUT && n <= MAX_RUNE ==> d.i + e.delta < SAFE_DELTA
  {
    KeptAtMost(s, n, j);
    InStepDelta(s, n, j, b, e.delta, d);
  }

  lemma EncodingSkips(s: Text, n: int, j: nat, b: nat, e: Encoder, start: nat, d: Decoder)
    requires j < |s| && s[j] != n && Encoding(s, n, j, b, e, start, d)
    ensures Encoding(s, n, j + 1, b, e.(delta := if s[j] < n then e.delta + 1 else e.delta), start, d)
  {
    InStepSkip(s, n, j, b, e.delta, d);
  }

  lemma EncodingEmits(s: Text, j: nat, b: nat, e: Encoder, start: nat, d: Decoder, e': Encoder)
    returns (d': Decoder)
    requires j < |s| && INITIAL_N <= s[j] && Encoding(s, s[j], j, b, e, start, d) && 0 <= e.delta <= MAX_INT32
    requires e' == Encoder(0, Adapted(e.delta, e.h + 1, e.h == b), e.h + 1, e.core + Spelt(Digits(e.delta, BASE, e.bias)))
    ensures Encoding(s, s[j], j + 1, b, e', start, d')
  {
    hide Leads, Fails, Insert, Digits, Adapted, Insertions, Kept, Spelt;
    d' := NextDecoder(s, j, b, e.delta, d);
    InStepEmit(s, j, b, e.delta, d);
    AdaptedBounded(e.delta, e.h + 1, e.h == b);
    EncodingBounds(s, s[j], j, b, e, start, d);
    var d0, ds := Start(Kept(s, INITIAL_N, 0)), Spelt(Digits(e.delta, BASE, e.bias));
    if e.h < MAX_OUTPUT {
      InStepInsert(s, j, b, e.delta, d);
      LeadsOne(e.core, d, e.delta, d');
      LeadsFurther(e.core, start, d0, d, ds, d');
    } else if e.h == MAX_OUTPUT || e.h == b {
      SomeDigits(e.delta, e.bias);
      FullFails(e.core, start, d0, d, ds);
    } else {
      FailsFurther(e.core, start, d0, ds);
    }
  }

  lemma SomeDigits(q: nat, bias: nat)
    ensures Spelt(Digits(q, BASE, bias)) != []
  {
  }

  lemma EncodingEndsScan(s: Text, n: int, b: nat, e: Encoder, start: nat, d: Decoder)
    requires Encoding(s, n, |s|, b, e, start, d)
    ensures Encoding(s, n + 1, 0, b, e.(delta := e.delta + 1), start, d)
  {
    InStepNext(s, n, b, e.delta, d);
  }

  lemma EncodingJumps(s: Text, n: int, m: int, b: nat, e: Encoder, start: nat, d: Decoder)
    requires n <= m && Encoding(s, n, 0, b, e, start, d)
    requires forall x :: 0 <= x < |s| && s[x] >= n ==> s[x] >= m
    ensures Encoding(s, m, 0, b, e.(delta := e.delta + (m - n) * (e.h + 1)), start, d)
  {
    InStepJump(s, n, m, b, e.delta, d);
  }

  // ----- Decoding what was encoded -----

  lemma LastIndexIs(e: Text, c: Scalar, at: int)
    requires -1 <= at < |e| && (at >= 0 ==> e[at] == c)
    requires forall x :: at < x < |e| ==> e[x] != c
    ensures LastIndex(e, c) == at
  {
  }

  ghost predicate AllBasic(s: Text) {
    forall x :: 0 <= x < |s| ==> s[x] < INITIAL_N
  }

  /** What `encode` writes before the first digit. */
  ghost function Head(s: Text): (t: seq<int>) {
    var basic := Kept(s, INITIAL_N, 0);
    if basic == [] then [] else basic + [HYPHEN]
  }

  lemma BasicDecodes(s: Text)
    requires AllBasic(s)
    ensures Head(s) == if s == [] then [] else s + [HYPHEN]
    ensures Decoded(if s == [] then [] else s + [HYPHEN]) == Ok(s)
  {
    hide Insertions, LastIndex, Kept, ToText;
    KeptAtMost(s, INITIAL_N, 0);
    LastIndexIs(s + [HYPHEN], HYPHEN, |s|);
  }

  /** Decoding a text whose digits start after its Head. */
  lemma DecodedAfterHead(s: Text, core: Text)
    requires Head(s) <= core && |Head(s)| < |core|
    requires forall x :: |Head(s)| <= x < |core| ==> core[x] != HYPHEN
    ensures var runes := Insertions(core, |Head(s)|, Start(Kept(s, INITIAL_N, 0)));
            Decoded(core) == if runes.Err? then Err else Ok(ToText(runes.value))
  {
    hide Insertions, Kept;
    var start := |Head(s)|;
    LastIndexIs(core, HYPHEN, start - 1);
    assert Kept(s, INITIAL_N, 0) == if start == 0 then [] else core[..start - 1];
  }

  lemma EncodingDecodes(s: Text, n: int, e: Encoder, d: Decoder)
    requires Encoding(s, n, 0, |Kept(s, INITIAL_N, 0)|, e, |Head(s)|, d)
    requires Head(s) <= e.core && e.h == |s|
    ensures Decoded(e.core) == if |s| <= MAX_OUTPUT || AllBasic(s) then Ok(s) else Err
    ensures |s| <= MAX_OUTPUT && !AllBasic(s) ==> Insertions(e.core, |Head(s)|, Start(Kept(s, INITIAL_N, 0))) == Ok(s)
  {
    hide ReadRun, Insert, Kept;
    KeptAtMost(s, n, 0);
    KeptAtMost(s, INITIAL_N, 0);
    hide Decoded;
    if AllBasic(s) {
      BasicDecodes(s);
      assert e.core == Head(s);
    } else {
      var start, core := |Head(s)|, e.core;
      DecodedAfterHead(s, core);
      assert core + [] == core;
      if |s| <= MAX_OUTPUT {
        assert Insertions(core + [], |core|, d) == Ok(s);
        assert ToText(s) == s;
      } else {
        assert Insertions(core + [], start, Start(Kept(s, INITIAL_N, 0))) == Err;
      }
    }
  }

  lemma OnlyLowerDigits(s: Text, n: int, e: Encoder, d: Decoder)
    requires Encoding(s, n, 0, |Kept(s, INITIAL_N, 0)|, e, |Head(s)|, d)
    ensures forall x :: |Head(s)| <= x < |e.core| ==> IsLowerDigit(e.core[x])
  {
  }

  // ----- Encoding -----

  /** The smallest code point of s that is at least n. */
  method SmallestFrom(s: Text, n: int) returns (m: int)
    requires exists x :: 0 <= x < |s| && s[x] >= n
    ensures exists x :: 0 <= x < |s| && s[x] == m
    ensures n <= m <= MAX_RUNE
    ensures forall x :: 0 <= x < |s| && s[x] >= n ==> s[x] >= m
  {
    m := MAX_INT32;
    for j := 0 to |s|
      invariant m == MAX_INT32 || exists x :: 0 <= x < j && s[x] == m >= n
      invariant forall x :: 0 <= x < j && s[x] >= n ==> s[x] >= m
    {
      if m > s[j] && s[j] >= n {
        m := s[j];
      }
    }
  }

  /** The scan of `encode` for code point n: writes one integer for each occurrence. */
  method Scan(s: Text, n: nat, b: nat, e0: Encoder, ghost start: nat, ghost d0: Decoder)
    returns (r: Result<Encoder>, ghost d: Decoder)
    requires |s| < MAX_INT32 && INITIAL_N <= n <= MAX_RUNE && 0 <= e0.delta <= MAX_INT32
    requires exists x :: 0 <= x < |s| && s[x] == n
    requires Encoding(s, n, 0, b, e0, start, d0)
    ensures |s| <= MAX_OUTPUT ==> r.Ok?
    ensures r.Ok? ==>
              && Encoding(s, n, |s|, b, r.value, start, d)
              && r.value.delta <= |s| && e0.h < r.value.h && e0.core <= r.value.core
  {
    hide Encoding, Digits, Adapted, Spelt;
    var delta, bias, h, core := e0.delta, e0.bias, e0.h, e0.core;
    d := d0;
    ghost var found := false;
    for j := 0 to |s|
      invariant 0 <= delta <= MAX_INT32
      invariant Encoding(s, n, j, b, Encoder(delta, bias, h, core), start, d)
      invariant e0.h <= h && e0.core <= core
      invariant found <==> exists x :: 0 <= x < j && s[x] == n
      invariant found ==> delta <= j && e0.h < h
    {
      ghost var e := Encoder(delta, bias, h, core);
      EncodingBounds(s, n, j, b, e, start, d);
      if s[j] != n {
        EncodingSkips(s, n, j, b, e, start, d);
        if s[j] < n {
          delta := Wrap32(delta + 1);
          if delta < 0 {
            return Err, d;
          }
        }
      } else {
        core := WriteInteger(core, delta, bias);
        bias := Adapt(delta, h + 1, h == b);
        delta := 0;
        h := h + 1;
        found := true;
        d := EncodingEmits(s, j, b, e, start, d, Encoder(delta, bias, h, core));
      }
    }
    r := Ok(Encoder(delta, bias, h, core));
  }

  /** The first loop of `encode`: the basic code points in order, and the delimiter if there are any. */
  method WriteBasic(s: Text) returns (output: Text, b: nat)
    ensures b == |Kept(s, INITIAL_N, 0)| <= |s|
    ensures output == Head(s)
  {
    b, output := 0, [];
    for j := 0 to |s|
      invariant b <= j
      invariant output == Kept(s[..j], INITIAL_N, 0) && b == |output|
    {
      assert s[..j + 1][..j] == s[..j];
      if s[j] < 0x80 {
        b := b + 1;
        output := output + [s[j]];
      }
    }
    assert s[..|s|] == s;
    if b > 0 {
      output := output + [HYPHEN];
    }
  }

  /** What `encode` writes after the prefix. */
  method EncodeCore(s: Text) returns (r: Result<Text>)
    requires |s| < MAX_INT32
    ensures |s| <= MAX_OUTPUT || AllBasic(s) ==> r.Ok?
    ensures r.Ok? ==> Head(s) <= r.value && forall x :: |Head(s)| <= x < |r.value| ==> IsLowerDigit(r.value[x])
    ensures r.Ok? ==> Decoded(r.value) == if |s| <= MAX_OUTPUT || AllBasic(s) then Ok(s) else Err
    ensures |s| <= MAX_OUTPUT && !AllBasic(s) ==> Insertions(r.value, |Head(s)|, Start(Kept(s, INITIAL_N, 0))) == Ok(s)
  {
    hide Encoding, Decoded, Insertions, Kept, Head, Digits, Adapted;
    var delta, n := 0, INITIAL_N;
    var bias: nat := INITIAL_BIAS;
    var core, b := WriteBasic(s);
    var h, remaining := b, |s| - b;
    ghost var start := |core|;
    ghost var d := Start(Kept(s, INITIAL_N, 0));
    EncodingStarts(s, core);
    while remaining != 0
      invariant Head(s) <= core
      invariant remaining >= 0 && h + remaining == |s| && INITIAL_N <= n <= MAX_RUNE + 1
      invariant 0 <= delta <= |s| + 1
      invariant Encoding(s, n, 0, b, Encoder(delta, bias, h, core), start, d)
      decreases remaining
    {
      EncodingBounds(s, n, 0, b, Encoder(delta, bias, h, core), start, d);
      var m := SmallestFrom(s, n);
      EncodingJumps(s, n, m, b, Encoder(delta, bias, h, core), start, d);
      var sum := Madd(delta, m - n, h + 1);
      if sum.1 {
        EncodingBounds(s, m, 0, b, Encoder(delta + (m - n) * (h + 1), bias, h, core), start, d);
        return Err;
      }
      delta := sum.0;
      n := m;
      var scanned;
      scanned, d := Scan(s, n, b, Encoder(delta, bias, h, core), start, d);
      if scanned.Err? {
        return Err;
      }
      EncodingEndsScan(s, n, b, scanned.value, start, d);
      EncodingBounds(s, n, |s|, b, scanned.value, start, d);
      remaining := remaining - (scanned.value.h - h);
      delta, bias, h, core := scanned.value.delta + 1, scanned.value.bias, scanned.value.h, scanned.value.core;
      n := n + 1;
    }
    EncodingDecodes(s, n, Encoder(delta, bias, h, core), d);
    OnlyLowerDigits(s, n, Encoder(delta, bias, h, core), d);
    r := Ok(core);
  }

  /**
    * Encoding, with `prefix` in front.  A text of at most MAX_OUTPUT scalars is
    * always encoded.  Decoding what was written gives the text back when the
    * decoder has room for it or nothing had to be inserted, and is an error otherwise.
    */
  method Encode(prefix: Text, s: Text) returns (r: Result<Text>)
    requires |s| < MAX_INT32
    ensures |s| <= MAX_OUTPUT || AllBasic(s) ==> r.Ok?
    ensures r.Ok? ==> prefix <= r.value && Head(s) <= r.value[|prefix|..]
    ensures r.Ok? ==> forall x :: |prefix| + |Head(s)| <= x < |r.value| ==> IsLowerDigit(r.value[x])
    ensures r.Ok? ==> Decoded(r.value[|prefix|..]) == if |s| <= MAX_OUTPUT || AllBasic(s) then Ok(s) else Err
    ensures |s| <= MAX_OUTPUT && !AllBasic(s) ==>
              Insertions(r.value[|prefix|..], |Head(s)|, Start(Kept(s, INITIAL_N, 0))) == Ok(s)
  {
    hide Decoded, Insertions, Head;
    r := EncodeCore(s);
    if r.Ok? {
      var core := r.value;
      r := Ok(prefix + core);
      assert r.value[|prefix|..] == core;
    }
  }
}
