/**
  * The Punycode codec in the numbers of RFC 3492: what the decoder makes of its digits, as
  * sums of digits times weights, and what is written for a single code point.
  */
module PunycodeNumbers {
  import opened Common
  import opened Punycode

  // ----- Digits -----

  /** The number a character stands for, or -1. */
  ghost function ValueOf(x: int): (v: int) {
    if 97 <= x <= 122 then x - 97
    else if 65 <= x <= 90 then x - 65
    else if 48 <= x <= 57 then x - 48 + 26
    else -1
  }

  ghost function Character(d: int): (x: int) {
    if d < 26 then 97 + d else 48 + (d - 26)
  }

  lemma DigitsMean(x: Scalar, d: Digit)
    ensures DecodeDigit(x) == (if ValueOf(x) >= 0 then Ok(ValueOf(x)) else Err)
    ensures EncodeDigit(d) == Character(d)
    ensures ValueOf(EncodeDigit(d)) == d
  {
  }

  /** The threshold of the digit at place j, counted from 0. */
  ghost function T(j: nat, bias: nat): (t: nat)
    ensures 1 <= t <= 26
  {
    var k := 36 * (j + 1);
    if k <= bias then 1 else if k >= bias + 26 then 26 else k - bias
  }

  /** The weight of the digit at place j. */
  ghost function W(j: nat, bias: nat): (w: nat)
    ensures w >= 1
  {
    if j == 0 then 1 else Scaled(W(j - 1, bias), 36 - T(j - 1, bias))
  }

  ghost function Scaled(w: nat, c: nat): (p: nat)
    requires w >= 1 && c >= 10
    ensures p == w * c && p >= w
  {
    MulMonotonic(1, c, w);
    w * c
  }

  lemma {:induction false} WeightsGrow(i: nat, j: nat, bias: nat)
    requires i <= j
    ensures W(i, bias) <= W(j, bias)
  {
    if i < j {
      WeightsGrow(i, j - 1, bias);
    }
  }

  /** Digits at places from j on: the last is below its threshold and no other is. */
  ghost predicate IsRun(ds: seq<Digit>, j: nat, bias: nat) {
    && ds != []
    && (forall x :: 0 <= x < |ds| - 1 ==> ds[x] >= T(j + x, bias))
    && ds[|ds| - 1] < T(j + |ds| - 1, bias)
  }

  ghost function Sum(ds: seq<Digit>, j: nat, bias: nat): (v: nat) {
    if ds == [] then 0
    else
      MulMonotonic(0, ds[0], W(j, bias));
      ds[0] * W(j, bias) + Sum(ds[1..], j + 1, bias)
  }

  /** The characters from pos to end spell the digits. */
  ghost predicate Spell(e: Text, pos: nat, end: nat, ds: seq<Digit>) {
    pos <= end <= |e| && |ds| == end - pos && forall x :: 0 <= x < |ds| ==> ds[x] == ValueOf(e[pos + x])
  }

  lemma {:induction false} ReadDigitsMeans(e: Text, pos: nat, j: nat, bias: nat, ds: seq<Digit>, end: nat)
    requires pos <= |e|
    ensures ReadDigits(e, pos, 36 * (j + 1), bias) == Ok((ds, end)) <==> Spell(e, pos, end, ds) && IsRun(ds, j, bias)
    decreases |e| - pos
  {
    var k := 36 * (j + 1);
    assert Threshold(k, bias) == T(j, bias);
    if pos < |e| && ValueOf(e[pos]) >= 0 {
      var digit := ValueOf(e[pos]);
      DigitsMean(e[pos], digit);
      if digit < T(j, bias) {
        LoneDigit(e, pos, j, bias, ds, end);
      } else {
        var more := if ds == [] then [] else ds[1..];
        ReadDigitsMeans(e, pos + 1, j + 1, bias, more, end);
        MoreDigits(e, pos, j, bias, ds, end);
        var read := ReadDigits(e, pos + 1, 36 * (j + 2), bias);
        if read.Ok? {
          assert ([digit] + read.value.0)[1..] == read.value.0;
        }
        if ds != [] {
          assert ds == [ds[0]] + ds[1..];
        }
      }
    } else if pos < |e| {
      DigitsMean(e[pos], 0);
    }
  }

  lemma LoneDigit(e: Text, pos: nat, j: nat, bias: nat, ds: seq<Digit>, end: nat)
    requires pos < |e| && 0 <= ValueOf(e[pos]) < T(j, bias)
    ensures Spell(e, pos, end, ds) && IsRun(ds, j, bias) <==> ds == [ValueOf(e[pos])] && end == pos + 1
  {
    hide T, ValueOf;
    if Spell(e, pos, end, ds) && IsRun(ds, j, bias) {
      assert ds[0] == ValueOf(e[pos + 0]);
    }
  }

  lemma MoreDigits(e: Text, pos: nat, j: nat, bias: nat, ds: seq<Digit>, end: nat)
    requires pos < |e| && T(j, bias) <= ValueOf(e[pos])
    ensures Spell(e, pos, end, ds) && IsRun(ds, j, bias) <==>
            ds != [] && ds[0] == ValueOf(e[pos]) && Spell(e, pos + 1, end, ds[1..]) && IsRun(ds[1..], j + 1, bias)
  {
    hide T, ValueOf;
    if ds != [] {
      var more := ds[1..];
      if Spell(e, pos, end, ds) && IsRun(ds, j, bias) {
        assert ds[0] == ValueOf(e[pos + 0]);
        assert |ds| > 1;
        forall x | 0 <= x < |more| ensures more[x] == ValueOf(e[pos + 1 + x]) {
          assert more[x] == ds[x + 1] == ValueOf(e[pos + (x + 1)]);
        }
        forall x | 0 <= x < |more| - 1 ensures more[x] >= T(j + 1 + x, bias) {
          assert ds[x + 1] >= T(j + (x + 1), bias);
        }
      }
      if ds[0] == ValueOf(e[pos]) && Spell(e, pos + 1, end, more) && IsRun(more, j + 1, bias) {
        forall x | 0 <= x < |ds| ensures ds[x] == ValueOf(e[pos + x]) {
          assert x > 0 ==> ds[x] == more[x - 1] == ValueOf(e[pos + 1 + (x - 1)]);
        }
        forall x | 0 <= x < |ds| - 1 ensures ds[x] >= T(j + x, bias) {
          assert x > 0 ==> ds[x] == more[x - 1] >= T(j + 1 + (x - 1), bias);
        }
      }
    }
  }

  /** The weights and the sum must fit 31 bits. */
  lemma {:induction false} WeighDigitsMeans(ds: seq<Digit>, j: nat, bias: nat, i: nat, total: nat)
    requires ds != [] && i <= 0x7fff_ffff && W(j, bias) <= 0x7fff_ffff
    ensures WeighDigits(ds, 36 * (j + 1), bias, i, W(j, bias)) == Ok(total) <==>
            total == i + Sum(ds, j, bias) <= 0x7fff_ffff && W(j + |ds| - 1, bias) <= 0x7fff_ffff
    decreases |ds|
  {
    hide Madd, T;
    assert Threshold(36 * (j + 1), bias) == T(j, bias) by {
      SameThreshold(j, bias);
    }
    if |ds| == 1 {
      assert Sum(ds[1..], j + 1, bias) == 0;
    } else {
      WeightsGrow(j + 1, j + |ds| - 1, bias);
      var sum := Madd(i, ds[0], W(j, bias));
      if !sum.1 && W(j + 1, bias) <= 0x7fff_ffff {
        WeighDigitsMeans(ds[1..], j + 1, bias, sum.0, total);
      }
    }
  }

  lemma SameThreshold(j: nat, bias: nat)
    ensures Threshold(36 * (j + 1), bias) == T(j, bias)
  {
  }

  /**
    * One variable-length integer (section 3.3 of RFC 3492): the digits up to the first below
    * its threshold, each times its weight, added to i; an error exactly if there is no such
    * digit, a character is no digit, or a weight or the sum exceeds 31 bits.
    */
  lemma RunMeans(e: Text, pos: nat, bias: nat, i: nat, total: nat, end: nat)
    requires pos <= |e| && i <= 0x7fff_ffff
    ensures ReadRun(e, pos, bias, i) == Ok((total, end)) <==>
            exists ds: seq<Digit> ::
              && Spell(e, pos, end, ds) && IsRun(ds, 0, bias)
              && total == i + Sum(ds, 0, bias) <= 0x7fff_ffff && W(|ds| - 1, bias) <= 0x7fff_ffff
  {
    hide ReadDigits, WeighDigits, Sum, W, IsRun, Spell;
    assert W(0, bias) == 1 by {
      FirstWeight(bias);
    }
    var read := ReadDigits(e, pos, 36, bias);
    if read.Ok? {
      var ds := read.value.0;
      ReadDigitsMeans(e, pos, 0, bias, ds, read.value.1);
      WeighDigitsMeans(ds, 0, bias, i, total);
    }
    forall ds: seq<Digit> | Spell(e, pos, end, ds) && IsRun(ds, 0, bias) ensures read == Ok((ds, end)) {
      ReadDigitsMeans(e, pos, 0, bias, ds, end);
    }
  }

  lemma FirstWeight(bias: nat)
    ensures W(0, bias) == 1
  {
  }

  // ----- Bias -----

  ghost function Pow35(n: nat): (p: nat)
    ensures p >= 1
  {
    if n == 0 then 1 else 35 * Pow35(n - 1)
  }

  /** Section 6.1 of RFC 3492: the quotient by 35 to the n is the first that is not above 455. */
  ghost predicate IsBias(delta: nat, points: nat, first: bool, bias: nat, n: nat)
    requires points > 0
  {
    var d := if first then delta / 700 else delta / 2;
    var e := d + d / points;
    0 <= e && var q := e / Pow35(n); 0 <= q <= 455 && (n > 0 ==> e / Pow35(n - 1) > 455) && bias == 36 * n + 36 * q / (q + 38)
  }

  ghost predicate Biased(delta: nat, points: nat, first: bool, bias: nat)
    requires points > 0
  {
    exists n :: IsBias(delta, points, first, bias, n)
  }

  lemma AdaptMeans(delta: nat, points: nat, first: bool) returns (n: nat)
    requires points > 0
    ensures IsBias(delta, points, first, Adapted(delta, points, first), n)
  {
    var d := if first then delta / 700 else delta / 2;
    QuotientAtMost(d, points);
    n := ShrinkMeans(d + d / points, 0);
  }

  lemma {:induction false} ShrinkMeans(e: nat, k: nat) returns (n: nat)
    ensures var q := e / Pow35(n);
            0 <= q <= 455 && (n > 0 ==> e / Pow35(n - 1) > 455) && Shrink(e, k) == k + 36 * n + 36 * q / (q + 38)
    decreases e
  {
    if e <= 455 {
      n := 0;
      assert e / Pow35(0) == e;
    } else {
      var m := ShrinkMeans(e / 35, k + 36);
      n := m + 1;
      QuotientTwice(e, 35, Pow35(m));
      if m > 0 {
        QuotientTwice(e, 35, Pow35(m - 1));
      } else {
        assert e / Pow35(0) == e;
      }
    }
  }

  lemma QuotientTwice(x: nat, a: nat, b: nat)
    requires a > 0 && b > 0
    ensures a * b > 0 && x / (a * b) == x / a / b
  {
    var y := x / a;
    QuotientAtMost(x, a);
    QuotientAtMost(y, b);
    MulMonotonic(1, a, b);
    assert x == y * a + x % a;
    assert y == y / b * b + y % b;
    NestedQuotient(x, a, b, y, y / b, y % b, x % a);
  }

  lemma NestedQuotient(x: nat, a: nat, b: nat, y: nat, q: nat, r: nat, s: nat)
    requires x == y * a + s && s < a && y == q * b + r && r < b
    ensures a * b > 0 && x / (a * b) == q
  {
    MulMonotonic(1, a, b);
    Distribute(q, b, r, a);
    MulMonotonic(r, b - 1, a);
    Distribute(1, b - 1, 1, a);
    DivModUnique(q, a * b, r * a + s);
  }

  lemma Distribute(q: nat, b: nat, r: nat, a: nat)
    ensures (q * b + r) * a == q * (a * b) + r * a
  {
  }

  // ----- Insertions -----

  /** Section 6.2 of RFC 3492: where the total i goes, and what the decoder keeps. */
  lemma InsertMeans(d: Decoder, i: nat)
    requires d.i <= i
    ensures var x := |d.output| + 1;
            var r := Insert(d, i);
            && (r.Ok? <==> x <= 1024 && d.n + i / x <= 0x10_ffff)
            && (r.Ok? ==>
                  var at := r.value.i - 1;
                  && 0 <= at < x && i == (r.value.n - d.n) * x + at
                  && r.value.output == d.output[..at] + [r.value.n] + d.output[at..]
                  && Biased(i - d.i, x, d.i == 0, r.value.bias))
  {
    hide Adapted, IsBias;
    var x := |d.output| + 1;
    QuotientAtMost(i, x);
    var n := AdaptMeans(i - d.i, x, d.i == 0);
    assert i == (i / x) * x + i % x;
  }

  /** Where the decoder starts: the basic code points before the last delimiter, 128 and bias 72. */
  lemma StartMeans(e: Text)
    requires e != [] && e[|e| - 1] != 45
    ensures forall b: nat :: b + 1 < |e| && b > 0 && e[b] == 45 && (forall x :: b < x < |e| ==> e[x] != 45) ==>
              var runes := Insertions(e, b + 1, Decoder(0, 128, 72, e[..b]));
              Decoded(e) == if runes.Err? then Err else Ok(ToText(runes.value))
    ensures (forall x :: 0 <= x < |e| ==> e[x] != 45) ==>
              var runes := Insertions(e, 0, Decoder(0, 128, 72, []));
              Decoded(e) == if runes.Err? then Err else Ok(ToText(runes.value))
  {
    hide Insertions, LastIndex;
    forall b: nat | b + 1 < |e| && b > 0 && e[b] == 45 && forall x :: b < x < |e| ==> e[x] != 45
      ensures LastIndex(e, 45) == b
    {
      LastIndexIs(e, 45, b);
    }
    if forall x :: 0 <= x < |e| ==> e[x] != 45 {
      LastIndexIs(e, 45, -1);
    }
  }

  // ----- One code point -----

  ghost function Tens(ds: seq<Digit>): (v: int) {
    if ds == [] then 0 else ds[0] + 10 * Tens(ds[1..])
  }

  /** The thresholds at bias 72 are 1, 1, 26, 26 and so on, so the weights are 1, 35, 1225 and then times ten. */
  lemma {:induction false} TailSum(ds: seq<Digit>, j: nat)
    ensures Sum(ds, j + 2, 72) == W(j + 2, 72) * Tens(ds)
    decreases |ds|
  {
    hide T, W;
    if ds != [] {
      TailSum(ds[1..], j + 1);
      TailWeight(j);
      Gather(ds[0], W(j + 2, 72), Tens(ds[1..]));
    }
  }

  lemma TailWeight(j: nat)
    ensures W(j + 3, 72) == 10 * W(j + 2, 72)
  {
  }

  lemma Gather(d: int, w: int, t: int)
    ensures d * w + 10 * w * t == w * (d + 10 * t)
  {
  }

  lemma FirstSum(ds: seq<Digit>)
    ensures Sum(ds, 0, 72) ==
            (if |ds| > 0 then ds[0] else 0) + (if |ds| > 1 then 35 * ds[1] else 0) + (if |ds| > 2 then 1225 * Tens(ds[2..]) else 0)
  {
    assert W(0, 72) == 1 && W(1, 72) == 35 && W(2, 72) == 1225;
    if |ds| > 1 {
      TailSum(ds[1..][1..], 0);
      assert ds[1..][1..] == ds[2..];
    } else if |ds| == 1 {
      assert Sum(ds[1..], 1, 72) == 0;
    }
  }

  /** The number that the digits of a first run stand for. */
  ghost function Numeral(ds: seq<Digit>): (v: int) {
    (if |ds| > 0 then ds[0] else 0) + (if |ds| > 1 then 35 * ds[1] else 0) + (if |ds| > 2 then 1225 * Tens(ds[2..]) else 0)
  }

  /** The digits of a first run: 1 and 1 are the thresholds of the first two places, 26 of all others. */
  ghost predicate IsFirstRun(ds: seq<Digit>) {
    && ds != []
    && (forall x :: 0 <= x < |ds| - 1 ==> ds[x] >= if x < 2 then 1 else 26)
    && ds[|ds| - 1] < if |ds| <= 2 then 1 else 26
  }

  lemma FirstRuns(ds: seq<Digit>)
    ensures IsRun(ds, 0, 72) <==> IsFirstRun(ds)
    ensures Sum(ds, 0, 72) == Numeral(ds) && (IsFirstRun(ds) ==> ds != [])
  {
    hide Sum, Tens;
    FirstSum(ds);
  }

  lemma {:induction false} SumAtLeast(ds: seq<Digit>, j: nat, bias: nat, x: nat)
    requires x < |ds| && ds[x] >= 1
    ensures Sum(ds, j, bias) >= W(j + x, bias)
    decreases |ds|
  {
    hide W;
    if x == 0 {
      MulMonotonic(1, ds[0], W(j, bias));
    } else {
      MulMonotonic(0, ds[0], W(j, bias));
      SumAtLeast(ds[1..], j + 1, bias, x - 1);
      assert j + 1 + (x - 1) == j + x;
    }
  }

  /** A run that stands for a code point has no weight beyond 31 bits. */
  lemma SmallWeights(ds: seq<Digit>)
    requires IsFirstRun(ds) && Numeral(ds) <= 0x10_ffff
    ensures W(|ds| - 1, 72) <= 0x7fff_ffff
  {
    FirstRuns(ds);
    if |ds| > 1 {
      SumAtLeast(ds, 0, 72, |ds| - 2);
      MulMonotonic(36 - T(|ds| - 2, 72), 35, W(|ds| - 2, 72));
    }
  }

  lemma {:induction false} InsertionsGrow(e: Text, pos: nat, d: Decoder)
    requires pos <= |e| && d.i <= MAX_INT32
    ensures var r := Insertions(e, pos, d); r.Ok? ==> |r.value| >= |d.output| + if pos < |e| then 1 else 0
    decreases |e| - pos
  {
    hide ReadRun;
    if pos < |e| {
      var run := ReadRun(e, pos, d.bias, d.i);
      if run.Ok? && Insert(d, run.value.0).Ok? {
        InsertionsGrow(e, run.value.1, Insert(d, run.value.0).value);
      }
    }
  }

  /** What is read from digits alone is the one code point n exactly if they are a run that stands for n - 128. */
  lemma OneCodePoint(e: Text, n: int)
    ensures Insertions(e, 0, Decoder(0, 128, 72, [])) == Ok([n]) <==>
            exists ds: seq<Digit> :: Spell(e, 0, |e|, ds) && IsFirstRun(ds) && n == 128 + Numeral(ds) <= 0x10_ffff
  {
    hide Insertions, ReadRun, Spell, IsFirstRun, Numeral, Sum, W, IsRun;
    OneInsertion(e, n);
    if n >= 128 {
      RunMeans(e, 0, 72, 0, n - 128, |e|);
    }
    forall ds: seq<Digit> | Spell(e, 0, |e|, ds)
      ensures IsRun(ds, 0, 72) <==> IsFirstRun(ds)
      ensures Sum(ds, 0, 72) == Numeral(ds) >= 0
      ensures IsFirstRun(ds) && Numeral(ds) <= 0x10_ffff ==> ds != [] && W(|ds| - 1, 72) <= 0x7fff_ffff && e != []
    {
      FirstRuns(ds);
      if IsFirstRun(ds) && Numeral(ds) <= 0x10_ffff {
        SmallWeights(ds);
        NoRun(e);
      }
    }
  }

  lemma OneInsertion(e: Text, n: int)
    ensures Insertions(e, 0, Decoder(0, 128, 72, [])) == Ok([n]) <==>
            e != [] && 128 <= n <= 0x10_ffff && ReadRun(e, 0, 72, 0) == Ok((n - 128, |e|))
  {
    hide ReadRun, Adapted;
    var d := Decoder(0, 128, 72, []);
    var run := ReadRun(e, 0, 72, 0);
    if e != [] && run.Ok? {
      var next := Insert(d, run.value.0);
      if next.Ok? {
        assert next.value.output == [128 + run.value.0];
        InsertionsGrow(e, run.value.1, next.value);
      }
    }
  }

  lemma NoRun(e: Text)
    ensures forall ds: seq<Digit> :: Spell(e, 0, |e|, ds) && IsFirstRun(ds) ==> e != []
  {
  }

  /** A text of one code point that is not basic is written as the digits of a run that stands for it. */
  method EncodeOne(c: Scalar) returns (e: Text, ghost ds: seq<Digit>)
    requires c >= 128
    ensures |ds| == |e| && forall x :: 0 <= x < |e| ==> e[x] == Character(ds[x])
    ensures ds != [] && ds[|ds| - 1] < if |ds| <= 2 then 1 else 26
    ensures forall x :: 0 <= x < |ds| - 1 ==> ds[x] >= if x < 2 then 1 else 26
    ensures c - 128 ==
            ds[0] + (if |ds| > 1 then 35 * ds[1] else 0) + (if |ds| > 2 then 1225 * Tens(ds[2..]) else 0)
  {
    hide Insertions, Decoded, Kept, Tens;
    var r := Encode([], [c]);
    e := r.value;
    assert e[0..] == e;
    NoHead(c);
    OneCodePoint(e, c);
    ds :| Spell(e, 0, |e|, ds) && IsFirstRun(ds) && c == 128 + Numeral(ds);
  }

  lemma NoHead(c: Scalar)
    requires c >= 128
    ensures Kept([c], 128, 0) == [] && Head([c]) == [] && !AllBasic([c])
  {
    assert [c][..0] == [];
    assert Kept([c], 128, 0) == Kept([c][..0], 128, 0);
  }
}
