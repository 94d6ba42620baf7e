/** Character references byte by byte: what a reference by number or by name stands for. */
module EscapeMeaning {
  import opened Common
  import opened Escape

  // ----- UTF-8 -----

  ghost predicate IsCodePoint(x: int) {
    0 <= x <= 0x10_ffff && !(0xd800 <= x <= 0xdfff)
  }

  /** How many bytes section 3 of RFC 3629 gives a code point. */
  ghost function Width(x: int): (n: nat) {
    if x < 0x80 then 1 else if x < 0x800 then 2 else if x < 0x1_0000 then 3 else 4
  }

  /** The first byte of that many, without its bits of the code point. */
  ghost function Mark(n: nat): (b: int) {
    if n == 1 then 0 else if n == 2 then 0xc0 else if n == 3 then 0xe0 else 0xf0
  }

  /** The bytes from i on hold six bits each, after those of x. */
  ghost function Bits(s: Bytes, i: nat, x: int): (r: int)
    requires i <= |s|
    decreases |s| - i
  {
    if i == |s| then x
    else
      var b: int := s[i];
      Bits(s, i + 1, 64 * x + (b - 0x80))
  }

  ghost predicate Spells(s: Bytes, x: int) {
    && |s| == Width(x)
    && (forall i :: 1 <= i < |s| ==> 0x80 <= s[i] <= 0xbf)
    && var b: int := s[0]; b >= Mark(|s|) && Bits(s, 1, b - Mark(|s|)) == x
  }

  lemma Utf8Means(x: int)
    ensures IsCodePoint(x) ==> Spells(Utf8(x), x)
    ensures !IsCodePoint(x) ==> Utf8(x) == [0xef, 0xbf, 0xbd]
  {
    hide Spells;
    if IsCodePoint(x) {
      if x < 0x80 {
        OneByte(x);
      } else if x < 0x800 {
        TwoBytes(x);
      } else if x < 0x1_0000 {
        ThreeBytes(x);
      } else {
        FourBytes(x);
      }
    }
  }

  lemma OneByte(x: int)
    requires 0 <= x < 0x80
    ensures Spells(Utf8(x), x)
  {
    hide Bits;
    BitsEnd(Utf8(x), x);
  }

  lemma TwoBytes(x: int)
    requires 0x80 <= x < 0x800
    ensures Spells(Utf8(x), x)
  {
    hide Bits;
    var s := Utf8(x);
    BitsNext(s, 1, x / 64);
    BitsEnd(s, x);
  }

  lemma ThreeBytes(x: int)
    requires 0x800 <= x < 0x1_0000 && IsCodePoint(x)
    ensures Spells(Utf8(x), x)
  {
    hide Bits;
    var s := Utf8(x);
    assert x / 64 == 64 * (x / 4096) + x / 64 % 64;
    BitsNext(s, 1, x / 4096);
    BitsNext(s, 2, x / 64);
    BitsEnd(s, x);
  }

  lemma FourBytes(x: int)
    requires 0x1_0000 <= x <= 0x10_ffff
    ensures Spells(Utf8(x), x)
  {
    hide Bits;
    var s := Utf8(x);
    assert x / 4096 == 64 * (x / 262144) + x / 4096 % 64;
    assert x / 64 == 64 * (x / 4096) + x / 64 % 64;
    BitsNext(s, 1, x / 262144);
    BitsNext(s, 2, x / 4096);
    BitsNext(s, 3, x / 64);
    BitsEnd(s, x);
  }

  lemma BitsNext(s: Bytes, i: nat, x: int)
    requires i < |s|
    ensures var b: int := s[i]; Bits(s, i, x) == Bits(s, i + 1, 64 * x + (b - 0x80))
  {
  }

  lemma BitsEnd(s: Bytes, x: int)
    ensures Bits(s, |s|, x) == x
  {
  }

  // ----- References by number -----

  ghost function Digit(c: Byte, hex: bool): (d: int) {
    if 48 <= c <= 57 then c - 48
    else if hex && 97 <= c <= 102 then c - 87
    else if hex && 65 <= c <= 70 then c - 55
    else -1
  }

  ghost predicate AreDigits(ds: Bytes, hex: bool) {
    forall i :: 0 <= i < |ds| ==> Digit(ds[i], hex) >= 0
  }

  /** The number that the digits spell in base ten or sixteen. */
  ghost function Number(ds: Bytes, hex: bool): (n: nat)
    requires AreDigits(ds, hex)
  {
    if ds == [] then 0
    else
      var last := |ds| - 1;
      (if hex then 16 else 10) * Number(ds[..last], hex) + Digit(ds[last], hex)
  }

  /** What follows the digits: a semicolon, or nothing that goes on with the reference. */
  ghost predicate Ends(rest: Bytes, hex: bool) {
    rest == [] || Digit(rest[0], hex) < 0
  }

  /** How much of what follows belongs to the reference. */
  ghost function Close(rest: Bytes): (n: nat)
    ensures n <= |rest|
  {
    if rest != [] && rest[0] == 59 then 1 else 0
  }

  lemma DigitsMean(c: Byte, hex: bool)
    ensures DigitValue(c, hex) == if Digit(c, hex) >= 0 then Some(Digit(c, hex)) else None
  {
  }

  /** The code counts in 32 bits. */
  lemma WrappedStep(base: nat, n: int, d: int)
    requires base == 10 || base == 16
    ensures Wrapped(base * Wrapped(n) + d) == Wrapped(base * n + d)
  {
    var m := 0x1_0000_0000;
    var k := (n + 0x8000_0000) / m;
    assert Wrapped(n) == n - k * m;
    if base == 10 {
      SameWrap(10 * n + d, -10 * k);
    } else {
      SameWrap(16 * n + d, -16 * k);
    }
  }

  lemma SameWrap(x: int, k: int)
    ensures Wrapped(x + k * 0x1_0000_0000) == Wrapped(x)
  {
  }

  lemma {:induction false} ScanNumberMeans(lead: Bytes, done: Bytes, ds: Bytes, rest: Bytes, hex: bool)
    requires AreDigits(done + ds, hex) && AreDigits(done, hex) && Ends(rest, hex)
    ensures ScanNumber(lead + done + ds + rest, |lead| + |done|, hex, Wrapped(Number(done, hex)))
            == (Wrapped(Number(done + ds, hex)), |lead| + |done| + |ds| + Close(rest))
    decreases |ds|
  {
    hide Wrapped, Number, Digit;
    var s, i := lead + done + ds + rest, |lead| + |done|;
    if ds == [] {
      assert done + ds == done;
      if rest != [] {
        assert s[i] == rest[0];
        DigitsMean(rest[0], hex);
      }
    } else {
      assert s[i] == ds[0] == (done + ds)[|done|];
      DigitsMean(ds[0], hex);
      var more := done + [ds[0]];
      assert more + ds[1..] == done + ds && lead + more + ds[1..] + rest == s;
      assert AreDigits(more, hex);
      NumberMore(done, ds[0], hex);
      WrappedStep(if hex then 16 else 10, Number(done, hex), Digit(ds[0], hex));
      ScanNumberMeans(lead, more, ds[1..], rest, hex);
    }
  }

  lemma NumberMore(done: Bytes, c: Byte, hex: bool)
    requires AreDigits(done, hex) && Digit(c, hex) >= 0
    ensures AreDigits(done + [c], hex)
    ensures Number(done + [c], hex) == (if hex then 16 else 10) * Number(done, hex) + Digit(c, hex)
  {
    assert (done + [c])[..|done|] == done;
  }

  /** The code point that the number n, counted in 32 bits, stands for. */
  ghost function Meant(n: nat): (x: int)
    ensures IsCodePoint(x)
  {
    var w := n % 0x1_0000_0000;
    if 0x80 <= w <= 0x9f then REPLACEMENTS[w - 0x80]
    else if w == 0 || w > 0x10_ffff || 0xd800 <= w <= 0xdfff then 0xfffd
    else w
  }

  lemma MendedMeans(n: nat)
    ensures Utf8(Mended(Wrapped(n))) == Utf8(Meant(n))
  {
    hide Utf8, Wrapped;
    var w := n % 0x1_0000_0000;
    WrappedMeans(n, w);
    Utf8Means(Wrapped(n));
    Utf8Replaced();
  }

  lemma WrappedMeans(n: nat, w: nat)
    requires w == n % 0x1_0000_0000
    ensures Wrapped(n) == if w < 0x8000_0000 then w else w - 0x1_0000_0000
  {
  }

  lemma Utf8Replaced()
    ensures Utf8(0xfffd) == [0xef, 0xbf, 0xbd]
  {
  }

  /**
    * A reference by number: an ampersand, a number sign, an x or X for base sixteen, the
    * digits and perhaps a semicolon.  At least two characters must follow the number sign.
    */
  lemma NumericMeans(t: Tables, x: Bytes, ds: Bytes, rest: Bytes, attribute: bool)
    requires x == [] || x == [120] || x == [88]
    requires AreDigits(ds, x != []) && Ends(rest, x != []) && |x| + |ds| + Close(rest) >= 2
    ensures Unescaped(t, [38, 35] + x + ds + rest, attribute)
            == Utf8(Meant(Number(ds, x != []))) + Unescaped(t, rest[Close(rest)..], attribute)
  {
    hide Unescaped, Reference, Number, ScanNumber, Meant, Wrapped, Mended, Utf8, AreDigits, Ends, Digit;
    var hex, lead := x != [], [38, 35] + x;
    var s, end := lead + ds + rest, |lead| + |ds| + Close(rest);
    NumericScan(lead, ds, rest, hex);
    MendedMeans(Number(ds, hex));
    HexMark(x, ds, rest, hex);
    NumericRead(t, s, hex, Number(ds, hex), end, attribute);
    UnescapedNext(t, [], s, attribute);
    SkipTo(lead, ds, rest);
    Alone(t, s, attribute, Utf8(Meant(Number(ds, hex))), rest[Close(rest)..]);
  }

  lemma SkipTo(lead: Bytes, ds: Bytes, rest: Bytes)
    ensures (lead + ds + rest)[|lead| + |ds| + Close(rest)..] == rest[Close(rest)..]
  {
  }

  lemma NumericScan(lead: Bytes, ds: Bytes, rest: Bytes, hex: bool)
    requires AreDigits(ds, hex) && Ends(rest, hex)
    ensures ScanNumber(lead + ds + rest, |lead|, hex, 0) == (Wrapped(Number(ds, hex)), |lead| + |ds| + Close(rest))
  {
    hide ScanNumber, Wrapped, Number, Digit, AreDigits, Ends, Close;
    NumberNone(hex);
    assert lead + [] == lead && [] + ds == ds;
    ScanNumberMeans(lead, [], ds, rest, hex);
  }

  lemma NumericRead(t: Tables, s: Bytes, hex: bool, n: nat, end: nat, attribute: bool)
    requires |s| > 3 && s[1] == 35 && (s[2] == 120 || s[2] == 88 <==> hex) && end > 3
    requires ScanNumber(s, if hex then 3 else 2, hex, 0) == (Wrapped(n), end)
    ensures Reference(t, s, attribute) == Ref(Utf8(Mended(Wrapped(n))), end)
  {
    hide ScanNumber, Wrapped, Mended, Utf8;
  }

  lemma HexMark(x: Bytes, ds: Bytes, rest: Bytes, hex: bool)
    requires x == [] || x == [120] || x == [88]
    requires hex == (x != []) && AreDigits(ds, hex) && |x| + |ds| + Close(rest) >= 2
    ensures var s := [38, 35] + x + ds + rest; |s| > 3 && (s[2] == 120 || s[2] == 88 <==> hex)
  {
    var s := [38, 35] + x + ds + rest;
    if x == [] {
      assert ds != [] && s[2] == ds[0] && Digit(ds[0], hex) >= 0;
    }
  }

  lemma NumberNone(hex: bool)
    ensures AreDigits([], hex) && Number([], hex) == 0 && Wrapped(0) == 0
  {
  }

  lemma Alone(t: Tables, s: Bytes, attribute: bool, text: Bytes, rest: Bytes)
    requires [] + Unescaped(t, s, attribute) == [] + text + Unescaped(t, rest, attribute)
    ensures Unescaped(t, s, attribute) == text + Unescaped(t, rest, attribute)
  {
    assert [] + Unescaped(t, s, attribute) == Unescaped(t, s, attribute);
    assert [] + text == text;
  }

  // ----- References by name -----

  ghost predicate IsLetterOrDigit(c: int) {
    65 <= c <= 90 || 97 <= c <= 122 || 48 <= c <= 57
  }

  ghost predicate IsName(name: Bytes) {
    forall i :: 0 <= i < |name| ==> IsLetterOrDigit(name[i])
  }

  lemma {:induction false} ScanNameMeans(s: Bytes, i: nat, end: nat)
    requires i <= end <= |s| && (forall k :: i <= k < end ==> IsLetterOrDigit(s[k])) && (end < |s| ==> !IsLetterOrDigit(s[end]))
    ensures ScanName(s, i) == end + if end < |s| && s[end] == 59 then 1 else 0
    decreases end - i
  {
    if i < end {
      ScanNameMeans(s, i + 1, end);
    }
  }

  /** The name with its semicolon, if it has one. */
  ghost function Whole(name: Bytes, rest: Bytes): (w: Bytes) {
    name + rest[..Close(rest)]
  }

  /** What stands for a reference by name, if it is known as a whole. */
  ghost function Known(t: Tables, w: Bytes): (text: Option<Bytes>) {
    if w in t.entity && t.entity[w] != 0 then Some(Utf8(t.entity[w]))
    else if w in t.entity2 && t.entity2[w].0 != 0 then Some(Utf8(t.entity2[w].0) + Utf8(t.entity2[w].1))
    else None
  }

  /** The prefix of w of length k is the longest of two to six bytes that is known. */
  ghost predicate LongestKnown(t: Tables, w: Bytes, k: nat) {
    && 2 <= k <= 6 && k < |w| && w[..k] in t.entity && t.entity[w[..k]] != 0
    && forall j :: k < j <= 6 && j < |w| ==> !(w[..j] in t.entity && t.entity[w[..j]] != 0)
  }

  lemma NameScanned(t: Tables, name: Bytes, rest: Bytes)
    requires name != [] && IsName(name) && (rest != [] ==> !IsLetterOrDigit(rest[0]))
    ensures var s, w := [38] + name + rest, Whole(name, rest);
            && |s| > 1 && s[1] != 35 && ScanName(s, 1) == 1 + |w| && s[1..1 + |w|] == w && s[1 + |w|..] == rest[Close(rest)..]
  {
    var s := [38] + name + rest;
    forall k | 1 <= k < 1 + |name| ensures IsLetterOrDigit(s[k]) {
      assert s[k] == name[k - 1];
    }
    ScanNameMeans(s, 1, 1 + |name|);
    assert s[1] == name[0];
  }

  /** A known name stands for its character or characters, except in an attribute before an equals sign. */
  lemma NamedMeans(t: Tables, name: Bytes, rest: Bytes, attribute: bool)
    requires name != [] && IsName(name) && (rest != [] ==> !IsLetterOrDigit(rest[0]))
    ensures var w := Whole(name, rest);
            var shut := attribute && rest != [] && rest[0] == 61;
            && (!shut && Known(t, w).Some? ==>
                  Unescaped(t, [38] + name + rest, attribute) == Known(t, w).value + Unescaped(t, rest[Close(rest)..], attribute))
            && (shut || (attribute && Known(t, w).None?) ==>
                  Unescaped(t, [38] + name + rest, attribute) == [38] + w + Unescaped(t, rest[Close(rest)..], attribute))
  {
    hide Unescaped, ScanName, KnownPrefix, Utf8, IsName;
    var s, w := [38] + name + rest, Whole(name, rest);
    NameScanned(t, name, rest);
    assert s[..1 + |w|] == [38] + w;
    LastOfWhole(name, rest);
    UnescapedNext(t, [], s, attribute);
    Alone(t, s, attribute, NamedRef(t, s, attribute).text, s[NamedRef(t, s, attribute).used..]);
  }

  lemma LastOfWhole(name: Bytes, rest: Bytes)
    requires name != [] && IsName(name)
    ensures var w := Whole(name, rest); w != [] && (w[|w| - 1] == 59 <==> rest != [] && rest[0] == 59)
    ensures rest != [] && rest[0] == 61 ==> Whole(name, rest) == name && Close(rest) == 0
  {
    assert IsLetterOrDigit(name[|name| - 1]);
  }

  /** In text, the longest known prefix of an unknown name stands for its character, and the rest of the name stays. */
  lemma PrefixMeans(t: Tables, name: Bytes, rest: Bytes)
    requires name != [] && IsName(name) && (rest != [] ==> !IsLetterOrDigit(rest[0])) && Known(t, Whole(name, rest)).None?
    ensures var w := Whole(name, rest);
            && (forall k: nat :: LongestKnown(t, w, k) ==>
                  Unescaped(t, [38] + name + rest, false)
                  == Utf8(t.entity[w[..k]]) + Unescaped(t, w[k..] + rest[Close(rest)..], false))
            && ((forall k: nat :: !LongestKnown(t, w, k)) ==>
                  Unescaped(t, [38] + name + rest, false) == [38] + w + Unescaped(t, rest[Close(rest)..], false))
  {
    hide Unescaped, Reference, Utf8, IsName, Known, LongestKnown, Whole;
    var s, w := [38] + name + rest, Whole(name, rest);
    NameScanned(t, name, rest);
    UnescapedNext(t, [], s, false);
    var ref := Reference(t, s, false);
    Alone(t, s, false, ref.text, s[ref.used..]);
    PrefixRead(t, s, w);
    forall k: nat | LongestKnown(t, w, k) ensures k <= |w| && s[k + 1..] == w[k..] + rest[Close(rest)..] {
      Cut(s, w, k, rest[Close(rest)..]);
    }
  }

  lemma Cut(s: Bytes, w: Bytes, k: nat, tail: Bytes)
    requires k <= |w| < |s| && s[1..1 + |w|] == w && s[1 + |w|..] == tail
    ensures s[k + 1..] == w[k..] + tail
  {
    assert s[1..] == w + tail;
    assert s[k + 1..] == s[1..][k..];
  }

  lemma PrefixRead(t: Tables, s: Bytes, w: Bytes)
    requires |s| > 1 && s[0] == 38 && s[1] != 35 && w != [] && |w| < |s| && ScanName(s, 1) == 1 + |w| && s[1..1 + |w|] == w
    requires Known(t, w).None?
    ensures forall k: nat :: LongestKnown(t, w, k) ==> k < |w| && w[..k] in t.entity && Reference(t, s, false) == Ref(Utf8(t.entity[w[..k]]), k + 1)
    ensures (forall k: nat :: !LongestKnown(t, w, k)) ==> Reference(t, s, false) == Ref([38] + w, 1 + |w|)
  {
    hide Reference, KnownPrefix, Utf8, Known;
    PrefixFound(t, w);
    UnknownRead(t, s, w);
  }

  lemma UnknownRead(t: Tables, s: Bytes, w: Bytes)
    requires |s| > 1 && s[0] == 38 && s[1] != 35 && w != [] && |w| < |s| && ScanName(s, 1) == 1 + |w| && s[1..1 + |w|] == w
    requires Known(t, w).None?
    ensures var k := KnownPrefix(t, w, Min(|w| - 1, 6));
            Reference(t, s, false) == if k.Some? then Ref(Utf8(t.One(w[..k.value])), k.value + 1) else Ref([38] + w, 1 + |w|)
  {
    hide ScanName, KnownPrefix, Utf8;
    assert s[..1 + |w|] == [38] + w;
  }

  lemma PrefixFound(t: Tables, w: Bytes)
    requires w != []
    ensures var r := KnownPrefix(t, w, Min(|w| - 1, 6));
            && (r.Some? ==> LongestKnown(t, w, r.value))
            && (forall k: nat :: LongestKnown(t, w, k) ==> r == Some(k))
  {
    hide KnownPrefix;
    var r := KnownPrefix(t, w, Min(|w| - 1, 6));
    forall k: nat | LongestKnown(t, w, k) ensures r == Some(k) {
      assert t.One(w[..k]) != 0;
    }
    if r.Some? {
      forall j | r.value < j <= 6 && j < |w| ensures !(w[..j] in t.entity && t.entity[w[..j]] != 0) {
        assert t.One(w[..j]) == 0;
      }
    }
  }

  /** An ampersand that starts no reference, and any other byte, stays as it is. */
  lemma OthersStay(t: Tables, c: Byte, rest: Bytes, attribute: bool)
    requires c == 38 ==> rest == [] || (rest[0] != 35 && rest[0] != 59 && !IsLetterOrDigit(rest[0]))
    ensures Unescaped(t, [c] + rest, attribute) == [c] + Unescaped(t, rest, attribute)
  {
    hide Unescaped, KnownPrefix, Utf8;
    var s := [c] + rest;
    assert s[1..] == rest;
    UnescapedNext(t, [], s, attribute);
    if c == 38 && rest != [] {
      ScanNameMeans(s, 1, 1);
      assert s[1..1] == [] && s[..1] == [38];
    }
    Alone(t, s, attribute, [c], rest);
  }
}
