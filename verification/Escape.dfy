/** html/escape.go: escaping of text and in-place unescaping of character references. */
module Escape {
  import opened Common

  const AMP: Byte := 38
  const APOS: Byte := 39
  const LT: Byte := 60
  const GT: Byte := 62
  const QUOT: Byte := 34
  const CR: Byte := 13
  const HASH: Byte := 35
  const SEMICOLON: Byte := 59
  const EQUALS: Byte := 61

  const LONGEST_WITHOUT_SEMICOLON := 6

  // ----- UTF-8 and the tables -----

  /** The bytes utf8.EncodeRune writes. */
  function Utf8(x: int): (s: Bytes)
    ensures 1 <= |s| <= 4
    ensures 0 <= x < 0x80 ==> s == [x]
  {
    if 0 <= x <= 0x7f then [x]
    else if 0 <= x <= 0x7ff then [0xc0 + x / 0x40, 0x80 + x % 0x40]
    else if x < 0 || x > 0x10ffff || 0xd800 <= x <= 0xdfff then [0xef, 0xbf, 0xbd]
    else if x <= 0xffff then [0xe0 + x / 0x1000, 0x80 + x / 0x40 % 0x40, 0x80 + x % 0x40]
    else [0xf0 + x / 0x4_0000, 0x80 + x / 0x1000 % 0x40, 0x80 + x / 0x40 % 0x40, 0x80 + x % 0x40]
  }

  const REPLACEMENTS: seq<int> :=
    [0x20ac, 0x81, 0x201a, 0x192, 0x201e, 0x2026, 0x2020, 0x2021, 0x2c6, 0x2030, 0x160, 0x2039, 0x152, 0x8d, 0x17d, 0x8f,
     0x90, 0x2018, 0x2019, 0x201c, 0x201d, 0x2022, 0x2013, 0x2014, 0x2dc, 0x2122, 0x161, 0x203a, 0x153, 0x9d, 0x17e, 0x178]

  /** The named character references: of one code point and of two. */
  datatype Tables = Tables(entity: map<Bytes, int>, entity2: map<Bytes, (int, int)>) {
    function One(name: Bytes): (x: int) {
      if name in entity then entity[name] else 0
    }

    function Two(name: Bytes): (x: (int, int)) {
      if name in entity2 then entity2[name] else (0, 0)
    }

    /** What the tables of the package satisfy: three values, and no replacement wider than its reference. */
    ghost predicate Sound() {
      && One([97, 109, 112, SEMICOLON]) == AMP
      && One([108, 116, SEMICOLON]) == LT
      && One([103, 116, SEMICOLON]) == GT
      && (forall name :: name in entity ==> |Utf8(entity[name])| <= |name| + 1)
      && (forall name :: name in entity2 ==> |Utf8(entity2[name].0)| + |Utf8(entity2[name].1)| <= |name| + 1)
    }
  }

  // ----- Reading one reference -----

  /** What stands for the reference at the front, and how many bytes the reference has. */
  datatype Ref = Ref(text: Bytes, used: nat)

  /** Wrap-around of a rune, which is an int32. */
  function Wrapped(x: int): (r: Int32)
    ensures InInt32(x) ==> r == x
  {
    (x + 0x8000_0000) % 0x1_0000_0000 - 0x8000_0000
  }

  function DigitValue(c: Byte, hex: bool): (d: Option<nat>) {
    if 48 <= c <= 57 then Some(c - 48)
    else if hex && 97 <= c <= 102 then Some(c - 97 + 10)
    else if hex && 65 <= c <= 70 then Some(c - 65 + 10)
    else None
  }

  function ScanNumber(s: Bytes, i: nat, hex: bool, x: Int32): (r: (Int32, nat))
    requires i <= |s|
    ensures i <= r.1 <= |s|
    decreases |s| - i
  {
    if i == |s| then (x, i)
    else if DigitValue(s[i], hex).Some? then
      ScanNumber(s, i + 1, hex, Wrapped((if hex then 16 else 10) * x + DigitValue(s[i], hex).value))
    else if s[i] == SEMICOLON then (x, i + 1)
    else (x, i)
  }

  /** Code points that references may not name are replaced. */
  function Mended(x: Int32): (r: int) {
    if 0x80 <= x <= 0x9f then REPLACEMENTS[x - 0x80]
    else if x == 0 || 0xd800 <= x <= 0xdfff || x > 0x10ffff then 0xfffd
    else x
  }

  function NumericRef(s: Bytes): (r: Ref)
    requires |s| > 1
    ensures 1 <= r.used <= |s| && |r.text| <= r.used
  {
    if |s| <= 3 then Ref(s[..1], 1)
    else
      var hex := s[2] == 120 || s[2] == 88;
      var (x, i) := ScanNumber(s, if hex then 3 else 2, hex, 0);
      if i <= 3 then Ref(s[..1], 1) else Ref(Utf8(Mended(x)), i)
  }

  predicate IsAlphanumeric(c: Byte) {
    97 <= c <= 122 || 65 <= c <= 90 || 48 <= c <= 57
  }

  function ScanName(s: Bytes, i: nat): (r: nat)
    requires i <= |s|
    ensures i <= r <= |s|
    decreases |s| - i
  {
    if i == |s| then i
    else if IsAlphanumeric(s[i]) then ScanName(s, i + 1)
    else if s[i] == SEMICOLON then i + 1
    else i
  }

  /** The longest prefix of name, of at most j and at least two bytes, that is a reference. */
  function KnownPrefix(t: Tables, name: Bytes, j: int): (r: Option<nat>)
    requires j < |name|
    ensures r.Some? ==> 1 < r.value <= j && t.One(name[..r.value]) != 0
    ensures forall k :: (if r.Some? then r.value else 1) < k <= j ==> t.One(name[..k]) == 0
    decreases if j > 1 then j else 1
  {
    if j <= 1 then None
    else if t.One(name[..j]) != 0 then Some(j)
    else KnownPrefix(t, name, j - 1)
  }

  function NamedRef(t: Tables, s: Bytes, attribute: bool): (r: Ref)
    requires |s| > 1
    ensures 1 <= r.used <= |s|
  {
    var i := ScanName(s, 1);
    var name := s[1..i];
    if name == [] then Ref(s[..i], i)
    else if attribute && name[|name| - 1] != SEMICOLON && i < |s| && s[i] == EQUALS then Ref(s[..i], i)
    else if t.One(name) != 0 then Ref(Utf8(t.One(name)), i)
    else if t.Two(name).0 != 0 then Ref(Utf8(t.Two(name).0) + Utf8(t.Two(name).1), i)
    else if attribute then Ref(s[..i], i)
    else
      match KnownPrefix(t, name, Min(|name| - 1, LONGEST_WITHOUT_SEMICOLON))
      case Some(j) => Ref(Utf8(t.One(name[..j])), j + 1)
      case None => Ref(s[..i], i)
  }

  /** The reference at the front of s, which starts with an ampersand. */
  function Reference(t: Tables, s: Bytes, attribute: bool): (r: Ref)
    requires s != []
    ensures 1 <= r.used <= |s|
  {
    if |s| <= 1 then Ref(s[..1], 1)
    else if s[1] == HASH then NumericRef(s)
    else NamedRef(t, s, attribute)
  }

  /** A reference is never shorter than what stands for it. */
  lemma NotWider(t: Tables, s: Bytes, attribute: bool)
    requires t.Sound() && s != []
    ensures var r := Reference(t, s, attribute); |r.text| <= r.used
  {
    if |s| > 1 && s[1] != HASH {
      var i := ScanName(s, 1);
      var name := s[1..i];
      if name != [] && !attribute {
        var k := KnownPrefix(t, name, Min(|name| - 1, LONGEST_WITHOUT_SEMICOLON));
        assert k.Some? ==> name[..k.value] in t.entity;
      }
    }
  }

  /** Out-of-place unescaping. */
  function Unescaped(t: Tables, s: Bytes, attribute: bool): (r: Bytes) {
    if s == [] then []
    else if s[0] == AMP then
      var ref := Reference(t, s, attribute);
      ref.text + Unescaped(t, s[ref.used..], attribute)
    else [s[0]] + Unescaped(t, s[1..], attribute)
  }

  // ----- Escaping -----

  predicate IsEscaped(c: Byte) {
    c in {AMP, APOS, LT, GT, QUOT, CR}
  }

  function EscapeOf(c: Byte): (r: Bytes) {
    if c == AMP then [AMP, 97, 109, 112, SEMICOLON]
    else if c == APOS then [AMP, HASH, 51, 57, SEMICOLON]
    else if c == LT then [AMP, 108, 116, SEMICOLON]
    else if c == GT then [AMP, 103, 116, SEMICOLON]
    else if c == QUOT then [AMP, HASH, 51, 52, SEMICOLON]
    else if c == CR then [AMP, HASH, 49, 51, SEMICOLON]
    else [c]
  }

  function Escaped(s: Bytes): (r: Bytes) {
    if s == [] then [] else EscapeOf(s[0]) + Escaped(s[1..])
  }

  /** A numeric reference of two digits with its semicolon. */
  lemma NumericEscape(a: Byte, b: Byte, rest: Bytes)
    requires 48 <= a <= 57 && 48 <= b <= 57
    ensures ScanNumber([AMP, HASH, a, b, SEMICOLON] + rest, 2, false, 0) == ((a - 48) * 10 + (b - 48), 5)
  {
    var s := [AMP, HASH, a, b, SEMICOLON] + rest;
    var x := a - 48;
    var y := x * 10 + (b - 48);
    assert ScanNumber(s, 4, false, y) == (y, 5);
    assert ScanNumber(s, 3, false, x) == ScanNumber(s, 4, false, y);
    assert ScanNumber(s, 2, false, 0) == ScanNumber(s, 3, false, x);
  }

  /** The reference that escapes a byte reads back as that byte, whatever follows it. */
  lemma EscapeReads(t: Tables, c: Byte, rest: Bytes, attribute: bool)
    requires t.Sound() && IsEscaped(c)
    ensures Reference(t, EscapeOf(c) + rest, attribute) == Ref([c], |EscapeOf(c)|)
  {
    hide ScanNumber, REPLACEMENTS;
    var s := EscapeOf(c) + rest;
    if c == APOS {
      NumericEscape(51, 57, rest);
    } else if c == QUOT {
      NumericEscape(51, 52, rest);
    } else if c == CR {
      NumericEscape(49, 51, rest);
    } else if c == AMP {
      assert ScanName(s, 4) == 5;
      assert ScanName(s, 2) == ScanName(s, 3) == 5;
      assert s[1..5] == [97, 109, 112, SEMICOLON];
    } else {
      assert ScanName(s, 3) == 4;
      assert ScanName(s, 1) == ScanName(s, 2) == 4;
      assert s[1..4] == [s[1], 116, SEMICOLON];
    }
  }

  /** Unescaping undoes escaping, in text and in attribute values. */
  lemma {:induction false} RoundTrip(t: Tables, s: Bytes, attribute: bool)
    requires t.Sound()
    ensures Unescaped(t, Escaped(s), attribute) == s
  {
    hide Reference, Tables.Sound, Unescaped, EscapeOf, IsEscaped;
    if s == [] {
      UnescapedPlain(t, [], attribute);
    } else {
      RoundTrip(t, s[1..], attribute);
      EscapeUndone(t, s[0], Escaped(s[1..]), attribute);
      assert [s[0]] + s[1..] == s;
    }
  }

  /** One escaped byte, whatever follows. */
  lemma EscapeUndone(t: Tables, c: Byte, rest: Bytes, attribute: bool)
    requires t.Sound()
    ensures Unescaped(t, EscapeOf(c) + rest, attribute) == [c] + Unescaped(t, rest, attribute)
  {
    hide Reference, Tables.Sound, Unescaped;
    var s := EscapeOf(c) + rest;
    assert s[|EscapeOf(c)|..] == rest;
    UnescapedNext(t, [], s, attribute);
    if IsEscaped(c) {
      EscapeReads(t, c, rest, attribute);
      assert s[0] == AMP;
    } else {
      assert s[0] == c && s[1..] == rest;
    }
    assert [] + Unescaped(t, s, attribute) == Unescaped(t, s, attribute);
    assert [] + [c] + Unescaped(t, rest, attribute) == [c] + Unescaped(t, rest, attribute);
  }

  // ----- The methods -----

  method ReadNumber(s: Bytes, start: nat, hex: bool) returns (x: Int32, i: nat)
    requires start <= |s|
    ensures (x, i) == ScanNumber(s, start, hex, 0)
  {
    x, i := 0, start;
    while i < |s|
      invariant start <= i <= |s|
      invariant ScanNumber(s, i, hex, x) == ScanNumber(s, start, hex, 0)
    {
      var d := DigitValue(s[i], hex);
      if d.None? {
        if s[i] == SEMICOLON {
          return x, i + 1;
        }
        return x, i;
      }
      x, i := Wrapped((if hex then 16 else 10) * x + d.value), i + 1;
    }
  }

  method ReadName(s: Bytes) returns (i: nat)
    requires |s| > 1
    ensures i == ScanName(s, 1)
  {
    i := 1;
    while i < |s|
      invariant 1 <= i <= |s|
      invariant ScanName(s, i) == ScanName(s, 1)
    {
      if !IsAlphanumeric(s[i]) {
        if s[i] == SEMICOLON {
          return i + 1;
        }
        return i;
      }
      i := i + 1;
    }
  }

  method FindPrefix(t: Tables, name: Bytes) returns (r: Option<nat>)
    requires name != []
    ensures r == KnownPrefix(t, name, Min(|name| - 1, LONGEST_WITHOUT_SEMICOLON))
  {
    var j := Min(|name| - 1, LONGEST_WITHOUT_SEMICOLON);
    while j > 1
      invariant j < |name|
      invariant KnownPrefix(t, name, j) == KnownPrefix(t, name, Min(|name| - 1, LONGEST_WITHOUT_SEMICOLON))
    {
      if t.One(name[..j]) != 0 {
        return Some(j);
      }
      j := j - 1;
    }
    return None;
  }

  /** Writes text at dst; nothing behind it changes. */
  method Put(b: array<Byte>, dst: nat, text: Bytes)
    requires dst + |text| <= b.Length
    modifies b
    ensures b[..dst + |text|] == old(b[..dst]) + text
    ensures forall k :: dst + |text| <= k < b.Length ==> b[k] == old(b[k])
  {
    forall k | 0 <= k < |text| {
      b[dst + k] := text[k];
    }
  }

  /** Reads the reference at src and writes what stands for it at dst, over bytes already read. */
  method UnescapeEntity(t: Tables, b: array<Byte>, dst: nat, src: nat, attribute: bool) returns (dst1: nat, src1: nat)
    requires t.Sound() && dst <= src < b.Length && b[src] == AMP
    modifies b
    ensures var ref := Reference(t, old(b[src..]), attribute);
            && src1 == src + ref.used && src < src1 <= b.Length
            && dst1 == dst + |ref.text| && dst1 <= src1
            && b[..dst1] == old(b[..dst]) + ref.text
    ensures forall k :: src1 <= k < b.Length ==> b[k] == old(b[k])
  {
    hide KnownPrefix, ScanName, ScanNumber, Mended, Utf8;
    var s := b[src..];
    NotWider(t, s, attribute);
    var text, used := s[..1], 1;
    if |s| <= 1 {
    } else if s[1] == HASH {
      text, used := UnescapeNumber(s);
    } else {
      text, used := UnescapeName(t, s, attribute);
    }
    Put(b, dst, text);
    return dst + |text|, src + used;
  }

  /** The part of UnescapeEntity for references by number. */
  method UnescapeNumber(s: Bytes) returns (text: Bytes, used: nat)
    requires |s| > 1
    ensures Ref(text, used) == NumericRef(s)
  {
    hide ScanNumber;
    if |s| <= 3 {
      return s[..1], 1;
    }
    var hex := s[2] == 120 || s[2] == 88;
    var x, i := ReadNumber(s, if hex then 3 else 2, hex);
    if i <= 3 {
      return s[..1], 1;
    }
    var y: int := x;
    if 0x80 <= x <= 0x9f {
      y := REPLACEMENTS[x - 0x80];
    } else if x == 0 || 0xd800 <= x <= 0xdfff || x > 0x10ffff {
      y := 0xfffd;
    }
    return Utf8(y), i;
  }

  /** The part of UnescapeEntity for references by name. */
  method UnescapeName(t: Tables, s: Bytes, attribute: bool) returns (text: Bytes, used: nat)
    requires |s| > 1
    ensures Ref(text, used) == NamedRef(t, s, attribute)
  {
    hide KnownPrefix, ScanName, Utf8;
    var i := ReadName(s);
    var name := s[1..i];
    if name == [] {
    } else if attribute && name[|name| - 1] != SEMICOLON && i < |s| && s[i] == EQUALS {
    } else if t.One(name) != 0 {
      return Utf8(t.One(name)), i;
    } else if t.Two(name).0 != 0 {
      return Utf8(t.Two(name).0) + Utf8(t.Two(name).1), i;
    } else if !attribute {
      var j := FindPrefix(t, name);
      if j.Some? {
        return Utf8(t.One(name[..j.value])), j.value + 1;
      }
    }
    return s[..i], i;
  }

  /** Unescapes in place; the result is b[..n]. */
  method Unescape(t: Tables, b: array<Byte>, attribute: bool) returns (n: nat)
    requires t.Sound()
    modifies b
    ensures n <= b.Length && b[..n] == Unescaped(t, old(b[..]), attribute)
  {
    hide Reference, Tables.Sound, Unescaped;
    ghost var was := b[..];
    assert was[0..] == was && was[..0] == [];
    for i := 0 to b.Length
      invariant b[..] == was
      invariant Unescaped(t, was, attribute) == was[..i] + Unescaped(t, was[i..], attribute)
    {
      if b[i] == AMP {
        n := UnescapeFrom(t, b, i, attribute);
        return n;
      }
      UnescapedNext(t, was[..i], was[i..], attribute);
      assert was[..i] + [was[i]] == was[..i + 1] && was[i..][1..] == was[i + 1..];
    }
    assert was[b.Length..] == [];
    UnescapedPlain(t, was[b.Length..], attribute);
    return b.Length;
  }

  /** One turn: what is done, then the rest. */
  lemma UnescapedNext(t: Tables, done: Bytes, rest: Bytes, attribute: bool)
    requires rest != []
    ensures var ref := if rest[0] == AMP then Reference(t, rest, attribute) else Ref([rest[0]], 1);
            && ref.used <= |rest|
            && done + Unescaped(t, rest, attribute) == done + ref.text + Unescaped(t, rest[ref.used..], attribute)
  {
    hide Reference;
    var ref := if rest[0] == AMP then Reference(t, rest, attribute) else Ref([rest[0]], 1);
    var more := Unescaped(t, rest[ref.used..], attribute);
    assert Unescaped(t, rest, attribute) == ref.text + more;
    assert done + (ref.text + more) == done + ref.text + more;
  }

  /** The loop of Unescape from the first ampersand on: everything before dst is done, everything from src is unread. */
  method UnescapeFrom(t: Tables, b: array<Byte>, start: nat, attribute: bool) returns (n: nat)
    requires t.Sound() && start <= b.Length
    modifies b
    ensures n <= b.Length && b[..n] == old(b[..start]) + Unescaped(t, old(b[start..]), attribute)
  {
    hide Reference, Tables.Sound, Unescaped;
    ghost var was, want := b[..], b[..start] + Unescaped(t, b[start..], attribute);
    var dst, src := start, start;
    while src < b.Length
      invariant start <= dst <= src <= b.Length
      invariant b[src..] == was[src..]
      invariant b[..dst] + Unescaped(t, was[src..], attribute) == want
    {
      ghost var done, rest := b[..dst], was[src..];
      if b[src] == AMP {
        dst, src := UnescapeEntity(t, b, dst, src, attribute);
        UnescapedNext(t, done, rest, attribute);
        assert rest[Reference(t, rest, attribute).used..] == was[src..];
      } else {
        Put(b, dst, [b[src]]);
        dst, src := dst + 1, src + 1;
        UnescapedNext(t, done, rest, attribute);
        assert rest[1..] == was[src..];
      }
    }
    assert was[src..] == [];
    UnescapedPlain(t, was[src..], attribute);
    return dst;
  }

  method IndexAny(s: Bytes) returns (i: int)
    ensures -1 <= i < |s|
    ensures i >= 0 ==> IsEscaped(s[i]) && forall k :: 0 <= k < i ==> !IsEscaped(s[k])
    ensures i == -1 ==> forall k :: 0 <= k < |s| ==> !IsEscaped(s[k])
  {
    for k := 0 to |s|
      invariant forall j :: 0 <= j < k ==> !IsEscaped(s[j])
    {
      if IsEscaped(s[k]) {
        return k;
      }
    }
    return -1;
  }

  lemma PlainByte(c: Byte)
    requires !IsEscaped(c)
    ensures EscapeOf(c) == [c]
  {
  }

  /** Bytes that need no escape are copied. */
  lemma {:induction false} EscapedPlain(s: Bytes, rest: Bytes)
    requires forall k :: 0 <= k < |s| ==> !IsEscaped(s[k])
    ensures Escaped(s + rest) == s + Escaped(rest)
  {
    hide EscapeOf, IsEscaped;
    if s == [] {
      assert s + rest == rest;
    } else {
      assert (s + rest)[1..] == s[1..] + rest;
      EscapedPlain(s[1..], rest);
      PlainByte(s[0]);
    }
  }

  /** What is written to a writer that does not fail. */
  method WriteEscaped(s0: Bytes) returns (out: Bytes)
    ensures out == Escaped(s0)
  {
    var s := s0;
    out := [];
    var i := IndexAny(s);
    while i != -1
      invariant -1 <= i < |s|
      invariant i >= 0 ==> IsEscaped(s[i]) && forall k :: 0 <= k < i ==> !IsEscaped(s[k])
      invariant i == -1 ==> forall k :: 0 <= k < |s| ==> !IsEscaped(s[k])
      invariant out + Escaped(s) == Escaped(s0)
      decreases |s|
    {
      ghost var before, whole := out, s;
      EscapedPlain(s[..i], s[i..]);
      assert s[..i] + s[i..] == s && s[i..][1..] == s[i + 1..];
      out := out + s[..i];
      var c := s[i];
      s := s[i + 1..];
      out := out + EscapeOf(c);
      assert before + (whole[..i] + (EscapeOf(c) + Escaped(s))) == out + Escaped(s);
      i := IndexAny(s);
    }
    EscapedPlain(s, []);
    assert s + [] == s;
    out := out + s;
  }

  method EscapeString(s: Bytes) returns (r: Bytes)
    ensures r == Escaped(s)
    ensures forall t: Tables, attribute :: t.Sound() ==> Unescaped(t, r, attribute) == s
  {
    var i := IndexAny(s);
    if i == -1 {
      EscapedPlain(s, []);
      assert s + [] == s;
      r := s;
    } else {
      r := WriteEscaped(s);
    }
    forall t: Tables, attribute | t.Sound() {
      RoundTrip(t, s, attribute);
    }
  }

  lemma {:induction false} UnescapedPlain(t: Tables, s: Bytes, attribute: bool)
    requires AMP !in s
    ensures Unescaped(t, s, attribute) == s
  {
    if s != [] {
      assert s[0] in s;
      UnescapedPlain(t, s[1..], attribute);
    }
  }

  method UnescapeString(t: Tables, s: Bytes) returns (r: Bytes)
    requires t.Sound()
    ensures r == Unescaped(t, s, false)
  {
    for i := 0 to |s|
      invariant AMP !in s[..i]
    {
      if s[i] == AMP {
        var b := new Byte[|s|](k requires 0 <= k < |s| => s[k]);
        assert b[..] == s;
        var n := Unescape(t, b, false);
        return b[..n];
      }
    }
    UnescapedPlain(t, s, false);
    return s;
  }
}
