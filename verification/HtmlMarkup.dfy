/**
  * Markup byte by byte: the tokens that written tags, comments, declarations and texts read
  * as, wherever they stand in the stream.
  */
module HtmlMarkup {
  import opened Common
  import opened HtmlScan

  // ----- Bytes at a position -----

  /** The text stands at p. */
  ghost predicate Here(s: Bytes, p: nat, text: Bytes) {
    p + |text| <= |s| && s[p..p + |text|] == text
  }

  lemma HereAt(s: Bytes, p: nat, text: Bytes)
    requires Here(s, p, text)
    ensures forall i :: 0 <= i < |text| ==> s[p + i] == text[i]
  {
    forall i | 0 <= i < |text| ensures s[p + i] == text[i] {
      assert s[p..p + |text|][i] == text[i];
    }
  }

  lemma HereBoth(s: Bytes, p: nat, a: Bytes, b: Bytes)
    requires Here(s, p, a + b)
    ensures Here(s, p, a) && Here(s, p + |a|, b)
  {
    var both := s[p..p + |a + b|];
    assert both[..|a|] == a && both[|a|..] == b;
    assert s[p..p + |a|] == both[..|a|] && s[p + |a|..p + |a| + |b|] == both[|a|..];
  }

  lemma {:induction false} FindIs(s: Bytes, p: nat, stop: Stopper, e: nat)
    requires p <= e <= |s| && (forall i :: p <= i < e ==> !stop.At(s[i])) && (e < |s| ==> stop.At(s[e]))
    ensures Find(s, p, stop) == e
    decreases e - p
  {
    if p < e {
      FindIs(s, p + 1, stop, e);
    }
  }

  ghost predicate Space(c: int) {
    c == 9 || c == 10 || c == 12 || c == 13 || c == 32
  }

  ghost predicate Letter(c: int) {
    65 <= c <= 90 || 97 <= c <= 122
  }

  // ----- Names, keys and values -----

  /** A tag name: a letter, then anything but white space, a slash or an angle. */
  ghost predicate IsName(name: Bytes) {
    name != [] && Letter(name[0]) && forall i :: 0 <= i < |name| ==> !Space(name[i]) && name[i] != 47 && name[i] != 62
  }

  ghost predicate IsKey(key: Bytes) {
    key != [] && forall i :: 0 <= i < |key| ==> !Space(key[i]) && key[i] != 47 && key[i] != 61 && key[i] != 62
  }

  datatype Quote = Double | Single | Bare

  /** An attribute as it is written. */
  datatype Written = Written(key: Bytes, val: Bytes, quote: Quote) {
    ghost predicate Valid() {
      && IsKey(key)
      && (quote == Double ==> 34 !in val)
      && (quote == Single ==> 39 !in val)
      && (quote == Bare ==> val != [] && val[0] != 34 && val[0] != 39 && forall i :: 0 <= i < |val| ==> !Space(val[i]) && val[i] != 62)
    }

    ghost function Mark(): (m: Bytes) {
      if quote == Double then [34] else if quote == Single then [39] else []
    }

    ghost function Text(): (t: Bytes) {
      key + [61] + Mark() + val + Mark()
    }

    /** Its spans, if it is written at p. */
    ghost function Spans(p: nat): (a: Attr) {
      var v := p + |key| + 1 + |Mark()|;
      Attr(Span(p, p + |key|), Span(v, v + |val|))
    }
  }

  lemma KeyMeans(s: Bytes, p: nat, key: Bytes)
    requires IsKey(key) && Here(s, p, key) && p + |key| < |s| && s[p + |key|] == 61
    ensures AttrKey(s, p) == Found(Span(p, p + |key|), p + |key|, false)
  {
    HereAt(s, p, key);
    forall i | p <= i < p + |key| ensures !EndOfKey.At(s[i]) {
      assert s[p + (i - p)] == key[i - p];
    }
    FindIs(s, p, EndOfKey, p + |key|);
  }

  /** A value after its equals sign at p; what follows it is white space or an angle, if it is not quoted. */
  lemma ValueMeans(s: Bytes, p: nat, w: Written)
    requires w.Valid() && Here(s, p, [61] + w.Mark() + w.val + w.Mark())
    requires var e := p + 1 + 2 * |w.Mark()| + |w.val|; e < |s| && (w.quote == Bare ==> Space(s[e]) || s[e] == 62)
    ensures var v, e := p + 1 + |w.Mark()|, p + 1 + 2 * |w.Mark()| + |w.val|;
            AttrVal(s, p) == Found(Span(v, v + |w.val|), if w.quote == Bare && Space(s[e]) then e + 1 else e, false)
  {
    hide Find, Here;
    var r := p + 1;
    var text := [61] + w.Mark() + w.val + w.Mark();
    HereAt(s, p, text);
    assert s[p + 0] == text[0] && s[p + 1] == text[1];
    assert !IsSpace(s[r]) && SkipSpace(s, p) == p && SkipSpace(s, r) == r;
    if w.quote == Bare {
      forall i | r + 1 <= i < r + |w.val| ensures !EndOfValue.At(s[i]) {
        assert s[p + (i - p)] == text[i - p] == w.val[i - r];
      }
      assert s[r] == w.val[0];
      FindIs(s, r + 1, EndOfValue, r + |w.val|);
    } else {
      var q := w.Mark()[0];
      forall i | r + 1 <= i < r + 1 + |w.val| ensures s[i] != q {
        assert s[p + (i - p)] == text[i - p] == w.val[i - r - 1];
        assert w.val[i - r - 1] in w.val;
      }
      assert s[p + (2 + |w.val|)] == text[2 + |w.val|] == q;
      FindIs(s, r + 1, One(q), r + 1 + |w.val|);
    }
  }

  // ----- Lists of attributes -----

  ghost predicate AllValid(list: seq<Written>) {
    forall i :: 0 <= i < |list| ==> list[i].Valid()
  }

  /** The attributes separated by spaces, then the end of the tag. */
  ghost function ListText(list: seq<Written>, close: Bytes): (t: Bytes) {
    if list == [] then close
    else list[0].Text() + (if |list| > 1 then [32] else []) + ListText(list[1..], close)
  }

  ghost function ListSpans(list: seq<Written>, p: nat): (a: seq<Attr>) {
    if list == [] then []
    else [list[0].Spans(p)] + ListSpans(list[1..], p + |list[0].Text()| + if |list| > 1 then 1 else 0)
  }

  /** An angle, or a slash and an angle; a value without quotes would take the slash. */
  ghost predicate Closes(list: seq<Written>, close: Bytes) {
    close == [62] || (close == [47, 62] && (list != [] ==> list[|list| - 1].quote != Bare))
  }

  lemma OneMeans(s: Bytes, p: nat, w: Written, sep: Bytes, next: Bytes)
    requires w.Valid() && (sep == [] || sep == [32]) && next != [] && !Space(next[0])
    requires Here(s, p, w.Text() + sep + next) && (w.quote == Bare && sep == [] ==> next[0] == 62)
    ensures p < |s| && s[p] != 62 && OneAttr(s, p) == (w.Spans(p), p + |w.Text()| + |sep|)
  {
    hide AttrKey, AttrVal, Written.Valid, SkipSpace, Here;
    var k, e := p + |w.key|, p + |w.Text()|;
    Parts(s, p, w, sep, next);
    KeyMeans(s, p, w.key);
    ValueMeans(s, k, w);
    SkipTo(s, e, e + |sep|);
    SkipTo(s, e + |sep|, e + |sep|);
  }

  /** An attribute, a separator and what follows, piece by piece. */
  lemma Parts(s: Bytes, p: nat, w: Written, sep: Bytes, next: Bytes)
    requires w.Valid() && |sep| <= 1 && next != [] && Here(s, p, w.Text() + sep + next)
    ensures |w.Text()| == |w.key| + 1 + 2 * |w.Mark()| + |w.val|
    ensures IsKey(w.key) && Here(s, p, w.key) && Here(s, p + |w.key|, [61] + w.Mark() + w.val + w.Mark())
    ensures var e := p + |w.Text()|;
            && e + |sep| < |s| && s[p] == w.key[0] && s[p] != 62 && s[p + |w.key|] == 61
            && s[e + |sep|] == next[0] && (sep != [] ==> s[e] == sep[0])
  {
    hide Here;
    var t, v := w.Text(), [61] + w.Mark() + w.val + w.Mark();
    HereBoth(s, p, t + sep, next);
    HereBoth(s, p, t, sep);
    TextSplit(w);
    HereBoth(s, p, w.key, v);
    HereFirst(s, p, w.key);
    HereFirst(s, p + |w.key|, v);
    HereFirst(s, p + |t + sep|, next);
    if sep != [] {
      HereFirst(s, p + |t|, sep);
    }
  }

  lemma TextSplit(w: Written)
    ensures w.Text() == w.key + ([61] + w.Mark() + w.val + w.Mark())
    ensures |w.Text()| == |w.key| + 1 + 2 * |w.Mark()| + |w.val|
  {
  }

  lemma HereFirst(s: Bytes, p: nat, text: Bytes)
    requires Here(s, p, text) && text != []
    ensures p < |s| && s[p] == text[0]
  {
    HereAt(s, p, text);
    assert s[p + 0] == text[0];
  }

  lemma SkipTo(s: Bytes, p: nat, q: nat)
    requires p <= q <= p + 1 && q < |s| && !Space(s[q]) && (p < q ==> Space(s[p]))
    ensures SkipSpace(s, p) == q
  {
  }

  lemma NextStarts(list: seq<Written>, close: Bytes)
    requires AllValid(list) && Closes(list, close)
    ensures var t := ListText(list, close); t != [] && !Space(t[0])
  {
    if list != [] {
      assert list[0].Valid() && list[0].Text()[0] == list[0].key[0];
    }
  }

  lemma SlashMeans(s: Bytes, p: nat)
    requires Here(s, p, [47, 62])
    ensures p + 1 < |s| && s[p + 1] == 62 && OneAttr(s, p) == (Attr(Span(p, p), Span(p + 1, p + 1)), p + 1)
  {
    HereAt(s, p, [47, 62]);
    assert s[p + 0] == 47 && s[p + 1] == 62;
    FindIs(s, p, EndOfKey, p);
    SkipTo(s, p + 1, p + 1);
  }

  /** The attributes of a list are read back as their spans, in order. */
  lemma {:induction false} ListMeans(s: Bytes, p: nat, list: seq<Written>, close: Bytes, pending: Attr, attr: seq<Attr>)
    requires AllValid(list) && Closes(list, close) && Here(s, p, ListText(list, close))
    ensures p <= |s|
    ensures var a := TagAttrs(s, p, true, pending, attr);
            a.pos == p + |ListText(list, close)| && !a.failed && a.attr == attr + ListSpans(list, p)
    decreases |list|
  {
    hide OneAttr, Written.Text, Written.Spans, Written.Valid, TagAttrs, Here, AllValid;
    if list == [] {
      CloseMeans(s, p, close, pending, attr);
    } else {
      var w, sep, more := list[0], if |list| > 1 then [32] else [], list[1..];
      var next, a := p + |w.Text()| + |sep|, w.Spans(p);
      Tail(list, close);
      OneMeans(s, p, w, sep, ListText(more, close));
      HereBoth(s, p, w.Text() + sep, ListText(more, close));
      KeyKept(w, p);
      ListMeans(s, next, more, close, a, attr + [a]);
      TagAttrsStep(s, p, true, pending, attr);
      assert attr + [a] + ListSpans(more, next) == attr + ([a] + ListSpans(more, next));
    }
  }

  lemma Tail(list: seq<Written>, close: Bytes)
    requires list != [] && AllValid(list) && Closes(list, close)
    ensures list[0].Valid() && AllValid(list[1..]) && Closes(list[1..], close)
    ensures var t := ListText(list[1..], close); t != [] && !Space(t[0]) && (list[0].quote == Bare && |list| == 1 ==> t[0] == 62)
  {
    hide Written.Valid;
    NextStarts(list[1..], close);
  }

  lemma KeyKept(w: Written, p: nat)
    requires w.Valid()
    ensures w.Spans(p).key.start != w.Spans(p).key.end
  {
  }

  lemma CloseMeans(s: Bytes, p: nat, close: Bytes, pending: Attr, attr: seq<Attr>)
    requires (close == [62] || close == [47, 62]) && Here(s, p, close)
    ensures p <= |s|
    ensures var a := TagAttrs(s, p, true, pending, attr); a.pos == p + |close| && !a.failed && a.attr == attr + []
  {
    hide OneAttr, TagAttrs, Here;
    assert attr + [] == attr;
    HereFirst(s, p, close);
    TagAttrsStep(s, p, true, pending, attr);
    if close == [47, 62] {
      SlashMeans(s, p);
      TagAttrsStep(s, p + 1, true, OneAttr(s, p).0, attr);
    }
  }

  // ----- Tags -----

  /** Reading text or markup from z on, not in a raw element. */
  ghost predicate Reading(s: Bytes, z: View) {
    z.On(s) && !z.failed && z.tok.rawTag == []
  }

  /** The token of markup that opens at once. */
  lemma OpensAt(s: Bytes, z: View)
    requires Reading(s, z) && z.pos + 1 < |s| && s[z.pos] == 60
    requires var c := s[z.pos + 1]; Letter(c) || c == 47 || c == 33 || c == 63
    ensures NextToken(s, z) == Opened(s, Fresh(z))
  {
    hide Opened;
    TextEndStep(s, z.pos);
  }

  /** At the start of a token. */
  ghost function Fresh(z: View): (r: View) {
    z.(tok := z.tok.(start := z.pos, data := Span(z.pos, z.pos), textIsRaw := false, convertNUL := false))
  }

  lemma NameMeans(s: Bytes, p: nat, name: Bytes)
    requires IsName(name) && Here(s, p, name) && p + |name| < |s|
    requires var c := s[p + |name|]; Space(c) || c == 47 || c == 62
    ensures Find(s, p + 1, EndOfName) == p + |name|
  {
    HereAt(s, p, name);
    forall i | p + 1 <= i < p + |name| ensures !EndOfName.At(s[i]) {
      assert s[p + (i - p)] == name[i - p];
    }
    FindIs(s, p + 1, EndOfName, p + |name|);
  }

  /** What follows the name of a tag: the attributes, if there are any, and the end. */
  ghost function AfterName(list: seq<Written>, close: Bytes): (t: Bytes) {
    (if list == [] then [] else [32]) + ListText(list, close)
  }

  /** A start tag, written with its attributes. */
  ghost function TagText(name: Bytes, list: seq<Written>, close: Bytes): (t: Bytes) {
    [60] + name + AfterName(list, close)
  }

  /** The part of a tag after its first letter, with or without attributes to save. */
  lemma TagMeans(s: Bytes, z: View, name: Bytes, list: seq<Written>, close: Bytes)
    requires z.On(s) && !z.failed && z.tok.start < z.pos
    requires IsName(name) && AllValid(list) && Closes(list, close)
    requires Here(s, z.pos - 1, name) && Here(s, z.pos - 1 + |name|, AfterName(list, close))
    ensures var p := z.pos - 1;
            var from := p + |name| + if list == [] then 0 else 1;
            var t := Tag(s, z, true);
            && t.pos == p + |name| + |AfterName(list, close)| && !t.failed
            && t.tok.start == z.tok.start && t.tok.data == Span(p, p + |name|) && t.tok.attr == ListSpans(list, from)
            && t.tok.rawTag == z.tok.rawTag
  {
    hide TagAttrs, ListText, Here, AllValid, Closes, IsName, Find, SkipSpace, ListSpans;
    var p := z.pos - 1;
    var e := p + |name|;
    var sep := if list == [] then [] else [32];
    NextStarts(list, close);
    HereFirst(s, e, AfterName(list, close));
    HereBoth(s, e, sep, ListText(list, close));
    HereFirst(s, e + |sep|, ListText(list, close));
    if list == [] {
      CloseFirst(list, close);
    }
    NameMeans(s, p, name);
    SkipTo(s, e + |sep|, e + |sep|);
    ListMeans(s, e + |sep|, list, close, z.tok.pending, []);
    assert [] + ListSpans(list, e + |sep|) == ListSpans(list, e + |sep|);
  }

  lemma CloseFirst(list: seq<Written>, close: Bytes)
    requires list == [] && Closes(list, close)
    ensures ListText(list, close)[0] == 47 || ListText(list, close)[0] == 62
  {
  }

  /** The byte before the closing angle is a slash: that of a self-closing tag, or the last of a value without quotes. */
  ghost predicate EndsInSlash(list: seq<Written>, close: Bytes) {
    close == [47, 62] || (list != [] && var w := list[|list| - 1]; w.quote == Bare && w.val != [] && w.val[|w.val| - 1] == 47)
  }

  lemma {:induction false} LastBytes(list: seq<Written>, close: Bytes)
    requires AllValid(list) && Closes(list, close)
    ensures var t := ListText(list, close);
            && |t| >= 1 && t[|t| - 1] == 62
            && (|t| >= 2 ==> (t[|t| - 2] == 47 <==> EndsInSlash(list, close)))
            && (|t| == 1 ==> list == [] && close == [62])
    decreases |list|
  {
    hide Written.Valid;
    if list != [] {
      var w, sep, more := list[0], if |list| > 1 then [32] else [], list[1..];
      LastBytes(more, close);
      var t, rest := ListText(list, close), ListText(more, close);
      assert t == w.Text() + sep + rest;
      TextSplit(w);
      if |rest| == 1 {
        LastOfAttribute(w);
      }
    }
  }

  lemma LastOfAttribute(w: Written)
    requires w.Valid()
    ensures var t := w.Text(); |t| > 0 && (t[|t| - 1] == 47 <==> w.quote == Bare && w.val != [] && w.val[|w.val| - 1] == 47)
  {
  }

  ghost predicate IsRawName(name: Bytes) {
    || name == [105, 102, 114, 97, 109, 101]
    || name == [110, 111, 101, 109, 98, 101, 100]
    || name == [110, 111, 102, 114, 97, 109, 101, 115]
    || name == [110, 111, 115, 99, 114, 105, 112, 116]
    || name == [112, 108, 97, 105, 110, 116, 101, 120, 116]
    || name == [115, 99, 114, 105, 112, 116]
    || name == [115, 116, 121, 108, 101]
    || name == [116, 101, 120, 116, 97, 114, 101, 97]
    || name == [116, 105, 116, 108, 101]
    || name == [120, 109, 112]
  }

  /** The name in small letters. */
  ghost function Small(name: Bytes): (r: Bytes)
    ensures |r| == |name|
    ensures forall i :: 0 <= i < |name| ==> r[i] == if 65 <= name[i] <= 90 then name[i] + 32 else name[i]
  {
    seq(|name|, i requires 0 <= i < |name| => if 65 <= name[i] <= 90 then name[i] + 32 else name[i])
  }

  lemma SmallIsLower(name: Bytes)
    ensures Lower(name) == Small(name) && (IsRawTag(Small(name)) <==> IsRawName(Small(name)))
  {
  }

  /**
    * A start tag with any attributes.  It is self-closing exactly if a slash stands before its
    * angle, also if the slash belongs to a value without quotes.  Elements with raw text are noted.
    */
  lemma StartTagMeans(s: Bytes, z: View, name: Bytes, list: seq<Written>, close: Bytes)
    requires Reading(s, z) && IsName(name) && AllValid(list) && Closes(list, close)
    requires Here(s, z.pos, TagText(name, list, close))
    ensures var t, p := NextToken(s, z), z.pos;
            && t.tok.tt == (if EndsInSlash(list, close) then SelfClosingTagToken else StartTagToken)
            && t.pos == p + |TagText(name, list, close)| && !t.failed
            && t.tok.start == p && t.tok.data == Span(p + 1, p + 1 + |name|)
            && t.tok.attr == ListSpans(list, p + 1 + |name| + if list == [] then 0 else 1)
            && t.tok.rawTag == if IsRawName(Small(name)) then Small(name) else []
  {
    hide Tag, EndTag, Markup, UntilCloseAngle, Here, AllValid, Closes, ListText, ListSpans, IsRawTag, IsRawName, EndsInSlash, Lower, Small, NextToken, Space;
    var p, after := z.pos, AfterName(list, close);
    StartsHere(s, p, name, after);
    OpensAt(s, z);
    TagMeans(s, Fresh(z).(pos := p + 2), name, list, close);
    assert s[p + 1..p + 1 + |name|] == name by {
      HereText(s, p + 1, name);
    }
    SmallIsLower(name);
    LastByteOfTag(s, p + 1, name, list, close);
  }

  lemma HereText(s: Bytes, p: nat, text: Bytes)
    requires Here(s, p, text)
    ensures p + |text| <= |s| && s[p..p + |text|] == text
  {
  }

  lemma StartsHere(s: Bytes, p: nat, name: Bytes, after: Bytes)
    requires IsName(name) && Here(s, p, [60] + name + after)
    ensures p + 1 < |s| && s[p] == 60 && Letter(s[p + 1]) && Here(s, p + 1, name) && Here(s, p + 1 + |name|, after)
  {
    hide Here;
    HereBoth(s, p, [60] + name, after);
    HereBoth(s, p, [60], name);
    HereFirst(s, p, [60]);
    HereFirst(s, p + 1, name);
  }

  lemma LastByteOfTag(s: Bytes, p: nat, name: Bytes, list: seq<Written>, close: Bytes)
    requires IsName(name) && AllValid(list) && Closes(list, close)
    requires Here(s, p, name) && Here(s, p + |name|, AfterName(list, close))
    ensures var e := p + |name| + |AfterName(list, close)|; 2 <= e <= |s| && (s[e - 2] == 47 <==> EndsInSlash(list, close))
  {
    hide AllValid, Closes, ListText;
    var t := AfterName(list, close);
    var e := p + |name| + |t|;
    HereAt(s, p, name);
    HereAt(s, p + |name|, t);
    LastBytes(list, close);
    if |t| >= 2 {
      assert s[p + |name| + (|t| - 2)] == t[|t| - 2];
    } else {
      assert s[p + (|name| - 1)] == name[|name| - 1];
    }
  }

  /** An end tag. */
  lemma EndTagMeans(s: Bytes, z: View, name: Bytes)
    requires Reading(s, z) && IsName(name) && Here(s, z.pos, [60, 47] + name + [62])
    ensures var t, p := NextToken(s, z), z.pos;
            && t.tok.tt == EndTagToken && t.pos == p + |name| + 3 && !t.failed
            && t.tok.start == p && t.tok.data == Span(p + 2, p + 2 + |name|) && t.tok.attr == [] && t.tok.rawTag == []
  {
    hide StartTag, Markup, UntilCloseAngle, Here, Find, SkipSpace, TagAttrs, NextToken;
    var p := z.pos;
    EndStartsHere(s, p, name);
    OpensAt(s, z);
    var e := p + 2 + |name|;
    NameMeans(s, p + 2, name);
    SkipTo(s, e, e);
    TagAttrsStep(s, e, false, z.tok.pending, []);
  }

  lemma EndStartsHere(s: Bytes, p: nat, name: Bytes)
    requires IsName(name) && Here(s, p, [60, 47] + name + [62])
    ensures p + 3 < |s| && s[p] == 60 && s[p + 1] == 47 && Letter(s[p + 2]) && Here(s, p + 2, name)
    ensures p + 2 + |name| < |s| && s[p + 2 + |name|] == 62
  {
    hide Here;
    HereBoth(s, p, [60, 47] + name, [62]);
    HereBoth(s, p, [60, 47], name);
    HereAt(s, p, [60, 47]);
    assert s[p + 0] == 60 && s[p + 1] == 47;
    HereFirst(s, p + 2, name);
    HereFirst(s, p + 2 + |name|, [62]);
  }

  // ----- Comments and declarations -----

  ghost predicate NoDoubleDash(text: Bytes) {
    forall i :: 0 <= i < |text| - 1 ==> !(text[i] == 45 && text[i + 1] == 45)
  }

  /** Inside a comment, after no dash or one; at its beginning no angle may come next. */
  lemma {:induction false} CommentRuns(s: Bytes, p: nat, text: Bytes, dashes: nat, beginning: bool)
    requires dashes <= 1 && dashes <= p && NoDoubleDash(text) && Here(s, p, text + [45, 45, 62])
    requires text != [] && dashes == 1 ==> text[0] != 45
    requires beginning && text != [] ==> text[0] != 62 && !(dashes == 0 && |text| > 1 && text[0] == 45 && text[1] == 62)
    ensures Comment(s, p, dashes, beginning) == Stop(p + |text| + 3, p + |text|, false)
    decreases |text|
  {
    hide Comment;
    var whole := text + [45, 45, 62];
    HereAt(s, p, whole);
    assert s[p + 0] == whole[0];
    CommentStep(s, p, dashes, beginning);
    if text == [] {
      assert s[p + 1] == whole[1] && s[p + 2] == whole[2];
      CommentStep(s, p + 1, dashes + 1, beginning);
      CommentStep(s, p + 2, dashes + 2, beginning);
    } else {
      HereBoth(s, p, [text[0]], text[1..] + [45, 45, 62]) by {
        assert whole == [text[0]] + (text[1..] + [45, 45, 62]);
      }
      CommentRuns(s, p + 1, text[1..], if text[0] == 45 then 1 else 0, beginning && text[0] == 45);
    }
  }

  lemma CommentMeans(s: Bytes, z: View, text: Bytes)
    requires Reading(s, z) && Here(s, z.pos, [60, 33, 45, 45] + text + [45, 45, 62])
    requires NoDoubleDash(text)
    requires text != [] ==> text[0] != 62 && !(|text| > 1 && text[0] == 45 && text[1] == 62)
    ensures var t, p := NextToken(s, z), z.pos;
            && t.tok.tt == CommentToken && t.pos == p + |text| + 7 && !t.failed
            && t.tok.start == p && t.tok.data == Span(p + 4, p + 4 + |text|)
  {
    hide Here, Comment, NextToken, Matched, DoctypeRest, CDataOrBogus;
    var p := z.pos;
    HereBoth(s, p, [60, 33, 45, 45], text + [45, 45, 62]) by {
      assert [60, 33, 45, 45] + text + [45, 45, 62] == [60, 33, 45, 45] + (text + [45, 45, 62]);
    }
    HereAt(s, p, [60, 33, 45, 45]);
    assert s[p + 0] == 60 && s[p + 1] == 33 && s[p + 2] == 45 && s[p + 3] == 45;
    OpensAt(s, z);
    CommentRuns(s, p + 4, text, 0, true);
  }

  lemma {:induction false} MatchedAll(s: Bytes, p: nat, tag: Bytes)
    requires p <= |s|
    ensures Matched(s, p, tag) == |tag| <==> p + |tag| <= |s| && forall i :: 0 <= i < |tag| ==> SameLetter(s[p + i], tag[i])
    ensures forall i :: 0 <= i < Matched(s, p, tag) ==> SameLetter(s[p + i], tag[i])
    decreases |tag|
  {
    hide SameLetter;
    if tag != [] && p < |s| && SameLetter(s[p], tag[0]) {
      MatchedAll(s, p + 1, tag[1..]);
      forall i | 0 <= i < Matched(s, p, tag) ensures SameLetter(s[p + i], tag[i]) {
        assert i > 0 ==> s[p + i] == s[p + 1 + (i - 1)] && tag[i] == tag[1..][i - 1];
      }
      if p + |tag| <= |s| && forall i :: 0 <= i < |tag| ==> SameLetter(s[p + i], tag[i]) {
        forall i | 0 <= i < |tag| - 1 ensures SameLetter(s[p + 1 + i], tag[1..][i]) {
          assert SameLetter(s[p + (i + 1)], tag[i + 1]);
        }
      }
    } else if tag != [] && p < |s| {
      assert !SameLetter(s[p + 0], tag[0]);
    }
  }

  /** The first end of a declaration. */
  lemma AngleMeans(s: Bytes, p: nat, e: nat)
    requires p <= e < |s| && s[e] == 62 && forall i :: p <= i < e ==> s[i] != 62
    ensures UntilCloseAngle(s, p) == Stop(e + 1, e, false)
  {
    FindIs(s, p, One(62), e);
  }

  /** A doctype, in letters of either case; its data starts after the white space. */
  lemma DoctypeMeans(s: Bytes, z: View, keyword: Bytes, e: nat)
    requires Reading(s, z) && |keyword| == 7 && Small(keyword) == [100, 111, 99, 116, 121, 112, 101]
    requires Here(s, z.pos, [60, 33] + keyword)
    requires z.pos + 9 <= e < |s| && s[e] == 62 && forall i :: z.pos + 9 <= i < e ==> s[i] != 62
    ensures var t, p := NextToken(s, z), z.pos;
            && t.tok.tt == DoctypeToken && t.pos == e + 1 && !t.failed && t.tok.start == p
            && p + 9 <= t.tok.data.start <= e == t.tok.data.end
            && (forall i :: p + 9 <= i < t.tok.data.start ==> Space(s[i]))
            && !Space(s[t.tok.data.start])
  {
    hide StartTag, EndTag, Here, NextToken, Matched, Small, CommentBody, CDataOrBogus, UntilCloseAngle, SkipSpace, SameLetter;
    var p := z.pos;
    KeywordHere(s, p, keyword);
    OpensAt(s, z);
    MatchedAll(s, p + 2, DOCTYPE);
    var w := SkipSpace(s, p + 9);
    Spaces(s, p + 9, e);
    AngleMeans(s, w, e);
  }

  lemma KeywordHere(s: Bytes, p: nat, keyword: Bytes)
    requires |keyword| == 7 && Small(keyword) == [100, 111, 99, 116, 121, 112, 101] && Here(s, p, [60, 33] + keyword)
    ensures p + 9 <= |s| && s[p] == 60 && s[p + 1] == 33 && s[p + 2] != 45
    ensures forall i :: 0 <= i < 7 ==> SameLetter(s[p + 2 + i], DOCTYPE[i])
  {
    HereAt(s, p, [60, 33] + keyword);
    assert s[p + 0] == 60 && s[p + 1] == 33;
    forall i | 0 <= i < 7 ensures SameLetter(s[p + 2 + i], DOCTYPE[i]) {
      assert s[p + (2 + i)] == keyword[i] && Small(keyword)[i] == DOCTYPE[i];
    }
    assert SameLetter(s[p + 2 + 0], DOCTYPE[0]);
  }

  lemma {:induction false} Spaces(s: Bytes, p: nat, e: nat)
    requires p <= e < |s| && !Space(s[e])
    ensures SkipSpace(s, p) <= e && (forall i :: p <= i < SkipSpace(s, p) ==> Space(s[i])) && !Space(s[SkipSpace(s, p)])
    decreases e - p
  {
    if p < e && Space(s[p]) {
      Spaces(s, p + 1, e);
    }
  }

  /** Processing instructions, and end tags without a name, are comments up to the next angle. */
  lemma BogusMeans(s: Bytes, z: View, e: nat)
    requires Reading(s, z) && z.pos + 2 < |s| && s[z.pos] == 60
    requires s[z.pos + 1] == 63 || (s[z.pos + 1] == 47 && !Letter(s[z.pos + 2]) && s[z.pos + 2] != 62)
    requires z.pos + 2 <= e < |s| && s[e] == 62 && forall i :: z.pos + 2 <= i < e ==> s[i] != 62
    ensures var t, p := NextToken(s, z), z.pos;
            && t.tok.tt == CommentToken && t.pos == e + 1 && !t.failed && t.tok.start == p
            && t.tok.data == Span(if s[p + 1] == 63 then p + 1 else p + 2, e)
  {
    hide StartTag, Markup, NextToken, UntilCloseAngle, Tag;
    OpensAt(s, z);
    if s[z.pos + 1] == 63 {
      AngleMeans(s, z.pos + 1, e);
    } else {
      AngleMeans(s, z.pos + 2, e);
    }
  }

  // ----- CDATA sections -----

  ghost predicate NoCDataEnd(text: Bytes) {
    forall i :: 0 <= i < |text| - 2 ==> !(text[i] == 93 && text[i + 1] == 93 && text[i + 2] == 62)
  }

  lemma {:induction false} CDataRuns(s: Bytes, p: nat, text: Bytes, brackets: nat)
    requires brackets <= p && NoCDataEnd(text) && Here(s, p, text + [93, 93, 62])
    requires brackets >= 2 && text != [] ==> text[0] != 62
    requires brackets >= 1 && |text| > 1 ==> !(text[0] == 93 && text[1] == 62)
    ensures CData(s, p, brackets) == Stop(p + |text| + 3, p + |text|, false)
    decreases |text|
  {
    hide CData;
    var whole := text + [93, 93, 62];
    HereAt(s, p, whole);
    assert s[p + 0] == whole[0];
    CDataStep(s, p, brackets);
    if text == [] {
      assert s[p + 1] == whole[1] && s[p + 2] == whole[2];
      CDataStep(s, p + 1, brackets + 1);
      CDataStep(s, p + 2, brackets + 2);
    } else {
      HereBoth(s, p, [text[0]], text[1..] + [93, 93, 62]) by {
        assert whole == [text[0]] + (text[1..] + [93, 93, 62]);
      }
      CDataRuns(s, p + 1, text[1..], if text[0] == 93 then brackets + 1 else 0);
    }
  }

  lemma {:induction false} MatchedExactlyAll(s: Bytes, p: nat, text: Bytes)
    requires Here(s, p, text)
    ensures p <= |s| && MatchedExactly(s, p, text) == |text|
    decreases |text|
  {
    if text != [] {
      HereFirst(s, p, text);
      HereBoth(s, p, [text[0]], text[1..]) by {
        assert [text[0]] + text[1..] == text;
      }
      MatchedExactlyAll(s, p + 1, text[1..]);
    }
  }

  /** A CDATA section, where the caller allows it, is a text. */
  lemma CDataMeans(s: Bytes, z: View, text: Bytes)
    requires Reading(s, z) && z.tok.allowCDATA && NoCDataEnd(text)
    requires Here(s, z.pos, [60, 33, 91, 67, 68, 65, 84, 65, 91] + text + [93, 93, 62])
    ensures var t, p := NextToken(s, z), z.pos;
            && t.tok.tt == TextToken && t.pos == p + |text| + 12 && !t.failed
            && t.tok.start == p && t.tok.data == Span(p + 9, p + 9 + |text|) && t.tok.convertNUL
  {
    hide Here, NextToken, Matched, CData, MatchedExactly, CommentBody, DoctypeRest;
    var p := z.pos;
    HereBoth(s, p, [60, 33], CDATA + (text + [93, 93, 62])) by {
      assert [60, 33, 91, 67, 68, 65, 84, 65, 91] + text + [93, 93, 62] == [60, 33] + (CDATA + (text + [93, 93, 62]));
    }
    HereBoth(s, p + 2, CDATA, text + [93, 93, 62]);
    HereAt(s, p, [60, 33]);
    assert s[p + 0] == 60 && s[p + 1] == 33;
    HereFirst(s, p + 2, CDATA);
    OpensAt(s, z);
    NotDoctype(s, p + 2);
    MatchedExactlyAll(s, p + 2, CDATA);
    CDataRuns(s, p + 9, text, 0);
  }

  lemma NotDoctype(s: Bytes, p: nat)
    requires p < |s| && s[p] == 91
    ensures Matched(s, p, DOCTYPE) == 0
  {
  }

  // ----- Texts -----

  /** Markup opens at i: an angle before a letter, a slash, an exclamation mark or a question mark. */
  ghost predicate MarkupAt(s: Bytes, i: nat) {
    i + 1 < |s| && s[i] == 60 && var c := s[i + 1]; Letter(c) || c == 47 || c == 33 || c == 63
  }

  lemma {:induction false} TextRuns(s: Bytes, p: nat, e: nat)
    requires p <= e <= |s| && (forall i: nat :: p <= i < e ==> !MarkupAt(s, i)) && (e < |s| ==> MarkupAt(s, e))
    ensures TextEnd(s, p) == e
    decreases e - p
  {
    hide TextEnd;
    TextEndStep(s, p);
    if p < e {
      assert !MarkupAt(s, p);
      if p + 1 < |s| || s[p] != 60 {
        TextRuns(s, p + 1, e);
      }
    } else {
      assert p < |s| ==> MarkupAt(s, p);
    }
  }

  /** Text runs up to the first markup, or to the end of the stream; at the end there is an error. */
  lemma TextMeans(s: Bytes, z: View, e: nat)
    requires Reading(s, z) && z.pos <= e <= |s|
    requires (forall i: nat :: z.pos <= i < e ==> !MarkupAt(s, i)) && (e < |s| ==> MarkupAt(s, e))
    ensures var t := NextToken(s, z);
            && (z.pos < e ==> t.tok.tt == TextToken && t.tok.data == Span(z.pos, e) && t.pos == e && t.failed == (e == |s|))
            && (z.pos == |s| ==> t.tok.tt == ErrorToken)
  {
    hide TextEnd, Opened;
    TextRuns(s, z.pos, e);
  }

  // ----- Raw text -----

  /** The end tag of the element, in letters of either case, stands at e. */
  ghost predicate EndTagHere(s: Bytes, e: nat, tag: Bytes) {
    && e + 2 + |tag| < |s| && s[e] == 60 && s[e + 1] == 47
    && (forall i :: 0 <= i < |tag| ==> s[e + 2 + i] == tag[i] || s[e + 2 + i] as int == tag[i] as int - 32)
    && var c := s[e + 2 + |tag|]; Space(c) || c == 47 || c == 62
  }

  ghost predicate IsSmall(tag: Bytes) {
    forall i :: 0 <= i < |tag| ==> 97 <= tag[i] <= 122
  }

  lemma EndTagMatches(s: Bytes, e: nat, tag: Bytes)
    requires IsSmall(tag) && e + 2 <= |s| && s[e] == 60 && s[e + 1] == 47
    ensures EndTagAt(s, e + 2, tag) <==> EndTagHere(s, e, tag)
    ensures forall i :: e < i < e + 2 + Matched(s, e + 2, tag) ==> s[i] != 60
  {
    hide Matched;
    MatchedAll(s, e + 2, tag);
    forall i | e < i < e + 2 + Matched(s, e + 2, tag) ensures s[i] != 60 {
      if i > e + 1 {
        assert SameLetter(s[e + 2 + (i - e - 2)], tag[i - e - 2]);
      }
    }
    if EndTagHere(s, e, tag) {
      forall i | 0 <= i < |tag| ensures SameLetter(s[e + 2 + i], tag[i]) {
        assert s[e + 2 + i] == tag[i] || s[e + 2 + i] as int == tag[i] as int - 32;
      }
    }
    if EndTagAt(s, e + 2, tag) {
      forall i | 0 <= i < |tag| ensures s[e + 2 + i] == tag[i] || s[e + 2 + i] as int == tag[i] as int - 32 {
        assert SameLetter(s[e + 2 + i], tag[i]);
      }
    }
  }

  /** The first end tag from p on is at e, or there is none and e is the end. */
  ghost predicate FirstEnd(s: Bytes, p: nat, e: nat, tag: Bytes) {
    p <= e <= |s| && (forall i: nat :: p <= i < e ==> !EndTagHere(s, i, tag)) && (e < |s| ==> EndTagHere(s, e, tag))
  }

  /** An end tag that does not match is skipped with what matched of it. */
  lemma SkipMismatch(s: Bytes, p: nat, e: nat, tag: Bytes)
    requires IsSmall(tag) && FirstEnd(s, p, e, tag) && p + 1 < |s| && s[p] == 60 && s[p + 1] == 47
    ensures EndTagAt(s, p + 2, tag) ==> e == p
    ensures !EndTagAt(s, p + 2, tag) ==> FirstEnd(s, p + 2 + Matched(s, p + 2, tag), e, tag)
  {
    hide EndTagHere, Matched, EndTagAt;
    EndTagMatches(s, p, tag);
    if e < |s| {
      StartsWithAngle(s, e, tag);
    }
  }

  lemma StartsWithAngle(s: Bytes, e: nat, tag: Bytes)
    requires EndTagHere(s, e, tag)
    ensures e + 2 < |s| && s[e] == 60 && s[e + 1] == 47
  {
  }

  lemma {:induction false} RawTextRuns(s: Bytes, p: nat, tag: Bytes, e: nat)
    requires IsSmall(tag) && FirstEnd(s, p, e, tag)
    ensures RawText(s, p, tag) == e
    decreases |s| - p
  {
    hide RawText, Matched, EndTagAt, EndTagHere;
    RawTextStep(s, p, tag);
    if p < |s| {
      if e == p {
        StartsWithAngle(s, e, tag);
      }
      if s[p] == 60 && p + 1 < |s| && s[p + 1] == 47 {
        SkipMismatch(s, p, e, tag);
        if !EndTagAt(s, p + 2, tag) {
          RawTextRuns(s, p + 2 + Matched(s, p + 2, tag), tag, e);
        }
      } else if s[p] != 60 || p + 1 < |s| {
        RawTextRuns(s, p + 1, tag, e);
      }
    }
  }

  /** In a script without "<!" the same holds. */
  lemma {:induction false} ScriptRuns(s: Bytes, start: nat, p: nat, e: nat)
    requires start <= p && FirstEnd(s, p, e, SCRIPT)
    requires forall i :: p <= i < e && i + 1 < |s| ==> !(s[i] == 60 && s[i + 1] == 33)
    ensures Script(s, start, p, Data) == e
    decreases |s| - p
  {
    hide Matched, EndTagAt, EndTagHere, Script;
    if e == p < |s| {
      StartsWithAngle(s, e, SCRIPT);
    }
    ScriptMoves(s, start, p);
    if p < |s| {
      if s[p] == 60 && p + 1 < |s| && s[p + 1] == 47 {
        SkipMismatch(s, p, e, SCRIPT);
        if !EndTagAt(s, p + 2, SCRIPT) && p + 2 + Matched(s, p + 2, SCRIPT) < |s| {
          ScriptRuns(s, start, p + 2 + Matched(s, p + 2, SCRIPT), e);
        }
      } else if s[p] != 60 || p + 1 < |s| {
        ScriptRuns(s, start, p + 1, e);
      }
    }
  }

  /** One turn of the script scanner from its first state, up to its next visit of that state. */
  lemma ScriptMoves(s: Bytes, start: nat, p: nat)
    requires start <= p <= |s| && (p + 1 < |s| ==> !(s[p] == 60 && s[p + 1] == 33))
    ensures Script(s, start, p, Data) ==
            if p == |s| then |s|
            else if s[p] != 60 then Script(s, start, p + 1, Data)
            else if p + 1 == |s| then |s|
            else if s[p + 1] != 47 then Script(s, start, p + 1, Data)
            else if EndTagAt(s, p + 2, SCRIPT) then p
            else if p + 2 + Matched(s, p + 2, SCRIPT) == |s| then |s|
            else Script(s, start, p + 2 + Matched(s, p + 2, SCRIPT), Data)
  {
    hide Matched, EndTagAt;
    if p < |s| && s[p] == 60 {
      assert Script(s, start, p, Data) == Script(s, start, p + 1, LessThan);
      if p + 1 < |s| && s[p + 1] == 47 {
        assert Script(s, start, p + 1, LessThan) == Script(s, start, p + 2, EndTagOpen);
      }
    }
  }

  /**
    * After the start tag of a raw element: the text up to its first end tag or the end of the
    * stream, after which markup counts again.  If the end tag comes at once there is no text.
    */
  lemma RawMeans(s: Bytes, z: View, e: nat)
    requires z.On(s) && !z.failed && IsRawName(z.tok.rawTag) && z.tok.rawTag != [112, 108, 97, 105, 110, 116, 101, 120, 116]
    requires FirstEnd(s, z.pos, e, z.tok.rawTag)
    requires z.tok.rawTag == [115, 99, 114, 105, 112, 116] ==>
               forall i :: z.pos <= i < e && i + 1 < |s| ==> !(s[i] == 60 && s[i + 1] == 33)
    ensures z.pos < e ==>
              var t := NextToken(s, z);
              && t.tok.tt == TextToken && t.tok.data == Span(z.pos, e) && t.pos == e && t.failed == (e == |s|)
              && t.tok.rawTag == [] && t.tok.convertNUL
              && (t.tok.textIsRaw <==> z.tok.rawTag != [116, 101, 120, 116, 97, 114, 101, 97] && z.tok.rawTag != [116, 105, 116, 108, 101])
    ensures z.pos == e < |s| ==> NextToken(s, z) == NextToken(s, z.(tok := z.tok.(rawTag := [])))
  {
    hide FirstEnd, RawText, Script, TextOrMarkup;
    if z.tok.rawTag == SCRIPT {
      ScriptRuns(s, z.pos, z.pos, e);
    } else {
      RawTextRuns(s, z.pos, z.tok.rawTag, e);
    }
  }

  /** The content of a plaintext element never ends. */
  lemma PlaintextMeans(s: Bytes, z: View)
    requires z.On(s) && !z.failed && z.tok.rawTag == [112, 108, 97, 105, 110, 116, 101, 120, 116] && z.pos < |s|
    ensures var t := NextToken(s, z); t.tok.tt == TextToken && t.tok.data == Span(z.pos, |s|) && t.failed && t.tok.textIsRaw
  {
  }
}
