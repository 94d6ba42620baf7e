/**
 * What html/token.go reads from a byte stream: for each scanner, the positions it stops at.
 * Positions count from the start of the stream, whose end stands for the reader's error.
 */
module HtmlScan {
  import opened Common

  const BANG: Byte := 33
  const DASH: Byte := 45
  const SLASH: Byte := 47
  const LT: Byte := 60
  const EQUALS: Byte := 61
  const GT: Byte := 62
  const QUESTION: Byte := 63
  const RBRACKET: Byte := 93

  predicate IsSpace(c: Byte) {
    c == 32 || c == 10 || c == 13 || c == 9 || c == 12
  }

  predicate IsLetter(c: Byte) {
    97 <= c <= 122 || 65 <= c <= 90
  }

  /** What a scanner runs up to: a given byte, or the end of a tag name, an attribute key or an attribute value. */
  datatype Stopper = One(c: Byte) | EndOfName | EndOfKey | EndOfValue {
    predicate At(b: Byte) {
      match this
      case One(c) => b == c
      case EndOfName => IsSpace(b) || b == SLASH || b == GT
      case EndOfKey => IsSpace(b) || b == SLASH || b == EQUALS || b == GT
      case EndOfValue => IsSpace(b) || b == GT
    }
  }

  /** The first position from p on where the scanner stops, or the end. */
  function Find(s: Bytes, p: nat, stop: Stopper): (r: nat)
    requires p <= |s|
    ensures p <= r <= |s|
    ensures r < |s| ==> stop.At(s[r])
    decreases |s| - p
  {
    if p == |s| || stop.At(s[p]) then p else Find(s, p + 1, stop)
  }

  lemma FindHere(s: Bytes, p: nat, stop: Stopper)
    requires p <= |s|
    ensures Find(s, p, stop) == if p == |s| || stop.At(s[p]) then p else Find(s, p + 1, stop)
  {
  }

  function SkipSpace(s: Bytes, p: nat): (r: nat)
    requires p <= |s|
    ensures p <= r <= |s|
    ensures r < |s| ==> !IsSpace(s[r])
    decreases |s| - p
  {
    if p == |s| || !IsSpace(s[p]) then p else SkipSpace(s, p + 1)
  }

  /** The position just after e, or the end. */
  function Past(s: Bytes, e: nat): (r: nat)
    requires e <= |s|
    ensures e <= r <= |s|
  {
    if e < |s| then e + 1 else e
  }

  // ----- Raw text -----

  /** The capital of a small letter; bytes wrap around. */
  function Upper(c: Byte): (r: Byte) {
    (c + 0x100 - 32) % 0x100
  }

  /** How many bytes of tag, in either case, stand at p. */
  function Matched(s: Bytes, p: nat, tag: Bytes): (n: nat)
    requires p <= |s|
    ensures n <= |tag| && p + n <= |s|
    decreases |tag|
  {
    if tag == [] || p == |s| || !SameLetter(s[p], tag[0]) then 0
    else 1 + Matched(s, p + 1, tag[1..])
  }

  predicate SameLetter(c: Byte, small: Byte) {
    c == small || c == Upper(small)
  }

  /** One byte further along a match. */
  lemma MatchedMore(s: Bytes, p: nat, tag: Bytes, i: nat)
    requires i <= |tag| && p + i <= |s|
    requires Matched(s, p, tag) == i + Matched(s, p + i, tag[i..])
    ensures if i == |tag| || p + i == |s| || !SameLetter(s[p + i], tag[i]) then Matched(s, p, tag) == i
            else Matched(s, p, tag) == i + 1 + Matched(s, p + i + 1, tag[i + 1..])
  {
    assert i < |tag| ==> tag[i..][1..] == tag[i + 1..];
  }

  /** The tag stands at p and is followed by a byte that ends a tag name. */
  predicate EndTagAt(s: Bytes, p: nat, tag: Bytes)
    requires p <= |s|
  {
    var n := Matched(s, p, tag);
    n == |tag| && p + n < |s| && EndOfName.At(s[p + n])
  }

  /** Where raw text from p on ends: before the end tag, or at the end of the stream. */
  function RawText(s: Bytes, p: nat, tag: Bytes): (r: nat)
    requires p <= |s|
    ensures p <= r <= |s|
    decreases |s| - p
  {
    var e := Find(s, p, One(LT));
    if e + 1 >= |s| then |s|
    else if s[e + 1] != SLASH then RawText(s, e + 1, tag)
    else if EndTagAt(s, e + 2, tag) then e
    else RawText(s, e + 2 + Matched(s, e + 2, tag), tag)
  }

  lemma RawTextStep(s: Bytes, p: nat, tag: Bytes)
    requires p <= |s|
    ensures RawText(s, p, tag) ==
            if p == |s| then p
            else if s[p] != LT then RawText(s, p + 1, tag)
            else if p + 1 == |s| then p + 1
            else if s[p + 1] != SLASH then RawText(s, p + 1, tag)
            else if EndTagAt(s, p + 2, tag) then p
            else RawText(s, p + 2 + Matched(s, p + 2, tag), tag)
  {
    hide EndTagAt, Matched;
  }

  // ----- Scripts -----

  const SCRIPT: Bytes := [115, 99, 114, 105, 112, 116]

  datatype ScriptState =
    | Data | LessThan | EndTagOpen | EscapeStart | EscapeStartDash
    | Escaped | EscapedDash | EscapedDashDash | EscapedLessThan | EscapedEndTagOpen
    | DoubleEscaped | DoubleEscapedDash | DoubleEscapedDashDash | DoubleEscapedLessThan | DoubleEscapeEnd

  /** The bytes consumed since the last state that consumes one whatever it is. */
  function Depth(q: ScriptState): (r: nat) {
    match q
    case LessThan | EscapedLessThan | DoubleEscapedLessThan => 1
    case EndTagOpen | EscapeStart | EscapedEndTagOpen | DoubleEscapeEnd => 2
    case EscapeStartDash => 3
    case _ => 0
  }

  datatype ScriptStep = Go(p: nat, q: ScriptState) | Done(p: nat)

  /** The state after byte c in state q, and whether c is consumed. */
  function ScriptMove(q: ScriptState, c: Byte): (r: (bool, ScriptState))
    ensures if r.0 then Depth(r.1) <= Depth(q) + 1 else Depth(q) > 0 && Depth(r.1) == 0
  {
    match q
    case Data => (true, if c == LT then LessThan else Data)
    case LessThan => if c == SLASH then (true, EndTagOpen) else if c == BANG then (true, EscapeStart) else (false, Data)
    case EscapeStart => if c == DASH then (true, EscapeStartDash) else (false, Data)
    case EscapeStartDash => if c == DASH then (true, EscapedDashDash) else (false, Data)
    case Escaped => (true, if c == DASH then EscapedDash else if c == LT then EscapedLessThan else Escaped)
    case EscapedDash => (true, if c == DASH then EscapedDashDash else if c == LT then EscapedLessThan else Escaped)
    case EscapedDashDash =>
      (true, if c == DASH then EscapedDashDash else if c == LT then EscapedLessThan else if c == GT then Data else Escaped)
    case EscapedLessThan => if c == SLASH then (true, EscapedEndTagOpen) else (false, Data)
    case DoubleEscaped =>
      (true, if c == DASH then DoubleEscapedDash else if c == LT then DoubleEscapedLessThan else DoubleEscaped)
    case DoubleEscapedDash =>
      (true, if c == DASH then DoubleEscapedDashDash else if c == LT then DoubleEscapedLessThan else DoubleEscaped)
    case DoubleEscapedDashDash =>
      (true, if c == DASH then DoubleEscapedDashDash else if c == LT then DoubleEscapedLessThan
             else if c == GT then Data else DoubleEscaped)
    case DoubleEscapedLessThan => if c == SLASH then (true, DoubleEscapeEnd) else (false, DoubleEscaped)
    case EndTagOpen | EscapedEndTagOpen | DoubleEscapeEnd => (false, Data)
  }

  /** In a state that looks for a tag name at p: where to go if the name is there, and if it is not. */
  function ScriptName(s: Bytes, p: nat, found: ScriptStep, other: ScriptState): (r: ScriptStep)
    requires p <= |s|
    ensures r == Done(|s|) || (r.Go? && p <= r.p < |s| && r.q == other) || (r == found && p + 7 <= |s|)
  {
    var n := Matched(s, p, SCRIPT);
    if EndTagAt(s, p, SCRIPT) then found
    else if p + n == |s| then Done(|s|)
    else Go(p + n, other)
  }

  /** One block of the script scanner, in state q at p. */
  function ScriptNext(s: Bytes, start: nat, p: nat, q: ScriptState): (r: ScriptStep)
    requires start + Depth(q) <= p <= |s|
    ensures start <= r.p <= |s|
    ensures r.Go? ==> start + Depth(r.q) <= r.p
    ensures r.Go? ==> r.p > p || (r.p == p && Depth(r.q) < Depth(q))
  {
    if q == EndTagOpen then ScriptName(s, p, Done(p - 2), Data)
    else if q == EscapedEndTagOpen then ScriptName(s, p, Done(p - 2), Escaped)
    else if q == DoubleEscapeEnd then ScriptName(s, p, Go(p + 7, Escaped), DoubleEscaped)
    else if p == |s| then Done(|s|)
    else if q == EscapedLessThan && IsLetter(s[p]) then ScriptName(s, p, Go(p + 7, DoubleEscaped), Escaped)
    else
      var (consumed, q') := ScriptMove(q, s[p]);
      Go(if consumed then p + 1 else p, q')
  }

  /** Where the script text that begins at start ends. */
  function Script(s: Bytes, start: nat, p: nat, q: ScriptState): (r: nat)
    requires start + Depth(q) <= p <= |s|
    ensures start <= r <= |s|
    decreases |s| - p, Depth(q)
  {
    match ScriptNext(s, start, p, q)
    case Go(p', q') => Script(s, start, p', q')
    case Done(e) => e
  }

  lemma DataDepth()
    ensures Depth(Data) == 0
  {
  }

  lemma DepthOfTag(q: ScriptState)
    requires q == EndTagOpen || q == EscapedEndTagOpen || q == DoubleEscapeEnd
    ensures Depth(q) == 2
  {
  }

  // ----- Comments, declarations and CDATA sections -----

  /** Where a scanner stops: the position, the end of the data, and whether the stream ended. */
  datatype Stop = Stop(pos: nat, end: int, failed: bool)

  function UntilCloseAngle(s: Bytes, p: nat): (r: Stop)
    requires p <= |s|
    ensures p <= r.end <= r.pos <= |s| && (r.failed ==> r.pos == |s|)
  {
    var e := Find(s, p, One(GT));
    Stop(Past(s, e), e, e == |s|)
  }

  /** From p on in a comment, after dashes dashes; beginning means that there was nothing else. */
  function Comment(s: Bytes, p: nat, dashes: nat, beginning: bool): (r: Stop)
    requires dashes <= p <= |s|
    ensures p <= r.pos <= |s| && r.end <= r.pos && (r.failed ==> r.pos == |s|)
    decreases |s| - p
  {
    if p == |s| then Stop(p, p - Min(dashes, 2), true)
    else if s[p] == DASH then Comment(s, p + 1, dashes + 1, beginning)
    else if s[p] == GT && (dashes >= 2 || beginning) then Stop(p + 1, p + 1 - 3, false)
    else if s[p] == BANG && dashes >= 2 then
      if p + 1 == |s| then Stop(p + 1, p + 1, true)
      else if s[p + 1] == GT then Stop(p + 2, p + 2 - 4, false)
      else Comment(s, p + 2, 0, false)
    else Comment(s, p + 1, 0, false)
  }

  lemma CommentStep(s: Bytes, p: nat, dashes: nat, beginning: bool)
    requires dashes <= p <= |s|
    ensures Comment(s, p, dashes, beginning) ==
            if p == |s| then Stop(p, p - Min(dashes, 2), true)
            else if s[p] == DASH then Comment(s, p + 1, dashes + 1, beginning)
            else if s[p] == GT && (dashes >= 2 || beginning) then Stop(p + 1, p - 2, false)
            else if s[p] == BANG && dashes >= 2 then
              if p + 1 == |s| then Stop(p + 1, p + 1, true)
              else if s[p + 1] == GT then Stop(p + 2, p - 2, false)
              else Comment(s, p + 2, 0, false)
            else Comment(s, p + 1, 0, false)
  {
  }

  const DOCTYPE: Bytes := [100, 111, 99, 116, 121, 112, 101]
  const CDATA: Bytes := [91, 67, 68, 65, 84, 65, 91]

  /** How many bytes of text stand at p. */
  function MatchedExactly(s: Bytes, p: nat, text: Bytes): (n: nat)
    requires p <= |s|
    ensures n <= |text| && p + n <= |s|
    decreases |text|
  {
    if text == [] || p == |s| || s[p] != text[0] then 0 else 1 + MatchedExactly(s, p + 1, text[1..])
  }

  function CData(s: Bytes, p: nat, brackets: nat): (r: Stop)
    requires brackets <= p <= |s|
    ensures p - Min(brackets, 2) <= r.end <= r.pos <= |s| && p <= r.pos && (r.failed ==> r.pos == |s|)
    decreases |s| - p
  {
    if p == |s| then Stop(p, p, true)
    else if s[p] == RBRACKET then CData(s, p + 1, brackets + 1)
    else if s[p] == GT && brackets >= 2 then Stop(p + 1, p + 1 - 3, false)
    else CData(s, p + 1, 0)
  }

  lemma MatchedExactlyMore(s: Bytes, p: nat, text: Bytes, i: nat)
    requires i <= |text| && p + i <= |s|
    requires MatchedExactly(s, p, text) == i + MatchedExactly(s, p + i, text[i..])
    ensures if i == |text| || p + i == |s| || s[p + i] != text[i] then MatchedExactly(s, p, text) == i
            else MatchedExactly(s, p, text) == i + 1 + MatchedExactly(s, p + i + 1, text[i + 1..])
  {
    assert i < |text| ==> text[i..][1..] == text[i + 1..];
  }

  lemma CDataStep(s: Bytes, p: nat, brackets: nat)
    requires brackets <= p <= |s|
    ensures CData(s, p, brackets) ==
            if p == |s| then Stop(p, p, true)
            else if s[p] == RBRACKET then CData(s, p + 1, brackets + 1)
            else if s[p] == GT && brackets >= 2 then Stop(p + 1, p - 2, false)
            else CData(s, p + 1, 0)
  {
  }

  // ----- Tags -----

  datatype Span = Span(start: int, end: int)

  datatype Attr = Attr(key: Span, val: Span)

  /** A span that a scanner found, where it stopped, and whether the stream ended. */
  datatype Found = Found(span: Span, pos: nat, failed: bool)

  function AttrKey(s: Bytes, p: nat): (r: Found)
    requires p <= |s|
    ensures p == r.span.start <= r.span.end <= r.pos <= |s| && (r.failed ==> r.pos == |s|)
  {
    var e := Find(s, p, EndOfKey);
    Found(Span(p, e), if e < |s| && (IsSpace(s[e]) || s[e] == SLASH) then e + 1 else e, e == |s|)
  }

  /** The value whose first byte is at r. An angle is not one, and leaves the span as it was. */
  function ValueAt(s: Bytes, r: nat, span: Span): (v: Found)
    requires r < |s|
    ensures r <= v.pos <= |s| && (v.failed ==> v.pos == |s|)
    ensures v.span == span || r <= v.span.start <= v.span.end <= v.pos
  {
    if s[r] == GT then Found(span, r, false)
    else if s[r] == 39 || s[r] == 34 then
      var e := Find(s, r + 1, One(s[r]));
      Found(Span(r + 1, e), Past(s, e), e == |s|)
    else
      var e := Find(s, r + 1, EndOfValue);
      Found(Span(r, e), if e < |s| && IsSpace(s[e]) then e + 1 else e, e == |s|)
  }

  function AttrVal(s: Bytes, p: nat): (r: Found)
    requires p <= |s|
    ensures p <= r.span.start <= r.span.end <= r.pos <= |s| && (r.failed ==> r.pos == |s|)
    ensures p < |s| && s[p] == EQUALS ==> r.pos > p
  {
    var q := SkipSpace(s, p);
    if q == |s| then Found(Span(p, p), q, true)
    else if s[q] != EQUALS then Found(Span(p, p), q, false)
    else
      var r := SkipSpace(s, q + 1);
      if r == |s| then Found(Span(p, p), r, true) else ValueAt(s, r, Span(p, p))
  }

  /** One attribute from p on: its spans and where the next one starts. */
  function OneAttr(s: Bytes, p: nat): (r: (Attr, nat))
    requires p < |s| && s[p] != GT
    ensures p < r.1 <= |s|
    ensures p == r.0.key.start <= r.0.key.end <= r.0.val.start <= r.0.val.end <= r.1
  {
    var k := AttrKey(s, p);
    var v := AttrVal(s, k.pos);
    (Attr(k.span, v.span), SkipSpace(s, v.pos))
  }

  datatype Attrs = Attrs(pos: nat, failed: bool, pending: Attr, attr: seq<Attr>)

  function Saved(attr: seq<Attr>, a: Attr, save: bool): (r: seq<Attr>) {
    if save && a.key.start != a.key.end then attr + [a] else attr
  }

  /** The attributes of a tag, up to its closing angle. */
  function TagAttrs(s: Bytes, p: nat, save: bool, pending: Attr, attr: seq<Attr>): (r: Attrs)
    requires p <= |s|
    ensures p <= r.pos <= |s| && (r.failed ==> r.pos == |s|)
    ensures !r.failed ==> p < r.pos && s[r.pos - 1] == GT
    decreases |s| - p
  {
    if p == |s| then Attrs(p, true, pending, attr)
    else if s[p] == GT then Attrs(p + 1, false, pending, attr)
    else
      var (a, next) := OneAttr(s, p);
      TagAttrs(s, next, save, a, Saved(attr, a, save))
  }

  lemma TagAttrsStep(s: Bytes, p: nat, save: bool, pending: Attr, attr: seq<Attr>)
    requires p <= |s|
    ensures TagAttrs(s, p, save, pending, attr) ==
            if p == |s| then Attrs(p, true, pending, attr)
            else if s[p] == GT then Attrs(p + 1, false, pending, attr)
            else var (a, next) := OneAttr(s, p); TagAttrs(s, next, save, a, Saved(attr, a, save))
  {
  }

  // ----- Tokens -----

  datatype TokenType =
    ErrorToken | TextToken | StartTagToken | EndTagToken | SelfClosingTagToken | CommentToken | DoctypeToken

  /** What is known of the current token, with every span counted from the start of the stream. */
  datatype Token = Token(start: nat, data: Span, pending: Attr, attr: seq<Attr>, rawTag: Bytes,
                         textIsRaw: bool, convertNUL: bool, allowCDATA: bool, tt: TokenType)

  /** A tokenizer as its caller sees it: where it is in the stream, and the token. */
  datatype View = View(pos: nat, failed: bool, tok: Token) {
    /** On the stream s, and failed only at its end. */
    predicate On(s: Bytes) {
      tok.start <= pos <= |s| && (failed ==> pos == |s|)
    }

    /** The data span lies inside the raw span. */
    predicate Inside() {
      tok.start <= tok.data.start <= tok.data.end <= pos
    }

    function With(data: Span): (z: View) {
      this.(tok := tok.(data := data))
    }

    function Pending(a: Attr): (z: View) {
      this.(tok := tok.(pending := a))
    }

    function Typed(tt: TokenType): (z: View) {
      this.(tok := tok.(tt := tt))
    }

    /** Stopped there, with the data from dataStart on. */
    function Stopped(at: Stop, dataStart: nat): (z: View) {
      View(at.pos, failed || at.failed, tok.(data := Span(dataStart, at.end)))
    }
  }

  /** The part of a tag after the first letter of its name. */
  function Tag(s: Bytes, z: View, save: bool): (r: View)
    requires z.On(s) && !z.failed && z.tok.start < z.pos
    ensures r.On(s) && r.Inside() && r.tok.start == z.tok.start && z.pos <= r.pos
    ensures !r.failed ==> z.pos < r.pos && s[r.pos - 1] == GT && r.tok.data.start < r.tok.data.end
  {
    var e := Find(s, z.pos, EndOfName);
    var w := SkipSpace(s, if e < |s| && IsSpace(s[e]) then e + 1 else e);
    var tok := z.tok.(data := Span(z.pos - 1, e));
    if w == |s| then View(w, true, tok.(attr := []))
    else
      var a := TagAttrs(s, w, save, z.tok.pending, []);
      View(a.pos, a.failed, tok.(pending := a.pending, attr := a.attr))
  }

  function Lower(name: Bytes): (r: Bytes)
    ensures |r| == |name|
  {
    seq(|name|, i requires 0 <= i < |name| => if 65 <= name[i] <= 90 then name[i] + 32 else name[i])
  }

  const IFRAME: Bytes := [105, 102, 114, 97, 109, 101]
  const NOEMBED: Bytes := [110, 111, 101, 109, 98, 101, 100]
  const NOFRAMES: Bytes := [110, 111, 102, 114, 97, 109, 101, 115]
  const NOSCRIPT: Bytes := [110, 111, 115, 99, 114, 105, 112, 116]
  const PLAINTEXT: Bytes := [112, 108, 97, 105, 110, 116, 101, 120, 116]
  const STYLE: Bytes := [115, 116, 121, 108, 101]
  const TEXTAREA: Bytes := [116, 101, 120, 116, 97, 114, 101, 97]
  const TITLE: Bytes := [116, 105, 116, 108, 101]
  const XMP: Bytes := [120, 109, 112]

  /** The elements whose content is raw text. */
  predicate IsRawTag(name: Bytes) {
    || name == IFRAME || name == NOEMBED || name == NOFRAMES || name == NOSCRIPT || name == PLAINTEXT
    || name == SCRIPT || name == STYLE || name == TEXTAREA || name == TITLE || name == XMP
  }

  function StartTag(s: Bytes, z: View): (r: View)
    requires z.On(s) && !z.failed && z.tok.start + 1 < z.pos
    ensures r.On(s) && r.Inside() && r.tok.start == z.tok.start && z.pos <= r.pos
    ensures r.tok.tt == ErrorToken <==> r.failed
  {
    var t := Tag(s, z, true);
    if t.failed then t.Typed(ErrorToken)
    else
      var name := Lower(s[t.tok.data.start..t.tok.data.end]);
      t.(tok := t.tok.(rawTag := if IsRawTag(name) then name else t.tok.rawTag,
                       tt := if s[t.pos - 2] == SLASH then SelfClosingTagToken else StartTagToken))
  }

  /** A doctype from p on, just after its keyword. */
  function DoctypeRest(s: Bytes, z: View, p: nat): (r: View)
    requires z.On(s) && z.pos <= p <= |s|
    ensures r.On(s) && r.Inside() && r.tok.start == z.tok.start && p <= r.pos
  {
    var w := SkipSpace(s, p);
    if w == |s| then z.Stopped(Stop(w, w, true), w) else z.Stopped(UntilCloseAngle(s, w), w)
  }

  /** The stream ended inside markup of which nothing is data. */
  function Truncated(s: Bytes, z: View): (r: View) {
    View(|s|, true, z.tok.(data := Span(|s|, |s|), tt := CommentToken))
  }

  /** A comment, just after its opening dashes. */
  function CommentBody(s: Bytes, z: View): (r: View)
    requires z.On(s)
    ensures r.On(s) && r.Inside() && r.tok.start == z.tok.start && z.pos <= r.pos && r.tok.tt == CommentToken
  {
    var c := Comment(s, z.pos, 0, true);
    z.Stopped(if c.end < z.pos then c.(end := z.pos) else c, z.pos).Typed(CommentToken)
  }

  /** What comes after "<!" if it is not a comment and not a doctype: a CDATA section or a bogus comment. */
  function CDataOrBogus(s: Bytes, z: View): (r: View)
    requires z.On(s)
    ensures r.On(s) && r.Inside() && r.tok.start == z.tok.start && z.pos <= r.pos
    ensures r.tok.tt == CommentToken || r.tok.tt == TextToken
  {
    var p := z.pos;
    var n := if z.tok.allowCDATA then MatchedExactly(s, p, CDATA) else 0;
    if n == |CDATA| then
      var c := z.Stopped(CData(s, p + n, 0), p + n);
      c.(tok := c.tok.(convertNUL := true, tt := TextToken))
    else if p + n == |s| then Truncated(s, z)
    else z.Stopped(UntilCloseAngle(s, p), p).Typed(CommentToken)
  }

  /** What comes after "<!". */
  function Markup(s: Bytes, z: View): (r: View)
    requires z.On(s) && !z.failed
    ensures r.On(s) && r.Inside() && r.tok.start == z.tok.start && z.pos <= r.pos
    ensures r.tok.tt == CommentToken || r.tok.tt == DoctypeToken || r.tok.tt == TextToken
  {
    var p := z.pos;
    var n := Matched(s, p, DOCTYPE);
    if p + 2 > |s| then View(|s|, true, z.tok.(data := Span(p, |s|), tt := CommentToken))
    else if s[p] == DASH && s[p + 1] == DASH then CommentBody(s, z.(pos := p + 2))
    else if n == |DOCTYPE| then DoctypeRest(s, z, p + n).Typed(DoctypeToken)
    else if p + n == |s| then Truncated(s, z)
    else CDataOrBogus(s, z)
  }

  /** Declarations set the data span, so they do not depend on it. */
  lemma MarkupSame(s: Bytes, z: View, z': View)
    requires z.On(s) && !z.failed && z' == z.With(z'.tok.data)
    ensures Markup(s, z') == Markup(s, z)
  {
    hide Matched, DoctypeRest, CommentBody, CDataOrBogus;
    var n := Matched(s, z.pos, DOCTYPE);
    assert DoctypeRest(s, z', z.pos + n) == DoctypeRest(s, z, z.pos + n) by {
      DoctypeRestSame(s, z, z', z.pos + n);
    }
    BodySame(s, z, z');
  }

  lemma DoctypeRestSame(s: Bytes, z: View, z': View, p: nat)
    requires z.On(s) && z.pos <= p <= |s| && z' == z.With(z'.tok.data)
    ensures DoctypeRest(s, z', p) == DoctypeRest(s, z, p)
  {
  }

  lemma BodySame(s: Bytes, z: View, z': View)
    requires z.On(s) && !z.failed && z' == z.With(z'.tok.data)
    ensures z.pos + 2 <= |s| ==> CommentBody(s, z'.(pos := z.pos + 2)) == CommentBody(s, z.(pos := z.pos + 2))
    ensures CDataOrBogus(s, z') == CDataOrBogus(s, z)
  {
    hide MatchedExactly, Comment, CData, UntilCloseAngle;
  }

  predicate Opens(c: Byte) {
    IsLetter(c) || c == SLASH || c == BANG || c == QUESTION
  }

  /** Where text from p on ends: before the next angle that opens something, or at the end. */
  function TextEnd(s: Bytes, p: nat): (r: nat)
    requires p <= |s|
    ensures p <= r <= |s|
    ensures r < |s| ==> r + 1 < |s| && s[r] == LT && Opens(s[r + 1])
    decreases |s| - p
  {
    var e := Find(s, p, One(LT));
    if e + 1 >= |s| then |s| else if Opens(s[e + 1]) then e else TextEnd(s, e + 1)
  }

  lemma TextEndStep(s: Bytes, p: nat)
    requires p <= |s|
    ensures TextEnd(s, p) ==
            if p == |s| then p
            else if s[p] != LT then TextEnd(s, p + 1)
            else if p + 1 == |s| then p + 1
            else if Opens(s[p + 1]) then p
            else TextEnd(s, p + 1)
  {
  }

  /** What comes after "</". */
  function EndTag(s: Bytes, z: View): (r: View)
    requires z.On(s) && !z.failed && z.tok.start < z.pos && z.tok.data == Span(z.tok.start, z.tok.start)
    ensures r.On(s) && r.Inside() && r.tok.start == z.tok.start && z.pos <= r.pos
    ensures r.tok.tt == ErrorToken ==> r.failed
  {
    var p := z.pos;
    if p == |s| then View(p, true, z.tok.(data := Span(z.tok.start, p), tt := TextToken))
    else if s[p] == GT then z.(pos := p + 1).Typed(CommentToken)
    else if IsLetter(s[p]) then
      var t := Tag(s, z.(pos := p + 1), false);
      t.Typed(if t.failed then ErrorToken else EndTagToken)
    else z.Stopped(UntilCloseAngle(s, p), p).Typed(CommentToken)
  }

  /** The markup that opens at z, which is at the start of its token. */
  function Opened(s: Bytes, z: View): (r: View)
    requires z.On(s) && !z.failed && z.pos == z.tok.start && z.tok.data == Span(z.pos, z.pos)
    requires z.pos + 1 < |s|
    ensures r.On(s) && r.Inside() && r.tok.start == z.tok.start < r.pos
    ensures r.tok.tt == ErrorToken ==> r.failed
  {
    var c := s[z.pos + 1];
    if IsLetter(c) then StartTag(s, z.(pos := z.pos + 2))
    else if c == SLASH then EndTag(s, z.(pos := z.pos + 2))
    else if c == BANG then Markup(s, z.(pos := z.pos + 2))
    else z.Stopped(UntilCloseAngle(s, z.pos + 1), z.pos + 1).Typed(CommentToken)
  }

  /** Text up to markup, or else the markup; z is at the start of its token. */
  function TextOrMarkup(s: Bytes, z: View): (r: View)
    requires z.On(s) && z.pos == z.tok.start && z.tok.data == Span(z.pos, z.pos)
    ensures r.On(s) && r.Inside() && r.tok.start == z.tok.start
    ensures if r.tok.tt == ErrorToken then r.failed else r.tok.start < r.pos
  {
    var e := TextEnd(s, z.pos);
    if e == |s| then
      View(e, true, z.tok.(data := Span(z.pos, e), tt := if z.pos < e then TextToken else ErrorToken))
    else if z.pos < e then View(e, false, z.tok.(data := Span(z.pos, e), tt := TextToken))
    else Opened(s, z)
  }

  /** Raw text up to the end tag of the raw element, or to the end of the stream. */
  function RawOrRCDATA(s: Bytes, z: View): (r: View)
    requires z.On(s) && z.pos == z.tok.start
    ensures r.On(s) && r.tok.start == z.tok.start && r.tok.data == Span(z.tok.data.start, r.pos)
  {
    var tag := z.tok.rawTag;
    var e := if tag == SCRIPT then Script(s, z.pos, z.pos, Data) else RawText(s, z.pos, tag);
    View(e, e == |s|, z.tok.(data := Span(z.tok.data.start, e), textIsRaw := tag != TEXTAREA && tag != TITLE, rawTag := []))
  }

  /** A token in a raw element; it is empty if the end tag comes at once. */
  function RawToken(s: Bytes, z: View): (r: View)
    requires z.On(s) && z.pos == z.tok.start && z.tok.data == Span(z.pos, z.pos)
    ensures r.On(s) && r.tok.start == z.tok.start && r.tok.data == Span(z.pos, r.pos)
  {
    if z.tok.rawTag == [] then z
    else if z.tok.rawTag == PLAINTEXT then View(|s|, true, z.tok.(data := Span(z.pos, |s|), textIsRaw := true))
    else RawOrRCDATA(s, z)
  }

  /** The token after z: it starts where z ends, its data lies inside, and only at the end of the stream is it empty. */
  function NextToken(s: Bytes, z: View): (r: View)
    requires z.On(s)
    ensures r.On(s) && r.Inside() && r.tok.start == z.pos
    ensures if r.tok.tt == ErrorToken then r.failed else r.tok.start < r.pos
  {
    var z0 := z.(tok := z.tok.(start := z.pos, data := Span(z.pos, z.pos)));
    if z.failed then z0.Typed(ErrorToken)
    else
      var z1 := RawToken(s, z0);
      if z1.tok.data.end > z1.tok.data.start then z1.(tok := z1.tok.(tt := TextToken, convertNUL := true))
      else TextOrMarkup(s, z1.(tok := z1.tok.(textIsRaw := false, convertNUL := false)))
  }

  // ----- Whole runs -----

  /** What a caller may do before it asks for the next token. */
  datatype Call = Call(allowCDATA: bool, notRawText: bool)

  function Prepared(z: View, c: Call): (r: View) {
    z.(tok := z.tok.(allowCDATA := c.allowCDATA, rawTag := if c.notRawText then [] else z.tok.rawTag))
  }

  /** The tokens that the calls return, from z on. */
  function Run(s: Bytes, z: View, calls: seq<Call>): (ts: seq<View>)
    requires z.On(s)
    ensures |ts| == |calls|
    ensures forall i :: 0 <= i < |ts| ==> ts[i].On(s)
    decreases |calls|
  {
    if calls == [] then []
    else
      var t := NextToken(s, Prepared(z, calls[0]));
      [t] + Run(s, t, calls[1..])
  }

  lemma {:induction false} JoinedMore(raws: seq<Bytes>, r: Bytes)
    ensures Joined(raws + [r]) == Joined(raws) + r
  {
    if raws == [] {
      assert raws + [r] == [r] && Joined([r]) == r + Joined([]);
    } else {
      assert (raws + [r])[1..] == raws[1..] + [r];
      JoinedMore(raws[1..], r);
    }
  }

  function RawOf(s: Bytes, t: View): (r: Bytes)
    requires t.On(s)
  {
    s[t.tok.start..t.pos]
  }

  /** The raw bytes of the tokens of a run. */
  function RawsOf(s: Bytes, ts: seq<View>): (r: seq<Bytes>)
    requires forall i :: 0 <= i < |ts| ==> ts[i].On(s)
    ensures |r| == |ts|
  {
    seq(|ts|, i requires 0 <= i < |ts| => RawOf(s, ts[i]))
  }

  /** The raw bytes of the tokens after z, up to the first error. */
  function RawsFrom(s: Bytes, z: View): (raws: seq<Bytes>)
    requires z.On(s)
    decreases |s| - z.pos
  {
    var t := NextToken(s, z);
    if t.tok.tt == ErrorToken then [] else [RawOf(s, t)] + RawsFrom(s, t)
  }

  /** The token t starts at pos and holds its data, and it is empty only if it is an error. */
  predicate Follows(s: Bytes, pos: nat, t: View) {
    && t.On(s) && t.Inside() && t.tok.start == pos
    && (if t.tok.tt == ErrorToken then t.failed else pos < t.pos)
  }

  /** Each token of a run starts where the one before ended. */
  lemma {:induction false} NoGaps(s: Bytes, z: View, calls: seq<Call>, i: nat)
    requires z.On(s) && i < |calls|
    ensures var ts := Run(s, z, calls); Follows(s, if i == 0 then z.pos else ts[i - 1].pos, ts[i])
    decreases |calls|
  {
    hide NextToken;
    if i > 0 {
      var ts := Run(s, z, calls);
      NoGaps(s, ts[0], calls[1..], i - 1);
      var rest := Run(s, ts[0], calls[1..]);
      assert ts[i] == rest[i - 1] && (i > 1 ==> ts[i - 1] == rest[i - 2]);
    }
  }

  /** The raw bytes of the tokens of a run are the bytes from where it starts to where it ends. */
  lemma {:induction false} Partition(s: Bytes, z: View, calls: seq<Call>)
    requires z.On(s) && calls != []
    ensures var ts := Run(s, z, calls);
            z.pos <= ts[|ts| - 1].pos && Joined(RawsOf(s, ts)) == s[z.pos..ts[|ts| - 1].pos]
    decreases |calls|
  {
    hide NextToken;
    Monotone(s, z, calls);
    var ts := Run(s, z, calls);
    var raws := RawsOf(s, ts);
    assert raws[0] == s[z.pos..ts[0].pos];
    if |calls| == 1 {
      assert raws == [raws[0]];
    } else {
      Partition(s, ts[0], calls[1..]);
      assert raws[1..] == RawsOf(s, ts[1..]);
      Spliced(s, z.pos, ts[0].pos, ts[|ts| - 1].pos);
    }
  }

  lemma Spliced(s: Bytes, a: nat, b: nat, c: nat)
    requires a <= b <= c <= |s|
    ensures s[a..b] + s[b..c] == s[a..c]
  {
  }

  /** A run only goes forward. */
  lemma {:induction false} Monotone(s: Bytes, z: View, calls: seq<Call>)
    requires z.On(s) && calls != []
    ensures z.pos <= Run(s, z, calls)[|calls| - 1].pos <= |s|
    decreases |calls|
  {
    hide NextToken;
    var t := NextToken(s, Prepared(z, calls[0]));
    if |calls| > 1 {
      Monotone(s, t, calls[1..]);
    }
  }

  /** More calls than there are bytes left meet an error token. */
  lemma {:induction false} Ends(s: Bytes, z: View, calls: seq<Call>)
    requires z.On(s) && |calls| > |s| - z.pos
    ensures exists i :: 0 <= i <= |s| - z.pos && Run(s, z, calls)[i].tok.tt == ErrorToken
    decreases |calls|
  {
    hide NextToken;
    var ts := Run(s, z, calls);
    var t := ts[0];
    if t.tok.tt != ErrorToken {
      assert t.pos > z.pos;
      Ends(s, t, calls[1..]);
      var i :| 0 <= i <= |s| - t.pos && Run(s, t, calls[1..])[i].tok.tt == ErrorToken;
      assert ts[i + 1].tok.tt == ErrorToken;
    } else {
      assert ts[0].tok.tt == ErrorToken;
    }
  }

  /** After an error token there are only empty error tokens. */
  lemma {:induction false} ErrorStays(s: Bytes, z: View, calls: seq<Call>)
    requires z.On(s) && z.failed
    ensures forall t :: t in Run(s, z, calls) ==> t.tok.tt == ErrorToken && t.pos == t.tok.start == |s|
    decreases |calls|
  {
    if calls != [] {
      var t := NextToken(s, Prepared(z, calls[0]));
      assert t.failed;
      ErrorStays(s, t, calls[1..]);
    }
  }

  // ----- Attributes -----

  /** Attributes lie between two positions, in order, and have a name. */
  predicate InOrder(attr: seq<Attr>, from: int, to: int)
  {
    && (forall i :: 0 <= i < |attr| ==>
          from <= attr[i].key.start < attr[i].key.end <= attr[i].val.start <= attr[i].val.end <= to)
    && (forall i, j :: 0 <= i < j < |attr| ==> attr[i].val.end <= attr[j].key.start)
  }

  lemma {:induction false} AttrsInOrder(s: Bytes, p: nat, save: bool, pending: Attr, attr: seq<Attr>, from: nat)
    requires from <= p <= |s| && InOrder(attr, from, p)
    ensures InOrder(TagAttrs(s, p, save, pending, attr).attr, from, TagAttrs(s, p, save, pending, attr).pos)
    decreases |s| - p
  {
    hide AttrKey, AttrVal, SkipSpace;
    if p < |s| && s[p] != GT {
      var (a, next) := OneAttr(s, p);
      AttrsInOrder(s, next, save, a, Saved(attr, a, save), from);
    }
  }

  /** The attributes of a tag lie inside it, after its name. */
  lemma TagAttrsInside(s: Bytes, z: View, save: bool)
    requires z.On(s) && !z.failed && z.tok.start < z.pos
    ensures var t := Tag(s, z, save); InOrder(t.tok.attr, t.tok.data.end, t.pos)
  {
    var e := Find(s, z.pos, EndOfName);
    var w := SkipSpace(s, if e < |s| && IsSpace(s[e]) then e + 1 else e);
    if w < |s| {
      AttrsInOrder(s, w, save, z.tok.pending, [], e);
    }
  }
}
