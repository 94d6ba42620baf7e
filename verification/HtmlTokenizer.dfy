/** html/token.go: the tokenizer, which reads its input through a buffer that is refilled and shifted. */
module HtmlTokenizer {
  import opened Common
  import opened HtmlScan

  // ----- The reader -----

  datatype ReadError = EOF | NoProgress | ReadFailed(code: int)

  /** What a call to Read returns. A response longer than the caller's buffer is returned in pieces. */
  datatype Response = Response(data: Bytes, err: Option<ReadError>)

  /** The bytes a reader delivers before its first error, after idle empty responses in a row. */
  ghost function Delivered(script: seq<Response>, idle: nat): (s: Bytes) {
    if idle >= 100 || script == [] then []
    else
      var r := script[0];
      if r.err.Some? then r.data
      else if r.data == [] then Delivered(script[1..], idle + 1)
      else r.data + Delivered(script[1..], 0)
  }

  /** The error that ends them. */
  ghost function Ending(script: seq<Response>, idle: nat): (e: ReadError) {
    if idle >= 100 then NoProgress
    else if script == [] then EOF
    else
      var r := script[0];
      if r.err.Some? then r.err.value
      else Ending(script[1..], if r.data == [] then idle + 1 else 0)
  }

  function MovedSpan(a: Span, x: int): (r: Span) {
    Span(a.start + x, a.end + x)
  }

  function Moved(a: Attr, x: int): (r: Attr) {
    Attr(MovedSpan(a.key, x), MovedSpan(a.val, x))
  }

  function MovedAll(attr: seq<Attr>, x: int): (r: seq<Attr>)
    ensures |r| == |attr|
    ensures forall i :: 0 <= i < |r| ==> r[i] == Moved(attr[i], x)
  {
    seq(|attr|, i requires 0 <= i < |attr| => Moved(attr[i], x))
  }

  /** Spans that move with the buffer keep their place in the stream. */
  lemma MovedBack(data: Span, pending: Attr, attr: seq<Attr>, x: int, base: int)
    ensures MovedSpan(MovedSpan(data, -x), base + x) == MovedSpan(data, base)
    ensures Moved(Moved(pending, -x), base + x) == Moved(pending, base)
    ensures MovedAll(MovedAll(attr, -x), base + x) == MovedAll(attr, base)
  {
  }

  /** The bytes of s from base on start with buf. */
  ghost predicate Window(s: Bytes, base: nat, buf: Bytes)
    requires base + |buf| <= |s|
  {
    buf == s[base..base + |buf|]
  }

  lemma WindowFrom(s: Bytes, base: nat, buf: Bytes, x: nat)
    requires base + |buf| <= |s| && Window(s, base, buf) && x <= |buf|
    ensures Window(s, base + x, buf[x..])
  {
  }

  lemma WindowSlice(s: Bytes, base: nat, buf: Bytes, i: nat, j: nat)
    requires base + |buf| <= |s| && Window(s, base, buf) && i <= j <= |buf|
    ensures buf[i..j] == s[base + i..base + j]
  {
    forall k | i <= k < j
      ensures buf[k] == s[base + k]
    {
      WindowAt(s, base, buf, k);
    }
  }

  lemma WindowAt(s: Bytes, base: nat, buf: Bytes, i: nat)
    requires base + |buf| <= |s| && Window(s, base, buf) && i < |buf|
    ensures buf[i] == s[base + i]
  {
  }

  class Tokenizer {
    var script: seq<Response>
    var tt: TokenType
    var err: Option<ReadError>
    var readErr: Option<ReadError>
    var raw: Span
    var buf: Bytes
    var cap: nat
    var data: Span
    var pendingAttr: Attr
    var attr: seq<Attr>
    var rawTag: Bytes
    var textIsRaw: bool
    var convertNUL: bool
    var allowCDATA: bool

    /** The whole stream and the error that ends it. */
    ghost const input: Bytes
    ghost const ending: ReadError

    /** Where in the stream the buffer starts. */
    ghost var base: nat

    ghost predicate Valid()
      reads `script, `err, `readErr, `raw, `buf, `cap, `base
    {
      && 0 < cap && |buf| <= cap
      && 0 <= raw.start <= raw.end <= |buf|
      && base + |buf| <= |input| && Window(input, base, buf)
      && (if readErr.None? then input[base + |buf|..] == Delivered(script, 0) && Ending(script, 0) == ending
          else readErr.value == ending && base + |buf| == |input|)
      && (err.Some? ==> err == readErr && raw.end == |buf|)
    }

    ghost function V(): (z: View)
      requires Valid()
      reads this
      ensures z.On(input) && z.failed == err.Some?
      ensures z.tok.rawTag == rawTag && z.tok.textIsRaw == textIsRaw && z.tok.convertNUL == convertNUL
      ensures z.tok.allowCDATA == allowCDATA && z.tok.tt == tt
    {
      View(base + raw.end, err.Some?,
           Token(base + raw.start, MovedSpan(data, base), Moved(pendingAttr, base), MovedAll(attr, base),
                 rawTag, textIsRaw, convertNUL, allowCDATA, tt))
    }

    lemma RawLength()
      requires Valid()
      ensures V().pos - V().tok.start == raw.end - raw.start
    {
    }

    /** One call to the reader. */
    method Read(max: nat, ghost idle: nat) returns (chunk: Bytes, e: Option<ReadError>)
      requires max > 0 && idle < 100
      modifies this`script
      ensures |chunk| <= max
      ensures e.Some? ==> Delivered(old(script), idle) == chunk && Ending(old(script), idle) == e.value
      ensures e.None? ==> var next := if chunk == [] then idle + 1 else 0;
                          && Delivered(old(script), idle) == chunk + Delivered(script, next)
                          && Ending(old(script), idle) == Ending(script, next)
    {
      if script == [] {
        return [], Some(EOF);
      }
      var r := script[0];
      if |r.data| <= max {
        script := script[1..];
        return r.data, r.err;
      }
      script := [Response(r.data[max..], r.err)] + script[1..];
      assert script[1..] == old(script)[1..];
      assert r.data[..max] + r.data[max..] == r.data;
      return r.data[..max], None;
    }

    method ReadAtLeastOneByte(max: nat) returns (chunk: Bytes, e: Option<ReadError>)
      requires max > 0
      modifies this`script
      ensures |chunk| <= max
      ensures e.Some? ==> Delivered(old(script), 0) == chunk && Ending(old(script), 0) == e.value
      ensures e.None? ==> && chunk != []
                          && Delivered(old(script), 0) == chunk + Delivered(script, 0)
                          && Ending(old(script), 0) == Ending(script, 0)
    {
      for i := 0 to 100
        invariant Delivered(script, i) == Delivered(old(script), 0)
        invariant Ending(script, i) == Ending(old(script), 0)
      {
        chunk, e := Read(max, i);
        if |chunk| != 0 || e.Some? {
          return;
        }
      }
      return [], Some(NoProgress);
    }

    /** Lets the spans refer to the same bytes after a move by x. */
    method MoveSpans(x: int)
      modifies `data, `pendingAttr, `attr
      ensures MovedSpan(data, base + x) == old(MovedSpan(data, base))
      ensures Moved(pendingAttr, base + x) == old(Moved(pendingAttr, base))
      ensures MovedAll(attr, base + x) == old(MovedAll(attr, base))
    {
      MovedBack(data, pendingAttr, attr, x, base);
      if x != 0 {
        data := MovedSpan(data, -x);
        pendingAttr := Moved(pendingAttr, -x);
        attr := MovedAll(attr, -x);
      }
    }

    /** Moves the current token to the start of the buffer, in a larger one if it fills more than half. */
    method Shift()
      requires Valid() && raw.end == |buf| && readErr.None?
      modifies `base, `raw, `buf, `cap, `data, `pendingAttr, `attr
      ensures Valid() && V() == old(V())
      ensures raw == Span(0, |buf|) && |buf| < cap
    {
      hide Delivered, Ending, MovedSpan, Moved, MovedAll, Window;
      WindowFrom(input, base, buf, raw.start);
      var d := raw.end - raw.start;
      var x := raw.start;
      cap := if 2 * d > cap then 2 * cap else cap;
      buf := buf[raw.start..];
      MoveSpans(x);
      base := base + x;
      raw := Span(0, d);
    }

    /** Reads into the rest of the buffer. */
    method Fill() returns (n: nat)
      requires Valid() && raw.end == |buf| < cap && readErr.None?
      modifies `script, `readErr, `buf
      ensures Valid() && V() == old(V())
      ensures raw.end + n == |buf| && (n == 0 ==> readErr.Some?)
    {
      hide Delivered, Ending, MovedSpan, Moved, MovedAll;
      ghost var rest := input[base + |buf|..];
      var chunk;
      chunk, readErr := ReadAtLeastOneByte(cap - |buf|);
      assert rest[..|chunk|] == chunk && rest[|chunk|..] == input[base + |buf| + |chunk|..];
      buf := buf + chunk;
      return |chunk|;
    }

    /** The next byte of the stream, whatever the buffer holds; at the end of the stream it sets err. */
    method ReadByte() returns (c: Byte)
      requires Valid()
      modifies this
      ensures Valid()
      ensures if old(V()).pos == |input| then V() == old(V()).(failed := true)
              else V() == old(V()).(pos := old(V()).pos + 1) && c == input[old(V()).pos]
    {
      hide Delivered, Ending, MovedSpan, Moved, MovedAll, Window;
      if raw.end >= |buf| {
        if readErr.Some? {
          err := readErr;
          return 0;
        }
        Shift();
        var n := Fill();
        if n == 0 {
          err := readErr;
          return 0;
        }
      }
      WindowAt(input, base, buf, raw.end);
      c := buf[raw.end];
      raw := raw.(end := raw.end + 1);
    }

    /** Gives back the last n bytes. */
    method Unread(n: nat)
      requires Valid() && err.None? && V().tok.start + n <= V().pos
      modifies `raw
      ensures Valid() && V() == old(V()).(pos := old(V()).pos - n)
      ensures raw.end + n <= |buf|
    {
      raw := raw.(end := raw.end - n);
    }

    method SkipWhiteSpace()
      requires Valid()
      modifies this
      ensures Valid()
      ensures var p := SkipSpace(input, old(V()).pos); V() == old(V()).(pos := p, failed := p == |input|)
    {
      hide Valid, V;
      if err.Some? {
        return;
      }
      while true
        invariant Valid() && !V().failed && V().pos >= old(V()).pos
        invariant V() == old(V()).(pos := V().pos)
        invariant SkipSpace(input, V().pos) == SkipSpace(input, old(V()).pos)
        decreases |input| - V().pos
      {
        var c := ReadByte();
        if err.Some? {
          return;
        }
        if !IsSpace(c) {
          Unread(1);
          return;
        }
      }
    }

    // ----- Raw text -----

    /** Reads an end tag after its "</"; if it is there, gives all of it back. */
    method ReadRawEndTag() returns (found: bool)
      requires Valid() && err.None? && V().tok.start + 2 <= V().pos
      modifies this
      ensures Valid()
      ensures var p, n := old(V()).pos, Matched(input, old(V()).pos, old(rawTag));
              found == EndTagAt(input, p, old(rawTag))
              && V() == if found then old(V()).(pos := p - 2)
                        else old(V()).(pos := p + n, failed := p + n == |input|)
      ensures found ==> raw.end + 3 + |rawTag| <= |buf|
    {
      hide Valid, V, Matched, SameLetter, EndOfName.At;
      ghost var p, tag := V().pos, rawTag;
      for i := 0 to |rawTag|
        invariant Valid() && p + i <= |input| && rawTag == tag
        invariant V() == old(V()).(pos := p + i)
        invariant Matched(input, p, tag) == i + Matched(input, p + i, tag[i..])
      {
        MatchedMore(input, p, tag, i);
        var c := ReadByte();
        if err.Some? {
          return false;
        }
        if !SameLetter(c, rawTag[i]) {
          Unread(1);
          return false;
        }
      }
      MatchedMore(input, p, tag, |tag|);
      var c := ReadByte();
      if err.Some? {
        return false;
      }
      if EndOfName.At(c) {
        Unread(3 + |rawTag|);
        return true;
      }
      Unread(1);
      return false;
    }

    /** Sets the start of the data n bytes back. */
    method MarkStart(n: int)
      requires Valid()
      modifies `data
      ensures Valid() && V() == old(V()).With(Span(old(V()).pos - n, old(V()).tok.data.end))
    {
      data := data.(start := raw.end - n);
    }

    /** Sets the end of the data n bytes back. */
    method MarkEnd(n: int)
      requires Valid()
      modifies `data
      ensures Valid() && V() == old(V()).With(Span(old(V()).tok.data.start, old(V()).pos - n))
    {
      data := data.(end := raw.end - n);
    }

    method ReadRawText()
      requires Valid() && err.None?
      modifies this
      ensures Valid()
      ensures var e := RawText(input, old(V()).pos, old(rawTag)); V() == old(V()).(pos := e, failed := e == |input|)
    {
      hide Valid, V, Matched, EndTagAt, RawText;
      ghost var p, tag := V().pos, rawTag;
      while true
        invariant Valid() && err.None? && rawTag == tag && p <= V().pos
        invariant V() == old(V()).(pos := V().pos)
        invariant RawText(input, V().pos, tag) == RawText(input, p, tag)
        decreases |input| - V().pos
      {
        RawTextStep(input, V().pos, tag);
        var c := ReadByte();
        if err.Some? {
          return;
        }
        if c == LT {
          c := ReadByte();
          if err.Some? {
            return;
          }
          if c != SLASH {
            Unread(1);
          } else {
            var found := ReadRawEndTag();
            if found {
              return;
            }
            if err.Some? {
              RawTextStep(input, V().pos, tag);
              return;
            }
          }
        }
      }
    }

    // ----- Scripts -----

    /** Reads the name after an escaped "<", and the byte that ends it. */
    method ReadDoubleEscapeStart() returns (found: bool)
      requires Valid() && err.None?
      modifies this
      ensures Valid()
      ensures var p, n := old(V()).pos, Matched(input, old(V()).pos, SCRIPT);
              found == EndTagAt(input, p, SCRIPT)
              && V() == if found then old(V()).(pos := p + 7)
                        else old(V()).(pos := p + n, failed := p + n == |input|)
    {
      hide Valid, V, Matched, SameLetter, EndOfName.At;
      ghost var p := V().pos;
      for i := 0 to 6
        invariant Valid() && p + i <= |input|
        invariant V() == old(V()).(pos := p + i)
        invariant Matched(input, p, SCRIPT) == i + Matched(input, p + i, SCRIPT[i..])
      {
        MatchedMore(input, p, SCRIPT, i);
        var c := ReadByte();
        if err.Some? {
          return false;
        }
        if !SameLetter(c, SCRIPT[i]) {
          Unread(1);
          return false;
        }
      }
      MatchedMore(input, p, SCRIPT, 6);
      var c := ReadByte();
      if err.Some? {
        return false;
      }
      if EndOfName.At(c) {
        return true;
      }
      Unread(1);
      return false;
    }

    /** Takes back the last n bytes given back. */
    method Advance(n: nat)
      requires Valid() && err.None? && raw.end + n <= |buf|
      modifies `raw
      ensures Valid() && V() == old(V()).(pos := old(V()).pos + n)
    {
      raw := raw.(end := raw.end + n);
    }

    /** The scanner in a state that looks for the end tag. */
    method ScriptTagBlock(q: ScriptState) returns (done: bool, q': ScriptState)
      requires Valid() && err.None? && rawTag == SCRIPT && V().tok.start + 2 <= V().pos
      requires q == EndTagOpen || q == EscapedEndTagOpen || q == DoubleEscapeEnd
      modifies this
      ensures Valid()
      ensures var step := ScriptNext(input, old(V()).tok.start, old(V()).pos, q);
              && done == step.Done? && (step.Go? ==> q' == step.q)
              && V() == old(V()).(pos := step.p, failed := step == Done(|input|))
    {
      hide Valid, V, Matched, EndTagAt;
      var found := ReadRawEndTag();
      if found {
        if q == DoubleEscapeEnd {
          Advance(9);
          return false, Escaped;
        }
        return true, q;
      }
      if err.Some? {
        return true, q;
      }
      return false, if q == EndTagOpen then Data else if q == EscapedEndTagOpen then Escaped else DoubleEscaped;
    }

    /** The scanner in a state that looks at one byte. */
    method ScriptByteBlock(q: ScriptState) returns (done: bool, q': ScriptState)
      requires Valid() && err.None? && V().tok.start + Depth(q) <= V().pos
      requires q != EndTagOpen && q != EscapedEndTagOpen && q != DoubleEscapeEnd
      modifies this
      ensures Valid()
      ensures var step := ScriptNext(input, old(V()).tok.start, old(V()).pos, q);
              && done == step.Done? && (step.Go? ==> q' == step.q)
              && V() == old(V()).(pos := step.p, failed := step == Done(|input|))
    {
      hide Valid, V, Matched, EndTagAt, ScriptMove, Depth;
      var c := ReadByte();
      if err.Some? {
        return true, q;
      }
      if q == EscapedLessThan && IsLetter(c) {
        Unread(1);
        var found := ReadDoubleEscapeStart();
        if err.Some? {
          return true, q;
        }
        return false, if found then DoubleEscaped else Escaped;
      }
      var (consumed, next) := ScriptMove(q, c);
      if !consumed {
        Unread(1);
      }
      return false, next;
    }

    method ReadScript()
      requires Valid() && err.None? && rawTag == SCRIPT && V().tok.start == V().pos
      modifies this
      ensures Valid()
      ensures var e := Script(input, old(V()).pos, old(V()).pos, Data);
              V() == old(V()).With(Span(old(V()).tok.data.start, e)).(pos := e, failed := e == |input|)
    {
      hide Valid, V, ScriptNext, Depth;
      ghost var start := V().pos;
      var done, q := false, Data;
      DataDepth();
      while !done
        invariant Valid() && start <= V().pos && rawTag == SCRIPT
        invariant V() == old(V()).(pos := V().pos, failed := err.Some?)
        invariant !done ==> err.None? && start + Depth(q) <= V().pos
        invariant !done ==> Script(input, start, V().pos, q) == Script(input, start, start, Data)
        invariant done ==> V().pos == Script(input, start, start, Data) && (err.Some? <==> V().pos == |input|)
        decreases !done, |input| - V().pos, Depth(q)
      {
        if q == EndTagOpen || q == EscapedEndTagOpen || q == DoubleEscapeEnd {
          DepthOfTag(q);
          done, q := ScriptTagBlock(q);
        } else {
          done, q := ScriptByteBlock(q);
        }
      }
      MarkEnd(0);
    }

    method ReadRawOrRCDATA()
      requires Valid() && err.None? && V().tok.start == V().pos
      modifies this
      ensures Valid() && V() == RawOrRCDATA(input, old(V()))
    {
      hide Valid, V, Script, RawText;
      if rawTag == SCRIPT {
        ReadScript();
        LeaveRaw(true);
      } else {
        ReadRawText();
        MarkEnd(0);
        LeaveRaw(rawTag != TEXTAREA && rawTag != TITLE);
      }
    }

    method LeaveRaw(isRaw: bool)
      requires Valid()
      modifies `textIsRaw, `rawTag
      ensures Valid() && V() == old(V()).(tok := old(V()).tok.(textIsRaw := isRaw, rawTag := []))
    {
      textIsRaw := isRaw;
      rawTag := [];
    }

    // ----- Comments, declarations and CDATA sections -----

    method ReadComment()
      requires Valid() && err.None?
      modifies this
      ensures Valid() && V() == CommentBody(input, old(V())).Typed(old(tt))
    {
      hide Valid, V, Comment;
      ReadCommentText();
      EmptyIfReversed();
    }

    method ReadCommentText()
      requires Valid() && err.None?
      modifies this
      ensures Valid() && V() == old(V()).Stopped(Comment(input, old(V()).pos, 0, true), old(V()).pos)
    {
      hide Valid, V, Comment;
      MarkStart(0);
      ghost var p := V().pos;
      var dashes, beginning := 0, true;
      ghost var z := V();
      while true
        invariant Valid() && err.None? && p + dashes <= V().pos
        invariant V() == z.(pos := V().pos)
        invariant Comment(input, V().pos, dashes, beginning) == Comment(input, p, 0, true)
        decreases |input| - V().pos
      {
        CommentStep(input, V().pos, dashes, beginning);
        var c := ReadByte();
        if err.Some? {
          MarkEnd(Min(dashes, 2));
          break;
        }
        if c == DASH {
          dashes := dashes + 1;
          continue;
        }
        if c == GT && (dashes >= 2 || beginning) {
          MarkEnd(3);
          break;
        }
        if c == BANG && dashes >= 2 {
          c := ReadByte();
          if err.Some? {
            MarkEnd(0);
            break;
          }
          if c == GT {
            MarkEnd(4);
            break;
          }
        }
        dashes, beginning := 0, false;
      }
    }

    /** A comment with no data, like "<!-->". */
    method EmptyIfReversed()
      requires Valid()
      modifies `data
      ensures Valid()
      ensures var d := old(V()).tok.data; V() == if d.end < d.start then old(V()).With(Span(d.start, d.start)) else old(V())
    {
      if data.end < data.start {
        data := data.(end := data.start);
      }
    }

    method ReadUntilCloseAngle()
      requires Valid()
      modifies this
      ensures Valid() && V() == old(V()).Stopped(UntilCloseAngle(input, old(V()).pos), old(V()).pos)
    {
      hide Valid, V;
      MarkStart(0);
      ghost var p, z := V().pos, V();
      while true
        invariant Valid() && p <= V().pos
        invariant V() == z.(pos := V().pos)
        invariant Find(input, V().pos, One(GT)) == Find(input, p, One(GT))
        decreases |input| - V().pos, err.None?
      {
        var c := ReadByte();
        if err.Some? {
          MarkEnd(0);
          return;
        }
        if c == GT {
          MarkEnd(1);
          return;
        }
      }
    }

    /** Goes back to the start of the data. */
    method BackToData()
      requires Valid() && err.None? && V().tok.start <= V().tok.data.start <= V().pos
      modifies `raw
      ensures Valid() && V() == old(V()).(pos := old(V()).tok.data.start)
    {
      raw := raw.(end := data.start);
    }

    method ReadDoctype() returns (ok: bool)
      requires Valid() && err.None? && V().tok.data.start == V().pos
      modifies this
      ensures Valid()
      ensures var z, p := old(V()), old(V()).pos;
              var n := Matched(input, p, DOCTYPE);
              ok == (n == |DOCTYPE|)
              && V() == if ok then DoctypeRest(input, z, p + n)
                        else if p + n == |input| then View(|input|, true, z.tok.(data := Span(p, |input|)))
                        else z
    {
      hide Valid, V, Matched, SameLetter;
      ghost var p := V().pos;
      for i := 0 to |DOCTYPE|
        invariant Valid() && p + i <= |input|
        invariant V() == old(V()).(pos := p + i)
        invariant Matched(input, p, DOCTYPE) == i + Matched(input, p + i, DOCTYPE[i..])
      {
        MatchedMore(input, p, DOCTYPE, i);
        var c := ReadByte();
        if err.Some? {
          MarkEnd(0);
          return false;
        }
        if !SameLetter(c, DOCTYPE[i]) {
          BackToData();
          return false;
        }
      }
      MatchedMore(input, p, DOCTYPE, |DOCTYPE|);
      ReadDoctypeRest();
      return true;
    }

    /** What follows the keyword of a DOCTYPE. */
    method ReadDoctypeRest()
      requires Valid() && err.None?
      modifies this
      ensures Valid() && V() == DoctypeRest(input, old(V()), old(V()).pos)
    {
      hide Valid, V;
      SkipWhiteSpace();
      if err.Some? {
        MarkStart(0);
        MarkEnd(0);
        return;
      }
      ReadUntilCloseAngle();
    }

    method ReadCDATA() returns (ok: bool)
      requires Valid() && V().tok.start <= V().tok.data.start
      requires err.None? ==> V().tok.data.start == V().pos
      modifies this
      ensures Valid()
      ensures var z, p := old(V()), old(V()).pos;
              var n := MatchedExactly(input, p, CDATA);
              ok == (n == |CDATA|)
              && V() == if ok then z.Stopped(CData(input, p + n, 0), p + n)
                        else if p + n == |input| then View(|input|, true, z.tok.(data := Span(z.tok.data.start, |input|)))
                        else z
    {
      hide Valid, V, MatchedExactly, CData;
      ghost var p := V().pos;
      for i := 0 to |CDATA|
        invariant Valid() && p + i <= |input|
        invariant V() == old(V()).(pos := p + i)
        invariant MatchedExactly(input, p, CDATA) == i + MatchedExactly(input, p + i, CDATA[i..])
      {
        MatchedExactlyMore(input, p, CDATA, i);
        var c := ReadByte();
        if err.Some? {
          MarkEnd(0);
          return false;
        }
        if c != CDATA[i] {
          BackToData();
          return false;
        }
      }
      MatchedExactlyMore(input, p, CDATA, |CDATA|);
      ReadCDATAText();
      return true;
    }

    method ReadCDATAText()
      requires Valid() && err.None?
      modifies this
      ensures Valid() && V() == old(V()).Stopped(CData(input, old(V()).pos, 0), old(V()).pos)
    {
      hide Valid, V, CData;
      MarkStart(0);
      ghost var p, z := V().pos, V();
      var brackets := 0;
      while true
        invariant Valid() && err.None? && p + brackets <= V().pos
        invariant V() == z.(pos := V().pos)
        invariant CData(input, V().pos, brackets) == CData(input, p, 0)
        decreases |input| - V().pos
      {
        CDataStep(input, V().pos, brackets);
        var c := ReadByte();
        if err.Some? {
          MarkEnd(0);
          return;
        }
        if c == RBRACKET {
          brackets := brackets + 1;
        } else if c == GT {
          if brackets >= 2 {
            MarkEnd(3);
            return;
          }
          brackets := 0;
        } else {
          brackets := 0;
        }
      }
    }

    /** Two bytes, if there are two. */
    method ReadPair() returns (c0: Byte, c1: Byte)
      requires Valid() && err.None?
      modifies this
      ensures Valid()
      ensures var p := old(V()).pos;
              if p + 2 > |input| then V() == old(V()).(pos := |input|, failed := true)
              else V() == old(V()).(pos := p + 2) && c0 == input[p] && c1 == input[p + 1]
    {
      hide Valid, V;
      c1 := 0;
      c0 := ReadByte();
      if err.None? {
        c1 := ReadByte();
      }
    }

    /** Reads what comes after "<!". */
    method ReadMarkupDeclaration() returns (t: TokenType)
      requires Valid() && err.None?
      modifies this
      ensures Valid() && V().Typed(t) == Markup(input, old(V()))
    {
      hide Valid, V, Matched, CommentBody, CDataOrBogus, DoctypeRest;
      MarkStart(0);
      MarkupSame(input, old(V()), V());
      ghost var p := V().pos;
      var c0, c1 := ReadPair();
      if err.Some? {
        MarkEnd(0);
        return CommentToken;
      }
      if c0 == DASH && c1 == DASH {
        ReadComment();
        return CommentToken;
      }
      Unread(2);
      var isDoctype := ReadDoctype();
      if isDoctype {
        return DoctypeToken;
      }
      t := ReadCDATAOrBogus();
    }

    /** Reads what comes after "<!" when it is not a comment and not a doctype. */
    method ReadCDATAOrBogus() returns (t: TokenType)
      requires Valid() && V().tok.start <= V().tok.data.start
      requires err.None? ==> V().tok.data.start == V().pos
      modifies this
      ensures Valid()
      ensures V().Typed(t) == if old(V()).failed then Truncated(input, old(V())) else CDataOrBogus(input, old(V()))
    {
      hide Valid, V, MatchedExactly, CData;
      if allowCDATA {
        var isCDATA := ReadCDATA();
        if isCDATA {
          SetConvertNUL(true);
          return TextToken;
        }
      }
      ReadUntilCloseAngle();
      return CommentToken;
    }

    method SetConvertNUL(convert: bool)
      requires Valid()
      modifies `convertNUL
      ensures Valid() && V() == old(V()).(tok := old(V()).tok.(convertNUL := convert))
    {
      convertNUL := convert;
    }

    // ----- Tags -----

    /** Sets the start of the pending key. */
    method MarkKeyStart()
      requires Valid()
      modifies `pendingAttr
      ensures Valid()
      ensures V() == old(V()).Pending(Attr(Span(old(V()).pos, old(V()).tok.pending.key.end), old(V()).tok.pending.val))
    {
      pendingAttr := pendingAttr.(key := pendingAttr.key.(start := raw.end));
    }

    /** Sets the end of the pending key n bytes back. */
    method MarkKeyEnd(n: int)
      requires Valid()
      modifies `pendingAttr
      ensures Valid()
      ensures V() == old(V()).Pending(Attr(Span(old(V()).tok.pending.key.start, old(V()).pos - n), old(V()).tok.pending.val))
    {
      pendingAttr := pendingAttr.(key := pendingAttr.key.(end := raw.end - n));
    }

    /** Sets the start of the pending value n bytes back. */
    method MarkValStart(n: int)
      requires Valid()
      modifies `pendingAttr
      ensures Valid()
      ensures V() == old(V()).Pending(Attr(old(V()).tok.pending.key, Span(old(V()).pos - n, old(V()).tok.pending.val.end)))
    {
      pendingAttr := pendingAttr.(val := pendingAttr.val.(start := raw.end - n));
    }

    /** Sets the end of the pending value n bytes back. */
    method MarkValEnd(n: int)
      requires Valid()
      modifies `pendingAttr
      ensures Valid()
      ensures V() == old(V()).Pending(Attr(old(V()).tok.pending.key, Span(old(V()).tok.pending.val.start, old(V()).pos - n)))
    {
      pendingAttr := pendingAttr.(val := pendingAttr.val.(end := raw.end - n));
    }

    method ReadTagName()
      requires Valid() && err.None? && V().tok.start < V().pos
      modifies this
      ensures Valid()
      ensures var p := old(V()).pos;
              var e := Find(input, p, EndOfName);
              V() == View(if e < |input| && IsSpace(input[e]) then e + 1 else e, e == |input|,
                          old(V()).tok.(data := Span(p - 1, e)))
    {
      hide Valid, V, Find;
      MarkStart(1);
      ghost var p, z := V().pos, V();
      while true
        invariant Valid() && err.None? && p <= V().pos
        invariant V() == z.(pos := V().pos)
        invariant Find(input, V().pos, EndOfName) == Find(input, p, EndOfName)
        decreases |input| - V().pos
      {
        FindHere(input, V().pos, EndOfName);
        var c := ReadByte();
        if err.Some? {
          MarkEnd(0);
          return;
        }
        if IsSpace(c) {
          MarkEnd(1);
          return;
        }
        if c == SLASH || c == GT {
          Unread(1);
          MarkEnd(0);
          return;
        }
      }
    }

    method ReadTagAttrKey()
      requires Valid() && err.None?
      modifies this
      ensures Valid()
      ensures var k := AttrKey(input, old(V()).pos);
              V() == old(V()).Pending(Attr(k.span, old(V()).tok.pending.val)).(pos := k.pos, failed := k.failed)
    {
      hide Valid, V;
      MarkKeyStart();
      ghost var p, z := V().pos, V();
      while true
        invariant Valid() && err.None? && p <= V().pos
        invariant V() == z.(pos := V().pos)
        invariant Find(input, V().pos, EndOfKey) == Find(input, p, EndOfKey)
        decreases |input| - V().pos
      {
        var c := ReadByte();
        if err.Some? {
          MarkKeyEnd(0);
          return;
        }
        if IsSpace(c) || c == SLASH {
          MarkKeyEnd(1);
          return;
        }
        if c == EQUALS || c == GT {
          Unread(1);
          MarkKeyEnd(0);
          return;
        }
      }
    }

    /** A quoted value, after its opening quote. */
    method ReadQuoted(quote: Byte)
      requires Valid() && err.None?
      modifies this
      ensures Valid()
      ensures var p, e := old(V()).pos, Find(input, old(V()).pos, One(quote));
              V() == old(V()).Pending(Attr(old(V()).tok.pending.key, Span(p, e))).(pos := Past(input, e), failed := e == |input|)
    {
      hide Valid, V;
      MarkValStart(0);
      ghost var p, z := V().pos, V();
      while true
        invariant Valid() && err.None? && p <= V().pos
        invariant V() == z.(pos := V().pos)
        invariant Find(input, V().pos, One(quote)) == Find(input, p, One(quote))
        decreases |input| - V().pos
      {
        var c := ReadByte();
        if err.Some? {
          MarkValEnd(0);
          return;
        }
        if c == quote {
          MarkValEnd(1);
          return;
        }
      }
    }

    /** A value without quotes, after its first byte. */
    method ReadUnquoted()
      requires Valid() && err.None?
      modifies this
      ensures Valid()
      ensures var p, e := old(V()).pos, Find(input, old(V()).pos, EndOfValue);
              V() == View(if e < |input| && IsSpace(input[e]) then e + 1 else e, e == |input|,
                          old(V()).Pending(Attr(old(V()).tok.pending.key, Span(p - 1, e))).tok)
    {
      hide Valid, V;
      MarkValStart(1);
      ghost var p, z := V().pos, V();
      while true
        invariant Valid() && err.None? && p <= V().pos
        invariant V() == z.(pos := V().pos)
        invariant Find(input, V().pos, EndOfValue) == Find(input, p, EndOfValue)
        decreases |input| - V().pos
      {
        var c := ReadByte();
        if err.Some? {
          MarkValEnd(0);
          return;
        }
        if IsSpace(c) {
          MarkValEnd(1);
          return;
        }
        if c == GT {
          Unread(1);
          MarkValEnd(0);
          return;
        }
      }
    }

    /** The value after an equals sign; without one it stays empty. */
    method ReadValue()
      requires Valid() && err.None?
      modifies this
      ensures Valid()
      ensures var z, r := old(V()), SkipSpace(input, old(V()).pos);
              if r == |input| then V() == z.(pos := r, failed := true)
              else
                var v := ValueAt(input, r, z.tok.pending.val);
                V() == z.Pending(Attr(z.tok.pending.key, v.span)).(pos := v.pos, failed := v.failed)
    {
      hide Valid, V, Find, SkipSpace;
      SkipWhiteSpace();
      if err.Some? {
        return;
      }
      var quote := ReadByte();
      if quote == GT {
        Unread(1);
      } else if quote == 39 || quote == 34 {
        ReadQuoted(quote);
      } else {
        ReadUnquoted();
      }
    }

    method ReadTagAttrVal()
      requires Valid()
      modifies this
      ensures Valid()
      ensures var v := AttrVal(input, old(V()).pos);
              V() == old(V()).Pending(Attr(old(V()).tok.pending.key, v.span)).(pos := v.pos, failed := v.failed)
    {
      hide Valid, V, Find, SkipSpace, ValueAt;
      MarkValStart(0);
      MarkValEnd(0);
      SkipWhiteSpace();
      if err.Some? {
        return;
      }
      var c := ReadByte();
      if c != EQUALS {
        Unread(1);
        return;
      }
      ReadValue();
    }

    /** Adds the pending attribute to the others. */
    method SavePending(save: bool)
      requires Valid()
      modifies `attr
      ensures Valid()
      ensures var z := old(V()); V() == z.(tok := z.tok.(attr := Saved(z.tok.attr, z.tok.pending, save)))
    {
      if save && pendingAttr.key.start != pendingAttr.key.end {
        MovedMore(attr, pendingAttr, base);
        attr := attr + [pendingAttr];
      }
    }

    method ForgetAttrs()
      requires Valid()
      modifies `attr
      ensures Valid() && V() == old(V()).(tok := old(V()).tok.(attr := []))
    {
      attr := [];
    }

    /** One attribute and the space after it. */
    method ReadTagAttr(saveAttr: bool)
      requires Valid() && err.None? && V().pos < |input| && input[V().pos] != GT
      modifies this
      ensures Valid()
      ensures var z := old(V());
              var (a, next) := OneAttr(input, z.pos);
              V() == View(next, next == |input|, z.tok.(pending := a, attr := Saved(z.tok.attr, a, saveAttr)))
    {
      hide Valid, V, AttrKey, AttrVal, SkipSpace;
      ReadTagAttrKey();
      ReadTagAttrVal();
      SavePending(saveAttr);
      SkipWhiteSpace();
    }

    method ReadTag(saveAttr: bool)
      requires Valid() && err.None? && V().tok.start < V().pos
      modifies this
      ensures Valid() && V() == Tag(input, old(V()), saveAttr)
    {
      hide Valid, V, Find, SkipSpace, TagAttrs, OneAttr, Saved;
      ForgetAttrs();
      ReadTagName();
      SkipWhiteSpace();
      if err.Some? {
        return;
      }
      ReadTagAttrs(saveAttr);
    }

    /** The attributes of a tag, up to its closing angle. */
    method ReadTagAttrs(saveAttr: bool)
      requires Valid() && err.None?
      modifies this
      ensures Valid()
      ensures var z := old(V());
              var a := TagAttrs(input, z.pos, saveAttr, z.tok.pending, z.tok.attr);
              V() == View(a.pos, a.failed, z.tok.(pending := a.pending, attr := a.attr))
    {
      hide Valid, V, TagAttrs, OneAttr, Saved;
      ghost var z := V();
      ghost var a := TagAttrs(input, z.pos, saveAttr, z.tok.pending, z.tok.attr);
      while true
        invariant Valid() && err.None?
        invariant V().tok == z.tok.(pending := V().tok.pending, attr := V().tok.attr)
        invariant TagAttrs(input, V().pos, saveAttr, V().tok.pending, V().tok.attr) == a
        decreases |input| - V().pos
      {
        TagAttrsStep(input, V().pos, saveAttr, V().tok.pending, V().tok.attr);
        var c := ReadByte();
        if err.Some? || c == GT {
          break;
        }
        Unread(1);
        ReadTagAttr(saveAttr);
        if err.Some? {
          TagAttrsStep(input, V().pos, saveAttr, V().tok.pending, V().tok.attr);
          break;
        }
      }
    }

    /** The bytes of the data span. */
    method DataBytes() returns (t: Bytes)
      requires Valid() && V().Inside()
      ensures t == input[V().tok.data.start..V().tok.data.end]
    {
      WindowSlice(input, base, buf, data.start, data.end);
      t := buf[data.start..data.end];
    }

    /** Whether the start tag is one of the given names, in either case. */
    method StartTagIn(names: seq<Bytes>) returns (found: bool)
      requires Valid() && V().Inside()
      ensures found <==> Lower(input[V().tok.data.start..V().tok.data.end]) in names
    {
      hide Valid, V;
      var name := DataBytes();
      for k := 0 to |names|
        invariant Lower(name) !in names[..k]
      {
        if |name| == |names[k]| {
          var i := 0;
          while i < |name| && Lower(name)[i] == names[k][i]
            invariant i <= |name| && Lower(name)[..i] == names[k][..i]
          {
            i := i + 1;
          }
          if i == |name| {
            assert Lower(name) == Lower(name)[..i] == names[k][..i] == names[k];
            return true;
          }
        }
      }
      return false;
    }

    method SetRawTag(name: Bytes)
      requires Valid()
      modifies `rawTag
      ensures Valid() && V() == old(V()).(tok := old(V()).tok.(rawTag := name))
    {
      rawTag := name;
    }

    /** Whether the start tag makes the next token raw. */
    method IsRawStartTag() returns (isRaw: bool)
      requires Valid() && V().Inside() && V().tok.data.start < V().tok.data.end
      ensures isRaw == IsRawTag(Lower(input[V().tok.data.start..V().tok.data.end]))
    {
      hide Valid, V;
      var name := DataBytes();
      var c := Lower(name)[0];
      isRaw := false;
      if c == 105 {
        isRaw := StartTagIn([IFRAME]);
      } else if c == 110 {
        isRaw := StartTagIn([NOEMBED, NOFRAMES, NOSCRIPT]);
      } else if c == 112 {
        isRaw := StartTagIn([PLAINTEXT]);
      } else if c == 115 {
        isRaw := StartTagIn([SCRIPT, STYLE]);
      } else if c == 116 {
        isRaw := StartTagIn([TEXTAREA, TITLE]);
      } else if c == 120 {
        isRaw := StartTagIn([XMP]);
      }
    }

    /** The byte n before the last one read. */
    method LookBack(n: nat) returns (c: Byte)
      requires Valid() && V().tok.start + n < V().pos
      ensures c == input[V().pos - n - 1]
    {
      c := buf[raw.end - n - 1];
    }

    method ReadStartTag() returns (t: TokenType)
      requires Valid() && err.None? && V().tok.start + 1 < V().pos
      modifies this
      ensures Valid() && V().Typed(t) == StartTag(input, old(V()))
    {
      hide Valid, V, Tag, IsRawTag, Lower;
      ReadTag(true);
      if err.Some? {
        return ErrorToken;
      }
      var isRaw := IsRawStartTag();
      if isRaw {
        var name := DataBytes();
        SetRawTag(Lower(name));
      }
      var c := LookBack(1);
      return if c == SLASH then SelfClosingTagToken else StartTagToken;
    }

    // ----- Tokens -----

    method SetType(t: TokenType)
      requires Valid()
      modifies `tt
      ensures Valid() && V() == old(V()).Typed(t)
    {
      tt := t;
    }

    /** Starts a token where the last one ended. */
    method Begin()
      requires Valid()
      modifies `raw, `data
      ensures Valid()
      ensures var z := old(V()); V() == z.(tok := z.tok.(start := z.pos, data := Span(z.pos, z.pos)))
    {
      raw := raw.(start := raw.end);
      data := Span(raw.end, raw.end);
    }

    /** Reads up to the next angle that opens something and past the byte after it, or to the end of the stream. */
    method ReadText() returns (c: Byte)
      requires Valid()
      modifies this
      ensures Valid()
      ensures var z, e := old(V()), TextEnd(input, old(V()).pos);
              if e == |input| then V() == z.(pos := e, failed := true)
              else V() == z.(pos := e + 2) && c == input[e + 1]
    {
      hide Valid, V, TextEnd, Opens;
      ghost var z, p := V(), V().pos;
      while true
        invariant Valid() && p <= V().pos && V() == z.(pos := V().pos)
        invariant TextEnd(input, V().pos) == TextEnd(input, p)
        decreases |input| - V().pos, err.None?
      {
        TextEndStep(input, V().pos);
        c := ReadByte();
        if err.Some? {
          return;
        }
        if c == LT {
          c := ReadByte();
          if err.Some? {
            return;
          }
          if Opens(c) {
            return;
          }
          Unread(1);
        }
      }
    }

    /** What comes after "</". */
    method ReadEndTag() returns (t: TokenType)
      requires Valid() && err.None? && V().tok.start < V().pos && V().tok.data == Span(V().tok.start, V().tok.start)
      modifies this
      ensures Valid() && V().Typed(t) == EndTag(input, old(V()))
    {
      hide Valid, V, Tag, UntilCloseAngle;
      var c := ReadByte();
      if err.Some? {
        MarkEnd(0);
        return TextToken;
      }
      if c == GT {
        return CommentToken;
      }
      if IsLetter(c) {
        ReadTag(false);
        return if err.Some? then ErrorToken else EndTagToken;
      }
      Unread(1);
      ReadUntilCloseAngle();
      return CommentToken;
    }

    /** Text up to markup, or else the markup. */
    method ReadTextOrMarkup() returns (t: TokenType)
      requires Valid() && V().pos == V().tok.start && V().tok.data == Span(V().pos, V().pos)
      modifies this
      ensures Valid() && V().Typed(t) == TextOrMarkup(input, old(V()))
    {
      hide Valid, V, TextEnd, Opened, Opens;
      var c := ReadText();
      RawLength();
      if err.Some? {
        MarkEnd(0);
        return if raw.start < raw.end then TextToken else ErrorToken;
      }
      if raw.start < raw.end - 2 {
        Unread(2);
        MarkEnd(0);
        return TextToken;
      }
      t := ReadOpened(c);
    }

    /** The markup whose angle and next byte c have been read. */
    method ReadOpened(c: Byte) returns (t: TokenType)
      requires Valid() && err.None? && V().pos == V().tok.start + 2 && c == input[V().tok.start + 1]
      requires V().tok.data == Span(V().tok.start, V().tok.start)
      modifies this
      ensures Valid() && V().Typed(t) == Opened(input, old(V()).(pos := old(V()).tok.start))
    {
      hide Valid, V, StartTag, EndTag, Markup, UntilCloseAngle;
      if IsLetter(c) {
        t := ReadStartTag();
      } else if c == SLASH {
        t := ReadEndTag();
      } else if c == BANG {
        t := ReadMarkupDeclaration();
      } else {
        Unread(1);
        ReadUntilCloseAngle();
        t := CommentToken;
      }
    }

    /** Reads everything. */
    method ReadPlainText()
      requires Valid() && err.None?
      modifies this
      ensures Valid() && V() == View(|input|, true, old(V()).tok.(data := Span(old(V()).tok.data.start, |input|), textIsRaw := true))
    {
      hide Valid, V;
      ghost var z := V();
      while err.None?
        invariant Valid() && V() == View(V().pos, err.Some?, z.tok)
        decreases |input| - V().pos, err.None?
      {
        var c := ReadByte();
      }
      MarkEnd(0);
      SetTextModes(true, convertNUL);
    }

    method SetTextModes(isRaw: bool, convert: bool)
      requires Valid()
      modifies `textIsRaw, `convertNUL
      ensures Valid() && V() == old(V()).(tok := old(V()).tok.(textIsRaw := isRaw, convertNUL := convert))
    {
      textIsRaw := isRaw;
      convertNUL := convert;
    }

    method ReadRawToken() returns (some: bool)
      requires Valid() && err.None? && V().pos == V().tok.start && V().tok.data == Span(V().pos, V().pos)
      modifies this
      ensures Valid() && V() == RawToken(input, old(V()))
      ensures some == (V().tok.data.end > V().tok.data.start)
    {
      hide Valid, V, RawOrRCDATA;
      if rawTag != [] {
        if rawTag == PLAINTEXT {
          ReadPlainText();
        } else {
          ReadRawOrRCDATA();
        }
      }
      RawLength();
      return raw.end > raw.start;
    }

    /** Scans the next token. */
    method Next() returns (t: TokenType)
      requires Valid()
      modifies this
      ensures Valid() && V() == NextToken(input, old(V())) && t == tt
    {
      hide Valid, V, RawToken, TextOrMarkup;
      Begin();
      if err.Some? {
        SetType(ErrorToken);
        return ErrorToken;
      }
      var some := ReadRawToken();
      if some {
        SetType(TextToken);
        SetConvertNUL(true);
        return TextToken;
      }
      SetTextModes(false, false);
      t := ReadTextOrMarkup();
      SetType(t);
    }

    /** The bytes of the current token, as they stand in the stream. */
    method Raw() returns (r: Bytes)
      requires Valid()
      ensures r == input[V().tok.start..V().pos]
    {
      WindowSlice(input, base, buf, raw.start, raw.end);
      r := buf[raw.start..raw.end];
    }

    method AllowCDATA(allow: bool)
      requires Valid()
      modifies `allowCDATA
      ensures Valid() && V() == old(V()).(tok := old(V()).tok.(allowCDATA := allow))
    {
      allowCDATA := allow;
    }

    method NextIsNotRawText()
      requires Valid()
      modifies `rawTag
      ensures Valid() && V() == old(V()).(tok := old(V()).tok.(rawTag := []))
    {
      rawTag := [];
    }

    /** A tokenizer of a fragment in the given context. */
    constructor (script: seq<Response>, contextTag: Bytes)
      ensures Valid() && input == Delivered(script, 0) && ending == Ending(script, 0)
      ensures V() == NewView(if IsRawTag(Lower(contextTag)) then Lower(contextTag) else [])
    {
      this.script, input, ending, base := script, Delivered(script, 0), Ending(script, 0), 0;
      tt, err, readErr, raw, buf, cap := ErrorToken, None, None, Span(0, 0), [], 4096;
      data, pendingAttr, attr := Span(0, 0), Attr(Span(0, 0), Span(0, 0)), [];
      rawTag := if IsRawTag(Lower(contextTag)) then Lower(contextTag) else [];
      textIsRaw, convertNUL, allowCDATA := false, false, false;
    }
  }

  /** Before the first token. */
  ghost function NewView(rawTag: Bytes): (z: View) {
    View(0, false, Token(0, Span(0, 0), Attr(Span(0, 0), Span(0, 0)), [], rawTag, false, false, false, ErrorToken))
  }

  lemma MovedMore(attr: seq<Attr>, a: Attr, x: int)
    ensures MovedAll(attr + [a], x) == MovedAll(attr, x) + [Moved(a, x)]
  {
  }

  /** Cutting a response in two changes nothing that the tokenizer sees. */
  lemma Rechunked(a: Bytes, b: Bytes, e: Option<ReadError>, rest: seq<Response>, idle: nat)
    requires a != [] && b != [] && idle < 100
    ensures Delivered([Response(a, None), Response(b, e)] + rest, idle) == Delivered([Response(a + b, e)] + rest, idle)
    ensures Ending([Response(a, None), Response(b, e)] + rest, idle) == Ending([Response(a + b, e)] + rest, idle)
  {
    var two, one := [Response(a, None), Response(b, e)] + rest, [Response(a + b, e)] + rest;
    assert two[1..][1..] == rest == one[1..];
    assert two[0] == Response(a, None) && two[1..][0] == Response(b, e) && one[0] == Response(a + b, e);
    assert a + b + Delivered(rest, 0) == a + (b + Delivered(rest, 0));
  }

  /**
    * The raw bytes of the tokens up to the first error, each non-empty, and those of the
    * error token: together they are what the reader delivers.
    */
  method Tokenize(script: seq<Response>, contextTag: Bytes) returns (raws: seq<Bytes>, rest: Bytes)
    ensures raws == RawsFrom(Delivered(script, 0), NewView(if IsRawTag(Lower(contextTag)) then Lower(contextTag) else []))
    ensures Joined(raws) + rest == Delivered(script, 0)
    ensures forall i :: 0 <= i < |raws| ==> raws[i] != []
  {
    hide Tokenizer.Valid, Tokenizer.V, NextToken, Lower, IsRawTag, RawsFrom;
    var z := new Tokenizer(script, contextTag);
    raws := [];
    NothingJoined(z.input);
    ghost var first := z.V();
    ghost var before := first;
    var t := z.Next();
    while t != ErrorToken
      invariant z.Valid() && z.input == Delivered(script, 0) && fresh(z) && t == z.tt
      invariant before.On(z.input) && z.V() == NextToken(z.input, before)
      invariant first.On(z.input) && RawsFrom(z.input, first) == raws + RawsFrom(z.input, before)
      invariant Joined(raws) == z.input[..z.V().tok.start]
      invariant forall i :: 0 <= i < |raws| ==> raws[i] != []
      decreases |z.input| - z.V().tok.start, t != ErrorToken
    {
      var r := z.Raw();
      RawsNext(z.input, before, z.V(), raws, r);
      raws := raws + [r];
      before := z.V();
      t := z.Next();
    }
    RawsEnd(z.input, before);
    rest := z.Raw();
  }

  lemma RawsNext(s: Bytes, z: View, t: View, raws: seq<Bytes>, r: Bytes)
    requires z.On(s) && t == NextToken(s, z) && t.tok.tt != ErrorToken && r == s[t.tok.start..t.pos]
    requires Joined(raws) == s[..t.tok.start]
    ensures r != [] && Joined(raws + [r]) == s[..t.pos]
    ensures raws + RawsFrom(s, z) == raws + [r] + RawsFrom(s, t)
  {
    hide NextToken, Joined;
    JoinedMore(raws, r);
    assert s[..t.pos] == s[..t.tok.start] + r;
    assert RawsFrom(s, z) == [r] + RawsFrom(s, t);
  }

  lemma NothingJoined(s: Bytes)
    ensures Joined([]) == s[..0]
  {
  }

  lemma RawsEnd(s: Bytes, z: View)
    requires z.On(s) && NextToken(s, z).tok.tt == ErrorToken
    ensures RawsFrom(s, z) == []
  {
    hide NextToken;
  }
}
