/** The incremental HTTP parser: its result depends on the bytes received, not on how they were cut into calls. */
module HttpParsing {
  import opened Arith
  import opened Decimals
  import opened FirstLines

  datatype Phase = ReadStatus | ReadHeader | ReadBody | Error

  datatype State = State(
    phase: Phase, recvPos: nat, line: StatusLine, contentLength: int, rangeStart: int, rangeEnd: int,
    headers: map<string, string>, bodyStart: nat, finished: bool)

  function Fresh(line: StatusLine): State {
    State(ReadStatus, 0, line.(status := -1), -1, -1, -1, map[], 0, false)
  }

  // ----- lines -----

  function Newline(buf: string, pos: nat): (i: nat)
    requires pos <= |buf|
    ensures pos <= i <= |buf| && (i < |buf| ==> buf[i] == '\n')
    ensures forall k :: pos <= k < i ==> buf[k] != '\n'
    decreases |buf| - pos
  {
    if pos == |buf| || buf[pos] == '\n' then pos else Newline(buf, pos + 1)
  }

  /** The line that ends with the newline at `i`, without it and a carriage return before it. */
  function LineAt(buf: string, pos: nat, i: nat): string
    requires pos <= i <= |buf|
  {
    if pos != i && buf[i - 1] == '\r' then buf[pos..i - 1] else buf[pos..i]
  }

  function Colon(s: string, i: nat): (r: nat)
    requires i <= |s|
    ensures i <= r <= |s| && (r < |s| ==> s[r] == ':') && forall k :: i <= k < r ==> s[k] != ':'
    decreases |s| - i
  {
    if i == |s| || s[i] == ':' then i else Colon(s, i + 1)
  }

  function SkipBlanks(s: string, i: nat): (r: nat)
    requires i <= |s|
    ensures i <= r <= |s|
    decreases |s| - i
  {
    if i < |s| && (s[i] == ' ' || s[i] == '\t') then SkipBlanks(s, i + 1) else i
  }

  datatype Range = NoRange(start: int, end: int) | ByteRange(start: int, end: int)

  /** The numbers in a Content-Range value; `NoRange` holds what had been stored when it turned out bad. */
  function ReadRange(value: string, start0: int, end0: int): (r: Range)
    ensures r.ByteRange? ==> r.start <= r.end
  {
    var v := if |value| >= 6 && Lower(value[..6]) == "bytes " then value[6..] else value;
    var a := Strtoll(v);
    if a.1 == 0 || a.1 == |v| || v[a.1] != '-' then NoRange(a.0, end0)
    else
      var w := v[a.1 + 1..];
      var b := Strtoll(w);
      if b.1 == 0 || b.0 < a.0 then NoRange(a.0, b.0) else ByteRange(a.0, b.0)
  }

  /** The value of section 14.16 of RFC 2616 is read as written, and refused if it ends before it starts. */
  lemma ReadsByteRange(first: nat, last: nat, rest: string, start0: int, end0: int)
    requires first <= 0x7fff_ffff_ffff_ffff && last <= 0x7fff_ffff_ffff_ffff && (rest == "" || !IsDigit(rest[0]))
    ensures ReadRange("bytes " + Decimal(first) + "-" + Decimal(last) + rest, start0, end0)
            == if first <= last then ByteRange(first, last) else NoRange(first, last)
  {
    hide Decimal, Strtoll;
    var d, e := Decimal(first), Decimal(last);
    var value := "bytes " + d + "-" + e + rest;
    var tail := "-" + e + rest;
    assert value[..6] == "bytes ";
    assert Lower("bytes ") == "bytes ";
    assert value[6..] == d + tail;
    StrtollOfDecimal(first, tail);
    assert (d + tail)[|d|] == '-';
    assert (d + tail)[|d| + 1..] == e + rest;
    StrtollOfDecimal(last, rest);
  }

  // ----- the steps of the parser -----

  function AfterStatus(s: State, line: string, next: nat): State {
    s.(phase := ReadHeader, recvPos := next, line := FirstLine(s.line, line))
  }

  /** One header line; a line without a colon ends the header. */
  function AfterHeader(s0: State, line: string, next: nat): (r: State)
    ensures r.recvPos == next && r.line == s0.line
    ensures s0.phase.ReadHeader? ==> !r.phase.ReadStatus?
    ensures s0.phase.ReadHeader? && r.phase.ReadBody? ==> r.bodyStart == next
  {
    var s := s0.(recvPos := next);
    var c := Colon(line, 0);
    if c == |line| then
      s.(phase := ReadBody, finished := s.finished || s.line.verb != "", bodyStart := next)
    else
      var name, value := Lower(line[..c]), line[SkipBlanks(line, c + 1)..];
      var h := s.(headers := if name in s.headers then s.headers else s.headers[name := value]);
      if name == "content-length" then h.(contentLength := Strtoll(value).0)
      else if name == "content-range" then
        (match ReadRange(value, s.rangeStart, s.rangeEnd)
         case NoRange(a, b) => h.(phase := Error, rangeStart := a, rangeEnd := b)
         case ByteRange(a, b) => h.(rangeStart := a, rangeEnd := b, contentLength := b - a + 1))
      else h
  }

  function AfterLine(s: State, line: string, next: nat): (r: State)
    requires s.phase.ReadStatus? || s.phase.ReadHeader?
    ensures r.recvPos == next && !r.phase.ReadStatus? && (r.phase.ReadBody? ==> r.bodyStart == next)
  {
    if s.phase.ReadStatus? then AfterStatus(s, line, next) else AfterHeader(s, line, next)
  }

  /** `n` body bytes received, of which those beyond the content length do not count. */
  function Clipped(n: int, contentLength: int): int {
    if contentLength >= 0 && n > contentLength then contentLength else n
  }

  /** The body so far: everything received, up to the content length. */
  function AfterBody(s: State, size: nat): (r: State)
    requires s.bodyStart <= s.recvPos <= size && (s.contentLength >= 0 ==> s.recvPos - s.bodyStart <= s.contentLength)
    ensures r.recvPos == s.bodyStart + Clipped(size - s.bodyStart, s.contentLength)
    ensures r.phase == s.phase && r.bodyStart == s.bodyStart && r.contentLength == s.contentLength && r.line == s.line
  {
    var incoming := if s.recvPos - s.bodyStart + (size - s.recvPos) > s.contentLength && s.contentLength >= 0
                    then s.contentLength - s.recvPos + s.bodyStart else size - s.recvPos;
    var pos := s.recvPos + incoming;
    s.(recvPos := pos, finished := s.finished || (s.contentLength >= 0 && pos - s.bodyStart >= s.contentLength))
  }

  ghost predicate Proper(s: State, size: nat) {
    && s.recvPos <= size
    && (s.phase.ReadBody? ==>
          s.bodyStart <= s.recvPos && (s.contentLength >= 0 ==> s.recvPos - s.bodyStart <= s.contentLength))
  }

  /** The state once every line and body byte of `buf` from `s.recvPos` on has been used. */
  ghost function Advance(s: State, buf: string): (r: State)
    requires Proper(s, |buf|)
    ensures Proper(r, |buf|) && r.recvPos >= s.recvPos
    decreases if s.phase.ReadBody? || s.phase.Error? then 0 else 1, |buf| - s.recvPos
  {
    if s.phase.Error? then s
    else if s.phase.ReadBody? then AfterBody(s, |buf|)
    else
      var i := Newline(buf, s.recvPos);
      if i == |buf| then s
      else if s.phase.ReadStatus? && i == s.recvPos then s.(phase := Error)
      else Advance(AfterLine(s, LineAt(buf, s.recvPos, i), i + 1), buf)
  }

  lemma {:induction false} NewlineAt(buf: string, pos: nat, i: nat)
    requires pos <= i < |buf| && buf[i] == '\n' && forall k :: pos <= k < i ==> buf[k] != '\n'
    ensures Newline(buf, pos) == i
  {
  }

  lemma {:induction false} SameNewline(a: string, b: string, pos: nat)
    requires a <= b && pos <= |a|
    ensures Newline(a, pos) < |a| ==>
            Newline(b, pos) == Newline(a, pos) && LineAt(b, pos, Newline(b, pos)) == LineAt(a, pos, Newline(a, pos))
  {
    hide Newline;
    var i := Newline(a, pos);
    if i < |a| {
      assert forall k :: pos <= k <= i ==> b[k] == a[k];
      NewlineAt(b, pos, i);
      assert a[pos..i] == b[pos..i];
    }
  }

  /** Parsing a prefix first makes no difference. */
  lemma {:induction false} AdvanceInSteps(s: State, a: string, b: string)
    requires a <= b && Proper(s, |a|)
    ensures Advance(Advance(s, a), b) == Advance(s, b)
    decreases if s.phase.ReadBody? || s.phase.Error? then 0 else 1, |a| - s.recvPos
  {
    hide AfterLine, AfterBody, Newline, LineAt;
    if s.phase.ReadBody? {
      BodyInSteps(s, |a|, |b|);
    } else if !s.phase.Error? {
      SameNewline(a, b, s.recvPos);
      var i := Newline(a, s.recvPos);
      if i < |a| && !(s.phase.ReadStatus? && i == s.recvPos) {
        AdvanceInSteps(AfterLine(s, LineAt(a, s.recvPos, i), i + 1), a, b);
      }
    }
  }

  lemma BodyInSteps(s: State, m: nat, n: nat)
    requires m <= n && s.phase.ReadBody? && Proper(s, m)
    ensures var r := AfterBody(s, m); r.phase.ReadBody? && Proper(r, n) && AfterBody(r, n) == AfterBody(s, n)
  {
  }

  /** The body was announced and is there. */
  ghost predicate BodyArrived(r: State, size: nat) {
    r.contentLength >= 0 && size - r.bodyStart >= r.contentLength
  }

  /**
   * The body is as long as received or announced, and the message is finished just when its header is complete and
   * there is a verb, or its announced body is complete.
   */
  ghost predicate Complete(r: State, size: nat) {
    && (r.phase.ReadBody? ==> r.recvPos - r.bodyStart == Clipped(size - r.bodyStart, r.contentLength))
    && (r.finished <==> (r.phase.ReadBody? && (r.line.verb != "" || BodyArrived(r, size))))
  }

  lemma {:induction false} FinishedExactly(s: State, buf: string)
    requires Proper(s, |buf|) && (s.phase.ReadStatus? || s.phase.ReadHeader?) && !s.finished
    ensures Complete(Advance(s, buf), |buf|)
    decreases |buf| - s.recvPos
  {
    hide AfterLine, AfterBody, Newline, LineAt;
    var i := Newline(buf, s.recvPos);
    if i < |buf| && !(s.phase.ReadStatus? && i == s.recvPos) {
      var t := AfterLine(s, LineAt(buf, s.recvPos, i), i + 1);
      LineFinishes(s, LineAt(buf, s.recvPos, i), i + 1);
      if t.phase.ReadHeader? {
        FinishedExactly(t, buf);
      } else if t.phase.ReadBody? {
        BodyFinishes(t, |buf|);
      }
    }
  }

  lemma LineFinishes(s: State, line: string, next: nat)
    requires (s.phase.ReadStatus? || s.phase.ReadHeader?) && !s.finished
    ensures var t := AfterLine(s, line, next); t.finished <==> (t.phase.ReadBody? && t.line.verb != "")
  {
    hide ReadRange, SkipBlanks, Lower, Strtoll;
  }

  lemma BodyFinishes(t: State, size: nat)
    requires t.phase.ReadBody? && t.recvPos == t.bodyStart <= size && (t.finished <==> t.line.verb != "")
    ensures Complete(AfterBody(t, size), size)
  {
  }

  /** The first line in `buf`, if it is complete and not empty. */
  function FirstOf(buf: string): seq<string> {
    var i := Newline(buf, 0);
    if i == |buf| || i == 0 then [] else [LineAt(buf, 0, i)]
  }

  lemma {:induction false} LineStays(s: State, buf: string)
    requires Proper(s, |buf|) && !s.phase.ReadStatus?
    ensures Advance(s, buf).line == s.line
    decreases if s.phase.ReadHeader? then 1 else 0, |buf| - s.recvPos
  {
    hide AfterHeader, AfterBody, Newline, LineAt;
    if s.phase.ReadHeader? {
      var i := Newline(buf, s.recvPos);
      if i < |buf| { LineStays(AfterLine(s, LineAt(buf, s.recvPos, i), i + 1), buf); }
    }
  }

  /** What a message leaves behind, at whatever byte it breaks off. */
  lemma LineOf(history: seq<string>, buf: string)
    ensures Advance(Fresh(AfterLines(history)), buf).line.(status := -1) ==
            AfterLines(history + FirstOf(buf)).(status := -1)
    ensures Advance(Fresh(AfterLines(history)), buf).line.verb == AfterLines(history + FirstOf(buf)).verb
    ensures Advance(Fresh(AfterLines(history)), buf).phase.ReadBody? ==> FirstOf(buf) != []
  {
    hide Newline, LineAt, FirstLine, AfterHeader;
    var s, i := Fresh(AfterLines(history)), Newline(buf, 0);
    if i < |buf| && i != 0 {
      var line := LineAt(buf, 0, i);
      assert (history + [line])[..|history|] == history;
      LineStays(AfterLine(s, line, i + 1), buf);
    } else {
      assert history + [] == history;
    }
  }

  /**
   * For every message on a parser that has been reset any number of times: once the header is complete, the message
   * counts as finished although its announced body is missing just if it is a request or one is still remembered.
   */
  lemma FinishedWithHeader(history: seq<string>, buf: string)
    ensures var r := Advance(Fresh(AfterLines(history)), buf);
            r.phase.ReadBody? ==>
              && FirstOf(buf) != []
              && (r.finished <==> Remembered(history + FirstOf(buf)) || BodyArrived(r, |buf|))
  {
    hide Advance, FirstOf, BodyArrived;
    FinishedExactly(Fresh(AfterLines(history)), buf);
    LineOf(history, buf);
    VerbRemembered(history + FirstOf(buf));
  }

  const REQUEST_LINE := "GET / X"
  const REQUEST := REQUEST_LINE + "\n\n"
  const RESPONSE_LINE := "HTTP/1 200"
  const LENGTH_LINE := "Content-Length: 5"
  const RESPONSE := RESPONSE_LINE + "\n" + LENGTH_LINE + "\n\n"

  /** After a request and a reset, a response is finished at its header, with its five announced bytes still to come. */
  lemma ResponseAfterRequest()
    ensures var first, r := Advance(Fresh(NO_LINE), RESPONSE), Advance(Fresh(AfterLines(FirstOf(REQUEST))), RESPONSE);
            && FirstOf(REQUEST) == [REQUEST_LINE] && FirstOf(RESPONSE) == [RESPONSE_LINE]
            && first.phase.ReadBody? && first.contentLength == 5 && first.recvPos == first.bodyStart && !first.finished
            && r.phase.ReadBody? && r.contentLength == 5 && r.recvPos == r.bodyStart && r.finished
  {
    hide Advance, FirstOf, AfterLines, Remembered, IsRequest, IsBlank;
    FirstLinesOfBoth();
    NoLines();
    LengthOfResponse(NO_LINE);
    LengthOfResponse(AfterLines([REQUEST_LINE]));
    FinishedWithHeader([], RESPONSE);
    FinishedWithHeader([REQUEST_LINE], RESPONSE);
    assert [] + [RESPONSE_LINE] == [RESPONSE_LINE];
    OnlyRequestsRemembered();
  }

  lemma OnlyRequestsRemembered()
    ensures !Remembered([RESPONSE_LINE]) && Remembered([REQUEST_LINE] + [RESPONSE_LINE])
  {
    hide IsRequest, IsBlank, Remembered;
    Kinds();
    var a, b := REQUEST_LINE, RESPONSE_LINE;
    RequestsAreRemembered([b]);
    RequestsAreRemembered([a] + [b]);
    assert ([a] + [b])[0] == a && ([a] + [b])[1] == b;
  }

  lemma FirstLinesOfBoth()
    ensures FirstOf(REQUEST) == [REQUEST_LINE] && FirstOf(RESPONSE) == [RESPONSE_LINE]
  {
    FirstOfAt(REQUEST, 7);
    assert REQUEST[0..7] == REQUEST_LINE;
    FirstOfAt(RESPONSE, 10);
    assert RESPONSE[0..10] == RESPONSE_LINE;
  }

  lemma NoLines()
    ensures AfterLines([]) == NO_LINE
  {
  }

  lemma FirstOfAt(buf: string, i: nat)
    requires 0 < i < |buf| && buf[i] == '\n' && buf[i - 1] != '\r' && forall k :: 0 <= k < i ==> buf[k] != '\n'
    ensures FirstOf(buf) == [buf[0..i]]
  {
    NewlineAt(buf, 0, i);
  }

  lemma Kinds()
    ensures IsRequest(REQUEST_LINE) && !IsBlank(REQUEST_LINE) && !IsRequest(RESPONSE_LINE) && !IsBlank(RESPONSE_LINE)
  {
    hide ReadWord;
    assert REQUEST_LINE == "" + "GET" + " / X" && RESPONSE_LINE == "" + "HTTP/1" + " 200";
    ReadsWord("", "GET", " / X", "");
    ReadsWord("", "HTTP/1", " 200", "");
  }

  lemma LengthOfResponse(l: StatusLine)
    ensures var r := Advance(Fresh(l), RESPONSE);
            r.phase.ReadBody? && r.contentLength == 5 && r.recvPos == r.bodyStart == 30
  {
    hide AfterHeader, Newline, LineAt, FirstLine;
    LinesOfResponse();
    var s := Fresh(l);
    var t := AfterStatus(s, RESPONSE_LINE, 11);
    var u := AfterHeader(t, LENGTH_LINE, 29);
    var v := AfterHeader(u, "", 30);
    HeadersOfResponse(t);
    assert Advance(s, RESPONSE) == Advance(t, RESPONSE);
    assert Advance(t, RESPONSE) == Advance(u, RESPONSE);
    assert Advance(u, RESPONSE) == Advance(v, RESPONSE);
  }

  lemma LinesOfResponse()
    ensures |RESPONSE| == 30 && Newline(RESPONSE, 0) == 10 && Newline(RESPONSE, 11) == 28 && Newline(RESPONSE, 29) == 29
    ensures LineAt(RESPONSE, 0, 10) == RESPONSE_LINE && LineAt(RESPONSE, 11, 28) == LENGTH_LINE &&
            LineAt(RESPONSE, 29, 29) == ""
  {
    assert |RESPONSE_LINE| == 10 && |LENGTH_LINE| == 17;
    NewlineAt(RESPONSE, 0, 10);
    NewlineAt(RESPONSE, 11, 28);
    NewlineAt(RESPONSE, 29, 29);
    assert RESPONSE[0..10] == RESPONSE_LINE;
    assert RESPONSE[11..28] == LENGTH_LINE;
  }

  lemma HeadersOfResponse(s: State)
    requires s.phase.ReadHeader?
    ensures var t := AfterHeader(s, LENGTH_LINE, 29);
            var u := AfterHeader(t, "", 30);
            t.phase.ReadHeader? && u.phase.ReadBody? && u.contentLength == 5 && u.recvPos == u.bodyStart == 30
  {
    hide ReadRange, Strtoll, Lower, Colon, SkipBlanks;
    ColonAt(LENGTH_LINE, 0, 14);
    assert LENGTH_LINE[..14] == "Content-Length";
    assert Lower("Content-Length") == "content-length" by { LowerOfLength(); }
    assert SkipBlanks(LENGTH_LINE, 15) == 16 by { BlankBeforeFive(); }
    assert LENGTH_LINE[16..] == "5";
    assert Decimal(5) == "5" && "5" + "" == "5";
    StrtollOfDecimal(5, "");
    assert Colon("", 0) == 0 by { NoColon(); }
  }

  lemma NoColon()
    ensures Colon("", 0) == 0
  {
  }

  lemma LowerOfLength()
    ensures Lower("Content-Length") == "content-length"
  {
  }

  lemma BlankBeforeFive()
    ensures SkipBlanks(LENGTH_LINE, 15) == 16
  {
  }

  lemma {:induction false} ColonAt(s: string, i: nat, j: nat)
    requires i <= j < |s| && s[j] == ':' && forall k :: i <= k < j ==> s[k] != ':'
    ensures Colon(s, i) == j
  {
  }

  lemma NothingYet(line: StatusLine)
    ensures Advance(Fresh(line), "") == Fresh(line)
  {
  }

  // ----- byte counts -----

  /** The bytes of `buf` that belong to the header. */
  ghost function HeaderBytes(s: State, size: nat): int {
    if s.phase.ReadBody? then s.bodyStart else size
  }

  /** The bytes that belong to the body. */
  ghost function BodyBytes(s: State): int {
    if s.phase.ReadBody? then s.recvPos - s.bodyStart else 0
  }

  class HttpParser {
    var s: State
    var buffer: string
    /** The first lines of the messages before the last reset. */
    ghost var history: seq<string>

    /** The parser is where one call on all bytes received would have left it. */
    ghost predicate Valid()
      reads this
    {
      Proper(Fresh(AfterLines(history)), |buffer|) && Proper(s, |buffer|) &&
          s == Advance(Fresh(AfterLines(history)), buffer)
    }

    constructor ()
      ensures Valid() && buffer == "" && s == Fresh(NO_LINE) && history == []
    {
      s, buffer, history := Fresh(NO_LINE), "", [];
    }

    /** Starts over; the parts of the first line stay until a new one replaces them. */
    method Reset()
      requires Valid()
      modifies this
      ensures Valid() && buffer == "" && s == Fresh(old(s).line) && history == old(history) + FirstOf(old(buffer))
    {
      hide Advance;
      LineOf(history, buffer);
      history := history + FirstOf(buffer);
      s, buffer := Fresh(s.line), "";
      assert Advance(s, "") == s by { NothingYet(s.line); }
    }

    /** Takes note of a longer receive buffer; returns the new body and header bytes. */
    method Incoming(buf: string) returns (payload: int, protocol: int, error: bool)
      requires Valid() && buffer <= buf
      modifies this`s, this`buffer
      ensures Valid() && buffer == buf
      ensures s == Advance(Fresh(AfterLines(history)), buf)
      ensures s.phase.ReadBody? ==> (s.finished <==> Remembered(history + FirstOf(buf)) || BodyArrived(s, |buf|))
      ensures |buf| > |old(buffer)| ==> (error <==> s.phase.Error?)
      ensures !s.phase.Error? ==> protocol == HeaderBytes(s, |buf|) - HeaderBytes(old(s), |old(buffer)|)
      ensures !s.phase.Error? ==> payload == BodyBytes(s) - BodyBytes(old(s))
    {
      hide Advance, AfterBody, Newline, LineAt;
      payload, protocol, error := 0, 0, false;
      FinishedWithHeader(history, buf);
      AdvanceInSteps(Fresh(AfterLines(history)), buffer, buf);
      NothingNew(Fresh(AfterLines(history)), buffer);
      var startPos := |buffer|;
      if startPos == |buf| {
        assert buf == buffer;
        return;
      }
      buffer := buf;
      s, payload, protocol, error := Consume(s, buf, startPos);
    }

    /** The body received so far. */
    function GetBody(): (r: string)
      reads this
      requires s.phase.ReadBody? && s.bodyStart <= s.recvPos <= |buffer|
      requires s.contentLength >= 0 ==> s.recvPos - s.bodyStart <= s.contentLength
      ensures r == buffer[s.bodyStart..s.recvPos]
    {
      if s.contentLength >= 0 then buffer[s.bodyStart..Min(s.recvPos, s.bodyStart + s.contentLength)]
      else buffer[s.bodyStart..s.recvPos]
    }
  }

  lemma NothingNew(s: State, buf: string)
    requires Proper(s, |buf|)
    ensures Advance(Advance(s, buf), buf) == Advance(s, buf)
    ensures var r := Advance(s, buf);
            (r.phase.ReadStatus? || r.phase.ReadHeader?) ==> Newline(buf, r.recvPos) == |buf|
    decreases if s.phase.ReadBody? || s.phase.Error? then 0 else 1, |buf| - s.recvPos
  {
    hide AfterLine, AfterBody, Newline, LineAt;
    AdvanceInSteps(s, buf, buf);
    if s.phase.ReadStatus? || s.phase.ReadHeader? {
      var i := Newline(buf, s.recvPos);
      if i < |buf| && !(s.phase.ReadStatus? && i == s.recvPos) {
        NothingNew(AfterLine(s, LineAt(buf, s.recvPos, i), i + 1), buf);
      }
    }
  }

  /** The work of a call that has new bytes, behind the first `startPos` of them. */
  method Consume(s0: State, buf: string, startPos: nat) returns (s: State, payload: int, protocol: int, error: bool)
    requires startPos < |buf| && Proper(s0, startPos)
    requires s0.phase.ReadStatus? || s0.phase.ReadHeader? ==> forall k :: s0.recvPos <= k < startPos ==> buf[k] != '\n'
    ensures Proper(s0, |buf|) && s == Advance(s0, buf) && Proper(s, |buf|)
    ensures error <==> s.phase.Error?
    ensures !error ==> protocol == HeaderBytes(s, |buf|) - HeaderBytes(s0, startPos)
    ensures !error ==> payload == BodyBytes(s) - BodyBytes(s0)
  {
    hide AfterHeader, Newline, LineAt;
    s, payload, protocol, error := s0, 0, 0, false;
    if s.phase.Error? { return s, 0, 0, true; }
    var start := startPos;
    if s.phase.ReadStatus? {
      var newline := Newline(buf, s.recvPos);
      if newline == |buf| { return s, 0, |buf| - start, false; }
      if newline == s.recvPos { return s.(phase := Error), 0, 0, true; }
      protocol := newline + 1 - start;
      s := AfterStatus(s, LineAt(buf, s.recvPos, newline), newline + 1);
      start := newline + 1;
    }
    if s.phase.ReadHeader? {
      var used;
      s, used := ConsumeHeader(s, buf, start);
      if s.phase.Error? { return s, 0, protocol, true; }
      protocol := protocol + (used - start);
    }
    if s.phase.ReadBody? {
      var before := s.recvPos;
      s := AfterBody(s, |buf|);
      payload := s.recvPos - before;
    }
  }

  /** Header lines until the header ends, turns out bad, or needs more bytes; `used` is where it stopped. */
  method ConsumeHeader(s0: State, buf: string, start: nat) returns (s: State, used: int)
    requires s0.phase.ReadHeader? && s0.recvPos <= |buf| && start <= |buf|
    ensures Proper(s0, |buf|) && Proper(s, |buf|) && !s.phase.ReadStatus?
    ensures Advance(s0, buf) == if s.phase.ReadBody? then AfterBody(s, |buf|) else s
    ensures used == HeaderBytes(s, |buf|) || s.phase.Error?
    ensures s.phase.ReadBody? ==> s.recvPos == s.bodyStart
  {
    hide AfterHeader, Newline, LineAt;
    s := s0;
    var newline := Newline(buf, s.recvPos);
    while newline != |buf| && s.phase.ReadHeader?
      invariant Proper(s, |buf|) && !s.phase.ReadStatus? && newline <= |buf|
      invariant s.phase.ReadHeader? ==> newline == Newline(buf, s.recvPos)
      invariant Advance(s0, buf) == Advance(s, buf)
      invariant s.phase.ReadBody? ==> s.recvPos == s.bodyStart == newline
      decreases |buf| - s.recvPos, s.phase.ReadHeader?
    {
      s := AfterHeader(s, LineAt(buf, s.recvPos, newline), newline + 1);
      newline := newline + 1;
      if s.phase.ReadHeader? { newline := Newline(buf, s.recvPos); }
    }
    used := newline;
  }

  /**
   * However the message is cut into calls, the parser ends where one call on the whole would, and unless it is
   * bad the reported bytes add up to the header and to the body, clipped at the content length.
   */
  method Run(p: HttpParser, buffers: seq<string>) returns (payload: int, protocol: int)
    requires p.Valid() && p.buffer == "" && p.s == Fresh(AfterLines(p.history))
    requires forall i, j :: 0 <= i < j < |buffers| ==> buffers[i] <= buffers[j]
    modifies p
    ensures p.Valid() && p.history == old(p.history)
    ensures p.buffer == if buffers == [] then "" else buffers[|buffers| - 1]
    ensures p.s == Advance(Fresh(AfterLines(p.history)), p.buffer)
    ensures !p.s.phase.Error? ==> protocol == HeaderBytes(p.s, |p.buffer|) && payload == BodyBytes(p.s)
    ensures p.s.phase.ReadBody? ==> payload == Clipped(|p.buffer| - p.s.bodyStart, p.s.contentLength)
  {
    hide Advance, Proper, Fresh;
    assert HeaderBytes(p.s, 0) == 0 && BodyBytes(p.s) == 0 by { FreshCounts(AfterLines(p.history)); }
    payload, protocol := 0, 0;
    for i := 0 to |buffers|
      invariant p.Valid() && p.history == old(p.history) && p.buffer == if i == 0 then "" else buffers[i - 1]
      invariant !p.s.phase.Error? ==> protocol == HeaderBytes(p.s, |p.buffer|) && payload == BodyBytes(p.s)
    {
      assert p.buffer <= buffers[i];
      ErrorStays(p.history, p.buffer, buffers[i]);
      var a, b, error := p.Incoming(buffers[i]);
      payload, protocol := payload + a, protocol + b;
    }
    assert p.s.phase.ReadBody? ==> BodyBytes(p.s) == Clipped(|p.buffer| - p.s.bodyStart, p.s.contentLength) by {
      WholeBody(p.history, p.buffer);
    }
  }

  lemma WholeBody(history: seq<string>, buf: string)
    ensures var r := Advance(Fresh(AfterLines(history)), buf);
            r.phase.ReadBody? ==> BodyBytes(r) == Clipped(|buf| - r.bodyStart, r.contentLength)
  {
    hide Advance, AfterLines;
    FinishedExactly(Fresh(AfterLines(history)), buf);
  }

  lemma FreshCounts(line: StatusLine)
    ensures HeaderBytes(Fresh(line), 0) == 0 && BodyBytes(Fresh(line)) == 0
  {
  }

  lemma ErrorStays(history: seq<string>, a: string, b: string)
    requires a <= b
    ensures Advance(Fresh(AfterLines(history)), a).phase.Error? ==> Advance(Fresh(AfterLines(history)), b).phase.Error?
  {
    AdvanceInSteps(Fresh(AfterLines(history)), a, b);
  }
}
