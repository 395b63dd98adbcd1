/** What the lines of a message header do to the parser, said by their text. */
module HeaderLines {
  import opened Arith
  import opened Decimals
  import opened FirstLines
  import opened HttpParsing

  // ----- where a line ends -----

  /** A line feed, with or without a carriage return before it, ends a line of this text. */
  ghost predicate Ends(line: string, eol: string) {
    && (eol == "\n" || eol == "\r\n")
    && (forall k :: 0 <= k < |line| ==> line[k] != '\n')
    && (eol == "\n" && line != "" ==> line[|line| - 1] != '\r')
  }

  lemma Pieces(before: string, line: string, eol: string, rest: string)
    ensures var buf, i := before + line + eol + rest, |before| + |line|;
            && |buf| == i + |eol| + |rest| && buf[|before|..i] == line && buf[i..i + |eol|] == eol
            && (forall k :: |before| <= k < i ==> buf[k] == line[k - |before|])
            && (forall k :: i <= k < i + |eol| ==> buf[k] == eol[k - i])
  {
  }

  lemma LineFound(before: string, line: string, eol: string, rest: string)
    requires Ends(line, eol)
    ensures var buf, i := before + line + eol + rest, |before| + |line| + |eol| - 1;
            |before| <= i < |buf| && Newline(buf, |before|) == i && LineAt(buf, |before|, i) == line
  {
    hide Newline, LineAt, Ends;
    Pieces(before, line, eol, rest);
    LineFoundIn(before + line + eol + rest, |before|, line, eol);
  }

  lemma LineFoundIn(buf: string, pos: nat, line: string, eol: string)
    requires Ends(line, eol) && pos + |line| + |eol| <= |buf| && buf[pos..pos + |line|] == line
    requires forall k :: pos <= k < pos + |line| ==> buf[k] == line[k - pos]
    requires forall k :: pos + |line| <= k < pos + |line| + |eol| ==> buf[k] == eol[k - pos - |line|]
    ensures var i := pos + |line| + |eol| - 1; pos <= i && Newline(buf, pos) == i && LineAt(buf, pos, i) == line
  {
    hide Newline;
    NewlineAt(buf, pos, pos + |line| + |eol| - 1);
  }

  /** In the header, the next line is taken without its ending. */
  lemma TakesLine(s: State, before: string, line: string, eol: string, rest: string)
    requires s.phase.ReadHeader? && s.recvPos == |before| && Ends(line, eol)
    ensures var buf, next := before + line + eol + rest, |before + line + eol|;
            var t := AfterHeader(s, line, next);
            Proper(s, |buf|) && Proper(t, |buf|) && Advance(s, buf) == Advance(t, buf)
  {
    hide Newline, LineAt, AfterHeader;
    LineFound(before, line, eol, rest);
  }

  /** The first line is taken without its ending, unless nothing stands before the line feed. */
  lemma TakesFirstLine(s: State, line: string, eol: string, rest: string)
    requires s.phase.ReadStatus? && s.recvPos == 0 && Ends(line, eol) && line != ""
    ensures var buf, next := line + eol + rest, |line + eol|;
            var t := AfterStatus(s, line, next);
            Proper(s, |buf|) && Proper(t, |buf|) && Advance(s, buf) == Advance(t, buf)
  {
    hide Newline, LineAt, FirstLine, Advance, Ends;
    LineFound("", line, eol, rest);
    assert "" + line + eol + rest == line + eol + rest;
    FirstStep(s, line + eol + rest, line, |line + eol| - 1) by { assert |eol| > 0 by { EndsWithSomething(line, eol); } }
  }

  lemma EndsWithSomething(line: string, eol: string)
    requires Ends(line, eol)
    ensures |eol| > 0
  {
  }

  lemma FirstStep(s: State, buf: string, line: string, i: nat)
    requires s.phase.ReadStatus? && s.recvPos == 0 < i < |buf| && Newline(buf, 0) == i && LineAt(buf, 0, i) == line
    ensures var t := AfterStatus(s, line, i + 1);
            Proper(s, |buf|) && Proper(t, |buf|) && Advance(s, buf) == Advance(t, buf)
  {
    hide Newline, LineAt, FirstLine;
  }

  // ----- names and values -----

  ghost predicate Letter(c: char) {
    'A' <= c <= 'Z' || 'a' <= c <= 'z'
  }

  /** The same text but for the case of its letters. */
  ghost predicate SameButCase(a: string, b: string) {
    && |a| == |b|
    && forall i :: 0 <= i < |a| ==>
         a[i] == b[i] || (Letter(a[i]) && Letter(b[i]) && (a[i] as int - b[i] as int) % 32 == 0)
  }

  /** Lower case identifies just the texts that differ in case alone. */
  lemma LowerIsSameButCase(a: string, b: string)
    ensures Lower(a) == Lower(b) <==> SameButCase(a, b)
  {
    if Lower(a) == Lower(b) {
      forall i | 0 <= i < |a|
        ensures a[i] == b[i] || (Letter(a[i]) && Letter(b[i]) && (a[i] as int - b[i] as int) % 32 == 0)
      {
        assert Lower(a)[i] == Lower(b)[i];
      }
    }
  }

  ghost predicate Blanks(s: string) {
    forall i :: 0 <= i < |s| ==> s[i] == ' ' || s[i] == '\t'
  }

  /** A line of the header: a name, a colon, blanks and a value. */
  ghost predicate IsField(line: string, name: string, value: string) {
    exists blanks :: Blanks(blanks) && line == name + ":" + blanks + value
  }

  lemma {:induction false} SkipsBlanks(s: string, i: nat, j: nat)
    requires i <= j <= |s| && Blanks(s[i..j]) && (j < |s| ==> s[j] != ' ' && s[j] != '\t')
    ensures SkipBlanks(s, i) == j
    decreases j - i
  {
    if i < j {
      assert s[i] == s[i..j][0];
      assert s[i + 1..j] == s[i..j][1..];
      SkipsBlanks(s, i + 1, j);
    }
  }

  /** What the parser makes of a field: its name and its value. */
  lemma FieldParts(line: string, name: string, value: string)
    requires IsField(line, name, value) && (forall k :: 0 <= k < |name| ==> name[k] != ':')
    requires value == "" || (value[0] != ' ' && value[0] != '\t')
    ensures Colon(line, 0) == |name| < |line| && line[..|name|] == name
    ensures line[SkipBlanks(line, |name| + 1)..] == value
  {
    hide Colon, SkipBlanks;
    var blanks :| Blanks(blanks) && line == name + ":" + blanks + value;
    assert forall k :: 0 <= k < |name| ==> line[k] == name[k];
    ColonAt(line, 0, |name|);
    var i := |name| + 1;
    var j := i + |blanks|;
    assert line[i..j] == blanks && line[j..] == value;
    assert j < |line| ==> line[j] == value[0];
    SkipsBlanks(line, i, j);
  }

  /** A field is recorded under its name in lower case, unless one of that name is there; no other changes. */
  lemma RecordsField(s: State, line: string, name: string, value: string, next: nat)
    requires IsField(line, name, value) && (forall k :: 0 <= k < |name| ==> name[k] != ':')
    requires value == "" || (value[0] != ' ' && value[0] != '\t')
    ensures var h, g := s.headers, AfterHeader(s, line, next).headers;
            && (forall key :: key in g <==> key in h || key == Lower(name))
            && (forall key :: key in h ==> g[key] == h[key])
            && (Lower(name) !in h ==> g[Lower(name)] == value)
  {
    hide Colon, SkipBlanks, Lower, Strtoll, ReadRange;
    FieldParts(line, name, value);
  }

  /** A field with any other name than the two below changes nothing else. */
  lemma OtherFields(s: State, line: string, name: string, value: string, next: nat)
    requires IsField(line, name, value) && (forall k :: 0 <= k < |name| ==> name[k] != ':')
    requires value == "" || (value[0] != ' ' && value[0] != '\t')
    requires !SameButCase(name, "content-length") && !SameButCase(name, "content-range")
    ensures var t := AfterHeader(s, line, next); t == s.(recvPos := next, headers := t.headers)
  {
    hide Colon, SkipBlanks, Lower, Strtoll, ReadRange;
    FieldParts(line, name, value);
    LowerIsSameButCase(name, "content-length");
    LowerIsSameButCase(name, "content-range");
    LowerNames();
  }

  lemma LowerNames()
    ensures Lower("content-length") == "content-length" && Lower("content-range") == "content-range"
  {
  }

  // ----- the length of the body -----

  /** The bytes from `first` to `last`. */
  ghost function Bytes(first: int, last: int): set<int> {
    set x | first <= x <= last && Within(x, first, last)
  }

  ghost predicate Within(x: int, first: int, last: int) {
    first <= x <= last
  }

  lemma {:induction false} CountBytes(first: int, last: int)
    requires first <= last + 1
    ensures |Bytes(first, last)| == last - first + 1
    decreases last - first + 1
  {
    if first == last + 1 {
      assert Bytes(first, last) == {};
    } else {
      CountBytes(first, last - 1);
      assert Bytes(first, last) == Bytes(first, last - 1) + {last};
    }
  }

  /**
   * A Content-Range field of section 14.16 of RFC 2616, however its name is written and whatever follows the
   * numbers: the range is the one written and the body is as long as the range has bytes. A range that ends
   * before it starts is an error.
   */
  lemma ReadsContentRange(s: State, line: string, name: string, first: nat, last: nat, rest: string, next: nat)
    requires s.phase.ReadHeader? && SameButCase(name, "content-range")
    requires first <= 0x7fff_ffff_ffff_ffff && last <= 0x7fff_ffff_ffff_ffff && (rest == "" || !IsDigit(rest[0]))
    requires IsField(line, name, "bytes " + Decimal(first) + "-" + Decimal(last) + rest)
    ensures var t := AfterHeader(s, line, next);
            && t.rangeStart == first && t.rangeEnd == last && t.finished == s.finished
            && (first <= last ==> t.phase.ReadHeader? && t.contentLength == |Bytes(first, last)|)
            && (first > last ==> t.phase.Error?)
  {
    hide Colon, SkipBlanks, Lower, Strtoll, ReadRange, Bytes, Decimal;
    var value := "bytes " + Decimal(first) + "-" + Decimal(last) + rest;
    NoColonInName(name, "content-range");
    FieldParts(line, name, value);
    LowerIsSameButCase(name, "content-range");
    LowerNames();
    ReadsByteRange(first, last, rest, s.rangeStart, s.rangeEnd);
    if first <= last { CountBytes(first, last); }
  }

  lemma NoColonInName(name: string, lower: string)
    requires SameButCase(name, lower) && forall k :: 0 <= k < |lower| ==> lower[k] != ':'
    ensures forall k :: 0 <= k < |name| ==> name[k] != ':'
  {
  }

  /** A Content-Length field is read as written. */
  lemma ReadsContentLength(s: State, line: string, name: string, n: nat, next: nat)
    requires s.phase.ReadHeader? && SameButCase(name, "content-length") && n <= 0x7fff_ffff_ffff_ffff
    requires IsField(line, name, Decimal(n))
    ensures var t := AfterHeader(s, line, next); t.phase.ReadHeader? && t.contentLength == n
  {
    hide Colon, SkipBlanks, Lower, Strtoll, ReadRange, Decimal;
    NoColonInName(name, "content-length");
    assert IsDigit(Decimal(n)[0]);
    FieldParts(line, name, Decimal(n));
    LowerIsSameButCase(name, "content-length");
    LowerNames();
    assert Decimal(n) + "" == Decimal(n);
    StrtollOfDecimal(n, "");
  }

  // ----- a whole message -----

  /**
   * A message whose header is a first line and one Content-Range field: the body begins behind the empty line
   * and is what has arrived of the bytes of the range.
   */
  lemma RangedMessage(l: StatusLine, top: string, field: string, eol: string, first: nat, last: nat, body: string)
    requires Ends(top, eol) && top != "" && Ends(field, eol) && Ends("", eol)
    requires first <= last <= 0x7fff_ffff_ffff_ffff
    requires field == "Content-Range: bytes " + Decimal(first) + "-" + Decimal(last)
    ensures var header := top + eol + field + eol + eol;
            var buf := header + body;
            var r := Advance(Fresh(l), buf);
            && r.phase.ReadBody? && r.bodyStart == |header| && r.line == FirstLine(l.(status := -1), top)
            && r.recvPos == |header| + Min(|body|, |Bytes(first, last)|)
            && (r.finished <==> r.line.verb != "" || |body| >= |Bytes(first, last)|)
  {
    hide AfterHeader, FirstLine, Advance, Bytes, Decimal, IsField, SameButCase, Ends, Proper;
    var s := Fresh(l);
    var a := top + eol;
    var b := a + field + eol;
    var header := b + eol;
    var buf := header + body;
    TakesFirstLine(s, top, eol, field + eol + eol + body);
    assert top + eol + (field + eol + eol + body) == buf;
    var t := AfterStatus(s, top, |a|);
    TakesLine(t, a, field, eol, eol + body);
    assert a + field + eol + (eol + body) == buf;
    var u := AfterHeader(t, field, |b|);
    IsRangeField(field, first, last);
    ReadsContentRange(t, field, "Content-Range", first, last, "", |b|);
    TakesLine(u, b, "", eol, body);
    assert b + "" + eol + body == buf && b + "" + eol == header;
    EndsHeader(u, |header|);
    var v := AfterHeader(u, "", |header|);
    RestIsBody(v, buf);
    CountBytes(first, last);
  }

  lemma IsRangeField(field: string, first: nat, last: nat)
    requires field == "Content-Range: bytes " + Decimal(first) + "-" + Decimal(last)
    ensures IsField(field, "Content-Range", "bytes " + Decimal(first) + "-" + Decimal(last) + "")
    ensures SameButCase("Content-Range", "content-range")
  {
    hide Decimal;
    var blanks := " ";
    assert Blanks(blanks);
    assert field == "Content-Range" + ":" + blanks + ("bytes " + Decimal(first) + "-" + Decimal(last) + "");
  }

  lemma EndsHeader(s: State, next: nat)
    requires s.phase.ReadHeader?
    ensures var t := AfterHeader(s, "", next);
            t == s.(recvPos := next, phase := ReadBody, finished := s.finished || s.line.verb != "", bodyStart := next)
  {
    NoColon();
  }

  lemma RestIsBody(s: State, buf: string)
    requires s.phase.ReadBody? && s.bodyStart == s.recvPos <= |buf| && s.contentLength >= 0
    requires s.finished <==> s.line.verb != ""
    ensures Proper(s, |buf|)
    ensures var r, n := Advance(s, buf), |buf| - s.bodyStart;
            && r.phase.ReadBody? && r.bodyStart == s.bodyStart && r.line == s.line
            && r.recvPos == s.bodyStart + Min(n, s.contentLength)
            && (r.finished <==> s.line.verb != "" || n >= s.contentLength)
  {
  }
}
