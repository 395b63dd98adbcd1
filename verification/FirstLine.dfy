/** The first line of an HTTP message, read word by word, and what a parser remembers of the first lines before it. */
module FirstLines {
  import opened Decimals

  /** What the first line says. */
  datatype StatusLine = StatusLine(status: int, verb: string, path: string, protocol: string, message: string)

  const NO_LINE := StatusLine(-1, "", "", "", "")

  function Lower(s: string): (r: string)
    ensures |r| == |s|
  {
    seq(|s|, i requires 0 <= i < |s| => if 'A' <= s[i] <= 'Z' then s[i] - 'A' + 'a' else s[i])
  }

  predicate IsHttp(protocol: string) {
    "HTTP/" <= protocol
  }

  // ----- the stream a line is read from -----

  /** What is left of a line; `good` ends with the line or with the first read that finds nothing. */
  datatype Stream = Stream(rest: string, good: bool)

  predicate IsSpace(c: char) {
    c == ' ' || '\t' <= c <= '\r'
  }

  function WordEnd(s: string, i: nat): (j: nat)
    requires i <= |s|
    ensures i <= j <= |s| && (j < |s| ==> IsSpace(s[j])) && forall k :: i <= k < j ==> !IsSpace(s[k])
    decreases |s| - i
  {
    if i == |s| || IsSpace(s[i]) then i else WordEnd(s, i + 1)
  }

  /** Reads a word; if there is none, `target` keeps its value. */
  function ReadWord(st: Stream, target: string): (Stream, string) {
    var i := SpacesEnd(st.rest, 0);
    if !st.good || i == |st.rest| then (Stream("", false), target)
    else
      var j := WordEnd(st.rest, i);
      (Stream(st.rest[j..], j < |st.rest|), st.rest[i..j])
  }

  /** Reads a 32-bit number: 0 if there is something else, the nearest one if it is too large. */
  function ReadNumber(st: Stream, target: int): (Stream, int) {
    var s, i := st.rest, SpacesEnd(st.rest, 0);
    if !st.good || i == |s| then (Stream("", false), target)
    else
      var j := if s[i] == '-' || s[i] == '+' then i + 1 else i;
      var k := DigitsEnd(s, j);
      var m: int := Number(s[j..k]);
      var n := if s[i] == '-' then -m else m;
      if k == j then (Stream("", false), 0)
      else if n < -0x8000_0000 then (Stream("", false), -0x8000_0000)
      else if n > 0x7fff_ffff then (Stream("", false), 0x7fff_ffff)
      else (Stream(s[k..], k < |s|), n)
  }

  function ReadRest(st: Stream, target: string): string {
    if st.good then st.rest else target
  }

  /** The first line taken apart; a part that is missing keeps its old value. */
  function FirstLine(l: StatusLine, text: string): StatusLine {
    var (s1, word) := ReadWord(Stream(text, true), l.protocol);
    if IsHttp(word) then
      var (s2, status) := ReadNumber(s1, l.status);
      l.(protocol := word, status := status, message := ReadRest(s2, l.message))
    else
      var (s2, path) := ReadWord(s1, l.path);
      l.(verb := Lower(word), path := path, protocol := ReadWord(s2, "").1, status := 0)
  }

  lemma {:induction false} WordEndAt(s: string, i: nat, j: nat)
    requires i <= j <= |s| && (j < |s| ==> IsSpace(s[j])) && forall k :: i <= k < j ==> !IsSpace(s[k])
    ensures WordEnd(s, i) == j
  {
  }

  ghost predicate Word(s: string) {
    s != "" && forall k :: 0 <= k < |s| ==> !IsSpace(s[k])
  }

  /** A word, with or without a blank before it, up to a blank or the end of the line. */
  lemma ReadsWord(gap: string, word: string, rest: string, target: string)
    requires (gap == "" || gap == " ") && Word(word) && (rest == "" || IsSpace(rest[0]))
    ensures ReadWord(Stream(gap + word + rest, true), target) == (Stream(rest, rest != ""), word)
  {
    hide WordEnd;
    var s := gap + word + rest;
    SkipsGap(gap, word + rest);
    assert s == gap + (word + rest);
    assert forall k :: |gap| <= k < |gap + word| ==> s[k] == word[k - |gap|];
    WordEndAt(s, |gap|, |gap + word|);
    assert s[|gap + word|..] == rest && s[|gap|..|gap + word|] == word;
  }

  lemma SkipsGap(gap: string, rest: string)
    requires (gap == "" || gap == " ") && rest != "" && !IsSpace(rest[0])
    ensures SpacesEnd(gap + rest, 0) == |gap|
  {
    var s := gap + rest;
    assert s[|gap|] == rest[0] && SpacesEnd(s, |gap|) == |gap|;
    if gap == " " { assert SpacesEnd(s, 0) == SpacesEnd(s, 1); }
  }

  lemma ReadsNumber(n: nat, rest: string, target: int)
    requires n <= 0x7fff_ffff && (rest == "" || !IsDigit(rest[0]))
    ensures ReadNumber(Stream(" " + Decimal(n) + rest, true), target) == (Stream(rest, rest != ""), n)
  {
    hide Decimal;
    var d := Decimal(n);
    var s := " " + d + rest;
    SkipsGap(" ", d + rest);
    assert s == " " + (d + rest);
    assert s[1..|d| + 1] == d && s[|d| + 1..] == rest;
    assert s[1] == d[0];
    DigitsEndAt(s, 1, |d| + 1);
    NumberOfDecimal(n);
  }

  /** A request line as section 5.1 of RFC 2616 writes it. */
  lemma ReadsRequest(l: StatusLine, verb: string, path: string, protocol: string)
    requires Word(verb) && Word(path) && Word(protocol) && !IsHttp(verb)
    ensures FirstLine(l, verb + " " + path + " " + protocol) ==
            l.(verb := Lower(verb), path := path, protocol := protocol, status := 0)
  {
    hide ReadWord, Lower;
    var r2 := " " + protocol;
    var r1 := " " + path + r2;
    assert verb + " " + path + " " + protocol == "" + verb + r1;
    ReadsWord("", verb, r1, l.protocol);
    ReadsWord(" ", path, r2, l.path);
    assert r2 == " " + protocol + "";
    ReadsWord(" ", protocol, "", "");
  }

  /** A status line as section 6.1 of RFC 2616 writes it; the verb is left alone. */
  lemma ReadsResponse(l: StatusLine, protocol: string, code: nat, message: string)
    requires Word(protocol) && IsHttp(protocol) && code <= 0x7fff_ffff && (message == "" || !IsDigit(message[0]))
    ensures FirstLine(l, protocol + " " + Decimal(code) + message) ==
            l.(protocol := protocol, status := code, message := if message == "" then l.message else message)
  {
    hide ReadWord, ReadNumber, Decimal;
    var r1 := " " + Decimal(code) + message;
    assert protocol + " " + Decimal(code) + message == "" + protocol + r1;
    ReadsWord("", protocol, r1, l.protocol);
    ReadsNumber(code, message, l.status);
  }

  // ----- what stays from message to message -----

  /** The first word of a line, or nothing. */
  function FirstWord(text: string): string {
    ReadWord(Stream(text, true), "").1
  }

  /** The third word of a line, or nothing: the protocol of a request. */
  function ThirdWord(text: string): string {
    ReadWord(ReadWord(ReadWord(Stream(text, true), "").0, "").0, "").1
  }

  predicate IsBlank(text: string) {
    FirstWord(text) == ""
  }

  predicate IsResponse(text: string) {
    IsHttp(FirstWord(text))
  }

  predicate IsRequest(text: string) {
    !IsBlank(text) && !IsResponse(text)
  }

  /** What a parser knows after these first lines, with a reset between any two. */
  function AfterLines(history: seq<string>): StatusLine {
    if history == [] then NO_LINE
    else FirstLine(AfterLines(history[..|history| - 1]).(status := -1), history[|history| - 1])
  }

  /** How a line changes what decides about the verb. */
  lemma LineEffect(l: StatusLine, text: string)
    ensures var m := FirstLine(l, text);
            && (IsResponse(text) ==> m.verb == l.verb && IsHttp(m.protocol))
            && (IsRequest(text) ==> m.verb != "" && m.protocol == ThirdWord(text))
            && (IsBlank(text) && IsHttp(l.protocol) ==> m.verb == l.verb && m.protocol == l.protocol)
            && (IsBlank(text) && !IsHttp(l.protocol) ==> (m.verb != "" <==> l.protocol != "") && m.protocol == "")
  {
    hide Lower, SpacesEnd, WordEnd, ReadNumber;
    var i := SpacesEnd(text, 0);
    SpacesEndHere(text, 0);
    if i < |text| { assert WordEnd(text, i) > i; }
    assert !IsHttp("");
  }

  lemma {:induction false} SpacesEndHere(s: string, i: nat)
    requires i <= |s|
    ensures SpacesEnd(s, i) < |s| ==> !IsSpace(s[SpacesEnd(s, i)])
    decreases |s| - i
  {
    if i < |s| { SpacesEndHere(s, i + 1); }
  }

  /** The number of blank lines from line `i` on. */
  ghost function Blanks(history: seq<string>, i: nat): (n: nat)
    requires i <= |history|
    ensures i + n <= |history|
    decreases |history| - i
  {
    if i < |history| && IsBlank(history[i]) then 1 + Blanks(history, i + 1) else 0
  }

  lemma {:induction false} BlanksAfter(history: seq<string>, line: string, i: nat)
    requires i <= |history|
    ensures var n := Blanks(history, i);
            Blanks(history + [line], i) == if i + n == |history| && IsBlank(line) then n + 1 else n
    decreases |history| - i
  {
    hide IsBlank;
    var h := history + [line];
    if i < |history| {
      assert h[i] == history[i];
      BlanksAfter(history, line, i + 1);
    } else {
      assert Blanks(h, i + 1) == 0;
    }
  }

  ghost predicate IsLastRequest(history: seq<string>, i: int) {
    0 <= i < |history| && IsRequest(history[i]) && forall k :: i < k < |history| ==> !IsRequest(history[k])
  }

  /** The verb of a request outlives the blank lines after it. */
  predicate Outlives(protocol: string, blanks: nat) {
    IsHttp(protocol) || blanks == 0 || (blanks == 1 && protocol != "")
  }

  /** A request among these lines is not forgotten: blank first lines can erase it, responses cannot. */
  ghost predicate Remembered(history: seq<string>) {
    exists i :: IsLastRequest(history, i) && Outlives(ThirdWord(history[i]), Blanks(history, i + 1))
  }

  /** The parts that decide, after a last request at `i`. */
  ghost predicate Remains(history: seq<string>, i: int, l: StatusLine)
    requires 0 <= i < |history|
  {
    var p, b := ThirdWord(history[i]), Blanks(history, i + 1);
    && (l.verb != "" <==> Outlives(p, b))
    && (if IsHttp(p) || i + 1 + b < |history| then IsHttp(l.protocol) else l.protocol == if b == 0 then p else "")
  }

  ghost predicate NoRequest(history: seq<string>) {
    forall k :: 0 <= k < |history| ==> !IsRequest(history[k])
  }

  lemma LineAfterRequest(history: seq<string>, i: int, l: StatusLine, line: string)
    requires 0 <= i < |history| && Remains(history, i, l) && !IsRequest(line)
    ensures Remains(history + [line], i, FirstLine(l, line))
  {
    hide IsBlank, IsResponse, FirstLine, Blanks, ThirdWord, IsHttp;
    LineEffect(l, line);
    BlanksAfter(history, line, i + 1);
    assert (history + [line])[i] == history[i];
    NoKindTwice(line);
  }

  lemma NoKindTwice(text: string)
    ensures IsBlank(text) ==> !IsResponse(text)
    ensures !IsHttp("")
  {
  }

  lemma {:induction false} WhatRemains(history: seq<string>)
    ensures var l := AfterLines(history);
            if NoRequest(history) then l.verb == "" && (l.protocol == "" || IsHttp(l.protocol))
            else exists i :: IsLastRequest(history, i) && Remains(history, i, l)
  {
    hide IsBlank, IsResponse, FirstLine, Remains, IsHttp;
    if history != [] {
      var h, line := history[..|history| - 1], history[|history| - 1];
      WhatRemains(h);
      var l := AfterLines(h).(status := -1);
      LineEffect(l, line);
      assert history == h + [line];
      NoKindTwice(line);
      if IsRequest(line) {
        JustAsked(history, FirstLine(l, line));
      } else if !NoRequest(h) {
        var i :| IsLastRequest(h, i) && Remains(h, i, AfterLines(h));
        SameRemains(h, i, AfterLines(h));
        LineAfterRequest(h, i, l, line);
        assert history[i] == h[i] && IsLastRequest(history, i);
      } else {
        assert NoRequest(history);
      }
    }
  }

  lemma SameRemains(history: seq<string>, i: int, l: StatusLine)
    requires 0 <= i < |history| && Remains(history, i, l)
    ensures Remains(history, i, l.(status := -1))
  {
  }

  lemma JustAsked(history: seq<string>, l: StatusLine)
    requires history != [] && IsRequest(history[|history| - 1]) && l.verb != "" &&
             l.protocol == ThirdWord(history[|history| - 1])
    ensures IsLastRequest(history, |history| - 1) && Remains(history, |history| - 1, l)
  {
    hide IsRequest, ThirdWord, IsHttp;
  }

  /** After any first lines the parser takes itself to read a request just if one is remembered. */
  lemma VerbRemembered(history: seq<string>)
    ensures AfterLines(history).verb != "" <==> Remembered(history)
  {
    hide IsRequest, ThirdWord, AfterLines, Blanks, Outlives;
    WhatRemains(history);
    if i :| IsLastRequest(history, i) && Remains(history, i, AfterLines(history)) {
      forall j | IsLastRequest(history, j)
        ensures j == i
      {
      }
    }
  }

  /** Without blank first lines: just if any line was a request. */
  lemma RequestsAreRemembered(history: seq<string>)
    requires forall k :: 0 <= k < |history| ==> !IsBlank(history[k])
    ensures Remembered(history) <==> exists k :: 0 <= k < |history| && IsRequest(history[k])
  {
    hide IsBlank, IsRequest, ThirdWord;
    if k :| 0 <= k < |history| && IsRequest(history[k]) {
      var i := LastOf(history, k);
      assert Blanks(history, i + 1) == 0;
    }
  }

  lemma {:induction false} LastOf(history: seq<string>, k: int) returns (i: int)
    requires 0 <= k < |history| && IsRequest(history[k])
    ensures IsLastRequest(history, i)
    decreases |history| - k
  {
    hide IsRequest;
    if j :| k < j < |history| && IsRequest(history[j]) {
      i := LastOf(history, j);
    } else {
      i := k;
    }
  }
}
