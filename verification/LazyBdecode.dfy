/** The bdecoder: a loop with an explicit stack of pointers to the entries being filled in. */
module LazyBdecoding {
  import opened Arith
  import opened Decimals
  import opened Bencode
  import opened LazyEntries

  // ----- small loops -----

  /** Reads digits up to `delimiter`, adding to those already read; -1 if something else comes first. */
  method ParseInt(buf: string, start: nat, delimiter: char, val0: int, ghost digits: string)
    returns (pos: int, val: int)
    requires start <= |buf| && AllDigits(digits) && val0 == Number(digits)
    ensures pos >= 0 ==> start <= pos <= |buf| && AllDigits(buf[start..pos]) && val == Number(digits + buf[start..pos])
    ensures pos >= 0 ==> (pos < |buf| ==> buf[pos] == delimiter) && delimiter !in buf[start..pos]
    ensures pos < 0 ==>
              && pos == -1
              && exists k :: start <= k < |buf| && buf[k] != delimiter && !IsDigit(buf[k])
                             && delimiter !in buf[start..k]
  {
    pos, val := start, val0;
    assert digits + buf[start..start] == digits;
    while pos < |buf| && buf[pos] != delimiter
      invariant start <= pos <= |buf| && AllDigits(buf[start..pos]) && delimiter !in buf[start..pos]
      invariant val == Number(digits + buf[start..pos])
    {
      if !IsDigit(buf[pos]) { return -1, 0; }
      assert buf[start..pos + 1] == buf[start..pos] + [buf[pos]];
      MoreDigits(digits + buf[start..pos], buf[pos]);
      assert digits + buf[start..pos + 1] == digits + buf[start..pos] + [buf[pos]];
      val := val * 10;
      val := val + (buf[pos] as int - '0' as int);
      pos := pos + 1;
    }
  }

  lemma MoreDigits(s: string, d: char)
    requires AllDigits(s) && IsDigit(d)
    ensures AllDigits(s + [d]) && Number(s + [d]) == Number(s) * 10 + (d as int - '0' as int)
  {
    assert (s + [d])[..|s|] == s;
  }

  method FindChar(buf: string, start: nat, delimiter: char) returns (pos: nat)
    requires start <= |buf|
    ensures start <= pos <= |buf| && delimiter !in buf[start..pos] && (pos < |buf| ==> buf[pos] == delimiter)
  {
    pos := start;
    while pos < |buf| && buf[pos] != delimiter
      invariant start <= pos <= |buf| && delimiter !in buf[start..pos]
    {
      assert buf[start..pos + 1] == buf[start..pos] + [buf[pos]];
      pos := pos + 1;
    }
  }

  /** The number of decimal digits needed for a number. */
  method NumDigits(val0: nat) returns (ret: nat)
    ensures ret == |Decimal(val0)|
  {
    var val := val0;
    ret := 1;
    while val >= 10
      invariant ret + |Decimal(val)| == 1 + |Decimal(val0)|
      decreases val
    {
      ret := ret + 1;
      val := val / 10;
    }
  }

  /** A string's length prefix, whose first digit has been read already. */
  method ReadLength(buf: string, at: nat, ghost s: string) returns (pos: nat, len: nat)
    requires AtText(buf, at, EncodedString(s))
    ensures len == |s| && pos == at + |Decimal(|s|)| + 1 && AtText(buf, pos, s)
  {
    hide Decimal, Number;
    var d := Decimal(|s|);
    LengthAhead(buf, at, s);
    var colon, val := ParseInt(buf, at + 1, ':', buf[at] as int - '0' as int, [buf[at]]);
    StopsAtColon(buf, at, s, colon);
    NumberOfDecimal(|s|);
    assert [buf[at]] + buf[at + 1..colon] == buf[at..colon];
    pos, len := colon + 1, val;
  }

  lemma LengthAhead(buf: string, at: nat, s: string)
    requires AtText(buf, at, EncodedString(s))
    ensures var n := |Decimal(|s|)|;
            && at + n < |buf| && buf[at..at + n] == Decimal(|s|) && buf[at + n] == ':' && AtText(buf, at + n + 1, s)
            && IsDigit(buf[at]) && Number([buf[at]]) == buf[at] as int - '0' as int && ':' !in buf[at..at + n]
  {
    hide Decimal;
    var d := Decimal(|s|);
    AtTextSplit(buf, at, d + ":", s);
    AtTextSplit(buf, at, d, ":");
    AtTextChar(buf, at + |d|, ':');
    assert buf[at] == d[0];
    assert [buf[at]][..0] == "";
  }

  lemma StopsAtColon(buf: string, at: nat, s: string, colon: int)
    requires AtText(buf, at, EncodedString(s)) && at + 1 <= |buf|
    requires colon >= 0 ==>
               at + 1 <= colon <= |buf| && ':' !in buf[at + 1..colon] && (colon < |buf| ==> buf[colon] == ':')
    requires colon < 0 ==>
               exists k :: at + 1 <= k < |buf| && buf[k] != ':' && !IsDigit(buf[k]) && ':' !in buf[at + 1..k]
    ensures colon == at + |Decimal(|s|)|
  {
    hide Decimal;
    LengthAhead(buf, at, s);
    var c := at + |Decimal(|s|)|;
    assert forall k :: at <= k < c ==> buf[k] == Decimal(|s|)[k - at];
    if colon < 0 {
      var k :| at + 1 <= k < |buf| && buf[k] != ':' && !IsDigit(buf[k]) && ':' !in buf[at + 1..k];
      assert false;
    }
  }

  // ----- growing an array -----

  lemma Member(s: set<int>)
    requires |s| > 0
    ensures exists x :: x in s
  {
    if forall x :: x !in s { assert false; }
  }

  method Allocate(arrays: Arrays) returns (id: int)
    ensures id !in arrays
  {
    var left := arrays.Keys;
    id := 0;
    while |left| > 0
      invariant left <= arrays.Keys && forall x :: x in arrays && x !in left ==> x < id
      decreases |left|
    {
      assert exists x :: x in left by { Member(left); }
      var x :| x in left;
      if x >= id { id := x + 1; }
      left := left - {x};
    }
  }

  /** The array of `e` has room for another item, perhaps after moving. */
  ghost predicate Grown(arrays: Arrays, e: Entry, arrays': Arrays, e': Entry) {
    && e' == e.(start := e'.start, capacity := e'.capacity) && 0 <= e.size < e'.capacity && 2 <= e'.capacity
    && e'.start in arrays' && |arrays'[e'.start]| == e'.capacity
    && (e.capacity > 0 ==> e.start in arrays && e.size <= |arrays[e.start]|)
    && (e.capacity == 0 ==> e.size == 0) && 0 <= e.capacity
    && (forall i :: 0 <= i < e.size ==> arrays'[e'.start][i] == arrays[e.start][i])
    && (forall i :: e.size <= i < e'.capacity ==> arrays'[e'.start][i].entry.kind == NoneT)
    && ((e.capacity > 0 && e'.start == e.start) || e'.start !in arrays)
    && forall a :: a in arrays && !(e.capacity > 0 && a == e.start) ==> a in arrays' && arrays'[a] == arrays[a]
  }

  /** Makes room for another item: a first array, or one half as large again into which the items are moved. */
  method Reserve(arrays: Arrays, e: Entry) returns (arrays': Arrays, e': Entry)
    requires ArrayOk(arrays, e, {})
    ensures Grown(arrays, e, arrays', e')
  {
    arrays', e' := arrays, e;
    if e.capacity == 0 {
      var id := Allocate(arrays);
      arrays' := arrays[id := seq(5, _ => Cell(0, BLANK))];
      e' := e.(start := id, capacity := 5);
    } else if e.size == e.capacity {
      var capacity := e.capacity * 3 / 2;
      var id := Allocate(arrays);
      var full := arrays[e.start];
      var tmp := seq(capacity, i requires 0 <= i < capacity => if i < e.size then full[i] else Cell(0, BLANK));
      var _ := Release(full, e.size);
      arrays' := (arrays - {e.start})[id := tmp];
      e' := e.(start := id, capacity := capacity);
    }
  }

  /** Appends a blank item to a list or dictionary; returns a pointer to the item. */
  method Append(m: Memory, p: Ptr, name: int) returns (m': Memory, c: Ptr)
    requires Live(m, p) && ArrayOk(m.arrays, Get(m, p), {})
    requires p.Elem? && Get(m, p).capacity > 0 ==> p.arr != Get(m, p).start
    ensures AppendedTo(m, p, name, m', c)
  {
    var arrays, e := Reserve(m.arrays, Get(m, p));
    var cells := arrays[e.start];
    arrays := arrays[e.start := cells[e.size := cells[e.size].(name := name)]];
    c := Elem(e.start, e.size);
    m' := Put(m.(arrays := arrays), p, e.(size := e.size + 1));
  }

  /** Takes the items' arrays away from a copied array, so that freeing it frees nothing else. */
  method Release(cells0: seq<Cell>, size: int) returns (cells: seq<Cell>)
    requires size == |cells0|
    ensures |cells| == |cells0| && forall k :: 0 <= k < |cells| ==> cells[k].entry.kind == NoneT
  {
    cells := cells0;
    for i := 0 to size
      invariant |cells| == size && forall k :: 0 <= k < i ==> cells[k].entry.kind == NoneT
    {
      cells := cells[i := cells[i].(entry := Entry(NoneT, 0, 0, 0, cells[i].entry.begin, cells[i].entry.end))];
    }
  }

  // ----- depth -----

  ghost function Finished(opens: seq<Open>, busy: bool, k: nat): int
    requires k < |opens|
  {
    opens[k].n - (if busy || k < |opens| - 1 then 1 else 0)
  }

  /** The open containers lie in `v`, and what is finished lies within the depth limit. */
  ghost predicate DepthOk(opens: seq<Open>, busy: bool, v: Value, limit: int) {
    forall k :: 0 <= k < |opens| ==> DepthAt(opens, busy, v, limit, k)
  }

  ghost predicate DepthAt(opens: seq<Open>, busy: bool, v: Value, limit: int, k: nat)
    requires k < |opens|
  {
    var o, f := opens[k], Finished(opens, busy, k);
    && o.v.Container() && 0 <= f <= o.n <= |o.v.vs| && k + Nesting(o.v) <= Nesting(v)
    && (f > 0 ==> k + 1 + NestingUpTo(o.v, f) <= limit)
  }

  lemma {:induction false} NestingOfItem(v: Value, i: nat, n: nat)
    requires v.Container() && i < n <= |v.vs|
    ensures Nesting(v.vs[i]) <= NestingUpTo(v, n)
    decreases n
  {
    if i < n - 1 { NestingOfItem(v, i, n - 1); }
  }

  /** Beginning another item. */
  lemma DepthBegin(opens: seq<Open>, v: Value, limit: int, n: nat)
    requires DepthOk(opens, false, v, limit) && |opens| > 0
    requires var o := opens[|opens| - 1]; o.v.Container() && n == o.n + 1 <= |o.v.vs|
    ensures var t := |opens| - 1;
            var o := opens[t];
            DepthOk(opens[..t] + [Open(o.v, n, o.begin)], true, v, limit)
    ensures var o := opens[|opens| - 1]; o.v.Container() && |opens| + Nesting(o.v.vs[o.n]) <= Nesting(v)
  {
    hide Nesting, NestingUpTo;
    var t := |opens| - 1;
    var o := opens[t];
    var opens' := opens[..t] + [Open(o.v, n, o.begin)];
    assert DepthAt(opens, false, v, limit, t);
    NestingOfItem(o.v, o.n, |o.v.vs|);
    assert Nesting(o.v) == 1 + NestingUpTo(o.v, |o.v.vs|) by { NestingIs(o.v); }
    forall k | 0 <= k < |opens'|
      ensures DepthAt(opens', true, v, limit, k)
    {
      assert DepthAt(opens, false, v, limit, k);
    }
  }

  lemma NestingNext(v: Value, n: nat)
    requires v.Container() && 0 < n <= |v.vs|
    ensures NestingUpTo(v, n) == Max(NestingUpTo(v, n - 1), Nesting(v.vs[n - 1]))
  {
  }

  lemma NestingIs(v: Value)
    requires v.Container()
    ensures Nesting(v) == 1 + NestingUpTo(v, |v.vs|)
  {
  }

  /** Opening the item that has been begun. */
  lemma DepthOpen(opens: seq<Open>, v: Value, limit: int, o: Open)
    requires DepthOk(opens, true, v, limit) && o.v.Container() && o.n == 0 && |opens| + Nesting(o.v) <= Nesting(v)
    ensures DepthOk(opens + [o], false, v, limit)
  {
    hide Nesting, NestingUpTo;
    var opens' := opens + [o];
    forall k | 0 <= k < |opens'|
      ensures DepthAt(opens', false, v, limit, k)
    {
      if k < |opens| { assert DepthAt(opens, true, v, limit, k); }
    }
  }

  /** Finishing it. */
  lemma DepthFinish(opens: seq<Open>, v: Value, limit: int)
    requires DepthOk(opens, true, v, limit) && |opens| > 0
    requires var o := opens[|opens| - 1];
               o.v.Container() && 0 < o.n <= |o.v.vs| && |opens| + Nesting(o.v.vs[o.n - 1]) <= limit
    ensures DepthOk(opens, false, v, limit)
  {
    hide Nesting, NestingUpTo;
    var o := opens[|opens| - 1];
    NestingNext(o.v, o.n);
    if o.n == 1 { NestingOfNone(o.v); }
    forall k | 0 <= k < |opens|
      ensures DepthAt(opens, false, v, limit, k)
    {
      assert DepthAt(opens, true, v, limit, k);
    }
  }

  /** A container whose items are finished is itself within the limit, once the stack has been checked. */
  lemma DepthClose(opens: seq<Open>, v: Value, limit: int)
    requires DepthOk(opens, false, v, limit) && 0 < |opens| <= limit
    requires var o := opens[|opens| - 1]; o.v.Container() && o.n == |o.v.vs|
    ensures DepthOk(opens[..|opens| - 1], true, v, limit)
    ensures |opens| - 1 + Nesting(opens[|opens| - 1].v) <= limit
  {
    hide Nesting, NestingUpTo;
    var t := |opens| - 1;
    var low := opens[..t];
    assert DepthAt(opens, false, v, limit, t);
    NestingIs(opens[t].v);
    if opens[t].n == 0 { NestingOfNone(opens[t].v); }
    forall k | 0 <= k < t
      ensures DepthAt(low, true, v, limit, k)
    {
      assert DepthAt(opens, false, v, limit, k);
    }
  }

  lemma NestingOfNone(v: Value)
    requires v.Container()
    ensures NestingUpTo(v, 0) == 0
  {
  }

  // ----- the parser -----

  /** What holds between two turns of the loop: nothing read yet, some containers open, or all done. */
  ghost predicate Between(m: Memory, buf: string, own: set<int>, st: Stack, start: int, v: Value, limit: int)
    requires Proper(v)
  {
    && own <= m.arrays.Keys
    && if st.ptrs == [] then
         st.opens == [] && Rep(m.arrays, buf, m.root, v, own) && m.root.begin == 0 && Max(1, Nesting(v)) <= limit
       else if st.opens == [] then
         st.ptrs == [Root] && start == 0 && m.root.kind == NoneT && AtText(buf, 0, Encoded(v))
       else
         && |st.ptrs| == |st.opens| && st.opens[0].v == v && st.opens[0].begin == 0
         && Parsing(m, buf, own, st, false, 0, start) && DepthOk(st.opens, false, v, limit)
  }

  /** The blank entry on top of the stack is to become `item`, whose encoding is at `begin`. */
  ghost predicate Pending(m: Memory, buf: string, own: set<int>, st: Stack, begin: int, item: Value, v: Value,
                          limit: int) {
    && Proper(v) && Proper(item) && own <= m.arrays.Keys
    && |st.ptrs| == |st.opens| + 1 && Live(m, st.ptrs[|st.opens|]) && Get(m, st.ptrs[|st.opens|]).kind == NoneT
    && AtText(buf, begin, Encoded(item)) && Parsing(m, buf, own, st, true, begin, begin + |Encoded(item)|)
    && DepthOk(st.opens, true, v, limit) && |st.opens| + Nesting(item) <= Nesting(v)
    && (if st.opens == [] then item == v && begin == 0
        else Inside(TopOpen(st), Open(item, 0, begin)) && st.opens[0].v == v && st.opens[0].begin == 0)
  }

  lemma PendingRoot(m: Memory, buf: string, own: set<int>, st: Stack, v: Value, limit: int)
    requires Proper(v) && Between(m, buf, own, st, 0, v, limit) && st.ptrs != [] && st.opens == []
    ensures Pending(m, buf, own, st, 0, v, v, limit)
  {
    hide Encoded, Proper, Nesting;
  }

  /** The item on top of the stack is finished and popped. */
  lemma Popped(m: Memory, buf: string, own: set<int>, st: Stack, begin: int, after: int, item: Value, v: Value,
               limit: int)
    requires Proper(v) && Proper(item) && own <= m.arrays.Keys && |st.ptrs| == |st.opens| + 1 &&
             Live(m, st.ptrs[|st.opens|])
    requires Parsing(m, buf, own, st, true, begin, after) && DepthOk(st.opens, true, v, limit)
    requires Get(m, st.ptrs[|st.opens|]).begin == begin && Rep(m.arrays, buf, Get(m, st.ptrs[|st.opens|]), item, own)
    requires 1 <= limit && |st.opens| + Nesting(item) <= limit
    requires if st.opens == [] then item == v && begin == 0
             else Inside(TopOpen(st), Open(item, 0, begin)) && st.opens[0].v == v && st.opens[0].begin == 0
    ensures Between(m, buf, own, Stack(st.ptrs[..|st.opens|], st.opens), after, v, limit)
  {
    hide Proper, Encoded, Nesting, Rep, TextsOk, LevelsOk, DepthOk;
    if st.opens != [] {
      FinishItem(m, buf, own, st, begin, after);
      DepthFinish(st.opens, v, limit);
    } else {
      RootAtBottom(m, buf, own, st, begin, after);
    }
  }

  lemma RootAtBottom(m: Memory, buf: string, own: set<int>, st: Stack, begin: int, after: int)
    requires Parsing(m, buf, own, st, true, begin, after)
    ensures |st.ptrs| > 0 && st.ptrs[0] == Root
  {
  }

  /** A new entry in place of the blank one: `e` is a finished string or integer. */
  lemma LeafPut(m: Memory, buf: string, own: set<int>, st: Stack, begin: int, item: Value, v: Value, limit: int,
                e: Entry)
    requires Pending(m, buf, own, st, begin, item, v, limit) && !item.Container() && 1 <= limit && |st.opens| <= limit
    requires e.begin == begin && Rep(m.arrays, buf, e, item, own)
    ensures var m' := Put(m, st.ptrs[|st.opens|], e);
            Between(m', buf, own, Stack(st.ptrs[..|st.opens|], st.opens), begin + |Encoded(item)|, v, limit)
  {
    hide Proper, Encoded, Rep, TextsOk, LevelsOk, DepthOk, Elsewhere, Intact;
    var c, after := st.ptrs[|st.opens|], begin + |Encoded(item)|;
    var m' := Put(m, c, e);
    NotOwn(m, buf, own, st, begin, after);
    PutElsewhere(m, buf, own, own, st, begin, after, e);
    AroundKept(m, m', buf, own, own, st, begin, after);
    RepKept(m.arrays, m'.arrays, buf, e, item, own, own);
    Popped(m', buf, own, st, begin, after, item, v, limit);
  }

  /** Fills in the blank entry on top of the stack from the text at `begin`. */
  method Construct(m: Memory, buf: string, stack: seq<Ptr>, begin: nat, limit: int, ghost own: set<int>,
                   ghost opens: seq<Open>, ghost item: Value, ghost v: Value)
    returns (m': Memory, stack': seq<Ptr>, start: int, ghost opens': seq<Open>)
    requires Pending(m, buf, own, Stack(stack, opens), begin, item, v, limit) && 1 <= limit && |opens| <= limit &&
             |buf| <= INT_MAX
    ensures begin < start && Between(m', buf, own, Stack(stack', opens'), start, v, limit)
  {
    hide Proper, Encoded, Parsing, DepthOk, Nesting, Rep;
    var c := stack[|stack| - 1];
    var e := Get(m, c);
    assert buf[begin] == Encoded(item)[0] by { AtTextHead(buf, begin, Encoded(item)); }
    FirstChar(item);
    var t := buf[begin];
    assert begin + 1 < |buf|;
    if t == 'd' || t == 'l' {
      e := Entry(if t == 'd' then DictT else ListT, e.start, 0, 0, begin, e.end);
      OpenItem(m, buf, own, Stack(stack, opens), item, begin, e);
      DepthOpen(opens, v, limit, Open(item, 0, begin));
      m', stack', start := Put(m, c, e), stack, begin + 1;
      opens' := opens + [Open(item, 0, begin)];
    } else if t == 'i' {
      IntText(buf, begin, item);
      var intEnd := FindChar(buf, begin + 1, 'e');
      IntAhead(buf, begin, item.n, intEnd);
      e := Entry(IntT, begin + 1, intEnd - (begin + 1), e.capacity, begin, intEnd + 1);
      IntRep(m.arrays, buf, e, item, own);
      LeafPut(m, buf, own, Stack(stack, opens), begin, item, v, limit, e);
      m', stack', start, opens' := Put(m, c, e), stack[..|stack| - 1], intEnd + 1, opens;
    } else {
      StringAhead(buf, begin, item);
      var at, len := ReadLength(buf, begin, item.s);
      var digits := NumDigits(len);
      e := Entry(StringT, at, len, e.capacity, at - 1 - digits, at + len);
      StringRep(m.arrays, buf, e, item, own);
      LeafPut(m, buf, own, Stack(stack, opens), begin, item, v, limit, e);
      m', stack', start, opens' := Put(m, c, e), stack[..|stack| - 1], at + len, opens;
    }
  }

  lemma AtTextHead(buf: string, i: int, s: string)
    requires AtText(buf, i, s) && s != ""
    ensures 0 <= i < |buf| && buf[i] == s[0]
  {
    assert buf[i..i + |s|][0] == buf[i];
  }

  lemma IntText(buf: string, begin: int, item: Value)
    requires Proper(item) && item.Int? && AtText(buf, begin, Encoded(item))
    ensures AtText(buf, begin, "i" + Signed(item.n) + "e") && |Encoded(item)| == |Signed(item.n)| + 2
  {
    hide AtText, Signed;
  }

  lemma StringAhead(buf: string, begin: int, item: Value)
    requires Proper(item) && item.Str? && AtText(buf, begin, Encoded(item))
    ensures AtText(buf, begin, EncodedString(item.s)) && |Encoded(item)| == |Decimal(|item.s|)| + 1 + |item.s|
  {
    hide AtText;
  }

  lemma StringRep(arrays: Arrays, buf: string, e: Entry, item: Value, own: set<int>)
    requires Proper(item) && item.Str? && AtText(buf, e.begin, Encoded(item)) && e.kind == StringT && e.size == |item.s|
    requires e.end == e.begin + |Encoded(item)| && e.start + |item.s| == e.end
    ensures Rep(arrays, buf, e, item, own)
  {
    hide AtText, Encoded;
  }

  lemma IntAhead(buf: string, begin: nat, n: int, end: nat)
    requires AtText(buf, begin, "i" + Signed(n) + "e") && begin + 1 <= end <= |buf| && 'e' !in buf[begin + 1..end]
    requires end < |buf| ==> buf[end] == 'e'
    ensures end == begin + 1 + |Signed(n)|
  {
    hide Decimal;
    AtTextSplit(buf, begin, "i" + Signed(n), "e");
    AtTextSplit(buf, begin, "i", Signed(n));
    AtTextChar(buf, begin + 1 + |Signed(n)|, 'e');
    var stop := begin + 1 + |Signed(n)|;
    assert forall k :: begin + 1 <= k < stop ==> buf[k] == Signed(n)[k - begin - 1];
  }

  lemma IntRep(arrays: Arrays, buf: string, e: Entry, item: Value, own: set<int>)
    requires Proper(item) && item.Int? && AtText(buf, e.begin, Encoded(item)) && e.kind == IntT
    requires e.start == e.begin + 1 && e.size == |Signed(item.n)| && e.end == e.begin + |Signed(item.n)| + 2
    ensures Rep(arrays, buf, e, item, own)
  {
    hide AtText, Signed;
  }

  /** Closes the topmost container at its end mark. */
  method Close(m: Memory, buf: string, stack: seq<Ptr>, start: nat, limit: int, ghost own: set<int>,
               ghost opens: seq<Open>, ghost v: Value)
    returns (m': Memory, stack': seq<Ptr>, ghost own': set<int>, ghost opens': seq<Open>)
    requires Proper(v) && Between(m, buf, own, Stack(stack, opens), start, v, limit) && 0 < |opens| == |stack| <= limit
    requires OpenOk(TopOpen(Stack(stack, opens))) &&
             TopOpen(Stack(stack, opens)).n == |TopOpen(Stack(stack, opens)).v.vs|
    ensures Between(m', buf, own', Stack(stack', opens'), start + 1, v, limit)
  {
    hide Proper, Encoded, Parsing, DepthOk, Nesting, Rep;
    ghost var st := Stack(stack, opens);
    ghost var o := TopOpen(st);
    TopIsLive(m, buf, own, st, start);
    var p := stack[|stack| - 1];
    var e := Get(m, p).(end := start + 1);
    CloseTop(m, buf, own, st, start);
    DepthClose(opens, v, limit);
    m', own', opens' := Put(m, p, e), Owning(own, e), opens[..|opens| - 1];
    OwnsAllocated(m, buf, own, st, start, e);
    InsideNext(m, buf, own, st, start);
    Popped(m', buf, own', Stack(stack, opens'), o.begin, start + 1, o.v, v, limit);
    stack' := stack[..|stack| - 1];
  }

  lemma TopIsLive(m: Memory, buf: string, own: set<int>, st: Stack, after: int)
    requires Parsing(m, buf, own, st, false, 0, after) && 0 < |st.opens| == |st.ptrs|
    ensures Live(m, TopPtr(st)) && OpenOk(TopOpen(st)) && Get(m, TopPtr(st)).kind == KindOf(TopOpen(st).v)
    ensures ArrayOk(m.arrays, Get(m, TopPtr(st)), own) && TextOk(buf, TopOpen(st), after)
    ensures Get(m, TopPtr(st)).capacity > 0 && TopPtr(st).Elem? ==> TopPtr(st).arr != Get(m, TopPtr(st)).start
  {
    hide Proper, Parsing, ItemOk, TextOk;
    TakeApart(m, buf, own, st, false, 0, after);
    OwnArrayIsElsewhere(m, buf, own, st, after, Get(m, TopPtr(st)));
  }

  lemma OwnsAllocated(m: Memory, buf: string, own: set<int>, st: Stack, after: int, e: Entry)
    requires Parsing(m, buf, own, st, false, 0, after) && 0 < |st.opens| == |st.ptrs| && own <= m.arrays.Keys
    requires Live(m, TopPtr(st)) && e == Get(m, TopPtr(st)).(end := e.end)
    ensures Owning(own, e) <= Put(m, TopPtr(st), e).arrays.Keys
  {
    hide Parsing, Proper;
    TopIsLive(m, buf, own, st, after);
  }

  lemma InsideNext(m: Memory, buf: string, own: set<int>, st: Stack, after: int)
    requires Parsing(m, buf, own, st, false, 0, after) && 0 < |st.opens| == |st.ptrs|
    ensures |st.opens| > 1 ==>
              && Inside(TopOpen(Around(st)), Open(TopOpen(st).v, 0, TopOpen(st).begin))
              && Around(st).opens[0] == st.opens[0]
  {
    hide Proper, LevelOk, TextOk;
    if |st.opens| > 1 {
      var t := |st.opens| - 1;
      assert Inside(st.opens[t - 1], st.opens[t]);
    }
  }

  /** Begins the next item of the topmost container, reading its key if it has one. */
  method Begin(m: Memory, buf: string, stack: seq<Ptr>, start: nat, limit: int, ghost own: set<int>,
               ghost opens: seq<Open>, ghost v: Value)
    returns (m': Memory, stack': seq<Ptr>, begin: nat, ghost opens': seq<Open>, ghost item: Value)
    requires Proper(v) && Between(m, buf, own, Stack(stack, opens), start, v, limit) && 0 < |opens| == |stack|
    requires OpenOk(TopOpen(Stack(stack, opens))) &&
             TopOpen(Stack(stack, opens)).n < |TopOpen(Stack(stack, opens)).v.vs|
    ensures begin >= start && Pending(m', buf, own, Stack(stack', opens'), begin, item, v, limit) && |opens'| == |opens|
  {
    hide Proper, Encoded, EncodedFrom, Parsing, DepthOk, Nesting, Rep, AppendedTo, TextOk, Inside;
    ghost var st := Stack(stack, opens);
    ghost var o := TopOpen(st);
    TopIsLive(m, buf, own, st, start);
    NextItem(buf, o, start);
    ProperKeys(o.v);
    ProperItem(o.v, o.n);
    var p := stack[|stack| - 1];
    var name := 0;
    begin := start;
    if Get(m, p).kind == DictT {
      var at, len := ReadLength(buf, start, o.v.ks[o.n]);
      begin, name := at + len, at;
      assert (at - 1) + len + 3 <= |buf| by { AtTextInside(buf, begin, Encoded(o.v.vs[o.n])); }
    }
    assert begin == start + |Key(o.v, o.n)| && NameOk(buf, name, o.v, o.n, begin);
    var c;
    m', c := Append(m, p, name);
    BeginItem(m, buf, own, st, start, name, m', c);
    DepthBegin(opens, v, limit, o.n + 1);
    item := o.v.vs[o.n];
    opens' := opens[..|opens| - 1] + [Open(o.v, o.n + 1, o.begin)];
    stack' := stack + [c];
    StillInside(o, opens, opens', item, begin);
  }

  lemma ProperKeys(v: Value)
    requires Proper(v) && v.Container()
    ensures v.Dict? ==> |v.ks| == |v.vs|
  {
  }

  lemma StillInside(o: Open, opens: seq<Open>, opens': seq<Open>, item: Value, begin: int)
    requires |opens| > 0 && o == opens[|opens| - 1] && OpenOk(o) && o.n < |o.v.vs| && item == o.v.vs[o.n]
    requires opens' == opens[..|opens| - 1] + [Open(o.v, o.n + 1, o.begin)]
    ensures Inside(opens'[|opens'| - 1], Open(item, 0, begin)) && opens'[0].v == opens[0].v &&
            opens'[0].begin == opens[0].begin
  {
  }

  /**
   * Decodes the encoding of `v`, whatever follows it. It succeeds if and only if the depth limit allows, and then the
   * root entry stands for `v`.
   */
  method LazyBdecode(buf: string, depthLimit: int, ghost v: Value, ghost tail: string)
    returns (ret: int, m: Memory, ghost own: set<int>)
    requires Proper(v) && buf == Encoded(v) + tail && |buf| <= INT_MAX
    ensures ret == 0 || ret == -1
    ensures ret == 0 <==> depthLimit >= Max(1, Nesting(v))
    ensures ret == 0 ==> Rep(m.arrays, buf, m.root, v, own) && m.root.begin == 0
    ensures ret == -1 ==> m == Memory(BLANK, map[])
  {
    hide Proper, Encoded, Pending, DepthOk, Nesting, Rep, Parsing;
    m, own := Memory(BLANK, map[]), {};
    var start, stack := 0, [Root];
    ghost var opens: seq<Open> := [];
    assert buf[0..0 + |Encoded(v)|] == Encoded(v);
    while start < |buf| && stack != []
      invariant 0 <= start && Between(m, buf, own, Stack(stack, opens), start, v, depthLimit)
      decreases |buf| - start
    {
      if |stack| > depthLimit {
        TooDeep(m, buf, own, Stack(stack, opens), start, v, depthLimit);
        return -1, Memory(BLANK, map[]), {};
      }
      TopKind(m, buf, own, Stack(stack, opens), start, v, depthLimit);
      if Get(m, stack[|stack| - 1]).kind == NoneT {
        PendingRoot(m, buf, own, Stack(stack, opens), v, depthLimit);
        m, stack, start, opens := Construct(m, buf, stack, 0, depthLimit, own, opens, v, v);
      } else {
        TopText(m, buf, own, Stack(stack, opens), start);
        if buf[start] == 'e' {
          m, stack, own, opens := Close(m, buf, stack, start, depthLimit, own, opens, v);
          start := start + 1;
        } else {
          ghost var item;
          start, m, stack, opens, item := NextOf(m, buf, stack, start, depthLimit, own, opens, v);
        }
      }
    }
    if stack != [] {
      AlwaysMore(m, buf, own, Stack(stack, opens), start, v, depthLimit);
    }
    ret := 0;
  }

  method NextOf(m: Memory, buf: string, stack: seq<Ptr>, start: nat, limit: int, ghost own: set<int>,
                ghost opens: seq<Open>, ghost v: Value)
    returns (start': int, m': Memory, stack': seq<Ptr>, ghost opens': seq<Open>, ghost item: Value)
    requires Proper(v) && Between(m, buf, own, Stack(stack, opens), start, v, limit) &&
             0 < |opens| == |stack| <= limit && |buf| <= INT_MAX
    requires OpenOk(TopOpen(Stack(stack, opens))) &&
             TopOpen(Stack(stack, opens)).n < |TopOpen(Stack(stack, opens)).v.vs|
    ensures start' > start && Between(m', buf, own, Stack(stack', opens'), start', v, limit)
  {
    hide Proper, Encoded, DepthOk, Nesting, Rep, Parsing, Between, Pending;
    var begin;
    m', stack', begin, opens', item := Begin(m, buf, stack, start, limit, own, opens, v);
    m', stack', start', opens' := Construct(m', buf, stack', begin, limit, own, opens', item, v);
  }

  lemma TooDeep(m: Memory, buf: string, own: set<int>, st: Stack, start: int, v: Value, limit: int)
    requires Proper(v) && Between(m, buf, own, st, start, v, limit) && st.ptrs != [] && |st.ptrs| > limit
    ensures limit < Max(1, Nesting(v))
  {
    hide Proper, Encoded, Parsing, NestingUpTo;
    if st.opens != [] {
      var t := |st.opens| - 1;
      assert DepthAt(st.opens, false, v, limit, t);
    }
  }

  /** Only before anything has been read is the entry on top of the stack blank. */
  lemma TopKind(m: Memory, buf: string, own: set<int>, st: Stack, start: int, v: Value, limit: int)
    requires Proper(v) && Between(m, buf, own, st, start, v, limit) && st.ptrs != []
    ensures Live(m, st.ptrs[|st.ptrs| - 1]) && (Get(m, st.ptrs[|st.ptrs| - 1]).kind == NoneT <==> st.opens == [])
  {
    hide Proper, Encoded, Parsing, DepthOk;
    if st.opens != [] { TopIsLive(m, buf, own, st, start); }
  }

  /** In an open container either an item or the end mark is next. */
  lemma TopText(m: Memory, buf: string, own: set<int>, st: Stack, start: int)
    requires Parsing(m, buf, own, st, false, 0, start) && 0 < |st.opens| == |st.ptrs|
    ensures OpenOk(TopOpen(st)) && 0 <= start < |buf|
    ensures buf[start] == 'e' <==> TopOpen(st).n == |TopOpen(st).v.vs|
  {
    hide Proper, Parsing, Encoded;
    TopIsLive(m, buf, own, st, start);
    var o := TopOpen(st);
    if o.n < |o.v.vs| {
      NextItem(buf, o, start);
      ItemStart(buf, o, start);
    } else {
      AtTextHead(buf, start, "" + "e");
    }
  }

  lemma ItemStart(buf: string, o: Open, start: int)
    requires OpenOk(o) && o.n < |o.v.vs|
    requires AtText(buf, start, Key(o.v, o.n)) && AtText(buf, start + |Key(o.v, o.n)|, Encoded(o.v.vs[o.n]))
    ensures 0 <= start < |buf| && buf[start] != 'e'
  {
    hide Encoded, Decimal;
    if o.v.Dict? {
      AtTextHead(buf, start, Key(o.v, o.n));
    } else {
      ProperItem(o.v, o.n);
      FirstChar(o.v.vs[o.n]);
      AtTextHead(buf, start, Encoded(o.v.vs[o.n]));
    }
  }

  lemma AlwaysMore(m: Memory, buf: string, own: set<int>, st: Stack, start: int, v: Value, limit: int)
    requires Proper(v) && Between(m, buf, own, st, start, v, limit) && st.ptrs != []
    ensures start < |buf|
  {
    hide Proper, Encoded, Parsing, DepthOk;
    if st.opens == [] {
      AtTextHead(buf, 0, Encoded(v));
    } else {
      TopText(m, buf, own, st, start);
    }
  }

  // ----- reading the result -----

  /** The value of an integer entry. */
  method IntValue(arrays: Arrays, buf: string, e: Entry, ghost v: Value, ghost own: set<int>) returns (val: int)
    requires Proper(v) && v.Int? && Rep(arrays, buf, e, v, own)
    ensures val == v.n
  {
    hide Decimal, Number, Encoded, AllDigits, Signed;
    IntText(buf, e.begin, v);
    IntDigits(buf, e, v.n);
    var negative := buf[e.start] == '-';
    var from := if negative then e.start + 1 else e.start;
    var digits := buf[..e.start + e.size];
    var pos;
    pos, val := ParseInt(digits, from, 'e', 0, "");
    OnlyDigits(buf, e, v.n, from, pos);
    Magnitude(buf, digits, from, pos, if negative then -v.n else v.n);
    if negative { val := -val; }
  }

  lemma Magnitude(buf: string, digits: string, from: nat, pos: nat, n: nat)
    requires from <= pos <= |digits| && digits <= buf && buf[from..pos] == Decimal(n)
    ensures AllDigits("" + digits[from..pos]) && Number("" + digits[from..pos]) == n
  {
    hide Decimal, Number;
    assert "" + digits[from..pos] == buf[from..pos];
    NumberOfDecimal(n);
  }

  lemma IntDigits(buf: string, e: Entry, n: int)
    requires AtText(buf, e.begin, "i" + Signed(n) + "e") && e.start == e.begin + 1 && e.size == |Signed(n)|
    ensures 0 <= e.start && e.size > 0 && e.start + e.size < |buf| && buf[e.start..e.start + e.size] == Signed(n)
    ensures buf[e.start] == '-' <==> n < 0
    ensures AllDigits("") && Number("") == 0
  {
    hide Decimal;
    AtTextSplit(buf, e.begin, "i" + Signed(n), "e");
    AtTextSplit(buf, e.begin, "i", Signed(n));
    assert buf[e.start] == Signed(n)[0];
  }

  lemma OnlyDigits(buf: string, e: Entry, n: int, from: int, pos: int)
    requires 0 <= e.start && e.size > 0 && e.start + e.size <= |buf| && buf[e.start..e.start + e.size] == Signed(n)
    requires from == if n < 0 then e.start + 1 else e.start
    requires var b := buf[..e.start + e.size];
             && (pos >= 0 ==> from <= pos <= |b| && (pos < |b| ==> b[pos] == 'e'))
             && (pos < 0 ==> exists k :: from <= k < |b| && !IsDigit(b[k]))
    ensures pos == e.start + e.size && buf[from..pos] == Decimal(if n < 0 then -n else n)
  {
    hide Decimal;
    var d := Decimal(if n < 0 then -n else n);
    var b := buf[..e.start + e.size];
    assert buf[from..e.start + e.size] == d by {
      if n < 0 { assert buf[from..e.start + e.size] == Signed(n)[1..]; }
    }
    assert forall k :: from <= k < |b| ==> b[k] == d[k - from] && IsDigit(b[k]);
  }

  /** Compares a C string with `len` characters of the buffer; the C string ends with a zero. */
  method StringEqual(name: string, buf: string, at: nat, len: nat) returns (r: bool)
    requires '\0' !in name && at + len <= |buf|
    ensures r <==> buf[at..at + len] == name
  {
    var k := 0;
    while k < len
      invariant 0 <= k <= len && k <= |name| && forall j :: 0 <= j < k ==> buf[at + j] == name[j]
    {
      var c := if k < |name| then name[k] else '\0';
      if c != buf[at + k] {
        assert k < |name| ==> buf[at..at + len][k] == buf[at + k];
        return false;
      }
      if c == '\0' { return false; }
      k := k + 1;
    }
    assert k == |name| ==> buf[at..at + len] == name;
    return k == |name|;
  }

  /** The position of the first item with key `name`, or -1; keys have no length of their own. */
  method DictFind(arrays: Arrays, buf: string, e: Entry, name: string, ghost v: Value, ghost own: set<int>)
    returns (i: int)
    requires Proper(v) && v.Dict? && Rep(arrays, buf, e, v, own) && '\0' !in name
    ensures i == -1 || 0 <= i < |v.ks|
    ensures i == -1 ==> name !in v.ks
    ensures i >= 0 ==> v.ks[i] == name && name !in v.ks[..i] && ItemOk(arrays, buf, arrays[e.start][i], v, i, own)
  {
    hide Encoded, ItemOk;
    i := 0;
    while i < e.size
      invariant 0 <= i <= |v.ks| && name !in v.ks[..i]
    {
      var c := arrays[e.start][i];
      KeyAt(arrays, buf, c, v, i, own);
      var equal := StringEqual(name, buf, c.name, c.entry.begin - c.name);
      if equal { return; }
      assert v.ks[..i + 1] == v.ks[..i] + [v.ks[i]];
      i := i + 1;
    }
    assert v.ks[..i] == v.ks;
    i := -1;
  }

  /** The length of a key is recovered from where its value starts. */
  lemma KeyAt(arrays: Arrays, buf: string, c: Cell, v: Value, i: nat, own: set<int>)
    requires Proper(v) && v.Dict? && i < |v.vs| && ItemOk(arrays, buf, c, v, i, own)
    ensures 0 <= c.name <= c.entry.begin <= |buf| && buf[c.name..c.entry.begin] == v.ks[i]
  {
    hide Rep, Encoded;
  }

  /** The text of a string entry. */
  lemma StringValue(arrays: Arrays, buf: string, e: Entry, v: Value, own: set<int>)
    requires Proper(v) && v.Str? && Rep(arrays, buf, e, v, own)
    ensures 0 <= e.start && e.start + e.size <= |buf| && buf[e.start..e.start + e.size] == v.s
  {
    StringAhead(buf, e.begin, v);
    LengthAhead(buf, e.begin, v.s);
  }

  /** The section of the buffer that any entry records is exactly the encoding of its value. */
  lemma DataSection(arrays: Arrays, buf: string, e: Entry, v: Value, own: set<int>)
    requires Proper(v) && Rep(arrays, buf, e, v, own)
    ensures 0 <= e.begin <= e.end <= |buf| && buf[e.begin..e.end] == Encoded(v)
    ensures v.Container() ==> forall i :: 0 <= i < |v.vs| ==> Rep(arrays, buf, arrays[e.start][i].entry, v.vs[i], own)
  {
    hide Encoded;
    if v.Container() {
      forall i | 0 <= i < |v.vs|
        ensures Rep(arrays, buf, arrays[e.start][i].entry, v.vs[i], own)
      {
        assert ItemOk(arrays, buf, arrays[e.start][i], v, i, own);
      }
    }
  }
}
