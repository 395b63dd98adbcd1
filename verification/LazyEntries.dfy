/**
 * Parsed entries in an explicit memory: arrays of entries that are allocated, moved when they grow and freed, and
 * pointers to their elements. A pointer to a freed array is not live, so every access below is proved not to use one.
 */
module LazyEntries {
  import opened Bencode

  datatype Kind = NoneT | DictT | ListT | StringT | IntT

  /** `start` is a place in the buffer, or the array of a list or dictionary. */
  datatype Entry = Entry(kind: Kind, start: int, size: int, capacity: int, begin: int, end: int)

  const BLANK := Entry(NoneT, 0, 0, 0, 0, 0)

  /** An array element; `name` is where a dictionary key starts. */
  datatype Cell = Cell(name: int, entry: Entry)

  type Arrays = map<int, seq<Cell>>

  datatype Ptr = Root | Elem(arr: int, idx: int)

  datatype Memory = Memory(root: Entry, arrays: Arrays)

  predicate Live(m: Memory, p: Ptr) {
    p.Elem? ==> p.arr in m.arrays && 0 <= p.idx < |m.arrays[p.arr]|
  }

  function Get(m: Memory, p: Ptr): Entry
    requires Live(m, p)
  {
    if p.Root? then m.root else m.arrays[p.arr][p.idx].entry
  }

  function Put(m: Memory, p: Ptr, e: Entry): (r: Memory)
    requires Live(m, p)
    ensures Live(r, p) && Get(r, p) == e && r.arrays.Keys == m.arrays.Keys
  {
    if p.Root? then m.(root := e)
    else m.(arrays := m.arrays[p.arr := m.arrays[p.arr][p.idx := m.arrays[p.arr][p.idx].(entry := e)]])
  }

  // ----- what an entry stands for -----

  function KindOf(v: Value): Kind {
    match v
    case Int(_) => IntT
    case Str(_) => StringT
    case List(_) => ListT
    case Dict(_, _) => DictT
  }

  /** A dictionary key starts at `name` and ends where its value starts. */
  ghost predicate NameOk(buf: string, name: int, v: Value, i: nat, begin: int)
    requires Proper(v) && v.Container() && i < |v.vs|
  {
    v.Dict? ==> AtText(buf, name, v.ks[i]) && name + |v.ks[i]| == begin
  }

  /** Entry `e` is value `v`; its section of the buffer is the value's encoding; its arrays are among `own`. */
  ghost predicate Rep(arrays: Arrays, buf: string, e: Entry, v: Value, own: set<int>)
    requires Proper(v)
    decreases v, 1
  {
    && AtText(buf, e.begin, Encoded(v)) && e.end == e.begin + |Encoded(v)| && e.kind == KindOf(v)
    && match v
       case Int(n) => e.start == e.begin + 1 && e.size == |Signed(n)|
       case Str(s) => e.size == |s| && e.start + |s| == e.end
       case _ =>
         && e.size == |v.vs|
         && (|v.vs| > 0 ==> e.start in own && e.start in arrays && |v.vs| <= |arrays[e.start]|)
         && forall i :: 0 <= i < |v.vs| ==> ItemOk(arrays, buf, arrays[e.start][i], v, i, own)
  }

  ghost predicate ItemOk(arrays: Arrays, buf: string, c: Cell, v: Value, i: nat, own: set<int>)
    requires Proper(v) && v.Container() && i < |v.vs|
    decreases v, 0
  {
    Rep(arrays, buf, c.entry, v.vs[i], own) && NameOk(buf, c.name, v, i, c.entry.begin)
  }

  /** The arrays in `own` are as they were. */
  ghost predicate Intact(a: Arrays, b: Arrays, own: set<int>) {
    forall x :: x in own && x in a ==> x in b && b[x] == a[x]
  }

  lemma {:induction false} RepKept(a: Arrays, b: Arrays, buf: string, e: Entry, v: Value, own: set<int>, own': set<int>)
    requires Proper(v) && Rep(a, buf, e, v, own) && own <= own' && Intact(a, b, own)
    ensures Rep(b, buf, e, v, own')
    decreases v, 1
  {
    hide Encoded, Signed;
    if v.Container() {
      forall i | 0 <= i < |v.vs|
        ensures ItemOk(b, buf, b[e.start][i], v, i, own')
      {
        ItemKept(a, b, buf, a[e.start][i], v, i, own, own');
      }
    }
  }

  lemma {:induction false} ItemKept(a: Arrays, b: Arrays, buf: string, c: Cell, v: Value, i: nat, own: set<int>,
                                    own': set<int>)
    requires Proper(v) && v.Container() && i < |v.vs| && ItemOk(a, buf, c, v, i, own) && own <= own' &&
             Intact(a, b, own)
    ensures ItemOk(b, buf, c, v, i, own')
    decreases v, 0
  {
    hide Encoded;
    RepKept(a, b, buf, c.entry, v.vs[i], own, own');
  }

  // ----- containers that are being parsed -----

  /** A list or dictionary that starts at `begin` and of which `n` items have been begun. */
  datatype Open = Open(v: Value, n: nat, begin: int)

  ghost predicate OpenOk(o: Open) {
    Proper(o.v) && o.v.Container() && o.n <= |o.v.vs|
  }

  ghost function End(o: Open): int
    requires Proper(o.v)
  {
    o.begin + |Encoded(o.v)|
  }

  /** The rest of the container, from item `n` on, is at `after`. */
  ghost predicate TextOk(buf: string, o: Open, after: int)
    requires OpenOk(o)
  {
    && AtText(buf, o.begin, Encoded(o.v))
    && AtText(buf, after, EncodedFrom(o.v, o.n) + "e") && after + |EncodedFrom(o.v, o.n)| + 1 == End(o)
  }

  /** The array of an entry, if it has one, is allocated, not part of a finished value, and blank beyond the items. */
  ghost predicate ArrayOk(arrays: Arrays, e: Entry, own: set<int>) {
    && 0 <= e.size <= e.capacity
    && (e.capacity > 0 ==> e.capacity >= 2 && e.start in arrays && e.start !in own && |arrays[e.start]| == e.capacity)
    && (e.capacity > 0 ==> forall i :: e.size <= i < e.capacity ==> arrays[e.start][i].entry.kind == NoneT)
  }

  /** If `busy`, the last item is still being parsed, at `next`; its value starts at `nextBegin`. */
  ghost predicate EntryOk(arrays: Arrays, buf: string, e: Entry, o: Open, own: set<int>, busy: bool, next: Ptr,
                          nextBegin: int)
    requires OpenOk(o)
  {
    && e.kind == KindOf(o.v) && e.size == o.n && e.begin == o.begin && ArrayOk(arrays, e, own)
    && (busy ==>
          && 0 < o.n && next == Elem(e.start, o.n - 1)
          && NameOk(buf, arrays[e.start][o.n - 1].name, o.v, o.n - 1, nextBegin))
    && forall i :: 0 <= i < (if busy then o.n - 1 else o.n) ==> ItemOk(arrays, buf, arrays[e.start][i], o.v, i, own)
  }

  /** What does not matter to an open container: the last cell's entry, other arrays, more finished values. */
  ghost predicate EntryKept(a: Arrays, b: Arrays, e: Entry, own: set<int>, own': set<int>) {
    && own <= own' && Intact(a, b, own)
    && (e.capacity > 0 ==>
          && e.start in a && e.start in b && e.start !in own' && |b[e.start]| == |a[e.start]|
          && 0 < e.size <= |a[e.start]| && b[e.start][e.size - 1].name == a[e.start][e.size - 1].name
          && forall i :: 0 <= i < |a[e.start]| && i != e.size - 1 ==> b[e.start][i] == a[e.start][i])
  }

  lemma EntryStaysOk(a: Arrays, b: Arrays, buf: string, e: Entry, o: Open, own: set<int>, own': set<int>, next: Ptr,
                     nextBegin: int)
    requires OpenOk(o) && EntryOk(a, buf, e, o, own, true, next, nextBegin) && EntryKept(a, b, e, own, own')
    ensures EntryOk(b, buf, e, o, own', true, next, nextBegin)
  {
    hide ItemOk, Proper;
    forall i | 0 <= i < o.n - 1
      ensures ItemOk(b, buf, b[e.start][i], o.v, i, own')
    {
      ItemKept(a, b, buf, a[e.start][i], o.v, i, own, own');
    }
  }

  // ----- the stack -----

  /** The pointers on the stack and, for every container being parsed, how far it is. */
  datatype Stack = Stack(ptrs: seq<Ptr>, opens: seq<Open>)

  ghost predicate OpensOk(st: Stack) {
    && 0 < |st.ptrs| && |st.opens| <= |st.ptrs| && st.ptrs[0] == Root
    && (forall k :: 0 <= k < |st.opens| ==> OpenOk(st.opens[k]))
    && forall k :: 0 < k < |st.opens| ==> Inside(st.opens[k - 1], st.opens[k])
  }

  /** `c` is the item of `o` that is being parsed. */
  ghost predicate Inside(o: Open, c: Open) {
    OpenOk(o) && 0 < o.n && c.v == o.v.vs[o.n - 1]
  }

  /** Where the text behind the item being parsed starts. */
  ghost function After(st: Stack, k: nat, after: int): int
    requires OpensOk(st) && k < |st.opens|
  {
    var j := k + 1;
    if j == |st.opens| then after else End(st.opens[j])
  }

  ghost function NextBegin(st: Stack, k: nat, begin: int): int
    requires k < |st.opens|
  {
    var j := k + 1;
    if j == |st.opens| then begin else st.opens[j].begin
  }

  ghost predicate LevelOk(m: Memory, buf: string, own: set<int>, st: Stack, busy: bool, begin: int, k: nat)
    requires OpensOk(st) && k < |st.opens|
  {
    && Live(m, st.ptrs[k])
    && var j := k + 1;
       var inner := j < |st.opens| || busy;
       (inner ==> j < |st.ptrs|) &&
       EntryOk(m.arrays, buf, Get(m, st.ptrs[k]), st.opens[k], own, inner,
               if j < |st.ptrs| then st.ptrs[j] else Root, NextBegin(st, k, begin))
  }

  ghost predicate LevelsOk(m: Memory, buf: string, own: set<int>, st: Stack, busy: bool, begin: int) {
    && OpensOk(st)
    && forall k :: 0 <= k < |st.opens| ==> LevelOk(m, buf, own, st, busy, begin, k)
  }

  ghost predicate TextsOk(buf: string, st: Stack, after: int) {
    && OpensOk(st)
    && forall k :: 0 <= k < |st.opens| ==> TextOk(buf, st.opens[k], After(st, k, after))
  }

  /** Different containers have different arrays. */
  ghost predicate Apart(m: Memory, st: Stack) {
    && |st.opens| <= |st.ptrs|
    && (forall k :: 0 <= k < |st.opens| ==> Live(m, st.ptrs[k]))
    && forall j, k :: 0 <= j < k < |st.opens| && Get(m, st.ptrs[k]).capacity > 0 ==>
                        Get(m, st.ptrs[j]).start != Get(m, st.ptrs[k]).start
  }

  /** The parser's invariant. If `busy`, the topmost pointer is that of an item whose value starts at `begin`. */
  ghost predicate Parsing(m: Memory, buf: string, own: set<int>, st: Stack, busy: bool, begin: int, after: int) {
    LevelsOk(m, buf, own, st, busy, begin) && TextsOk(buf, st, after) && Apart(m, st)
  }

  // ----- taking the topmost container apart from those around it -----

  ghost function Around(st: Stack): Stack
    requires |st.opens| > 0
  {
    Stack(st.ptrs, st.opens[..|st.opens| - 1])
  }

  ghost function TopOpen(st: Stack): Open
    requires |st.opens| > 0
  {
    st.opens[|st.opens| - 1]
  }

  ghost function TopPtr(st: Stack): Ptr
    requires 0 < |st.opens| <= |st.ptrs|
  {
    st.ptrs[|st.opens| - 1]
  }

  /** The array of `e` is not that of any container on the stack. */
  ghost predicate ApartFrom(m: Memory, st: Stack, e: Entry) {
    && |st.opens| <= |st.ptrs|
    && (forall k :: 0 <= k < |st.opens| ==> Live(m, st.ptrs[k]))
    && (e.capacity > 0 ==> forall k :: 0 <= k < |st.opens| ==> Get(m, st.ptrs[k]).start != e.start)
  }

  /** The invariant for the containers around the topmost one, and what it says about that one. */
  ghost predicate Split(m: Memory, buf: string, own: set<int>, st: Stack, busy: bool, begin: int, after: int) {
    && |st.opens| > 0 && OpensOk(st)
    && var o, p, t := TopOpen(st), TopPtr(st), |st.opens|;
       && Parsing(m, buf, own, Around(st), true, o.begin, End(o))
       && Live(m, p) && ApartFrom(m, Around(st), Get(m, p)) && TextOk(buf, o, after)
       && (busy ==> t < |st.ptrs|)
       && EntryOk(m.arrays, buf, Get(m, p), o, own, busy, if t < |st.ptrs| then st.ptrs[t] else Root, begin)
  }

  lemma TakeApart(m: Memory, buf: string, own: set<int>, st: Stack, busy: bool, begin: int, after: int)
    requires Parsing(m, buf, own, st, busy, begin, after) && |st.opens| > 0
    ensures Split(m, buf, own, st, busy, begin, after)
  {
    hide EntryOk, TextOk, TextsOk, LevelsOk, Proper, End;
    OpensOfTexts(buf, st, after);
    LevelsApart(m, buf, own, st, busy, begin);
    TextsApart(buf, st, after);
  }

  lemma OpensOfTexts(buf: string, st: Stack, after: int)
    requires TextsOk(buf, st, after)
    ensures OpensOk(st) && forall k :: 0 <= k < |st.opens| ==> OpenOk(st.opens[k])
  {
  }

  lemma LevelsApart(m: Memory, buf: string, own: set<int>, st: Stack, busy: bool, begin: int)
    requires LevelsOk(m, buf, own, st, busy, begin) && |st.opens| > 0
    ensures LevelsOk(m, buf, own, Around(st), true, TopOpen(st).begin) &&
            LevelOk(m, buf, own, st, busy, begin, |st.opens| - 1)
  {
    hide EntryOk, Proper;
    var low, t := Around(st), |st.opens| - 1;
    forall k | 0 <= k < t
      ensures LevelOk(m, buf, own, low, true, TopOpen(st).begin, k)
    {
      assert LevelOk(m, buf, own, st, busy, begin, k);
    }
  }

  lemma TextsApart(buf: string, st: Stack, after: int)
    requires TextsOk(buf, st, after) && |st.opens| > 0
    ensures TextsOk(buf, Around(st), End(TopOpen(st))) && TextOk(buf, TopOpen(st), after)
  {
    hide TextOk, Proper, End;
    var low, t := Around(st), |st.opens| - 1;
    forall k | 0 <= k < t
      ensures TextOk(buf, low.opens[k], After(low, k, End(TopOpen(st))))
    {
      assert TextOk(buf, st.opens[k], After(st, k, after));
    }
    assert TextOk(buf, st.opens[t], After(st, t, after));
  }

  lemma PutTogether(m: Memory, buf: string, own: set<int>, st: Stack, busy: bool, begin: int, after: int)
    requires Split(m, buf, own, st, busy, begin, after)
    ensures Parsing(m, buf, own, st, busy, begin, after)
  {
    hide EntryOk, TextOk, TextsOk, LevelsOk, Proper, End;
    LevelsTogether(m, buf, own, st, busy, begin);
    TextsTogether(buf, st, after);
  }

  lemma LevelsTogether(m: Memory, buf: string, own: set<int>, st: Stack, busy: bool, begin: int)
    requires |st.opens| > 0 && OpensOk(st) && LevelsOk(m, buf, own, Around(st), true, TopOpen(st).begin)
    requires LevelOk(m, buf, own, st, busy, begin, |st.opens| - 1)
    ensures LevelsOk(m, buf, own, st, busy, begin)
  {
    hide EntryOk, Proper;
    var low, t := Around(st), |st.opens| - 1;
    forall k | 0 <= k < t
      ensures LevelOk(m, buf, own, st, busy, begin, k)
    {
      assert LevelOk(m, buf, own, low, true, TopOpen(st).begin, k);
    }
  }

  lemma TextsTogether(buf: string, st: Stack, after: int)
    requires |st.opens| > 0 && OpensOk(st) && TextsOk(buf, Around(st), End(TopOpen(st))) &&
             TextOk(buf, TopOpen(st), after)
    ensures TextsOk(buf, st, after)
  {
    hide TextOk, Proper, End;
    var low, t := Around(st), |st.opens| - 1;
    forall k | 0 <= k < |st.opens|
      ensures TextOk(buf, st.opens[k], After(st, k, after))
    {
      assert k < t ==> TextOk(buf, low.opens[k], After(low, k, End(TopOpen(st))));
    }
  }

  /** From `m` to `m'` only the entry at `c` and arrays of no concern to the containers around it have changed. */
  ghost predicate Elsewhere(m: Memory, m': Memory, st: Stack, own: set<int>, own': set<int>) {
    && own <= own' && Intact(m.arrays, m'.arrays, own)
    && |st.opens| < |st.ptrs|
    && (forall k :: 0 <= k < |st.opens| ==>
        Live(m, st.ptrs[k]) && ArrayKept(m, m', st.ptrs[|st.opens|], Get(m, st.ptrs[k]).start, own'))
    && (|st.opens| > 0 ==> m'.root == m.root)
  }

  ghost predicate ArrayKept(m: Memory, m': Memory, c: Ptr, a: int, own': set<int>) {
    && a in m.arrays && a in m'.arrays && a !in own' && |m'.arrays[a]| == |m.arrays[a]|
    && forall i :: 0 <= i < |m.arrays[a]| ==>
                     && m'.arrays[a][i].name == m.arrays[a][i].name
                     && (c != Elem(a, i) ==> m'.arrays[a][i] == m.arrays[a][i])
  }

  /** The containers around a change do not notice it. */
  lemma AroundKept(m: Memory, m': Memory, buf: string, own: set<int>, own': set<int>, st: Stack, begin: int, after: int)
    requires Parsing(m, buf, own, st, true, begin, after) && Elsewhere(m, m', st, own, own')
    ensures Parsing(m', buf, own', st, true, begin, after)
    ensures forall k :: 0 <= k < |st.opens| ==> Live(m', st.ptrs[k]) && Get(m', st.ptrs[k]) == Get(m, st.ptrs[k])
  {
    hide EntryOk, TextsOk, TextOk, Proper, Intact, OpenOk;
    forall k | 0 <= k < |st.opens|
      ensures Live(m', st.ptrs[k]) && Get(m', st.ptrs[k]) == Get(m, st.ptrs[k])
      ensures LevelOk(m', buf, own', st, true, begin, k)
    {
      SamePointer(m, m', buf, own, own', st, begin, k);
      LevelKept(m, m', buf, own, own', st, begin, k);
    }
  }

  /** Where a pointer on the stack leads. */
  lemma PointerAt(m: Memory, buf: string, own: set<int>, st: Stack, begin: int, k: nat)
    requires LevelsOk(m, buf, own, st, true, begin) && 0 < k <= |st.opens| && k < |st.ptrs|
    ensures var j := k - 1;
            && Live(m, st.ptrs[j]) && OpenOk(st.opens[j]) && 0 < st.opens[j].n
            && var e := Get(m, st.ptrs[j]);
               st.ptrs[k] == Elem(e.start, st.opens[j].n - 1) && e.size == st.opens[j].n && ArrayOk(m.arrays, e, own)
  {
    hide ItemOk, Proper, NameOk;
    var j := k - 1;
    assert LevelOk(m, buf, own, st, true, begin, j);
  }

  lemma SamePointer(m: Memory, m': Memory, buf: string, own: set<int>, own': set<int>, st: Stack, begin: int, k: nat)
    requires LevelsOk(m, buf, own, st, true, begin) && Apart(m, st) && Elsewhere(m, m', st, own, own') && k < |st.opens|
    ensures Live(m', st.ptrs[k]) && Get(m', st.ptrs[k]) == Get(m, st.ptrs[k])
  {
    hide LevelsOk, Intact, Proper;
    OpensOfLevels(m, buf, own, st, begin);
    if k > 0 {
      PointerAt(m, buf, own, st, begin, k);
      PointerAt(m, buf, own, st, begin, |st.opens|);
      var j, t := k - 1, |st.opens| - 1;
      assert Get(m, st.ptrs[j]).start != Get(m, st.ptrs[t]).start;
      assert ArrayKept(m, m', st.ptrs[|st.opens|], Get(m, st.ptrs[j]).start, own');
    }
  }

  lemma OpensOfLevels(m: Memory, buf: string, own: set<int>, st: Stack, begin: int)
    requires LevelsOk(m, buf, own, st, true, begin)
    ensures OpensOk(st)
  {
  }

  lemma LevelKept(m: Memory, m': Memory, buf: string, own: set<int>, own': set<int>, st: Stack, begin: int, k: nat)
    requires LevelsOk(m, buf, own, st, true, begin) && Apart(m, st) && Elsewhere(m, m', st, own, own') && k < |st.opens|
    requires Live(m', st.ptrs[k]) && Get(m', st.ptrs[k]) == Get(m, st.ptrs[k])
    ensures LevelOk(m', buf, own', st, true, begin, k)
  {
    hide EntryOk, Proper, Intact, OpenOk, NextBegin;
    assert LevelOk(m, buf, own, st, true, begin, k);
    var j := k + 1;
    var e := Get(m, st.ptrs[k]);
    PointerAt(m, buf, own, st, begin, j);
    PointerAt(m, buf, own, st, begin, |st.opens|);
    assert ArrayKept(m, m', st.ptrs[|st.opens|], e.start, own');
    assert EntryKept(m.arrays, m'.arrays, e, own, own');
    EntryStaysOk(m.arrays, m'.arrays, buf, e, st.opens[k], own, own', st.ptrs[j], NextBegin(st, k, begin));
  }

  /** Only the pointers up to the item being parsed matter. */
  lemma SamePtrs(m: Memory, buf: string, own: set<int>, st: Stack, ptrs: seq<Ptr>, begin: int, after: int)
    requires Parsing(m, buf, own, st, true, begin, after) && |st.opens| < |st.ptrs| && |st.opens| < |ptrs|
    requires forall k :: 0 <= k <= |st.opens| ==> ptrs[k] == st.ptrs[k]
    ensures Parsing(m, buf, own, Stack(ptrs, st.opens), true, begin, after)
  {
    hide EntryOk, TextOk, Proper, End;
    var st' := Stack(ptrs, st.opens);
    forall k | 0 <= k < |st.opens|
      ensures LevelOk(m, buf, own, st', true, begin, k) && TextOk(buf, st'.opens[k], After(st', k, after))
    {
      assert LevelOk(m, buf, own, st, true, begin, k);
      assert TextOk(buf, st.opens[k], After(st, k, after));
    }
  }

  /** Changing the entry that is being parsed. */
  lemma PutElsewhere(m: Memory, buf: string, own: set<int>, own': set<int>, st: Stack, begin: int, after: int, e: Entry)
    requires Parsing(m, buf, own, st, true, begin, after) && |st.opens| < |st.ptrs| && Live(m, st.ptrs[|st.opens|]) &&
             own <= own'
    requires forall k :: 0 <= k < |st.opens| ==> Live(m, st.ptrs[k]) && Get(m, st.ptrs[k]).start !in own'
    ensures Elsewhere(m, Put(m, st.ptrs[|st.opens|], e), st, own, own')
    ensures st.opens == [] ==> st.ptrs[|st.opens|] == Root
    ensures Intact(m.arrays, Put(m, st.ptrs[|st.opens|], e).arrays, own)
  {
    hide LevelsOk, TextsOk, Proper;
    OpensOfTexts(buf, st, after);
    var c := st.ptrs[|st.opens|];
    if |st.opens| > 0 { PointerAt(m, buf, own, st, begin, |st.opens|); }
    forall k | 0 <= k < |st.opens|
      ensures ArrayKept(m, Put(m, c, e), c, Get(m, st.ptrs[k]).start, own')
    {
      PointerAt(m, buf, own, st, begin, k + 1);
    }
  }

  /** The item being parsed is finished. */
  lemma FinishItem(m: Memory, buf: string, own: set<int>, st: Stack, begin: int, after: int)
    requires Parsing(m, buf, own, st, true, begin, after) && 0 < |st.opens| < |st.ptrs|
    requires var o, c := TopOpen(st), st.ptrs[|st.opens|];
             && OpenOk(o) && 0 < o.n && Live(m, c) && Get(m, c).begin == begin &&
                 Rep(m.arrays, buf, Get(m, c), o.v.vs[o.n - 1], own)
    ensures Parsing(m, buf, own, Stack(st.ptrs[..|st.opens|], st.opens), false, 0, after)
  {
    hide Parsing, TextOk, Proper, ItemOk, Rep, NameOk, ApartFrom;
    var st' := Stack(st.ptrs[..|st.opens|], st.opens);
    var o, p := TopOpen(st), TopPtr(st);
    TakeApart(m, buf, own, st, true, begin, after);
    SamePtrs(m, buf, own, Around(st), st'.ptrs, o.begin, End(o));
    SameApart(m, Around(st), st'.ptrs, Get(m, p));
    LastItem(m, buf, own, o, p, st.ptrs[|st.opens|], begin);
    PutTogether(m, buf, own, st', false, 0, after);
  }

  lemma SameApart(m: Memory, st: Stack, ptrs: seq<Ptr>, e: Entry)
    requires ApartFrom(m, st, e) && |st.opens| <= |ptrs| && forall k :: 0 <= k < |st.opens| ==> ptrs[k] == st.ptrs[k]
    ensures ApartFrom(m, Stack(ptrs, st.opens), e)
  {
  }

  lemma LastItem(m: Memory, buf: string, own: set<int>, o: Open, p: Ptr, c: Ptr, begin: int)
    requires OpenOk(o) && 0 < o.n && Live(m, p) && Live(m, c) &&
             EntryOk(m.arrays, buf, Get(m, p), o, own, true, c, begin)
    requires Get(m, c).begin == begin && Rep(m.arrays, buf, Get(m, c), o.v.vs[o.n - 1], own)
    ensures EntryOk(m.arrays, buf, Get(m, p), o, own, false, Root, 0)
  {
    hide Rep, NameOk, Proper;
    var e := Get(m, p);
    assert m.arrays[e.start][o.n - 1].entry == Get(m, c);
    assert ItemOk(m.arrays, buf, m.arrays[e.start][o.n - 1], o.v, o.n - 1, own);
  }

  /** A container that starts at `begin` is opened in place of the blank entry on top of the stack. */
  lemma OpenItem(m: Memory, buf: string, own: set<int>, st: Stack, v: Value, begin: int, e: Entry)
    requires Proper(v) && v.Container() && AtText(buf, begin, Encoded(v))
    requires Parsing(m, buf, own, st, true, begin, begin + |Encoded(v)|) && |st.ptrs| == |st.opens| + 1
    requires |st.opens| > 0 ==> Inside(TopOpen(st), Open(v, 0, begin))
    requires Live(m, st.ptrs[|st.opens|]) && e.kind == KindOf(v) && e.size == e.capacity == 0 && e.begin == begin
    ensures Parsing(Put(m, st.ptrs[|st.opens|], e), buf, own, Stack(st.ptrs, st.opens + [Open(v, 0, begin)]), false,
                    0, begin + 1)
  {
    hide Proper, Encoded, EncodedFrom, TextsOk, LevelsOk, Intact, TextOk, Elsewhere;
    var c, o := st.ptrs[|st.opens|], Open(v, 0, begin);
    var m', st' := Put(m, c, e), Stack(st.ptrs, st.opens + [o]);
    OpensOfTexts(buf, st, begin + |Encoded(v)|);
    NotOwn(m, buf, own, st, begin, begin + |Encoded(v)|);
    PutElsewhere(m, buf, own, own, st, begin, begin + |Encoded(v)|, e);
    AroundKept(m, m', buf, own, own, st, begin, begin + |Encoded(v)|);
    assert Around(st') == st;
    OpenText(buf, v, begin);
    PutTogether(m', buf, own, st', false, 0, begin + 1);
  }

  lemma NotOwn(m: Memory, buf: string, own: set<int>, st: Stack, begin: int, after: int)
    requires Parsing(m, buf, own, st, true, begin, after) && |st.opens| < |st.ptrs|
    ensures forall k :: 0 <= k < |st.opens| ==>
            Live(m, st.ptrs[k]) && Get(m, st.ptrs[k]).start !in own && Get(m, st.ptrs[k]).start in m.arrays
  {
    hide TextsOk, LevelsOk, Proper;
    forall k | 0 <= k < |st.opens|
      ensures Live(m, st.ptrs[k]) && Get(m, st.ptrs[k]).start !in own && Get(m, st.ptrs[k]).start in m.arrays
    {
      PointerAt(m, buf, own, st, begin, k + 1);
    }
  }

  lemma OpenText(buf: string, v: Value, begin: int)
    requires Proper(v) && v.Container() && AtText(buf, begin, Encoded(v))
    ensures TextOk(buf, Open(v, 0, begin), begin + 1)
  {
    hide AtText;
    var first := if v.List? then "l" else "d";
    assert Encoded(v) == first + (EncodedFrom(v, 0) + "e");
    AtTextSplit(buf, begin, first, EncodedFrom(v, 0) + "e");
  }

  /** The arrays of a finished container. */
  ghost function Owning(own: set<int>, e: Entry): set<int> {
    if e.capacity > 0 then own + {e.start} else own
  }

  /** The topmost container has no items left and is closed: it is then a finished item of the one around it. */
  lemma CloseTop(m: Memory, buf: string, own: set<int>, st: Stack, after: int)
    requires Parsing(m, buf, own, st, false, 0, after) && 0 < |st.opens| == |st.ptrs|
    requires OpenOk(TopOpen(st)) && TopOpen(st).n == |TopOpen(st).v.vs| && Live(m, TopPtr(st))
    ensures var o, p, e := TopOpen(st), TopPtr(st), Get(m, TopPtr(st)).(end := after + 1);
            var m', own' := Put(m, p, e), Owning(own, e);
            && after + 1 == End(o) && e.begin == o.begin
            && Rep(m'.arrays, buf, e, o.v, own')
            && Parsing(m', buf, own', Around(st), true, o.begin, End(o))
  {
    hide Proper, TextsOk, LevelsOk, Intact, Parsing, EntryOk, TextOk;
    var o, p, e := TopOpen(st), TopPtr(st), Get(m, TopPtr(st)).(end := after + 1);
    var m', own' := Put(m, p, e), Owning(own, e);
    TakeApart(m, buf, own, st, false, 0, after);
    ClosedText(buf, o, after);
    StillNotOwn(m, buf, own, st, after);
    PutElsewhere(m, buf, own, own', Around(st), o.begin, End(o), e);
    AroundKept(m, m', buf, own, own', Around(st), o.begin, End(o));
    OwnArrayIsElsewhere(m, buf, own, st, after, e);
    ClosedRep(m, m', buf, own, o, p, e, after);
  }

  lemma ClosedText(buf: string, o: Open, after: int)
    requires OpenOk(o) && o.n == |o.v.vs| && TextOk(buf, o, after)
    ensures after + 1 == End(o)
  {
  }

  lemma StillNotOwn(m: Memory, buf: string, own: set<int>, st: Stack, after: int)
    requires Split(m, buf, own, st, false, 0, after)
    ensures var low, own' := Around(st), Owning(own, Get(m, TopPtr(st)));
            forall k :: 0 <= k < |low.opens| ==> Live(m, low.ptrs[k]) && Get(m, low.ptrs[k]).start !in own'
  {
    hide Parsing, EntryOk, TextOk, Proper;
    var o := TopOpen(st);
    NotOwn(m, buf, own, Around(st), o.begin, End(o));
  }

  /** A container's own array is not the one its entry lies in. */
  lemma OwnArrayIsElsewhere(m: Memory, buf: string, own: set<int>, st: Stack, after: int, e: Entry)
    requires Split(m, buf, own, st, false, 0, after) && e == Get(m, TopPtr(st)).(end := e.end)
    ensures e.capacity > 0 && TopPtr(st).Elem? ==> TopPtr(st).arr != e.start
    ensures e.capacity > 0 ==> e.start in m.arrays && Put(m, TopPtr(st), e).arrays[e.start] == m.arrays[e.start]
  {
    hide TextOk, Proper, ItemOk, LevelsOk, TextsOk;
    var low := Around(st);
    var t := |low.opens|;
    OpensOfTexts(buf, low, End(TopOpen(st)));
    if t > 0 {
      PointerAt(m, buf, own, low, TopOpen(st).begin, t);
    }
  }

  lemma ClosedRep(m: Memory, m': Memory, buf: string, own: set<int>, o: Open, p: Ptr, e: Entry, after: int)
    requires OpenOk(o) && o.n == |o.v.vs| && TextOk(buf, o, after) && Live(m, p) && e == Get(m, p).(end := after + 1)
    requires EntryOk(m.arrays, buf, Get(m, p), o, own, false, Root, 0) && Intact(m.arrays, m'.arrays, own)
    requires e.capacity > 0 ==> e.start in m'.arrays && e.start in m.arrays && m'.arrays[e.start] == m.arrays[e.start]
    ensures Rep(m'.arrays, buf, e, o.v, Owning(own, e))
  {
    hide Proper, Encoded, EncodedFrom, ItemOk, Intact;
    ClosedText(buf, o, after);
    forall i | 0 <= i < |o.v.vs|
      ensures ItemOk(m'.arrays, buf, m'.arrays[e.start][i], o.v, i, Owning(own, e))
    {
      ItemKept(m.arrays, m'.arrays, buf, m.arrays[e.start][i], o.v, i, own, Owning(own, e));
    }
  }

  // ----- beginning an item -----

  /** The key and the value of the next item lie ahead. */
  lemma NextItem(buf: string, o: Open, after: int)
    requires OpenOk(o) && o.n < |o.v.vs| && TextOk(buf, o, after)
    ensures AtText(buf, after, Key(o.v, o.n)) && AtText(buf, after + |Key(o.v, o.n)|, Encoded(o.v.vs[o.n]))
    ensures var begin := after + |Key(o.v, o.n)|;
            TextOk(buf, Open(o.v, o.n + 1, o.begin), begin + |Encoded(o.v.vs[o.n])|)
    ensures after + |Key(o.v, o.n)| + |Encoded(o.v.vs[o.n])| < |buf|
  {
    hide AtText, Key, Encoded;
    var key, item, rest := Key(o.v, o.n), Encoded(o.v.vs[o.n]), EncodedFrom(o.v, o.n + 1);
    assert EncodedFrom(o.v, o.n) + "e" == key + (item + (rest + "e"));
    AtTextSplit(buf, after, key, item + (rest + "e"));
    AtTextSplit(buf, after + |key|, item, rest + "e");
    AtTextInside(buf, after + |key| + |item|, rest + "e");
  }

  lemma AtTextInside(buf: string, i: int, s: string)
    requires AtText(buf, i, s)
    ensures 0 <= i && i + |s| <= |buf|
  {
  }

  /** What appending an item to the entry at `p` does: the array may have moved. */
  ghost predicate AppendedTo(m: Memory, p: Ptr, name: int, m': Memory, c: Ptr) {
    && Live(m, p) && Live(m', p)
    && var e, e' := Get(m, p), Get(m', p);
       && 0 <= e.capacity && 0 <= e.size < e'.capacity && 2 <= e'.capacity &&
           e' == e.(start := e'.start, size := e.size + 1, capacity := e'.capacity)
       && e'.start in m'.arrays && |m'.arrays[e'.start]| == e'.capacity && c == Elem(e'.start, e.size)
       && m'.arrays[e'.start][e.size].name == name
       && (forall i :: e.size <= i < e'.capacity ==> m'.arrays[e'.start][i].entry.kind == NoneT)
       && (e.capacity > 0 ==> e.start in m.arrays && e.size <= |m.arrays[e.start]|)
       && (e.capacity == 0 ==> e.size == 0)
       && (forall i :: 0 <= i < e.size ==> m'.arrays[e'.start][i] == m.arrays[e.start][i])
       && ((e.capacity > 0 && e'.start == e.start) || e'.start !in m.arrays)
       && (forall a :: a in m.arrays && !(e.capacity > 0 && a == e.start) ==>
           a in m'.arrays && SameBut(m.arrays[a], m'.arrays[a], a, p))
       && (!p.Root? ==> m'.root == m.root)
  }

  ghost predicate SameBut(s: seq<Cell>, t: seq<Cell>, a: int, p: Ptr) {
    |t| == |s| && forall i :: 0 <= i < |s| ==> t[i].name == s[i].name && (p != Elem(a, i) ==> t[i] == s[i])
  }

  /** The next item of the topmost container has been appended; its value starts at `begin`. */
  lemma BeginItem(m: Memory, buf: string, own: set<int>, st: Stack, after: int, name: int, m': Memory, c: Ptr)
    requires Parsing(m, buf, own, st, false, 0, after) && 0 < |st.opens| == |st.ptrs| && own <= m.arrays.Keys
    requires var o := TopOpen(st); OpenOk(o) && o.n < |o.v.vs| && NameOk(buf, name, o.v, o.n, after + |Key(o.v, o.n)|)
    requires AppendedTo(m, TopPtr(st), name, m', c)
    ensures var o := TopOpen(st);
            var begin := after + |Key(o.v, o.n)|;
            && Parsing(m', buf, own, Stack(st.ptrs + [c], Around(st).opens + [Open(o.v, o.n + 1, o.begin)]), true,
                       begin,
                       begin + |Encoded(o.v.vs[o.n])|)
            && Live(m', c) && Get(m', c).kind == NoneT && own <= m'.arrays.Keys
  {
    hide Proper, Encoded, EncodedFrom, Key, NameOk, TextsOk, LevelsOk, TextOk, Parsing, EntryOk, Elsewhere, AppendedTo,
         Intact;
    var o, low := TopOpen(st), Around(st);
    var o' := Open(o.v, o.n + 1, o.begin);
    var st' := Stack(st.ptrs + [c], low.opens + [o']);
    var begin := after + |Key(o.v, o.n)|;
    TakeApart(m, buf, own, st, false, 0, after);
    NextItem(buf, o, after);
    AppendElsewhere(m, buf, own, st, after, name, m', c);
    AroundKept(m, m', buf, own, own, low, o.begin, End(o));
    AppendedOk(m, buf, own, st, after, name, m', c);
    SamePtrs(m', buf, own, low, st'.ptrs, o.begin, End(o));
    assert Around(st') == Stack(st'.ptrs, low.opens);
    NotOwn(m, buf, own, low, o.begin, End(o));
    AppendedApart(m, st, m', name, c);
    ProperItem(o.v, o.n);
    assert OpensOk(st') by { OpensGrow(st, o', c); }
    assert TopOpen(st') == o' && TopPtr(st') == TopPtr(st) && st'.ptrs[|st'.opens|] == c;
    assert End(o') == End(o);
    PutTogether(m', buf, own, st', true, begin, begin + |Encoded(o.v.vs[o.n])|);
  }

  lemma ProperItem(v: Value, i: nat)
    requires Proper(v) && v.Container() && i < |v.vs|
    ensures Proper(v.vs[i])
  {
  }

  lemma OpensGrow(st: Stack, o: Open, c: Ptr)
    requires OpensOk(st) && 0 < |st.opens| == |st.ptrs| && OpenOk(o) && o.v == TopOpen(st).v
    ensures OpensOk(Stack(st.ptrs + [c], Around(st).opens + [o]))
  {
    hide Proper;
    var st' := Stack(st.ptrs + [c], Around(st).opens + [o]);
    forall k | 0 < k < |st'.opens|
      ensures Inside(st'.opens[k - 1], st'.opens[k])
    {
      assert Inside(st.opens[k - 1], st.opens[k]);
    }
  }

  lemma AppendElsewhere(m: Memory, buf: string, own: set<int>, st: Stack, after: int, name: int, m': Memory, c: Ptr)
    requires Split(m, buf, own, st, false, 0, after) && |st.ptrs| == |st.opens| &&
             AppendedTo(m, TopPtr(st), name, m', c)
    requires own <= m.arrays.Keys
    ensures Elsewhere(m, m', Around(st), own, own) && own <= m'.arrays.Keys && Intact(m.arrays, m'.arrays, own)
  {
    hide TextOk, Proper, ItemOk, LevelsOk, TextsOk, NameOk;
    var low, p := Around(st), TopPtr(st);
    NotOwn(m, buf, own, low, TopOpen(st).begin, End(TopOpen(st)));
    OpensOfTexts(buf, low, End(TopOpen(st)));
    var t := |low.opens|;
    if t > 0 { PointerAt(m, buf, own, low, TopOpen(st).begin, t); }
    forall k | 0 <= k < t
      ensures ArrayKept(m, m', p, Get(m, low.ptrs[k]).start, own)
    {
      PointerAt(m, buf, own, low, TopOpen(st).begin, k + 1);
      var a := Get(m, low.ptrs[k]).start;
      assert SameBut(m.arrays[a], m'.arrays[a], a, p);
    }
    forall x | x in own
      ensures x in m'.arrays && m'.arrays[x] == m.arrays[x]
    {
      assert SameBut(m.arrays[x], m'.arrays[x], x, p);
    }
  }

  lemma AppendedOk(m: Memory, buf: string, own: set<int>, st: Stack, after: int, name: int, m': Memory, c: Ptr)
    requires Split(m, buf, own, st, false, 0, after) && AppendedTo(m, TopPtr(st), name, m', c) && own <= m.arrays.Keys
    requires Intact(m.arrays, m'.arrays, own)
    requires var o := TopOpen(st); o.n < |o.v.vs| && NameOk(buf, name, o.v, o.n, after + |Key(o.v, o.n)|)
    ensures var o := TopOpen(st);
            && Live(m', TopPtr(st)) && Live(m', c) && Get(m', c).kind == NoneT
            && EntryOk(m'.arrays, buf, Get(m', TopPtr(st)), Open(o.v, o.n + 1, o.begin), own, true, c,
                       after + |Key(o.v, o.n)|)
  {
    hide TextOk, Proper, ItemOk, Parsing, NameOk, Key, Intact, ApartFrom;
    var o, e, e' := TopOpen(st), Get(m, TopPtr(st)), Get(m', TopPtr(st));
    forall i | 0 <= i < o.n
      ensures ItemOk(m'.arrays, buf, m'.arrays[e'.start][i], o.v, i, own)
    {
      ItemKept(m.arrays, m'.arrays, buf, m.arrays[e.start][i], o.v, i, own, own);
    }
  }

  lemma AppendedApart(m: Memory, st: Stack, m': Memory, name: int, c: Ptr)
    requires |st.opens| > 0 && |st.opens| == |st.ptrs| && AppendedTo(m, TopPtr(st), name, m', c)
    requires ApartFrom(m, Around(st), Get(m, TopPtr(st)))
    requires forall k :: 0 <= k < |st.opens| - 1 ==>
                           Live(m', st.ptrs[k]) && Get(m', st.ptrs[k]) == Get(m, st.ptrs[k]) &&
                               Get(m, st.ptrs[k]).start in m.arrays
    ensures ApartFrom(m', Stack(st.ptrs + [c], Around(st).opens), Get(m', TopPtr(st)))
  {
  }
}
