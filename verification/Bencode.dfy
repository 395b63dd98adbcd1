/** Bencoded values, as BEP 3 defines them. */
module Bencode {
  import opened Arith
  import opened Decimals

  /** Keys and values of a dictionary lie side by side; their order is kept as given. */
  datatype Value = Int(n: int) | Str(s: string) | List(vs: seq<Value>) | Dict(ks: seq<string>, vs: seq<Value>) {
    predicate Container() {
      List? || Dict?
    }
  }

  ghost predicate Proper(v: Value) {
    match v
    case Int(n) => -0x8000_0000_0000_0000 < n < 0x8000_0000_0000_0000
    case Str(_) => true
    case List(vs) => forall i :: 0 <= i < |vs| ==> Proper(vs[i])
    case Dict(ks, vs) => |ks| == |vs| && forall i :: 0 <= i < |vs| ==> Proper(vs[i])
  }

  function Signed(n: int): string {
    if n < 0 then "-" + Decimal(-n) else Decimal(n)
  }

  function EncodedString(s: string): string {
    Decimal(|s|) + ":" + s
  }

  ghost function Encoded(v: Value): (r: string)
    requires Proper(v)
    ensures |r| >= 2
    decreases v, if v.Container() then |v.vs| + 1 else 0
  {
    match v
    case Int(n) => "i" + Signed(n) + "e"
    case Str(s) => EncodedString(s)
    case List(vs) => "l" + (EncodedFrom(v, 0) + "e")
    case Dict(_, vs) => "d" + (EncodedFrom(v, 0) + "e")
  }

  /** The items of a container from number `i` on. */
  ghost function EncodedFrom(v: Value, i: nat): string
    requires Proper(v) && v.Container() && i <= |v.vs|
    decreases v, |v.vs| - i
  {
    if i == |v.vs| then "" else EncodedItem(v, i) + EncodedFrom(v, i + 1)
  }

  ghost function Key(v: Value, i: nat): string
    requires Proper(v) && v.Container() && i < |v.vs|
  {
    if v.Dict? then EncodedString(v.ks[i]) else ""
  }

  ghost function EncodedItem(v: Value, i: nat): string
    requires Proper(v) && v.Container() && i < |v.vs|
    decreases v, 0
  {
    Key(v, i) + Encoded(v.vs[i])
  }

  /** How many containers lie around each other. */
  ghost function Nesting(v: Value): nat
    decreases v, if v.Container() then |v.vs| + 1 else 0
  {
    if v.Container() then 1 + NestingUpTo(v, |v.vs|) else 0
  }

  ghost function NestingUpTo(v: Value, n: nat): nat
    requires v.Container() && n <= |v.vs|
    decreases v, n
  {
    if n == 0 then 0 else Max(NestingUpTo(v, n - 1), Nesting(v.vs[n - 1]))
  }

  // ----- texts in a buffer -----

  ghost predicate AtText(buf: string, i: int, s: string) {
    0 <= i && i + |s| <= |buf| && buf[i..i + |s|] == s
  }

  lemma AtTextSplit(buf: string, i: int, a: string, b: string)
    requires AtText(buf, i, a + b)
    ensures AtText(buf, i, a) && AtText(buf, i + |a|, b)
  {
    assert buf[i..i + |a|] == buf[i..i + |a + b|][..|a|];
    assert buf[i + |a|..i + |a| + |b|] == buf[i..i + |a + b|][|a|..];
  }

  lemma AtTextChar(buf: string, i: int, c: char)
    requires AtText(buf, i, [c])
    ensures i < |buf| && buf[i] == c
  {
    assert buf[i..i + 1][0] == buf[i];
  }

  /** The first character of an encoding tells the kind of value. */
  lemma FirstChar(v: Value)
    requires Proper(v)
    ensures var c := Encoded(v)[0];
            && (v.Int? <==> c == 'i') && (v.List? <==> c == 'l') && (v.Dict? <==> c == 'd') && (v.Str? <==> IsDigit(c))
  {
  }
}
