/** Which bytes of a peer's send buffer are payload, and how many of them have been sent. */
module PayloadMarkers {

  datatype Range = Range(start: int, length: int)

  ghost predicate In(x: int, r: Range) {
    r.start <= x < r.start + r.length
  }

  /** Byte `x` lies in one of the first `k` ranges. */
  ghost predicate Marked(ranges: seq<Range>, k: int, x: int) {
    exists i :: 0 <= i < |ranges| && i < k && In(x, ranges[i])
  }

  /** Non-empty ranges, in order, disjoint, inside [0, size). */
  ghost predicate RangesOk(ranges: seq<Range>, size: int) {
    && (forall i :: 0 <= i < |ranges| ==>
        0 <= ranges[i].start && 0 < ranges[i].length && ranges[i].start + ranges[i].length <= size)
    && (forall i, j :: 0 <= i < j < |ranges| ==> ranges[i].start + ranges[i].length <= ranges[j].start)
  }

  ghost function Count(b: seq<bool>, n: int): int
    requires 0 <= n <= |b|
  {
    if n == 0 then 0 else Count(b, n - 1) + (if b[n - 1] then 1 else 0)
  }

  /** The bytes of a range among the first `n` of the buffer. */
  ghost function Sent(r: Range, n: int): int {
    if n <= r.start then 0 else if n >= r.start + r.length then r.length else n - r.start
  }

  ghost function AllSent(ranges: seq<Range>, k: int, n: int): int
    requires 0 <= k <= |ranges|
  {
    if k == 0 then 0 else AllSent(ranges, k - 1, n) + Sent(ranges[k - 1], n)
  }

  ghost predicate MarksAre(ranges: seq<Range>, b: seq<bool>) {
    forall x :: 0 <= x < |b| ==> (b[x] <==> Marked(ranges, |ranges|, x))
  }

  /** What the markers say went out of the first `n` bytes is what those bytes are. */
  lemma {:induction false} SentIsCount(ranges: seq<Range>, b: seq<bool>, n: int)
    requires RangesOk(ranges, |b|) && MarksAre(ranges, b) && 0 <= n <= |b|
    ensures AllSent(ranges, |ranges|, n) == Count(b, n)
    decreases n
  {
    if n == 0 {
      NothingSent(ranges, |ranges|);
    } else {
      SentIsCount(ranges, b, n - 1);
      OneMoreByte(ranges, |ranges|, n - 1);
    }
  }

  lemma {:induction false} NothingSent(ranges: seq<Range>, k: int)
    requires 0 <= k <= |ranges| && forall i :: 0 <= i < |ranges| ==> 0 <= ranges[i].start
    ensures AllSent(ranges, k, 0) == 0
  {
    if k > 0 { NothingSent(ranges, k - 1); }
  }

  lemma {:induction false} OneMoreByte(ranges: seq<Range>, k: int, x: int)
    requires 0 <= k <= |ranges|
    requires forall i :: 0 <= i < |ranges| ==> 0 < ranges[i].length
    requires forall i, j :: 0 <= i < j < |ranges| ==> ranges[i].start + ranges[i].length <= ranges[j].start
    ensures AllSent(ranges, k, x + 1) == AllSent(ranges, k, x) + (if Marked(ranges, k, x) then 1 else 0)
  {
    if k > 0 {
      OneMoreByte(ranges, k - 1, x);
      assert Marked(ranges, k, x) <==> Marked(ranges, k - 1, x) || In(x, ranges[k - 1]);
    }
  }

  /** A range after `n` more bytes have left the buffer; one that is gone starts below zero. */
  function Shifted(r: Range, n: int): Range {
    var start := r.start - n;
    if start < 0 && start + r.length > 0 then Range(0, r.length + start) else Range(start, r.length)
  }

  function Remaining(ranges: seq<Range>): seq<Range> {
    if ranges == [] then [] else (if ranges[0].start >= 0 then [ranges[0]] else []) + Remaining(ranges[1..])
  }

  ghost predicate ShiftedFrom(before: seq<Range>, after: seq<Range>, n: int) {
    |after| == |before| && forall i :: 0 <= i < |before| ==> after[i] == Shifted(before[i], n)
  }

  /** The ranges that are left lie in the rest of the buffer and mark the same bytes. */
  lemma ShiftKeepsMarks(ranges: seq<Range>, b: seq<bool>, shifted: seq<Range>, n: int)
    requires RangesOk(ranges, |b|) && MarksAre(ranges, b) && 0 <= n <= |b| && ShiftedFrom(ranges, shifted, n)
    ensures RangesOk(Remaining(shifted), |b| - n) && MarksAre(Remaining(shifted), b[n..])
  {
    hide Remaining, RangesOk, MarksAre, ShiftedFrom;
    GoneComeFirst(ranges, |b|, shifted, n);
    var k := FirstLeft(shifted);
    RemainingIsSuffix(shifted, k);
    RestOk(ranges, |b|, shifted, n, k);
    RestMarks(ranges, b, shifted, n, k);
  }

  lemma GoneComeFirst(ranges: seq<Range>, size: int, shifted: seq<Range>, n: int)
    requires RangesOk(ranges, size) && 0 <= n && ShiftedFrom(ranges, shifted, n)
    ensures forall i, j :: 0 <= i < j < |shifted| && shifted[i].start >= 0 ==> shifted[j].start >= 0
  {
  }

  lemma RestOk(ranges: seq<Range>, size: int, shifted: seq<Range>, n: int, k: int)
    requires RangesOk(ranges, size) && 0 <= n <= size && ShiftedFrom(ranges, shifted, n) && 0 <= k <= |shifted|
    requires forall i :: k <= i < |shifted| ==> shifted[i].start >= 0
    ensures RangesOk(shifted[k..], size - n)
  {
    var rest := shifted[k..];
    assert forall i :: 0 <= i < |rest| ==> rest[i] == Shifted(ranges[i + k], n) && rest[i].start >= 0;
  }

  lemma RestMarks(ranges: seq<Range>, b: seq<bool>, shifted: seq<Range>, n: int, k: int)
    requires RangesOk(ranges, |b|) && MarksAre(ranges, b) && 0 <= n <= |b| && ShiftedFrom(ranges, shifted, n) &&
             0 <= k <= |shifted|
    requires forall i :: 0 <= i < k ==> shifted[i].start < 0
    requires forall i :: k <= i < |shifted| ==> shifted[i].start >= 0
    ensures MarksAre(shifted[k..], b[n..])
  {
    var rest := shifted[k..];
    forall x | 0 <= x < |b| - n
      ensures Marked(ranges, |ranges|, x + n) <==> Marked(rest, |rest|, x)
    {
      if Marked(ranges, |ranges|, x + n) {
        var i :| 0 <= i < |ranges| && In(x + n, ranges[i]);
        assert shifted[i].start >= 0;
        assert In(x, rest[i - k]);
      }
      if Marked(rest, |rest|, x) {
        var i :| 0 <= i < |rest| && In(x, rest[i]);
        assert rest[i] == Shifted(ranges[i + k], n);
        assert In(x + n, ranges[i + k]);
      }
    }
  }

  lemma {:induction false} AllRemain(ranges: seq<Range>)
    requires forall i :: 0 <= i < |ranges| ==> ranges[i].start >= 0
    ensures Remaining(ranges) == ranges
  {
    if ranges != [] {
      AllRemain(ranges[1..]);
      assert ranges == [ranges[0]] + ranges[1..];
    }
  }

  lemma {:induction false} RemainingIsSuffix(ranges: seq<Range>, k: nat)
    requires k <= |ranges| && forall i :: 0 <= i < |ranges| ==> (i < k <==> ranges[i].start < 0)
    ensures Remaining(ranges) == ranges[k..]
  {
    if k == 0 {
      AllRemain(ranges);
    } else {
      RemainingIsSuffix(ranges[1..], k - 1);
      assert ranges[1..][k - 1..] == ranges[k..];
    }
  }

  /** How many ranges are gone. */
  lemma FirstLeft(ranges: seq<Range>) returns (k: nat)
    requires forall i, j :: 0 <= i < j < |ranges| && ranges[i].start >= 0 ==> ranges[j].start >= 0
    ensures k <= |ranges| && forall i :: 0 <= i < |ranges| ==> (i < k <==> ranges[i].start < 0)
  {
    k := 0;
    while k < |ranges| && ranges[k].start < 0
      invariant k <= |ranges| && forall i :: 0 <= i < k ==> ranges[i].start < 0
    {
      k := k + 1;
    }
  }

  class Sender {
    var payloads: seq<Range>
    var sendBufferSize: int
    var payloadSent: int
    var protocolSent: int
    /** For every byte in the send buffer, whether it is payload. */
    ghost var buffer: seq<bool>

    ghost predicate Valid()
      reads this
    {
      sendBufferSize == |buffer| && RangesOk(payloads, |buffer|) && MarksAre(payloads, buffer)
    }

    constructor ()
      ensures Valid() && buffer == [] && payloadSent == protocolSent == 0
    {
      payloads, sendBufferSize, payloadSent, protocolSent, buffer := [], 0, 0, 0, [];
    }

    /** Any message that is not a piece. */
    method Send(size: nat)
      requires Valid()
      modifies this`sendBufferSize, this`buffer
      ensures Valid() && buffer == old(buffer) + Bytes(size, false)
    {
      hide Count, Bytes;
      MarksBeyond(payloads, buffer, size);
      buffer := buffer + Bytes(size, false);
      sendBufferSize := sendBufferSize + size;
    }

    /** A piece message: a header and `length` bytes of payload. */
    method WritePiece(header: nat, length: nat)
      requires Valid() && length > 0
      modifies this`sendBufferSize, this`buffer, this`payloads
      ensures Valid() && buffer == old(buffer) + Bytes(header, false) + Bytes(length, true)
    {
      hide MarksAre, RangesOk, Bytes;
      Send(header);
      MarkNew(payloads, buffer, length);
      buffer := buffer + Bytes(length, true);
      sendBufferSize := sendBufferSize + length;
      payloads := payloads + [Range(sendBufferSize - length, length)];
    }

    /** `bytes` bytes have left the buffer: counts how many of them were payload. */
    method OnSent(bytes: nat)
      requires Valid() && bytes <= sendBufferSize
      modifies this
      ensures Valid() && buffer == old(buffer)[bytes..]
      ensures payloadSent == old(payloadSent) + Count(old(buffer), bytes)
      ensures protocolSent == old(protocolSent) + bytes - Count(old(buffer), bytes)
    {
      hide MarksAre, Remaining, Count;
      var amount, ranges := 0, payloads;
      for i := 0 to |ranges|
        invariant |ranges| == |payloads| && amount == AllSent(payloads, i, bytes)
        invariant forall j :: 0 <= j < |ranges| ==>
                  ranges[j] == if j < i then Shifted(payloads[j], bytes) else payloads[j]
        modifies {}
      {
        var r := Range(ranges[i].start - bytes, ranges[i].length);
        if r.start < 0 {
          if r.start + r.length <= 0 {
            amount := amount + r.length;
          } else {
            amount := amount - r.start;
            r := Range(0, r.length + r.start);
          }
        }
        ranges := ranges[i := r];
      }
      ShiftKeepsMarks(payloads, buffer, ranges, bytes);
      SentIsCount(payloads, buffer, bytes);
      payloads := Remaining(ranges);
      buffer, sendBufferSize := buffer[bytes..], sendBufferSize - bytes;
      payloadSent, protocolSent := payloadSent + amount, protocolSent + (bytes - amount);
    }
  }

  ghost function Bytes(n: nat, payload: bool): (b: seq<bool>)
    ensures |b| == n && forall i :: 0 <= i < n ==> b[i] == payload
  {
    seq(n, _ => payload)
  }

  lemma MarksBeyond(ranges: seq<Range>, b: seq<bool>, n: nat)
    requires RangesOk(ranges, |b|) && MarksAre(ranges, b)
    ensures RangesOk(ranges, |b| + n) && MarksAre(ranges, b + Bytes(n, false))
  {
  }

  lemma MarkNew(ranges: seq<Range>, b: seq<bool>, n: nat)
    requires RangesOk(ranges, |b|) && MarksAre(ranges, b) && n > 0
    ensures RangesOk(ranges + [Range(|b|, n)], |b| + n) && MarksAre(ranges + [Range(|b|, n)], b + Bytes(n, true))
  {
    hide Bytes;
    var rs, c := ranges + [Range(|b|, n)], b + Bytes(n, true);
    forall x | 0 <= x < |c|
      ensures c[x] <==> Marked(rs, |rs|, x)
    {
      if x < |b| {
        assert Marked(ranges, |ranges|, x) <==> Marked(rs, |rs|, x) by {
          if Marked(ranges, |ranges|, x) {
            var i :| 0 <= i < |ranges| && In(x, ranges[i]);
            assert In(x, rs[i]);
          }
        }
      } else {
        assert In(x, rs[|ranges|]);
      }
    }
  }

  // ----- runs -----

  datatype Step = Other(size: nat) | Piece(header: nat, length: nat) | Gone(bytes: nat)

  ghost function PayloadIn(steps: seq<Step>): int {
    if steps == [] then 0
    else var last := steps[|steps| - 1];
      PayloadIn(steps[..|steps| - 1]) + (if last.Piece? then last.length else 0)
  }

  lemma {:induction false} CountJoin(a: seq<bool>, b: seq<bool>, n: int)
    requires 0 <= n <= |b|
    ensures Count(a + b, |a| + n) == Count(a, |a|) + Count(b, n)
    decreases n
  {
    if n == 0 {
      CountSame(a + b, a, |a|);
    } else {
      CountJoin(a, b, n - 1);
    }
  }

  lemma {:induction false} CountSame(a: seq<bool>, b: seq<bool>, n: int)
    requires 0 <= n <= |a| && n <= |b| && forall i :: 0 <= i < n ==> a[i] == b[i]
    ensures Count(a, n) == Count(b, n)
  {
    if n > 0 { CountSame(a, b, n - 1); }
  }

  lemma {:induction false} CountBytes(n: nat, payload: bool, k: nat)
    requires k <= n
    ensures Count(Bytes(n, payload), k) == if payload then k else 0
  {
    if k > 0 { CountBytes(n, payload, k - 1); }
  }

  lemma CountAppended(b: seq<bool>, n: nat, payload: bool)
    ensures Count(b + Bytes(n, payload), |b| + n) == Count(b, |b|) + (if payload then n else 0)
  {
    CountJoin(b, Bytes(n, payload), n);
    CountBytes(n, payload, n);
  }

  lemma CountDropped(b: seq<bool>, n: nat)
    requires n <= |b|
    ensures Count(b[n..], |b| - n) == Count(b, |b|) - Count(b, n)
  {
    CountJoin(b[..n], b[n..], |b| - n);
    assert b[..n] + b[n..] == b;
    CountSame(b[..n], b, n);
  }

  /** Over any run the payload put in is the payload reported plus the payload still in the buffer. */
  method Run(s: Sender, steps: seq<Step>) returns (done: nat)
    requires s.Valid() && s.buffer == [] && s.payloadSent == 0
    requires forall i :: 0 <= i < |steps| && steps[i].Piece? ==> steps[i].length > 0
    modifies s
    ensures s.Valid() && done <= |steps|
    ensures s.payloadSent + Count(s.buffer, |s.buffer|) == PayloadIn(steps[..done])
    ensures done < |steps| ==> steps[done].Gone? && steps[done].bytes > s.sendBufferSize
  {
    hide Count, MarksAre, RangesOk, Bytes;
    assert Count([], 0) == 0 by { CountBytes(0, true, 0); CountSame([], Bytes(0, true), 0); }
    for i := 0 to |steps|
      invariant s.Valid() && s.payloadSent + Count(s.buffer, |s.buffer|) == PayloadIn(steps[..i])
    {
      assert steps[..i + 1][..i] == steps[..i];
      ghost var b := s.buffer;
      match steps[i]
      case Other(n) =>
        CountAppended(b, n, false);
        s.Send(n);
      case Piece(h, n) =>
        CountAppended(b, h, false);
        CountAppended(b + Bytes(h, false), n, true);
        s.WritePiece(h, n);
      case Gone(n) =>
        if n > s.sendBufferSize { return i; }
        CountDropped(b, n);
        s.OnSent(n);
    }
    assert steps[..|steps|] == steps;
    done := |steps|;
  }
}
