/** The bandwidth limiter of benchmark/readbench/src/netsim.rs: a virtual clock that
    every connection shares, and the paced loop that sends a body through it. Instants
    and durations are reals, counted from the first instant the clock can represent. */
module PacedLink {
  import opened Options
  import opened Numbers

  const CHUNK: nat := 16 * 1024
  const BURST: real := 2.0 / 1000.0

  /** One reservation: when it was asked for, its bytes, and the link time they take. */
  datatype Piece = Piece(now: real, len: nat, cost: real)

  /** The link time of `len` bytes. */
  function LinkTime(len: nat, secsPerByte: real): real {
    len as real * secsPerByte
  }

  lemma LinkTimeAdds(a: nat, b: nat, rate: real)
    ensures LinkTime(a + b, rate) == LinkTime(a, rate) + LinkTime(b, rate)
    ensures LinkTime(0, rate) == 0.0
    ensures rate >= 0.0 ==> LinkTime(a, rate) >= 0.0 && LinkTime(b, rate) >= 0.0
  {
  }

  lemma LinkTimeIs(len: nat, rate: real)
    ensures LinkTime(len, rate) == len as real * rate
  {
  }

  /** The earliest the link can have started on a piece asked for at `now`. */
  function Earliest(now: real): real {
    if now >= BURST then now - BURST else now
  }

  predicate IsLog(log: seq<Piece>) {
    forall i | 0 <= i < |log| :: log[i].now >= 0.0 && log[i].cost >= 0.0
  }

  /** When reservation `j` of `log` ends, by the code's rule for one reservation. */
  function EndOf(log: seq<Piece>, j: nat): real
    requires j < |log|
  {
    var earliest := Earliest(log[j].now);
    (if j > 0 && EndOf(log, j - 1) > earliest then EndOf(log, j - 1) else earliest) + log[j].cost
  }

  /** The link time of reservations `i` up to and without `j`. */
  function Cost(log: seq<Piece>, i: nat, j: nat): real
    requires i <= j <= |log|
    decreases j
  {
    if i == j then 0.0 else Cost(log, i, j - 1) + log[j - 1].cost
  }

  // ----- the closed form

  lemma {:induction false} ClockBounds(log: seq<Piece>, i: nat, j: nat)
    requires i <= j < |log|
    ensures EndOf(log, j) >= Earliest(log[i].now) + Cost(log, i, j + 1)
    decreases j
  {
    if i < j {
      ClockBounds(log, i, j - 1);
    } else {
      assert Cost(log, j, j + 1) == Cost(log, j, j) + log[j].cost;
    }
  }

  lemma {:induction false} ClockReached(log: seq<Piece>, j: nat) returns (i: nat)
    requires j < |log|
    ensures i <= j && EndOf(log, j) == Earliest(log[i].now) + Cost(log, i, j + 1)
  {
    if j > 0 && EndOf(log, j - 1) > Earliest(log[j].now) {
      i := ClockReached(log, j - 1);
    } else {
      i := j;
      assert Cost(log, j, j + 1) == Cost(log, j, j) + log[j].cost;
    }
  }

  /** The clock is the largest, over all earlier reservations, of the instant that
      reservation could start at plus the link time of everything from it on. `now` is
      read before the lock is taken, so the instants come in any order. */
  lemma ClockIsTheMaximum(log: seq<Piece>, j: nat)
    requires j < |log|
    ensures forall i | 0 <= i <= j :: EndOf(log, j) >= Earliest(log[i].now) + Cost(log, i, j + 1)
    ensures exists i | 0 <= i <= j :: EndOf(log, j) == Earliest(log[i].now) + Cost(log, i, j + 1)
  {
    forall i | 0 <= i <= j ensures EndOf(log, j) >= Earliest(log[i].now) + Cost(log, i, j + 1) {
      ClockBounds(log, i, j);
    }
    var i := ClockReached(log, j);
  }

  /** Reservations follow each other on the link and never overlap. */
  lemma {:induction false} ReservationsDoNotOverlap(log: seq<Piece>, i: nat, j: nat)
    requires i < j < |log| && IsLog(log)
    ensures EndOf(log, i) + Cost(log, i + 1, j) <= EndOf(log, j) - log[j].cost
    decreases j
  {
    if i < j - 1 {
      ReservationsDoNotOverlap(log, i, j - 1);
      assert Cost(log, i + 1, j) == Cost(log, i + 1, j - 1) + log[j - 1].cost;
    }
  }

  // ----- what is written in an interval

  /** A piece is written when its reservation ends, or at once when that is past. */
  function Written(log: seq<Piece>, j: nat): real
    requires j < |log|
  {
    Max(EndOf(log, j), log[j].now)
  }

  /** The link time of the first `n` reservations that are written from `a` to `b`. */
  function CostWritten(log: seq<Piece>, n: nat, a: real, b: real): real
    requires n <= |log|
  {
    if n == 0 then 0.0
    else CostWritten(log, n - 1, a, b) + if a <= Written(log, n - 1) <= b then log[n - 1].cost else 0.0
  }

  /** What is written is at most everything from the first piece of the interval on. */
  lemma {:induction false} WrittenFrom(log: seq<Piece>, n: nat, a: real, b: real) returns (i: nat)
    requires n <= |log| && IsLog(log)
    ensures i <= n && CostWritten(log, n, a, b) <= Cost(log, i, n)
    ensures i < n ==> a <= Written(log, i) <= b
  {
    if n == 0 {
      i := 0;
    } else {
      i := WrittenFrom(log, n - 1, a, b);
      if i == n - 1 && !(a <= Written(log, n - 1) <= b) {
        i := n;
      }
    }
  }

  lemma {:induction false} CostSplits(log: seq<Piece>, i: nat, j: nat)
    requires i < j <= |log|
    ensures Cost(log, i, j) == log[i].cost + Cost(log, i + 1, j)
    decreases j
  {
    if i + 1 < j {
      CostSplits(log, i, j - 1);
    } else {
      assert Cost(log, i, i) == 0.0;
    }
  }

  /** In any interval the link is charged at most the interval's length and, beyond it, the
      larger of the burst and one piece. */
  lemma {:induction false} LinkTimeIsBounded(log: seq<Piece>, n: nat, a: real, b: real, piece: real)
    requires n <= |log| && IsLog(log) && a <= b
    requires forall i | 0 <= i < n :: log[i].cost <= piece
    ensures CostWritten(log, n, a, b) <= (b - a) + Max(BURST, piece)
  {
    if n == 0 {
    } else if !(a <= Written(log, n - 1) <= b) {
      LinkTimeIsBounded(log, n - 1, a, b, piece);
    } else {
      var i := WrittenFrom(log, n, a, b);
      if i < n {
        var l := n - 1;
        CostSplits(log, i, n);
        if i < l {
          ReservationsDoNotOverlap(log, i, l);
          assert Cost(log, i + 1, n) == Cost(log, i + 1, l) + log[l].cost;
        } else {
          assert Cost(log, n, n) == 0.0;
        }
        assert EndOf(log, l) <= b;
        assert Cost(log, i + 1, n) <= b - EndOf(log, i);
        ClockBounds(log, i, i);
        assert Cost(log, i, i + 1) == Cost(log, i, i) + log[i].cost;
      } else {
        assert Cost(log, n, n) == 0.0;
      }
    }
  }

  /** The bytes of the first `n` reservations that are written from `a` to `b`. */
  function BytesWritten(log: seq<Piece>, n: nat, a: real, b: real): nat
    requires n <= |log|
  {
    if n == 0 then 0
    else BytesWritten(log, n - 1, a, b) + if a <= Written(log, n - 1) <= b then log[n - 1].len else 0
  }

  /** Every reservation is charged its bytes at the link's rate. */
  predicate IsCharged(log: seq<Piece>, secsPerByte: real) {
    forall i | 0 <= i < |log| :: log[i].cost == LinkTime(log[i].len, secsPerByte)
  }

  lemma {:induction false} CostOfBytes(log: seq<Piece>, n: nat, a: real, b: real, rate: real)
    requires n <= |log| && IsCharged(log, rate)
    ensures CostWritten(log, n, a, b) == LinkTime(BytesWritten(log, n, a, b), rate)
  {
    hide LinkTime, Written;
    LinkTimeAdds(0, 0, rate);
    if n > 0 {
      CostOfBytes(log, n - 1, a, b, rate);
      var more := if a <= Written(log, n - 1) <= b then log[n - 1].len else 0;
      LinkTimeAdds(BytesWritten(log, n - 1, a, b), more, rate);
      assert CostWritten(log, n, a, b) == CostWritten(log, n - 1, a, b) + LinkTime(more, rate);
    }
  }

  lemma CostsAtMost(log: seq<Piece>, rate: real, chunk: nat)
    requires rate >= 0.0 && IsCharged(log, rate)
    requires forall i | 0 <= i < |log| :: log[i].len <= chunk
    ensures forall i | 0 <= i < |log| :: log[i].cost <= LinkTime(chunk, rate)
  {
    hide LinkTime;
    LinkTimeIs(chunk, rate);
    forall i | 0 <= i < |log| ensures log[i].cost <= LinkTime(chunk, rate) {
      LinkTimeAdds(log[i].len, chunk - log[i].len, rate);
    }
  }

  /** In any interval, on a link whose reservations are of at most `chunk` bytes, the bytes
      written take no more link time than the interval has and, beyond it, two milliseconds or
      the time of one chunk, whichever is longer. */
  lemma ThroughputIsBounded(log: seq<Piece>, a: real, b: real, secsPerByte: real, chunk: nat)
    requires IsLog(log) && IsCharged(log, secsPerByte) && secsPerByte >= 0.0 && a <= b
    requires forall i | 0 <= i < |log| :: log[i].len <= chunk
    ensures var used := BytesWritten(log, |log|, a, b) as real * secsPerByte;
      used <= (b - a) + 0.002 || used <= (b - a) + chunk as real * secsPerByte
  {
    hide LinkTime, CostWritten, BytesWritten;
    CostsAtMost(log, secsPerByte, chunk);
    CostOfBytes(log, |log|, a, b, secsPerByte);
    LinkTimeIs(BytesWritten(log, |log|, a, b), secsPerByte);
    LinkTimeIs(chunk, secsPerByte);
    LinkTimeIsBounded(log, |log|, a, b, LinkTime(chunk, secsPerByte));
  }

  // ----- the code

  class Link {
    const secsPerByte: real
    var nextFree: Option<real>
    // Every reservation so far.
    ghost var log: seq<Piece>

    ghost predicate Valid()
      reads this
    {
      && secsPerByte >= 0.0 && IsLog(log) && IsCharged(log, secsPerByte)
      && nextFree == if log == [] then None else Some(EndOf(log, |log| - 1))
    }

    constructor (secsPerByte: real)
      requires secsPerByte >= 0.0
      ensures Valid() && log == [] && this.secsPerByte == secsPerByte
    {
      this.secsPerByte := secsPerByte;
      nextFree := None;
      log := [];
    }

    /** `reserve`, at the instant `now`. */
    method Reserve(now: real, len: nat) returns (end: real)
      requires Valid() && now >= 0.0
      modifies this
      ensures Valid()
      ensures log == old(log) + [Piece(now, len, len as real * secsPerByte)]
      ensures end == EndOf(log, |log| - 1)
      ensures nextFree == Some(end)
      ensures var earliest := if now >= 0.002 then now - 0.002 else now;
        end == len as real * secsPerByte
          + if old(nextFree).Some? && old(nextFree).value > earliest then old(nextFree).value else earliest
    {
      hide LinkTime;
      LinkTimeIs(len, secsPerByte);
      var earliest := if now - BURST >= 0.0 then now - BURST else now;
      var start := if nextFree.Some? && nextFree.value > earliest then nextFree.value else earliest;
      end := start + LinkTime(len, secsPerByte);
      nextFree := Some(end);
      LinkTimeAdds(len, 0, secsPerByte);
      ghost var before := log;
      log := log + [Piece(now, len, LinkTime(len, secsPerByte))];
      EndIsLocal(before, log);
    }
  }

  /** Later reservations do not move earlier ones. */
  lemma {:induction false} EndOfPrefix(before: seq<Piece>, log: seq<Piece>, j: nat)
    requires before <= log && j < |before|
    ensures EndOf(log, j) == EndOf(before, j)
  {
    if j > 0 { EndOfPrefix(before, log, j - 1); }
  }

  lemma EndIsLocal(before: seq<Piece>, log: seq<Piece>)
    requires before <= log
    ensures before != [] ==> EndOf(log, |before| - 1) == EndOf(before, |before| - 1)
  {
    if before != [] { EndOfPrefix(before, log, |before| - 1); }
  }

  function Bytes(sizes: seq<nat>): nat {
    if sizes == [] then 0 else Bytes(sizes[..|sizes| - 1]) + sizes[|sizes| - 1]
  }

  /** When the link can start on a body that is asked for at `start`: when it is free, and no
      more than the burst early. */
  function StartOf(free: Option<real>, start: real): real {
    if free.Some? && free.value > Earliest(start) then free.value else Earliest(start)
  }

  lemma StartIs(free: Option<real>, start: real)
    ensures StartOf(free, start) ==
      var earliest := if start >= 0.002 then start - 0.002 else start;
      if free.Some? && free.value > earliest then free.value else earliest
    ensures StartOf(free, start) >= Earliest(start)
  {
  }

  /** The next piece of a body starts on the link where the last one ended. */
  lemma NextPiece(start: real, clock: real, now: real)
    requires clock >= Earliest(start) && now == Max(start, clock)
    ensures StartOf(Some(clock), now) == clock
  {
  }

  /** What the loop of `respond` has done with `left` of `bodyLen` bytes still to send. */
  ghost predicate Sent(sizes: seq<nat>, bodyLen: nat, left: nat) {
    && left <= bodyLen && Bytes(sizes) == bodyLen - left
    && (forall k | 0 <= k < |sizes| :: 0 < sizes[k] <= CHUNK)
    && |sizes| == (bodyLen - left + CHUNK - 1) / CHUNK
    && (left > 0 ==> |sizes| * CHUNK == bodyLen - left)
  }

  lemma SendOne(sizes: seq<nat>, bodyLen: nat, left: nat, n: nat)
    requires Sent(sizes, bodyLen, left) && left > 0 && n == if left <= CHUNK then left else CHUNK
    ensures Sent(sizes + [n], bodyLen, left - n)
  {
    assert (sizes + [n])[..|sizes|] == sizes;
  }

  /** When a piece is written does not depend on later reservations. */
  lemma WrittenIsLocal(before: seq<Piece>, log: seq<Piece>, j: nat)
    requires before <= log && j < |before|
    ensures Written(log, j) == Written(before, j)
  {
    EndOfPrefix(before, log, j);
  }

  /** Since `before`, `log` holds a reservation of each of the `sizes`, and `written` holds
      the instants those were written at. */
  ghost predicate Logged(before: seq<Piece>, log: seq<Piece>, sizes: seq<nat>, written: seq<real>) {
    && before <= log && |log| == |before| + |sizes| && |written| == |sizes|
    && forall j | |before| <= j < |log| ::
      log[j].len == sizes[j - |before|] && written[j - |before|] == Written(log, j)
  }

  lemma LogOne(before: seq<Piece>, log: seq<Piece>, sizes: seq<nat>, written: seq<real>, p: Piece)
    requires Logged(before, log, sizes, written)
    ensures var more := log + [p];
      Logged(before, more, sizes + [p.len], written + [Max(EndOf(more, |log|), p.now)])
  {
    var more := log + [p];
    forall j | |before| <= j < |log| ensures Written(more, j) == Written(log, j) {
      WrittenIsLocal(log, more, j);
    }
    hide EndOf;
  }

  /** A body of `len` bytes, asked for at `start` on a link that is free from `free` on, has its last
      byte written at `finish` and leaves the link free from `next` on: its bytes take their time at
      the link's rate from the instant the link is free, at most two milliseconds early. */
  ghost predicate BodyEnds(free: Option<real>, start: real, len: nat, rate: real, next: Option<real>, finish: real) {
    var earliest := if start >= 0.002 then start - 0.002 else start;
    var first := if free.Some? && free.value > earliest then free.value else earliest;
    var end := first + len as real * rate;
    next == Some(end) && finish == if end > start then end else start
  }

  /** One round of it: the piece is reserved and written as soon as its reservation has ended. */
  method SendPiece(link: Link, now: real, len: nat) returns (done: real)
    requires link.Valid() && now >= 0.0
    modifies link
    ensures link.Valid() && done >= now
    ensures link.log == old(link.log) + [Piece(now, len, LinkTime(len, link.secsPerByte))]
    ensures link.nextFree == Some(StartOf(old(link.nextFree), now) + LinkTime(len, link.secsPerByte))
    ensures done == Max(link.nextFree.value, now) == Written(link.log, |old(link.log)|)
  {
    hide LinkTime, EndOf, StartOf;
    LinkTimeIs(len, link.secsPerByte);
    StartIs(link.nextFree, now);
    ghost var start := StartOf(link.nextFree, now);
    ghost var cost := LinkTime(len, link.secsPerByte);
    var due := link.Reserve(now, len);
    assert due == len as real * link.secsPerByte + start;
    assert due == cost + start;
    done := Max(due, now);
  }

  /** The paced loop of `respond`, with timers that fire on time and nobody else on the link
      meanwhile: reserve, wait until the reservation ends, write. Every byte of the body is
      sent once, in pieces of at most 16 KiB, and the body ends exactly the link time of its
      bytes after the link could start on it, but never before it was asked for. */
  method SendBody(link: Link, bodyLen: nat, start: real)
      returns (finish: real, sizes: seq<nat>, written: seq<real>)
    requires link.Valid() && start >= 0.0
    modifies link
    ensures link.Valid()
    ensures Bytes(sizes) == bodyLen && |sizes| == (bodyLen + 16383) / 16384
    ensures forall k | 0 <= k < |sizes| :: 0 < sizes[k] <= 16384
    ensures Logged(old(link.log), link.log, sizes, written)
    ensures bodyLen == 0 ==> finish == start && link.nextFree == old(link.nextFree)
    ensures bodyLen > 0 ==>
      BodyEnds(old(link.nextFree), start, bodyLen, link.secsPerByte, link.nextFree, finish)
  {
    hide LinkTime, EndOf, Sent, Bytes, Logged, StartOf, Earliest, BodyEnds;
    StartIs(link.nextFree, start);
    ghost var first := StartOf(link.nextFree, start);
    var left: nat := bodyLen;
    var now := start;
    sizes, written := [], [];
    NothingSent(bodyLen);
    NothingLogged(link.log);
    LinkTimeAdds(0, 0, link.secsPerByte);
    while left > 0
      invariant link.Valid() && left <= bodyLen && Sent(sizes, bodyLen, left)
      invariant Logged(old(link.log), link.log, sizes, written)
      invariant left == bodyLen ==> now == start && link.nextFree == old(link.nextFree)
      invariant left < bodyLen ==>
        && link.nextFree == Some(first + LinkTime(bodyLen - left, link.secsPerByte))
        && link.nextFree.value >= Earliest(start) && now == Max(start, link.nextFree.value)
    {
      var n: nat := if left <= CHUNK then left else CHUNK;
      LinkTimeAdds(bodyLen - left, n, link.secsPerByte);
      StartIs(link.nextFree, now);
      if left < bodyLen { NextPiece(start, link.nextFree.value, now); }
      SendOne(sizes, bodyLen, left, n);
      LogOne(old(link.log), link.log, sizes, written, Piece(now, n, LinkTime(n, link.secsPerByte)));
      now := SendPiece(link, now, n);
      sizes, written := sizes + [n], written + [now];
      left := left - n;
    }
    SentAll(sizes, bodyLen);
    finish := now;
    if bodyLen > 0 { BodyHasEnded(old(link.nextFree), start, bodyLen, link.secsPerByte, link.nextFree, finish); }
  }

  lemma BodyHasEnded(free: Option<real>, start: real, len: nat, rate: real, next: Option<real>, finish: real)
    requires next == Some(StartOf(free, start) + LinkTime(len, rate)) && finish == Max(start, next.value)
    ensures BodyEnds(free, start, len, rate, next, finish)
  {
    hide LinkTime, StartOf;
    LinkTimeIs(len, rate);
    StartIs(free, start);
  }

  lemma NothingLogged(log: seq<Piece>)
    ensures Logged(log, log, [], [])
  {
  }

  lemma NothingSent(bodyLen: nat)
    ensures Sent([], bodyLen, bodyLen)
  {
  }

  lemma SentAll(sizes: seq<nat>, bodyLen: nat)
    requires Sent(sizes, bodyLen, 0)
    ensures Bytes(sizes) == bodyLen && |sizes| == (bodyLen + CHUNK - 1) / CHUNK
    ensures forall k | 0 <= k < |sizes| :: 0 < sizes[k] <= CHUNK
  {
  }
}
