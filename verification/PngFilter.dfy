/**
 PNG scanline filters (section 9 of the PNG specification, section 6 of RFC 2083) for
 8-bit RGBA: the encoder's five filters and their reversal in place.
 */
module PngFilter {
  import opened Wrappers

  type byte = i: int | 0 <= i < 256

  /** Bytes per pixel: the distance to the byte on the left. */
  const BPP: nat := 4

  function Abs(x: int): (r: nat)
    ensures r == x || r == -x
  {
    if x < 0 then -x else x
  }

  function Paeth(left: byte, up: byte, upleft: byte): (p: byte)
    ensures p == left || p == up || p == upleft
    ensures var estimate := left + up - upleft;
            && Abs(estimate - p) <= Abs(estimate - left)
            && Abs(estimate - p) <= Abs(estimate - up)
            && Abs(estimate - p) <= Abs(estimate - upleft)
            && (Abs(estimate - p) == Abs(estimate - left) ==> p == left)
            && (Abs(estimate - p) == Abs(estimate - up) && p != left ==> p == up)
  {
    var estimate := left + up - upleft;
    var nearestLeft, nearestUp, nearestUpleft := Abs(estimate - left), Abs(estimate - up), Abs(estimate - upleft);
    if nearestLeft <= nearestUp && nearestLeft <= nearestUpleft then left
    else if nearestUp <= nearestUpleft then up
    else upleft
  }

  /** What a filter predicts from the bytes already known; an unknown filter predicts nothing. */
  function Predictor(filter: byte, left: byte, up: byte, upleft: byte): byte {
    if filter == 1 then left
    else if filter == 2 then up
    else if filter == 3 then (left + up) / 2
    else if filter == 4 then Paeth(left, up, upleft)
    else 0
  }

  function Left(line: seq<byte>, x: nat): byte
    requires x <= |line|
  {
    if x >= BPP then line[x - BPP] else 0
  }

  /** The encoder's filter: each byte less its prediction, modulo 256. */
  function Filtered(filter: byte, line: seq<byte>, previous: seq<byte>): (s: seq<byte>)
    requires |line| <= |previous|
    ensures |s| == |line|
  {
    seq(|line|, x requires 0 <= x < |line| =>
      (line[x] - Predictor(filter, Left(line, x), previous[x], Left(previous, x))) % 256)
  }

  /** What each filter stores of a byte, by the bytes four to the left, above, and four to the
      left above: the Sub, Up, Average and Paeth of the specification, and the byte itself. */
  lemma FilterStores(filter: byte, line: seq<byte>, previous: seq<byte>, x: nat)
    requires x < |line| <= |previous|
    ensures var left, up, upleft := if x >= 4 then line[x - 4] else 0, previous[x], if x >= 4 then previous[x - 4] else 0;
            var stored := Filtered(filter, line, previous)[x];
            && (filter == 1 ==> stored == (line[x] - left) % 256)
            && (filter == 2 ==> stored == (line[x] - up) % 256)
            && (filter == 3 ==> exists p: int :: 2 * p <= left + up <= 2 * p + 1 && stored == (line[x] - p) % 256)
            && (filter == 4 ==> stored == (line[x] - Paeth(left, up, upleft)) % 256)
            && (filter == 0 || filter > 4 ==> stored == line[x])
  {
    var left, up := if x >= 4 then line[x - 4] else 0, previous[x];
    var p: int := (left + up) / 2;
    assert 2 * p <= left + up <= 2 * p + 1;
  }

  /** The first `n` bytes of the line whose filtered form is given. */
  function Restored(filter: byte, filtered: seq<byte>, previous: seq<byte>, n: nat): (s: seq<byte>)
    requires n <= |filtered| && n <= |previous|
    ensures |s| == n
  {
    if n == 0 then []
    else
      var s := Restored(filter, filtered, previous, n - 1);
      s + [(filtered[n - 1] + Predictor(filter, Left(s, n - 1), previous[n - 1], Left(previous, n - 1))) % 256]
  }

  lemma ModuloCancels(a: int, p: int)
    requires 0 <= a < 256 && 0 <= p < 256
    ensures ((a - p) % 256 + p) % 256 == a
    ensures ((a + p) % 256 - p) % 256 == a
  {
  }

  lemma {:induction false} RestoredPrefix(filter: byte, line: seq<byte>, previous: seq<byte>, n: nat)
    requires n <= |line| <= |previous|
    ensures Restored(filter, Filtered(filter, line, previous), previous, n) == line[..n]
  {
    if n > 0 {
      RestoredPrefix(filter, line, previous, n - 1);
      var p := Predictor(filter, Left(line, n - 1), previous[n - 1], Left(previous, n - 1));
      assert Left(line[..n - 1], n - 1) == Left(line, n - 1);
      ModuloCancels(line[n - 1], p);
      assert line[..n] == line[..n - 1] + [line[n - 1]];
    }
  }

  /** Reversal undoes every filter on every line. */
  lemma FilterRoundTrip(filter: byte, line: seq<byte>, previous: seq<byte>)
    requires |line| <= |previous|
    ensures Restored(filter, Filtered(filter, line, previous), previous, |line|) == line
  {
    RestoredPrefix(filter, line, previous, |line|);
    assert line[..|line|] == line;
  }

  /** The other way round: filtering a restored line gives back what was stored. */
  lemma {:induction false} RestoreRoundTrip(filter: byte, filtered: seq<byte>, previous: seq<byte>)
    requires |filtered| <= |previous|
    ensures Filtered(filter, Restored(filter, filtered, previous, |filtered|), previous) == filtered
  {
    var line := Restored(filter, filtered, previous, |filtered|);
    forall x | 0 <= x < |filtered|
      ensures Filtered(filter, line, previous)[x] == filtered[x]
    {
      RestoredAt(filter, filtered, previous, |filtered|, x);
      var p := Predictor(filter, Left(line, x), previous[x], Left(previous, x));
      ModuloCancels(filtered[x], p);
    }
  }

  lemma {:induction false} RestoredAt(filter: byte, filtered: seq<byte>, previous: seq<byte>, n: nat, x: nat)
    requires x < n <= |filtered| && n <= |previous|
    ensures var s := Restored(filter, filtered, previous, n);
            s[x] == (filtered[x] + Predictor(filter, Left(s, x), previous[x], Left(previous, x))) % 256
  {
    if x < n - 1 {
      RestoredAt(filter, filtered, previous, n - 1, x);
    }
  }

  /** The line a stored one stands for: the only line that filters to it. */
  ghost function Unfiltered(filter: byte, filtered: seq<byte>, previous: seq<byte>): (line: seq<byte>)
    requires |filtered| <= |previous|
    ensures |line| == |filtered| && Filtered(filter, line, previous) == filtered
  {
    RestoreRoundTrip(filter, filtered, previous);
    var line :| |line| == |filtered| && Filtered(filter, line, previous) == filtered;
    line
  }

  lemma UnfilteredIsUnique(filter: byte, line: seq<byte>, filtered: seq<byte>, previous: seq<byte>)
    requires |line| == |filtered| <= |previous|
    requires Filtered(filter, line, previous) == filtered
    ensures line == Unfiltered(filter, filtered, previous)
  {
    FilterRoundTrip(filter, line, previous);
    FilterRoundTrip(filter, Unfiltered(filter, filtered, previous), previous);
  }

  /** The byte that a stored one stands for, by its three neighbours: Sub, Up, Average, Paeth. */
  ghost predicate StandsFor(filter: byte, stored: byte, b: byte, left: byte, up: byte, upleft: byte) {
    && (filter == 1 ==> b == (stored + left) % 256)
    && (filter == 2 ==> b == (stored + up) % 256)
    && (filter == 3 ==> exists p: int :: 2 * p <= left + up <= 2 * p + 1 && b == (stored + p) % 256)
    && (filter == 4 ==> b == (stored + Paeth(left, up, upleft)) % 256)
    && (filter == 0 || filter > 4 ==> b == stored)
  }

  /** And so what the finished line of `unfilter` is, byte by byte. */
  lemma UnfilteredBytes(filter: byte, stored: seq<byte>, previous: seq<byte>, x: nat)
    requires x < |stored| <= |previous|
    ensures var line := Unfiltered(filter, stored, previous);
            StandsFor(filter, stored[x], line[x], if x >= 4 then line[x - 4] else 0, previous[x],
                      if x >= 4 then previous[x - 4] else 0)
  {
    var line := Unfiltered(filter, stored, previous);
    RestoreRoundTrip(filter, stored, previous);
    UnfilteredIsUnique(filter, Restored(filter, stored, previous, |stored|), stored, previous);
    RestoredAt(filter, stored, previous, |stored|, x);
    PredictorSums(filter, stored[x], Left(line, x), previous[x], Left(previous, x));
  }

  lemma PredictorSums(filter: byte, stored: byte, left: byte, up: byte, upleft: byte)
    ensures StandsFor(filter, stored, (stored + Predictor(filter, left, up, upleft)) % 256, left, up, upleft)
  {
    var p: int := (left + up) / 2;
    assert 2 * p <= left + up <= 2 * p + 1;
  }

  /** Whether reversing a line of `n` stored bytes stays inside both lines. The last pixel
      of an unfiltered line is never read, so such a line may come up short by it. */
  predicate InBounds(filter: byte, n: nat, previous: nat, stride: nat) {
    stride == 0 || (stride <= previous && stride <= n + BPP && (1 <= filter <= 4 ==> stride <= n))
  }

  predicate ByteInBounds(filter: byte, n: nat, previous: nat, x: nat) {
    x < previous && (x >= BPP ==> x - BPP < n) && (1 <= filter <= 4 ==> x < n)
  }

  lemma InBoundsByByte(filter: byte, n: nat, previous: nat, x: nat)
    ensures InBounds(filter, n, previous, x + 1) <==>
            InBounds(filter, n, previous, x) && ByteInBounds(filter, n, previous, x)
  {
  }

  lemma InBoundsPrefix(filter: byte, n: nat, previous: nat, x: nat, stride: nat)
    requires x <= stride
    ensures InBounds(filter, n, previous, stride) ==> InBounds(filter, n, previous, x)
  {
  }

  /** A line with its first `n` bytes restored. */
  function Partly(filter: byte, stored: seq<byte>, previous: seq<byte>, n: nat): (s: seq<byte>)
    requires n <= |stored| && n <= |previous|
    ensures |s| == |stored|
  {
    Restored(filter, stored, previous, n) + stored[n..]
  }

  function RestoredByte(filter: byte, line: seq<byte>, previous: seq<byte>, x: nat): byte
    requires x < |line| && x < |previous|
  {
    (line[x] + Predictor(filter, Left(line, x), previous[x], Left(previous, x))) % 256
  }

  lemma OneMoreRestored(filter: byte, stored: seq<byte>, previous: seq<byte>, x: nat)
    requires x < |stored| && x < |previous|
    ensures var line := Partly(filter, stored, previous, x);
            line[x := RestoredByte(filter, line, previous, x)] == Partly(filter, stored, previous, x + 1)
  {
    var done, line := Restored(filter, stored, previous, x), Partly(filter, stored, previous, x);
    assert Left(line, x) == Left(done, x) && line[x] == stored[x];
    assert Restored(filter, stored, previous, x + 1) == done + [RestoredByte(filter, line, previous, x)];
  }

  lemma AllRestored(filter: byte, stored: seq<byte>, previous: seq<byte>)
    requires |stored| <= |previous|
    ensures Partly(filter, stored, previous, |stored|) == Unfiltered(filter, stored, previous)
  {
    RestoreRoundTrip(filter, stored, previous);
    UnfilteredIsUnique(filter, Restored(filter, stored, previous, |stored|), stored, previous);
  }

  /** One byte, in place; an unfiltered line, and one of an unknown filter, is left alone. */
  method RestoreByte(filter: byte, line: array<byte>, previous: seq<byte>, x: nat)
    requires x < line.Length && x < |previous|
    modifies line
    ensures line[..] == old(line[..])[x := RestoredByte(filter, old(line[..]), previous, x)]
  {
    var left := if x >= BPP then line[x - BPP] else 0;
    var up := previous[x];
    var upleft := if x >= BPP then previous[x - BPP] else 0;
    if 1 <= filter <= 4 {
      line[x] := (line[x] + Predictor(filter, left, up, upleft)) % 256;
    }
  }

  /** `n` bytes are restored before step `x`: all the earlier ones, or the whole line. */
  predicate UpTo(n: nat, x: nat, length: nat) {
    n <= length && (n == x || (n == length && n < x))
  }

  /** One turn of the loop. */
  method RestoreNext(filter: byte, line: array<byte>, previous: seq<byte>, x: nat, ghost stored: seq<byte>, ghost n: nat)
    returns (ghost n': nat)
    requires line.Length == |stored| && x < |previous| && UpTo(n, x, line.Length)
    requires line[..] == Partly(filter, stored, previous, n)
    modifies line
    ensures UpTo(n', x + 1, line.Length) && n' <= |previous|
    ensures line[..] == Partly(filter, stored, previous, n')
  {
    n' := n;
    if x < line.Length {
      OneMoreRestored(filter, stored, previous, x);
      RestoreByte(filter, line, previous, x);
      n' := x + 1;
    }
  }

  /** `unfilter`: reversal in place. `ok` is false where the source raises an index error. */
  method Unfilter(filter: byte, line: array<byte>, previous: seq<byte>, stride: nat) returns (ok: bool)
    requires line.Length <= stride
    modifies line
    ensures ok <==> (stride == 0 || (stride <= |previous| && stride <= line.Length + 4
                                     && (1 <= filter <= 4 ==> stride <= line.Length)))
    ensures ok ==> line.Length <= |previous| && line[..] == Unfiltered(filter, old(line[..]), previous)
  {
    var x: nat := 0;
    ghost var stored, n: nat := line[..], 0;
    while x < stride
      invariant x <= stride && x <= |previous|
      invariant InBounds(filter, line.Length, |previous|, x)
      invariant UpTo(n, x, line.Length)
      invariant line[..] == Partly(filter, stored, previous, n)
    {
      InBoundsByByte(filter, line.Length, |previous|, x);
      if x >= |previous| || (x >= BPP && x - BPP >= line.Length) || (1 <= filter <= 4 && x >= line.Length) {
        InBoundsPrefix(filter, line.Length, |previous|, x + 1, stride);
        return false;
      }
      n := RestoreNext(filter, line, previous, x, stored, n);
      x := x + 1;
    }
    ok := true;
    AllRestored(filter, stored, previous);
  }
}
