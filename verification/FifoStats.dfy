/** The circular buffer of a user's samples (src/fifo_stats.c). */
module FifoStats {
  import opened Data

  /** C's integer division: towards zero. */
  function TruncDiv(a: int, n: nat): int
    requires 0 < n
  {
    if 0 <= a then a / n else -(-a / n)
  }

  /** The quotient leaves a remainder smaller than the divisor and of the dividend's sign. */
  lemma TruncDivMeaning(a: int, n: nat)
    requires 0 < n
    ensures var rest: int := a - TruncDiv(a, n) * n; if 0 <= a then 0 <= rest < n else -(n as int) < rest <= 0
  {
    if a < 0 {
      assert -a == -a / n * n + -a % n;
    }
  }

  /** The mean of a nonempty window, reads and writes truncated. */
  function Mean(s: seq<Stats>): Stats
    requires s != []
  {
    var sum := Sum(s);
    Stats(sum.cpu / |s| as real, TruncDiv(sum.read, |s|), TruncDiv(sum.write, |s|))
  }

  function Min(a: nat, b: nat): nat {
    if a < b then a else b
  }

  /** The newest n of the samples ever recorded (newest first), zeros standing for missing ones. */
  function Newest(hist: seq<Stats>, n: nat): seq<Stats> {
    seq(n, i requires 0 <= i < n => if i < |hist| then hist[i] else ZERO_STATS)
  }

  /** A ring of at least n slots never clips a window of n samples. */
  lemma NewestPrefix(hist: seq<Stats>, size: nat, n: nat)
    requires n <= size
    ensures Newest(hist, size)[..n] == Newest(hist, n)
  {
  }

  /** Recording one more sample drops the oldest one from the view. */
  lemma NewestPush(hist: seq<Stats>, size: nat, x: Stats)
    requires 0 < size
    ensures Newest([x] + hist, size) == [x] + Newest(hist, size)[..size - 1]
  {
  }

  lemma {:induction false} SumNext(s: seq<Stats>, i: nat)
    requires i < |s|
    ensures Sum(s[..i + 1]) == Sum(s[..i]).Plus(s[i])
  {
    assert s[..i + 1] == s[..i] + [s[i]];
    SumConcat(s[..i], [s[i]]);
    assert Sum([s[i]]) == s[i].Plus(Sum([]));
  }

  class Fifo {
    const size: nat
    const ar: array<Stats>
    var first: nat

    predicate Valid()
      reads this
    {
      0 < size && ar.Length == size && first < size
    }

    /** The samples, newest first. */
    ghost function View(): (view: seq<Stats>)
      requires Valid()
      reads this, ar
      ensures |view| == size
    {
      ar[first..] + ar[..first]
    }

    constructor (size: nat)
      requires 0 < size
      ensures Valid() && this.size == size && fresh(ar)
      ensures View() == Newest([], size)
    {
      this.size := size;
      ar := new Stats[size](_ => ZERO_STATS);
      first := 0;
    }

    method Push(x: Stats)
      requires Valid()
      modifies this, ar
      ensures Valid()
      ensures View() == [x] + old(View())[..size - 1]
    {
      ghost var view := View();
      if first == 0 {
        first := size - 1;
      } else {
        first := first - 1;
      }
      ar[first] := x;
      assert View() == [x] + view[..size - 1];
    }

    function Get(i: nat): (s: Stats)
      requires Valid() && i < size
      reads this, ar
      ensures s == View()[i]
    {
      var index := first + i;
      ar[if index >= size then index - size else index]
    }

    method RefreshLast(x: Stats)
      requires Valid()
      modifies ar
      ensures Valid()
      ensures View() == [old(View())[0].Plus(x)] + old(View())[1..]
    {
      ghost var view := View();
      ar[first] := ar[first].Plus(x);
      assert View() == [view[0].Plus(x)] + view[1..];
    }

    method Sum(length: nat) returns (sum: Stats)
      requires Valid()
      ensures sum == Data.Sum(View()[..Min(length, size)])
    {
      sum := ZERO_STATS;
      var i := 0;
      while i < size
        invariant 0 <= i <= Min(length, size)
        invariant sum == Data.Sum(View()[..i])
      {
        if i >= length {
          break;
        }
        SumNext(View(), i);
        sum := sum.Plus(Get(i));
        i := i + 1;
      }
    }

    method Avg(length: nat) returns (avg: Stats)
      requires Valid() && 0 < length
      ensures avg == Mean(View()[..Min(length, size)])
    {
      var sum := ZERO_STATS;
      var i := 0;
      while i < size
        invariant 0 <= i <= Min(length, size)
        invariant sum == Data.Sum(View()[..i])
      {
        if i >= length {
          break;
        }
        SumNext(View(), i);
        sum := sum.Plus(Get(i));
        i := i + 1;
      }
      var count := if length > size then size else length;
      avg := Stats(sum.cpu / count as real, TruncDiv(sum.read, count), TruncDiv(sum.write, count));
    }
  }
}
