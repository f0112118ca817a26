/** Shared vocabulary: results, bytes, byte strings and sums over sequences. */
module Common {

  datatype Option<+T> = None | Some(value: T)

  datatype Result<+T, +E> = Ok(value: T) | Err(error: E)

  type Byte = x: int | 0 <= x < 256

  type Bytes = seq<Byte>

  function Min(a: int, b: int): int {
    if a <= b then a else b
  }

  function Max(a: int, b: int): int {
    if a >= b then a else b
  }

  /** The concatenation of a sequence of sequences. */
  function Concat<T>(parts: seq<seq<T>>): seq<T> {
    if parts == [] then [] else parts[0] + Concat(parts[1..])
  }

  lemma {:induction false} ConcatSplit<T>(a: seq<seq<T>>, b: seq<seq<T>>)
    ensures Concat(a + b) == Concat(a) + Concat(b)
  {
    if a == [] {
      assert a + b == b;
    } else {
      var rest := a[1..];
      assert (a + b)[0] == a[0] && (a + b)[1..] == rest + b;
      ConcatSplit(rest, b);
      assert a[0] + (Concat(rest) + Concat(b)) == a[0] + Concat(rest) + Concat(b);
    }
  }

  lemma ConcatSnoc<T>(a: seq<seq<T>>, last: seq<T>)
    ensures Concat(a + [last]) == Concat(a) + last
  {
    ConcatSplit(a, [last]);
    assert Concat([last]) == last + Concat<T>([]);
  }

  function Sum(xs: seq<nat>): nat {
    if xs == [] then 0 else xs[0] + Sum(xs[1..])
  }

  lemma {:induction false} SumSplit(a: seq<nat>, b: seq<nat>)
    ensures Sum(a + b) == Sum(a) + Sum(b)
  {
    if a == [] {
      assert a + b == b;
    } else {
      SumSplit(a[1..], b);
      assert (a + b)[1..] == a[1..] + b;
    }
  }

  lemma SumSnoc(a: seq<nat>, x: nat)
    ensures Sum(a + [x]) == Sum(a) + x
  {
    SumSplit(a, [x]);
    assert Sum([x]) == x + Sum([]);
  }

  lemma {:induction false} SumUpdate(a: seq<nat>, i: nat, x: nat)
    requires i < |a|
    ensures Sum(a[i := x]) == Sum(a) - a[i] + x
  {
    if i == 0 {
      assert a[i := x][1..] == a[1..];
    } else {
      SumUpdate(a[1..], i - 1, x);
      assert a[i := x][1..] == a[1..][i - 1 := x];
    }
  }

  /** The integers from start to end. */
  function Interval(start: int, end: int): (s: seq<int>)
    ensures |s| == if start <= end then end - start + 1 else 0
    ensures forall i :: 0 <= i < |s| ==> s[i] == start + i
    decreases end - start
  {
    if start > end then [] else Interval(start, end - 1) + [end]
  }

  function Take<T>(s: seq<T>, n: nat): seq<T> {
    s[..Min(|s|, n)]
  }

  lemma TakeMore<T>(s: seq<T>, last: T, n: nat)
    ensures Take(s + [last], n) == if |s| < n then Take(s, n) + [last] else Take(s, n)
  {
  }

  /** Once n elements are there, going further along an interval makes no difference to the first n. */
  lemma TakeFull(seen: seq<int>, start: int, mid: int, end: int, n: nat)
    requires start - 1 <= mid <= end && |seen + Interval(start, mid)| >= n
    ensures Take(seen + Interval(start, end), n) == Take(seen + Interval(start, mid), n)
    ensures |seen + Interval(start, end)| >= n
  {
    assert seen + Interval(start, mid) <= seen + Interval(start, end);
  }
}
