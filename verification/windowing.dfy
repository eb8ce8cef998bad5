/**
 Cutting data into consecutive, non-overlapping windows: the iterations of
 `for i in range(0, len(data), size)` with `chunk = data[i:i+size]`. Python's
 slice stops at the end of the data, so the last window may be shorter.
 */
module Windowing {

  /** The smaller of two integers: where a Python slice `data[i:i+size]` is cut off at the end. */
  function Min(a: int, b: int): int
  {
    if a <= b then a else b
  }

  /** The windows whose start offsets are `i`, `i + size`, `i + 2*size`, ... below `|data|`. */
  function WindowsFrom<T>(data: seq<T>, size: nat, i: nat): seq<seq<T>>
    requires size > 0
    decreases |data| - i
  {
    if i >= |data| then []
    else [data[i..Min(i + size, |data|)]] + WindowsFrom(data, size, i + size)
  }

  /** All windows of `data`, starting at offset 0. */
  function Windows<T>(data: seq<T>, size: nat): seq<seq<T>>
    requires size > 0
  {
    WindowsFrom(data, size, 0)
  }

  /** The windows joined back together, in order. */
  function Concat<T>(ws: seq<seq<T>>): seq<T>
  {
    if ws == [] then [] else ws[0] + Concat(ws[1..])
  }

  /** Number of windows a `size`-stride range over `n` items visits: `ceil(n / size)`. */
  function WindowCount(n: nat, size: nat): nat
    requires size > 0
  {
    (n + size - 1) / size
  }

  /**
   The windows from offset `i` number just enough to cover the remaining
   `|data| - i` items: `k` windows with `(k - 1) * size < |data| - i <= k * size`,
   and none when nothing remains.
   */
  lemma {:induction false} WindowsFromCover<T>(data: seq<T>, size: nat, i: nat)
    requires size > 0
    ensures i >= |data| ==> WindowsFrom(data, size, i) == []
    ensures i < |data| ==> var k := |WindowsFrom(data, size, i)|;
      (k - 1) * size < |data| - i <= k * size
    decreases |data| - i
  {
    if i < |data| {
      WindowsFromCover(data, size, i + size);
      var k := |WindowsFrom(data, size, i + size)|;
      assert (k + 1) * size == k * size + size;
    }
  }

  /** The unique quotient: `k` is `ceil(n / size)` when `k` windows cover `n` items as tightly as above. */
  lemma CeilingQuotient(n: nat, size: nat, k: nat)
    requires size > 0 && n > 0
    requires (k - 1) * size < n <= k * size
    ensures WindowCount(n, size) == k
  {
    var r := n + size - 1 - k * size;
    assert (k - 1) * size == k * size - size;
    assert 0 <= r < size;
    DivisionUnique(n + size - 1, size, k, r);
  }

  /** Euclidean division has exactly one quotient for a remainder in `[0, d)`. */
  lemma DivisionUnique(x: int, d: int, q: int, r: int)
    requires d > 0 && 0 <= r < d && x == q * d + r
    ensures x / d == q
  {
    var e := x / d - q;
    assert d * e == r - x % d by {
      assert x == d * (x / d) + x % d;
      assert d * (x / d) == d * e + d * q;
    }
    if e >= 1 {
      assert d * e >= d * 1 by { MultiplyMonotone(d, 1, e); }
    } else if e <= -1 {
      assert d * (-e) >= d * 1 by { MultiplyMonotone(d, 1, -e); }
    }
  }

  /** Multiplying by a positive number keeps the order. */
  lemma MultiplyMonotone(d: int, a: int, b: int)
    requires d > 0 && a <= b
    ensures d * a <= d * b
  {
  }

  /** The loop visits `ceil(len(data) / size)` windows. */
  lemma WindowsLength<T>(data: seq<T>, size: nat)
    requires size > 0
    ensures |Windows(data, size)| == WindowCount(|data|, size)
  {
    WindowsFromCover(data, size, 0);
    if |data| > 0 {
      CeilingQuotient(|data|, size, |Windows(data, size)|);
    } else {
      assert WindowCount(0, size) == (size - 1) / size == 0;
    }
  }

  /**
   Every window is non-empty and at most `size` long, and every window but the
   last is exactly `size` long.
   */
  lemma {:induction false} WindowsFromShape<T>(data: seq<T>, size: nat, i: nat)
    requires size > 0
    ensures var ws := WindowsFrom(data, size, i);
      forall k :: 0 <= k < |ws| ==> 0 < |ws[k]| <= size
    ensures var ws := WindowsFrom(data, size, i);
      forall k :: 0 <= k < |ws| - 1 ==> |ws[k]| == size
    decreases |data| - i
  {
    if i < |data| {
      WindowsFromShape(data, size, i + size);
      if i + size < |data| {
        assert WindowsFrom(data, size, i + size) != [];
      }
    }
  }

  /** Shape of all windows of `data`. */
  lemma WindowsShape<T>(data: seq<T>, size: nat)
    requires size > 0
    ensures forall k :: 0 <= k < |Windows(data, size)| ==> 0 < |Windows(data, size)[k]| <= size
    ensures forall k :: 0 <= k < |Windows(data, size)| - 1 ==> |Windows(data, size)[k]| == size
  {
    assert Windows(data, size) == WindowsFrom(data, size, 0);
    WindowsFromShape(data, size, 0);
  }

  /** The windows from offset `i` joined together are the data from offset `i` on. */
  lemma {:induction false} ConcatWindowsFrom<T>(data: seq<T>, size: nat, i: nat)
    requires size > 0 && i <= |data|
    ensures Concat(WindowsFrom(data, size, i)) == data[i..]
    decreases |data| - i
  {
    if i < |data| {
      var j := Min(i + size, |data|);
      var ws := WindowsFrom(data, size, i);
      assert ws[0] == data[i..j];
      assert ws[1..] == WindowsFrom(data, size, i + size);
      if j < |data| {
        ConcatWindowsFrom(data, size, j);
      } else {
        assert WindowsFrom(data, size, i + size) == [];
      }
      assert data[i..] == data[i..j] + data[j..];
    }
  }

  /** Joining the windows in order reproduces the data: nothing lost, nothing repeated. */
  lemma ConcatWindows<T>(data: seq<T>, size: nat)
    requires size > 0
    ensures Concat(Windows(data, size)) == data
  {
    ConcatWindowsFrom(data, size, 0);
  }

  /** Windows are positional: a prefix `a` shifts every later window's offset by `|a|`. */
  lemma {:induction false} WindowsFromShift<T>(a: seq<T>, b: seq<T>, size: nat, j: nat)
    requires size > 0
    ensures WindowsFrom(a + b, size, |a| + j) == WindowsFrom(b, size, j)
    decreases |b| - j
  {
    if j < |b| {
      WindowsFromShift(a, b, size, j + size);
      assert (a + b)[|a| + j..Min(|a| + j + size, |a + b|)] == b[j..Min(j + size, |b|)];
    }
  }

  /** A prefix of exactly one window's length becomes the first window, and the rest is windowed on its own. */
  lemma WindowsOfFullPrefix<T>(a: seq<T>, b: seq<T>, size: nat)
    requires size > 0 && |a| == size
    ensures Windows(a + b, size) == [a] + Windows(b, size)
  {
    WindowsFromShift(a, b, size, 0);
    assert (a + b)[0..Min(size, |a + b|)] == a;
  }

  /** Data no longer than one window is a single window. */
  lemma WindowsOfShort<T>(data: seq<T>, size: nat)
    requires size > 0 && 0 < |data| <= size
    ensures Windows(data, size) == [data]
  {
    assert data[0..Min(size, |data|)] == data;
    assert WindowsFrom(data, size, size) == [];
  }
}
