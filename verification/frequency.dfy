/**
 Byte-frequency tables, the counting half of the entropy tool.

 `Tally` is the counting loop of `calculate_entropy` (each byte, in order,
 bumps its entry by one); `ChunkTable` is the comprehension that
 `display_histogram` builds for every window (one entry per distinct byte,
 holding that byte's `count`). The two are shown to be the same table.
 */
module Frequency {

  /** A byte as Python yields it when iterating over `bytes`: an int in [0, 256). */
  type byte = b: int | 0 <= b < 256

  /** A frequency table: byte value to number of occurrences. */
  type Table = map<byte, nat>

  /** Python's `set(data)`: the byte values that occur in `data`. */
  function Elements(data: seq<byte>): set<byte>
  {
    set b | b in data
  }

  /** Python's `data.count(b)`: how often `b` occurs in `data`. */
  function Occurrences(data: seq<byte>, b: byte): nat
  {
    multiset(data)[b]
  }

  /** Python's `t.get(b, 0)`. */
  function Get(t: Table, b: byte): nat
  {
    if b in t then t[b] else 0
  }

  /**
   The counting loop `for byte in data: byte_freq[byte] = byte_freq.get(byte, 0) + 1`,
   written as the table after the last iteration in terms of the table before it.
   Its keys are exactly the byte values present, and each entry is that byte's count.
   */
  function Tally(data: seq<byte>): (t: Table)
    ensures t.Keys == Elements(data)
    ensures forall b :: b in t ==> t[b] == Occurrences(data, b)
    ensures forall b :: b in t ==> t[b] >= 1
    decreases |data|
  {
    if |data| == 0 then map[]
    else
      var prefix := data[..|data| - 1];
      var last := data[|data| - 1];
      assert data == prefix + [last];
      var t0 := Tally(prefix);
      t0[last := Get(t0, last) + 1]
  }

  /** The per-window comprehension `{byte: chunk.count(byte) for byte in set(chunk)}`. */
  function ChunkTable(chunk: seq<byte>): Table
  {
    map b | b in Elements(chunk) :: Occurrences(chunk, b)
  }

  /** The sum of the entries of `t` for byte values `lo` through 255; absent bytes add 0. */
  function CountTotal(t: Table, lo: nat): nat
    decreases 256 - lo
  {
    if lo >= 256 then 0 else Get(t, lo) + CountTotal(t, lo + 1)
  }

  /** The comprehension builds the same table as the counting loop. */
  lemma ChunkTableIsTally(chunk: seq<byte>)
    ensures ChunkTable(chunk) == Tally(chunk)
  {
    var c, t := ChunkTable(chunk), Tally(chunk);
    assert c.Keys == t.Keys;
    assert forall b :: b in c ==> c[b] == t[b];
  }

  /** An empty table totals 0. */
  lemma {:induction false} CountTotalEmpty(lo: nat)
    ensures CountTotal(map[], lo) == 0
    decreases 256 - lo
  {
    if lo < 256 {
      CountTotalEmpty(lo + 1);
    }
  }

  /** Bumping one entry by one adds one to every running total that covers it. */
  lemma {:induction false} CountTotalBump(t: Table, x: byte, lo: nat)
    ensures CountTotal(t[x := Get(t, x) + 1], lo) == CountTotal(t, lo) + (if lo <= x then 1 else 0)
    decreases 256 - lo
  {
    if lo < 256 {
      CountTotalBump(t, x, lo + 1);
    }
  }

  /** The counts of the table add up to the length of the data. */
  lemma {:induction false} TallyTotal(data: seq<byte>)
    ensures CountTotal(Tally(data), 0) == |data|
    decreases |data|
  {
    if |data| > 0 {
      var prefix := data[..|data| - 1];
      var last := data[|data| - 1];
      assert Tally(data) == Tally(prefix)[last := Get(Tally(prefix), last) + 1];
      TallyTotal(prefix);
      CountTotalBump(Tally(prefix), last, 0);
    } else {
      CountTotalEmpty(0);
    }
  }

  /** No byte occurs more often than the data is long. */
  lemma {:induction false} OccurrencesAtMost(data: seq<byte>, b: byte)
    ensures Occurrences(data, b) <= |data|
    decreases |data|
  {
    if |data| > 0 {
      var prefix := data[..|data| - 1];
      assert data == prefix + [data[|data| - 1]];
      OccurrencesAtMost(prefix, b);
    }
  }

  /** Data made of one repeated byte value gives a one-entry table holding the length. */
  lemma {:induction false} TallyOfRepeated(data: seq<byte>, x: byte)
    requires |data| > 0
    requires forall i :: 0 <= i < |data| ==> data[i] == x
    ensures Tally(data) == map[x := |data|]
    decreases |data|
  {
    var prefix := data[..|data| - 1];
    assert data == prefix + [x];
    if |prefix| == 0 {
      assert data == [x];
    } else {
      TallyOfRepeated(prefix, x);
    }
  }
}
