/**
 The entropy profile drawn by the tool: one entropy value per 1024-byte
 window, in window order. Plotting the values is not modelled.
 */
module Profile {
  import opened Frequency
  import opened Probability
  import opened Entropy
  import opened Windowing

  /** The window length the tool uses. */
  const WindowSize: nat := 1024

  /** The entropy of each window, in order. */
  function EntropiesOf(ws: seq<seq<byte>>, log2: real -> real): (es: seq<real>)
    ensures |es| == |ws|
  {
    seq(|ws|, k requires 0 <= k < |ws| => ChunkEntropy(ws[k], log2))
  }

  /** The profile of `data`: the entropies of its 1024-byte windows. */
  function EntropyProfile(data: seq<byte>, log2: real -> real): seq<real>
  {
    EntropiesOf(Windows(data, WindowSize), log2)
  }

  /**
   The loop of the histogram routine: walks the window offsets 0, 1024, 2048, ...
   below `|data|`, takes the window at each, and appends its entropy.
   */
  method ComputeProfile(data: seq<byte>, log2: real -> real) returns (values: seq<real>)
    ensures values == EntropyProfile(data, log2)
    ensures |values| == WindowCount(|data|, WindowSize)
  {
    values := [];
    ghost var done: seq<seq<byte>> := [];
    var i := 0;
    while i < |data|
      invariant Windows(data, WindowSize) == done + WindowsFrom(data, WindowSize, i)
      invariant values == EntropiesOf(done, log2)
      decreases |data| - i
    {
      var chunk := data[i..Min(i + WindowSize, |data|)];
      var chunkEntropy := ChunkEntropy(chunk, log2);
      values := values + [chunkEntropy];
      done := done + [chunk];
      i := i + WindowSize;
    }
    assert WindowsFrom(data, WindowSize, i) == [];
    WindowsLength(data, WindowSize);
  }

  /** Empty data gives an empty profile. */
  lemma ProfileOfEmpty(log2: real -> real)
    ensures EntropyProfile([], log2) == []
  {
  }

  /** Data no longer than one window has the whole-data entropy as its only value. */
  lemma ProfileOfShort(data: seq<byte>, log2: real -> real)
    requires 0 < |data| <= WindowSize
    ensures EntropyProfile(data, log2) == [GlobalEntropy(data, log2)]
  {
    WindowsOfShort(data, WindowSize);
    ChunkEntropyIsGlobalEntropy(data, log2);
  }

  /** A full first window contributes its own entropy, followed by the profile of the rest. */
  lemma ProfileOfFullPrefix(a: seq<byte>, b: seq<byte>, log2: real -> real)
    requires |a| == WindowSize
    ensures EntropyProfile(a + b, log2) == [ChunkEntropy(a, log2)] + EntropyProfile(b, log2)
  {
    WindowsOfFullPrefix(a, b, WindowSize);
  }

  /**
   1024 copies of one byte followed by 1024 bytes that hold every byte value
   four times: the profile is `[0, -log2(1/256)]`, that is, 0 bits then 8 bits.
   */
  lemma ProfileOfRepeatedThenUniform(a: seq<byte>, b: seq<byte>, x: byte, log2: real -> real)
    requires |a| == WindowSize
    requires forall i :: 0 <= i < |a| ==> a[i] == x
    requires forall v: byte :: Occurrences(b, v) == 4
    requires log2(1.0) == 0.0
    ensures |EntropyProfile(a + b, log2)| == 2
    ensures EntropyProfile(a + b, log2)[0] == 0.0
    ensures EntropyProfile(a + b, log2)[1] == -log2(1.0 / 256.0)
  {
    assert ChunkEntropy(a, log2) == 0.0 by {
      ChunkEntropyIsGlobalEntropy(a, log2);
      EntropyOfRepeated(a, x, log2);
    }
    UniformLength(b, 4);
    EntropyOfUniform(b, 4, log2);
    ProfileOfTwoWindows(a, b, log2);
  }

  /** A full window followed by a remainder of at most one window gives a two-value profile. */
  lemma ProfileOfTwoWindows(a: seq<byte>, b: seq<byte>, log2: real -> real)
    requires |a| == WindowSize && 0 < |b| <= WindowSize
    ensures EntropyProfile(a + b, log2) == [ChunkEntropy(a, log2), GlobalEntropy(b, log2)]
  {
    ProfileOfFullPrefix(a, b, log2);
    ProfileOfShort(b, log2);
  }
}
