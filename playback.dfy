/**
 * The playback loop of MainActivity (writeFileToAudioData). While the input
 * stream reports bytes available and playback has not been stopped, each
 * iteration allocates a fresh buffer, reads up to BufferElements samples
 * with readShort, and passes the samples it read to one player.write call:
 * all of them, or, when readShort hit the end of the file, the `write_size`
 * it had fully read. The file is a byte sequence, the output the sequence of
 * write calls, and the stop flag the number of iterations `stopAfter` the
 * loop runs before it sees it.
 */
module Playback {
  import opened Pcm
  import opened Seqs

  /**
   * The write calls of a playback that runs to the end of the file: a full
   * buffer per ChunkBytes bytes, then one call with the samples left.
   */
  function Chunks(file: seq<Byte>): seq<seq<Sample>>
    decreases |file|
  {
    if |file| == 0 then []
    else if |file| >= ChunkBytes then [DecodeSamples(file[..ChunkBytes])] + Chunks(file[ChunkBytes..])
    else [DecodeSamples(file)]
  }

  /** The write calls of a playback stopped after `stopAfter` iterations. */
  function Writes(file: seq<Byte>, stopAfter: nat): seq<seq<Sample>>
  {
    Chunks(file)[..Min(stopAfter, |Chunks(file)|)]
  }

  /**
   * writeFileToAudioData: returns the write calls in order and how many bytes
   * of the file the input stream consumed before it was closed.
   */
  method WriteFileToAudioData(file: seq<Byte>, stopAfter: nat)
    returns (writes: seq<seq<Sample>>, consumed: nat)
    ensures writes == Writes(file, stopAfter)
    ensures consumed == Min(|file|, ChunkBytes * |writes|)
  {
    var pos := 0;
    writes := [];
    while |file| - pos > 0 && |writes| < stopAfter
      invariant pos <= |file|
      invariant |writes| <= stopAfter
      invariant pos == Min(|file|, ChunkBytes * |writes|)
      invariant Chunks(file) == writes + Chunks(file[pos..])
      decreases |file| - pos
    {
      var start := pos;
      var sData, writeSize;
      sData, writeSize, pos := ReadBuffer(file, start);
      NextChunk(file, start, pos, |writes|);
      ghost var rest := Chunks(file[pos..]);
      assert (writes + [sData[..writeSize]]) + rest == writes + ([sData[..writeSize]] + rest);
      writes := writes + [sData[..writeSize]];
    }
    LoopExit(file, stopAfter, writes, pos);
    consumed := pos;
  }

  /** How the loop ends: at the end of the file, or stopped after `stopAfter` iterations. */
  lemma LoopExit(file: seq<Byte>, stopAfter: nat, writes: seq<seq<Sample>>, pos: nat)
    requires pos <= |file| && |writes| <= stopAfter
    requires Chunks(file) == writes + Chunks(file[pos..])
    requires |file| - pos == 0 || |writes| == stopAfter
    ensures writes == Writes(file, stopAfter)
  {
    if |file| - pos == 0 {
      assert Chunks(file[pos..]) == [];
    }
  }

  /**
   * The inner loop of one iteration: a fresh buffer filled by readShort from
   * byte `start` on until it is full or the end of the file is hit;
   * `writeSize` is the number of samples fully read and `pos` where the
   * stream stands afterwards.
   */
  method ReadBuffer(file: seq<Byte>, start: nat) returns (sData: array<Sample>, writeSize: nat, pos: nat)
    requires start <= |file|
    ensures fresh(sData) && sData.Length == BufferElements
    ensures writeSize <= BufferElements
    ensures pos - start == Min(|file| - start, ChunkBytes)
    ensures sData[..writeSize] == DecodeSamples(file[start..pos])
  {
    sData := new Sample[BufferElements](_ => 0);
    writeSize := BufferElements;
    pos := start;
    var i := 0;
    while i < BufferElements
      invariant i <= BufferElements
      invariant pos == start + 2 * i <= |file|
      invariant writeSize == BufferElements
      invariant forall m :: 0 <= m < i ==> sData[m] == DecodeSample(file[start + 2 * m], file[start + 2 * m + 1])
    {
      if |file| - pos < BytesPerElement {
        // readShort throws EOFException; a lone trailing byte is consumed with it
        pos := |file|;
        writeSize := i;
        break;
      }
      sData[i] := DecodeSample(file[pos], file[pos + 1]);
      pos := pos + BytesPerElement;
      i := i + 1;
    }
    DecodedFromPairs(file[start..pos], sData[..writeSize]);
  }

  /** One iteration: the write call passes the samples of the next ChunkBytes bytes, or of all that is left. */
  lemma NextChunk(file: seq<Byte>, start: nat, pos: nat, done: nat)
    requires start == Min(|file|, ChunkBytes * done)
    requires start < pos <= |file|
    requires pos - start == Min(|file| - start, ChunkBytes)
    ensures Chunks(file[start..]) == [DecodeSamples(file[start..pos])] + Chunks(file[pos..])
    ensures pos == Min(|file|, ChunkBytes * (done + 1))
  {
    var f := file[start..];
    assert f[..pos - start] == file[start..pos];
    assert f[pos - start..] == file[pos..];
    if |f| < ChunkBytes {
      assert f[..|f|] == f;
    }
    assert ChunkBytes * (done + 1) == ChunkBytes * done + ChunkBytes;
  }

  /** Every write passes at most BufferElements samples; all but the last pass exactly that many. */
  lemma {:induction false} ChunkSizes(f: seq<Byte>)
    ensures forall i :: 0 <= i < |Chunks(f)| ==> |Chunks(f)[i]| <= BufferElements
    ensures forall i :: 0 <= i < |Chunks(f)| - 1 ==> |Chunks(f)[i]| == BufferElements
    decreases |f|
  {
    if |f| >= ChunkBytes {
      ChunkSizes(f[ChunkBytes..]);
    }
  }

  /** One write call per started buffer of the file; an empty file makes none. */
  lemma {:induction false} ChunkCount(f: seq<Byte>)
    ensures |Chunks(f)| == (|f| + ChunkBytes - 1) / ChunkBytes
    decreases |f|
  {
    if |f| >= ChunkBytes {
      ChunkCount(f[ChunkBytes..]);
    }
  }

  /** The final write passes exactly the samples the end of the file holds: no padding. */
  lemma {:induction false} LastChunk(f: seq<Byte>)
    requires |f| > 0
    ensures |Chunks(f)| > 0
    ensures |f| % ChunkBytes == 0 ==> |Chunks(f)[|Chunks(f)| - 1]| == BufferElements
    ensures |f| % ChunkBytes != 0 ==> |Chunks(f)[|Chunks(f)| - 1]| == (|f| % ChunkBytes) / BytesPerElement
    decreases |f|
  {
    if |f| > ChunkBytes {
      var rest := f[ChunkBytes..];
      LastChunk(rest);
      ModShift(|f|);
      assert Chunks(f) == [DecodeSamples(f[..ChunkBytes])] + Chunks(rest);
      assert Chunks(f)[|Chunks(f)| - 1] == Chunks(rest)[|Chunks(rest)| - 1];
    } else if |f| == ChunkBytes {
      assert Chunks(f) == [DecodeSamples(f[..ChunkBytes])] + Chunks([]);
    } else {
      ModSmall(|f|);
      assert Chunks(f) == [DecodeSamples(f)];
    }
  }

  /**
   * The modular facts LastChunk needs, kept as separate lemmas so that the
   * solver proves them apart from the sequence reasoning: asserted inline,
   * they make LastChunk run out of resource.
   */
  lemma ModSmall(n: nat)
    requires n < ChunkBytes
    ensures n % ChunkBytes == n
  {
  }

  /** See ModSmall: one full buffer less leaves the remainder unchanged. */
  lemma ModShift(n: nat)
    requires n >= ChunkBytes
    ensures (n - ChunkBytes) % ChunkBytes == n % ChunkBytes
  {
  }

  /** A zero-length write happens exactly when one byte follows the last full buffer. */
  lemma EmptyWrite(f: seq<Byte>)
    ensures (exists i :: 0 <= i < |Chunks(f)| && Chunks(f)[i] == []) <==> |f| % ChunkBytes == 1
  {
    ChunkSizes(f);
    if |f| > 0 {
      LastChunk(f);
      if |f| % ChunkBytes == 1 {
        assert Chunks(f)[|Chunks(f)| - 1] == [];
      }
    }
  }

  /** Played to the end, the write calls together pass every sample of the file, in order. */
  lemma {:induction false} ChunksCoverFile(f: seq<Byte>)
    ensures Flatten(Chunks(f)) == DecodeSamples(f)
    decreases |f|
  {
    if |f| >= ChunkBytes {
      ChunksCoverFile(f[ChunkBytes..]);
      assert f == f[..ChunkBytes] + f[ChunkBytes..];
      DecodeSamplesAppend(f[..ChunkBytes], f[ChunkBytes..]);
    } else if |f| > 0 {
      assert Flatten(Chunks(f)) == DecodeSamples(f) + Flatten([]);
    }
  }

  /** Stopped after j iterations, playback has passed exactly the first samples of the file. */
  lemma {:induction false} StoppedPlaysPrefix(f: seq<Byte>, j: nat)
    ensures Flatten(Writes(f, j)) == DecodeSamples(f)[..Min(BufferElements * j, |f| / BytesPerElement)]
    decreases j
  {
    if j == 0 || |f| == 0 {
      assert Writes(f, j) == [];
    } else if |f| < ChunkBytes {
      assert Writes(f, j) == Chunks(f);
      ChunksCoverFile(f);
    } else {
      var rest := f[ChunkBytes..];
      StoppedPlaysPrefix(rest, j - 1);
      assert Writes(f, j) == [DecodeSamples(f[..ChunkBytes])] + Writes(rest, j - 1);
      assert f == f[..ChunkBytes] + rest;
      DecodeSamplesAppend(f[..ChunkBytes], rest);
      assert Flatten(Writes(f, j)) == DecodeSamples(f[..ChunkBytes]) + Flatten(Writes(rest, j - 1));
    }
  }
}
