/**
 * The capture loop of MainActivity (writeAudioDataToFile). One buffer of
 * BufferElements samples is allocated once, zero-filled, and reused: each
 * iteration lets the device overwrite a prefix of it (recorder.read), ignores
 * how many samples the device delivered, and appends ALL BufferElements
 * samples of the buffer to the file with writeShort. The stop flag is
 * modelled by the number of iterations k the loop runs before it sees it.
 */
module Capture {
  import opened Pcm
  import opened Seqs

  /** A device read stores at most BufferElements samples (an error return stores none). */
  predicate Fits(r: seq<Sample>)
  {
    |r| <= BufferElements
  }

  predicate AllFit(rs: seq<seq<Sample>>)
  {
    forall i :: 0 <= i < |rs| ==> Fits(rs[i])
  }

  /** The freshly allocated Java `short[]`. */
  function Zeros(): (b: seq<Sample>)
    ensures |b| == BufferElements
    ensures forall j :: 0 <= j < |b| ==> b[j] == 0
  {
    seq(BufferElements, _ => 0)
  }

  /** What one read leaves in the buffer: `r` in front, the old tail behind it. */
  function Overlay(buf: seq<Sample>, r: seq<Sample>): (b: seq<Sample>)
    requires |r| <= |buf|
    ensures |b| == |buf|
    ensures forall j :: 0 <= j < |r| ==> b[j] == r[j]
    ensures forall j :: |r| <= j < |buf| ==> b[j] == buf[j]
  {
    r + buf[|r|..]
  }

  /** The reused buffer after the reads `rs`, in order. */
  function BufferAfter(rs: seq<seq<Sample>>): (b: seq<Sample>)
    requires AllFit(rs)
    ensures |b| == BufferElements
    decreases |rs|
  {
    if rs == [] then Zeros()
    else Overlay(BufferAfter(rs[..|rs| - 1]), rs[|rs| - 1])
  }

  /** The buffer contents written out by each iteration, one frame per read. */
  function Frames(rs: seq<seq<Sample>>): (fs: seq<seq<Sample>>)
    requires AllFit(rs)
    ensures |fs| == |rs|
    ensures forall i :: 0 <= i < |fs| ==> |fs[i]| == BufferElements
    decreases |rs|
  {
    if rs == [] then []
    else Frames(rs[..|rs| - 1]) + [BufferAfter(rs)]
  }

  /** The file after the loop has run once per read in `rs`. */
  function Recorded(rs: seq<seq<Sample>>): seq<Byte>
    requires AllFit(rs)
  {
    EncodeSamples(Flatten(Frames(rs)))
  }

  /** recorder.read(sData, 0, BufferElement2Rec): the device stores `r` at the front of the buffer. */
  method DeviceRead(buf: array<Sample>, r: seq<Sample>)
    requires |r| <= buf.Length
    modifies buf
    ensures buf[..] == Overlay(old(buf[..]), r)
  {
    forall j | 0 <= j < |r| {
      buf[j] := r[j];
    }
  }

  /**
   * writeAudioDataToFile: `deviceReads` are the device's reads in order; the loop
   * sees the stop flag after `k` of them.
   */
  method WriteAudioDataToFile(deviceReads: seq<seq<Sample>>, k: nat) returns (file: seq<Byte>)
    requires AllFit(deviceReads)
    requires k <= |deviceReads|
    ensures file == Recorded(deviceReads[..k])
  {
    var sData := new Sample[BufferElements](_ => 0);
    file := [];
    var n := 0;
    assert sData[..] == Zeros();
    while n < k
      invariant n <= k
      invariant AllFit(deviceReads[..n])
      invariant sData[..] == BufferAfter(deviceReads[..n])
      invariant file == Recorded(deviceReads[..n])
    {
      DeviceRead(sData, deviceReads[n]);
      assert deviceReads[..n + 1] == deviceReads[..n] + [deviceReads[n]];
      assert deviceReads[..n + 1][..n] == deviceReads[..n];
      assert sData[..] == BufferAfter(deviceReads[..n + 1]);
      file := WriteBuffer(file, sData);
      RecordedSnoc(deviceReads[..n + 1]);
      n := n + 1;
    }
  }

  /** The inner loop: writeShort for every slot of the buffer, read or not. */
  method WriteBuffer(os: seq<Byte>, sData: array<Sample>) returns (file: seq<Byte>)
    ensures file == os + EncodeSamples(sData[..])
  {
    file := os;
    for i := 0 to sData.Length
      invariant file == os + EncodeSamples(sData[..i])
    {
      assert sData[..i + 1] == sData[..i] + [sData[i]];
      EncodeSamplesAppend(sData[..i], [sData[i]]);
      assert EncodeSamples([sData[i]]) == EncodeSample(sData[i]);
      file := file + EncodeSample(sData[i]);
    }
    assert sData[..sData.Length] == sData[..];
  }

  /** One more iteration appends the encoding of the buffer after the new read. */
  lemma RecordedSnoc(rs: seq<seq<Sample>>)
    requires AllFit(rs) && rs != []
    ensures AllFit(rs[..|rs| - 1])
    ensures Recorded(rs) == Recorded(rs[..|rs| - 1]) + EncodeSamples(BufferAfter(rs))
  {
    var init := rs[..|rs| - 1];
    FlattenSnoc(Frames(init), BufferAfter(rs));
    EncodeSamplesAppend(Flatten(Frames(init)), BufferAfter(rs));
  }

  /** Every iteration writes a full buffer whatever the read returned: 2048 bytes per iteration. */
  lemma {:induction false} RecordedLength(rs: seq<seq<Sample>>)
    requires AllFit(rs)
    ensures |Recorded(rs)| == ChunkBytes * |rs|
  {
    FramesLength(rs);
  }

  lemma {:induction false} FramesLength(rs: seq<seq<Sample>>)
    requires AllFit(rs)
    ensures |Flatten(Frames(rs))| == BufferElements * |rs|
    decreases |rs|
  {
    if rs != [] {
      var init := rs[..|rs| - 1];
      FramesLength(init);
      FlattenSnoc(Frames(init), BufferAfter(rs));
    }
  }

  /** Frame i is the buffer after the first i+1 reads. */
  lemma {:induction false} FramesAt(rs: seq<seq<Sample>>, i: nat)
    requires AllFit(rs) && i < |rs|
    ensures AllFit(rs[..i + 1])
    ensures Frames(rs)[i] == BufferAfter(rs[..i + 1])
    decreases |rs|
  {
    if i < |rs| - 1 {
      var init := rs[..|rs| - 1];
      assert init[..i + 1] == rs[..i + 1];
      FramesAt(init, i);
    } else {
      assert rs[..i + 1] == rs;
    }
  }

  /**
   * Slot j of frame i holds read i's sample when that read reached slot j;
   * otherwise it keeps the value of the previous frame (zero before the
   * first), which is written again.
   */
  lemma FrameSlot(rs: seq<seq<Sample>>, i: nat, j: nat)
    requires AllFit(rs) && i < |rs| && j < BufferElements
    ensures j < |rs[i]| ==> Frames(rs)[i][j] == rs[i][j]
    ensures |rs[i]| <= j && i == 0 ==> Frames(rs)[i][j] == 0
    ensures |rs[i]| <= j && i > 0 ==> Frames(rs)[i][j] == Frames(rs)[i - 1][j]
  {
    FramesAt(rs, i);
    var prefix := rs[..i + 1];
    assert prefix[..i] == rs[..i];
    assert prefix[i] == rs[i];
    if i > 0 {
      FramesAt(rs, i - 1);
      assert rs[..i - 1 + 1] == rs[..i];
    }
  }

  /** When every read fills the buffer, the frames are exactly the reads. */
  lemma {:induction false} FullReadsFrames(rs: seq<seq<Sample>>)
    requires forall i :: 0 <= i < |rs| ==> |rs[i]| == BufferElements
    ensures AllFit(rs)
    ensures Frames(rs) == rs
    decreases |rs|
  {
    if rs != [] {
      var init, last := rs[..|rs| - 1], rs[|rs| - 1];
      assert forall i :: 0 <= i < |init| ==> init[i] == rs[i];
      FullReadsFrames(init);
      var prev := BufferAfter(init);
      assert BufferAfter(rs) == last + prev[|last|..];
      assert prev[|last|..] == [];
      assert BufferAfter(rs) == last;
      assert Frames(rs) == Frames(init) + [last];
      assert rs == init + [last];
    }
  }

  /** When every read fills the buffer, the file holds exactly the samples read. */
  lemma FullReadsRecorded(rs: seq<seq<Sample>>)
    requires forall i :: 0 <= i < |rs| ==> |rs[i]| == BufferElements
    ensures AllFit(rs)
    ensures Recorded(rs) == EncodeSamples(Flatten(rs))
  {
    FullReadsFrames(rs);
  }

  /** Decoding the captured file gives back every frame's samples in order. */
  lemma RecordedRoundTrip(rs: seq<seq<Sample>>)
    requires AllFit(rs)
    ensures DecodeSamples(Recorded(rs)) == Flatten(Frames(rs))
  {
    DecodeEncode(Flatten(Frames(rs)));
  }
}
