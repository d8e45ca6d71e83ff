/**
 * The two loops meet only in the file they share: what the capture loop
 * writes, the playback loop reads back buffer for buffer.
 */
module RoundTrip {
  import opened Pcm
  import opened Seqs
  import Capture
  import Playback

  /** A file made of whole encoded buffers is played back one buffer per write call. */
  lemma {:induction false} ChunksOfWholeBuffers(ss: seq<seq<Sample>>)
    requires forall i :: 0 <= i < |ss| ==> |ss[i]| == BufferElements
    ensures Playback.Chunks(EncodeSamples(Flatten(ss))) == ss
  {
    if ss != [] {
      var file := EncodeSamples(Flatten(ss));
      EncodeSamplesAppend(ss[0], Flatten(ss[1..]));
      assert file[..ChunkBytes] == EncodeSamples(ss[0]);
      assert file[ChunkBytes..] == EncodeSamples(Flatten(ss[1..]));
      DecodeEncode(ss[0]);
      ChunksOfWholeBuffers(ss[1..]);
    }
  }

  /**
   * Playing back the file that k capture iterations wrote issues k write
   * calls, the i-th passing exactly the buffer the i-th iteration wrote.
   */
  lemma CaptureThenPlay(rs: seq<seq<Sample>>)
    requires Capture.AllFit(rs)
    ensures Playback.Writes(Capture.Recorded(rs), |rs|) == Capture.Frames(rs)
  {
    ChunksOfWholeBuffers(Capture.Frames(rs));
  }
}
