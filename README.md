# Raw-PCM record/playback core of the Audio-App demo, in Dafny

The demo's `MainActivity` records microphone audio into a headerless file of
16-bit signed samples and plays that file back, toggled by a Record and a
Play button. This project models its three pieces of logic:

- **The sample format** (`pcm.dfy`, module `Pcm`). Each sample is written by
  `DataOutputStream.writeShort` (two bytes, high byte first, two's complement)
  and read by `DataInputStream.readShort`. Samples are a Java `short` subset
  type and bytes are 0..255. The whole-file encoder and decoder are proved
  inverse, and a lone trailing byte is dropped on decoding.
- **The capture loop** (`capture.dfy`, module `Capture`, method
  `WriteAudioDataToFile`). One zero-filled `array` of 1024 samples
  (`BufferElement2Rec`) is allocated once and reused. Each iteration the
  device overwrites a prefix of it, and then all 1024 slots are appended to
  the file whatever the read returned. The device is a sequence of reads, and
  the stop flag is the number `k` of iterations run. The result is proved
  equal to `Recorded(reads[..k])`, the encoding of the buffer contents after
  each read.
- **The playback loop** (`playback.dfy`, module `Playback`, method
  `WriteFileToAudioData`). While bytes remain and the loop has not been
  stopped, a fresh buffer is filled by `readShort` until it is full or the end
  of the file. One `player.write` then passes the `write_size` samples fully
  read. The file is a byte sequence, the device the sequence of write calls,
  and the stop flag the number `stopAfter` of iterations run. The result is
  proved equal to a prefix of `Chunks(file)`. Lemmas give the chunk sizes, the
  call count, the unpadded final write, the zero-length write and full
  coverage of the file.
- **Capture then playback** (`roundtrip.dfy`): playing back a captured file
  issues one write call per capture iteration, each passing exactly the
  buffer that iteration wrote.
- **The button state machine** (`activity.dfy`, module `Activity`). The
  fields `mStartRecording`, `mStartPlaying`, `recorder`, `player`,
  `audioThread` and the two buttons' enabled state are fields of class
  `MainActivity`. Its methods mirror `onClick`, `onRecord`, `onPlay`,
  `startRecording`, `stopRecording`, `startPlaying` and `stopPlaying`. Each
  method's new state is given by a transition function on the value type
  `Ui`. Lemmas about `Ui` show that every event sequence keeps an invariant:
  the recorder and player handles are never both set, and a button is
  disabled exactly while the other pipeline holds its device. A third Play
  click during playback starts playing again over the player already set
  (`PlayRestartWhilePlaying`).

`seqs.dfy` holds `Flatten` and `Min`.

Two behaviours of the code that the model keeps:
- Samples are big-endian, high byte first, because `writeShort` and
  `readShort` are (MainActivity.java:149, 187).
- Stopping a pipeline that never started is not a no-op. `stopRecording` with
  no recorder still re-enables Play. `stopPlaying` with no player still
  re-enables Record and sets `mStartPlaying`. Only the handles are left
  untouched (`StopRecordingResets`, `StopPlayingResets`).

## Model

| member | source | states |
|---|---|---|
| `Pcm.EncodeSample` | app/src/main/java/mwang/soundapp/MainActivity.java:149 | writeShort emits two bytes whose big-endian value is the sample's 16-bit two's complement pattern; the high byte is at least 0x80 exactly for negative samples |
| `Pcm.DecodeSample` | app/src/main/java/mwang/soundapp/MainActivity.java:187 | readShort's `(short)` cast yields the sample whose 16-bit pattern is `hi*256+lo`; it is negative exactly when bit 15 is set |
| `Pcm.SampleRoundTrip` | app/src/main/java/mwang/soundapp/MainActivity.java:149 | reading back the two bytes written for a sample gives that sample |
| `Pcm.BytesRoundTrip` | app/src/main/java/mwang/soundapp/MainActivity.java:187 | writing the sample read from two bytes gives those two bytes |
| `Pcm.EncodeSamples` | app/src/main/java/mwang/soundapp/MainActivity.java:148-150 | a sequence of writeShort calls writes two bytes per sample |
| `Pcm.DecodeSamples` | app/src/main/java/mwang/soundapp/MainActivity.java:185-190 | readShort until end of file yields floor(bytes/2) samples; a lone trailing byte makes none |
| `Pcm.EncodeSamplesAt` | app/src/main/java/mwang/soundapp/MainActivity.java:148-150 | sample i of the file is stored in bytes 2i (high) and 2i+1 (low) |
| `Pcm.DecodeSamplesAt` | app/src/main/java/mwang/soundapp/MainActivity.java:185-187 | the i-th readShort returns the sample of bytes 2i and 2i+1 |
| `Pcm.DecodedFromPairs` | app/src/main/java/mwang/soundapp/MainActivity.java:185-187 | a buffer that agrees pair by pair with the bytes read is their decoding |
| `Pcm.EncodeSamplesAppend` | app/src/main/java/mwang/soundapp/MainActivity.java:145-150 | appending samples appends their encodings: the file grows by concatenation |
| `Pcm.DecodeSamplesAppend` | app/src/main/java/mwang/soundapp/MainActivity.java:182-187 | reading an even-length part then the rest gives the concatenated samples |
| `Pcm.DecodeEncode` | app/src/main/java/mwang/soundapp/MainActivity.java:149 | readShort over a file written by writeShort returns the same samples in the same order |
| `Pcm.EncodeDecode` | app/src/main/java/mwang/soundapp/MainActivity.java:187 | every even-length file is exactly the encoding of the samples read from it |
| `Pcm.ExtremesScenario` | app/src/main/java/mwang/soundapp/MainActivity.java:149 | the samples 1, -1, 32767, -32768, 0 encode to the ten bytes 00 01 FF FF 7F FF 80 00 00 00, and those bytes decode back to the five samples |
| `Capture.Zeros` | app/src/main/java/mwang/soundapp/MainActivity.java:133 | the capture buffer starts as 1024 zero samples |
| `Capture.Overlay` | app/src/main/java/mwang/soundapp/MainActivity.java:146 | after a read, the slots the read reached hold its samples and all other slots keep their old values |
| `Capture.BufferAfter` | app/src/main/java/mwang/soundapp/MainActivity.java:133 | the reused buffer always holds exactly 1024 samples |
| `Capture.Frames` | app/src/main/java/mwang/soundapp/MainActivity.java:145-150 | each iteration writes one frame of exactly 1024 samples, one frame per read |
| `Capture.DeviceRead` | app/src/main/java/mwang/soundapp/MainActivity.java:146 | recorder.read stores its samples at the front of the buffer and leaves the rest unchanged |
| `Capture.WriteAudioDataToFile` | app/src/main/java/mwang/soundapp/MainActivity.java:130-154 | after k iterations the file is the concatenated big-endian encodings of the buffer contents after each of the first k reads |
| `Capture.RecordedSnoc` | app/src/main/java/mwang/soundapp/MainActivity.java:145-150 | one more iteration appends exactly the encoding of the buffer after the new read |
| `Capture.RecordedLength` | app/src/main/java/mwang/soundapp/MainActivity.java:47-48 | k iterations write 2048·k bytes, whatever each read returned |
| `Capture.FramesLength` | app/src/main/java/mwang/soundapp/MainActivity.java:148-150 | k iterations write 1024·k samples |
| `Capture.FramesAt` | app/src/main/java/mwang/soundapp/MainActivity.java:133 | frame i is the buffer after the first i+1 reads, so the buffer is never reset between iterations |
| `Capture.FrameSlot` | app/src/main/java/mwang/soundapp/MainActivity.java:146-149 | a slot the read reached holds the read's sample; any other slot repeats the previous frame's value (zero in the first frame) and is written again |
| `Capture.WriteBuffer` | app/src/main/java/mwang/soundapp/MainActivity.java:148-150 | the inner loop appends the encoding of all 1024 buffer slots, in slot order |
| `Capture.FullReadsFrames` | app/src/main/java/mwang/soundapp/MainActivity.java:146-149 | when every read fills the buffer, each frame is exactly its read |
| `Capture.FullReadsRecorded` | app/src/main/java/mwang/soundapp/MainActivity.java:146-150 | when every read fills the buffer, the file is exactly the encoding of all samples read |
| `Capture.RecordedRoundTrip` | app/src/main/java/mwang/soundapp/MainActivity.java:149 | decoding the captured file gives the written frames' samples in order |
| `Playback.WriteFileToAudioData` | app/src/main/java/mwang/soundapp/MainActivity.java:167-199 | the write calls are the first min(stopAfter, all) file chunks; the stream has consumed min(file length, 2048 × calls) bytes |
| `Playback.LoopExit` | app/src/main/java/mwang/soundapp/MainActivity.java:182 | the loop stops when the file is used up (all chunks written) or when stopped after stopAfter iterations (that prefix written) |
| `Playback.ReadBuffer` | app/src/main/java/mwang/soundapp/MainActivity.java:183-194 | a fresh buffer filled until full or end of file: it consumes min(remaining, 2048) bytes, including a lone trailing byte, and `write_size` counts the samples fully read |
| `Playback.NextChunk` | app/src/main/java/mwang/soundapp/MainActivity.java:182-195 | one iteration turns the next min(remaining, 2048) bytes into one write call and leaves the rest for later iterations |
| `Playback.ChunkSizes` | app/src/main/java/mwang/soundapp/MainActivity.java:183-195 | every write passes at most 1024 samples, and every write but the last passes exactly 1024 |
| `Playback.ChunkCount` | app/src/main/java/mwang/soundapp/MainActivity.java:182 | a file of n bytes gives ceil(n/2048) write calls; an empty file gives none |
| `Playback.LastChunk` | app/src/main/java/mwang/soundapp/MainActivity.java:184-190 | the final write passes exactly the samples left: 1024 when the length is a multiple of 2048, otherwise (n mod 2048)/2; it is never padded |
| `Playback.EmptyWrite` | app/src/main/java/mwang/soundapp/MainActivity.java:188-195 | some write passes zero samples exactly when the file length is 1 modulo 2048 (a lone byte starts a chunk) |
| `Playback.ChunksCoverFile` | app/src/main/java/mwang/soundapp/MainActivity.java:182-195 | played to the end, the writes together pass every sample of the file in order and nothing else |
| `Playback.StoppedPlaysPrefix` | app/src/main/java/mwang/soundapp/MainActivity.java:182 | stopped after j iterations, the writes pass exactly the first min(1024·j, n/2) samples of the file |
| `RoundTrip.ChunksOfWholeBuffers` | app/src/main/java/mwang/soundapp/MainActivity.java:148-149 | a file of whole encoded 1024-sample buffers plays back one buffer per write call |
| `RoundTrip.CaptureThenPlay` | app/src/main/java/mwang/soundapp/MainActivity.java:145-195 | playing back the file from k capture iterations makes k writes, the i-th passing the buffer the i-th iteration wrote |
| `Activity.Ui.Handle` | app/src/main/java/mwang/soundapp/MainActivity.java:272-293 | delivering a click or the playback-finished event keeps the state invariant |
| `Activity.Initial` | app/src/main/java/mwang/soundapp/MainActivity.java:34-38 | at launch no recorder, player or worker is set, and the state invariant holds |
| `Activity.RunKeepsValid` | app/src/main/java/mwang/soundapp/MainActivity.java:214-235 | every sequence of clicks and playback-finished events keeps the state invariant |
| `Activity.NeverRecordAndPlay` | app/src/main/java/mwang/soundapp/MainActivity.java:93-107 | from launch, no sequence of events has a recorder and a player set together |
| `Activity.RecordClick` | app/src/main/java/mwang/soundapp/MainActivity.java:79-84 | a record click flips mStartRecording; it starts a recording exactly when none runs; Play is enabled exactly when no recording runs |
| `Activity.RecordBlockedWhilePlaying` | app/src/main/java/mwang/soundapp/MainActivity.java:107 | while a player is set the Record button is disabled, so record clicks change nothing |
| `Activity.PlayClickWhilePlaying` | app/src/main/java/mwang/soundapp/MainActivity.java:283-290 | a play click while mStartPlaying is false only sets the flag again; every other field, the player and Record's disabled state included, is unchanged |
| `Activity.PlayRestartWhilePlaying` | app/src/main/java/mwang/soundapp/MainActivity.java:106-126 | a play click with mStartPlaying set runs startPlaying even while a player is still set, and clears the flag |
| `Activity.RestartReachable` | app/src/main/java/mwang/soundapp/MainActivity.java:283-290 | two play clicks from launch leave the player set, mStartPlaying set and Play enabled, so a third click restarts playback |
| `Activity.StopPlayingResets` | app/src/main/java/mwang/soundapp/MainActivity.java:225-235 | stopPlaying always sets mStartPlaying and enables Record; it nulls the player if one is set and otherwise leaves the handles alone |
| `Activity.StopRecordingResets` | app/src/main/java/mwang/soundapp/MainActivity.java:214-222 | stopRecording always enables Play; it nulls the recorder if one is set and otherwise leaves the handles alone |
| `Activity.MainActivity.constructor` | app/src/main/java/mwang/soundapp/MainActivity.java:34-38 | the fields start as declared and both buttons are enabled |
| `Activity.MainActivity.StartRecording` | app/src/main/java/mwang/soundapp/MainActivity.java:93-103 | Play is disabled, and the recorder and the worker are set |
| `Activity.MainActivity.StopRecording` | app/src/main/java/mwang/soundapp/MainActivity.java:214-222 | the recorder and the worker are cleared if a recorder is set, and Play is enabled |
| `Activity.MainActivity.StartPlaying` | app/src/main/java/mwang/soundapp/MainActivity.java:106-127 | Record is disabled, and the player and the worker are set |
| `Activity.MainActivity.StopPlaying` | app/src/main/java/mwang/soundapp/MainActivity.java:225-235 | the player and the worker are cleared if a player is set, Record is enabled, and mStartPlaying is set |
| `Activity.MainActivity.OnRecord` | app/src/main/java/mwang/soundapp/MainActivity.java:79-84 | starts a recording when given true, stops it otherwise |
| `Activity.MainActivity.OnPlay` | app/src/main/java/mwang/soundapp/MainActivity.java:87-90 | starts playback when given true, does nothing otherwise |
| `Activity.MainActivity.OnClick` | app/src/main/java/mwang/soundapp/MainActivity.java:272-293 | acts on the clicked button's flag, then negates that flag |
| `Activity.MainActivity.Handle` | app/src/main/java/mwang/soundapp/MainActivity.java:55-61 | an event updates the fields as `Ui.Handle` says and keeps the invariant; the playback-finished event runs stopPlaying |
| `Activity.MainActivity.PlaybackWorker` | app/src/main/java/mwang/soundapp/MainActivity.java:167-211 | the playback thread makes the playback loop's write calls, then its posted runner leaves the state as stopPlaying does |

## Left out

- The Android `AudioRecord`/`AudioTrack` objects: building them, `startRecording`, `play`, `stop` and `release`. The model keeps only whether `recorder`/`player` is set. `recorder.read` becomes a given sequence of reads, and `player.write` becomes the returned sequence of write calls.
- Threads, `Handler.post` and the unsynchronised polling of `mStartRecording`/`mStartPlaying`. Events are sequential, and the stop flag becomes the number of iterations the loop runs (`k`, `stopAfter`). The posted runner is the `PlaybackFinished` event, or the final step of `PlaybackWorker`.
- `audioThread` is modelled only as set or null; the thread itself is not.
- Interleavings in which a worker outlives a stop and a restart are reached only as event orders.
- A Play click while a player is still set (`PlayRestartWhilePlaying`) builds a second `AudioTrack` and a second worker. The model keeps one flag per handle, so the replaced player, which is never released, and the first worker, whose posted `stopPlaying` releases the second player, are not represented.
- `Capture.WriteAudioDataToFile`: assumes each device read stores at most 1024 samples, as `read(sData, 0, 1024)` guarantees. A negative error return is a read that stores nothing.
- I/O failures: the swallowed `IOException`s, and the null stream left when the file fails to open. No outcome is specified for them.
- Stream flush and close are not modelled. `available()` is modelled as the exact number of bytes left in the file.
- The inner loops are written as their own methods, `Capture.WriteBuffer` and `Playback.ReadBuffer`, to keep each proof small. Their behaviour is unchanged.
- `DeviceRead` stores the read's samples with a parallel assignment. The order of the stores cannot be observed.
- A click on a disabled button is not delivered, as Android does. `MainActivity.OnClick` itself is modelled without that filter, and `Handle` applies it.
- Permission handling, `finish()`, `onCreate` wiring, the cache-directory file path, `onStop`, button label texts, `System.out.println`, and the sample-rate, channel and encoding constants. These are platform UI, lifecycle and device configuration.
- The alternative variant of the app that uses Android's high-level media recorder and player. It has no logic of its own.
