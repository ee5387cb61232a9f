# Autonomous recorder: a Dafny model

A model of the robot's autonomous recorder (`src/autonrecorder.c` and
`include/autonrecorder.h`). The recorder keeps one trace buffer `states` of
750 five-channel frames (15 s of joystick samples at 50 Hz). It also keeps two
session integers:

- `autonLoaded`: which slot is in memory. -1 means nothing, 0 means none,
  1..10 are the regular slots, 11 is the programming-skills run and 12 is the
  hard-coded run.
- `progSkills`: the cursor over the four skills segments.

The recorder has five operations:

- **initAutonRecorder** resets the session.
- **recordAuton** samples the operator tick by tick. It can be cancelled early,
  and then the rest of the buffer is zero-filled.
- **saveAuton** writes the buffer to a flash file as a flat stream of 5-byte
  frames, named `a1` or `p<k>`.
- **loadAuton** reads a slot's file back into the buffer. It reads byte by byte
  at fixed offsets.
- **playbackAuton** replays the buffer tick by tick, with the turn channel
  multiplied by `flipped`. In a skills run it plays four segments back to back.
  While each of the first three plays, every buffer index is overwritten, just
  after it is played, with the matching frame of the next segment's file, read
  sequentially.

## Structure

- `header.dfy` (`AutonHeader`): the header's constants, the `joyState` frame
  type and the derived sizes.
- `codec.dfy` (`FrameCodec`): the byte format and the three ways bytes become
  frames.
  - The exact decoder.
  - The fixed-offset reader of loadAuton. Past the end of a file it leaves the
    stale bytes of its reused 5-byte buffer, modelled exactly, with the
    buffer's uninitialised contents as a parameter `uninit`.
  - The sequential zero-padded reader of the playback prefetch.
- `filenames.dfy` (`FileNames`): what `snprintf("a%d")` and `snprintf("p%d")`
  leave in the 8-byte name buffer.
- `session.dfy` (`RecorderSpec`): the session as a value, and what init,
  record, save and load do to it, as functions with lemmas.
- `playback.dfy` (`PlaybackSpec`): playback segment by segment, as functions
  with lemmas.
- `recorder.dfy` (`AutonRecorder`): the recorder's state and operations.
  - A class `Recorder` holds the C globals as fields: `states` is an array of
    750 frames, and the flash store is a `map` from file name to bytes.
  - Each operation is a method with the C loops.
  - Each method is proved to leave exactly the state, and emit exactly the
    commands, that the matching specification function describes.

## Collaborators and inputs

- **Joystick, cancel button and field control.** The joystick sample, the
  cancel button (`joystickGetDigital(1, 7, JOY_UP)`) and `isOnline()` are
  per-tick inputs, given as functions from the tick number. During playback the
  tick is counted from the start of the run.
- **Motor commands.** `moveRobot` and `motorStopAll` are the returned list of
  `Command`s.
- **Files.** The flash file system is the `files` map. A failing
  `fopen(..., "w")` is a parameter of save. A failing `fopen(..., "r")` is the
  file being absent.
- **Left out of the model.** LCD output, `printf` and `delay` only display or
  wait, and are not modelled.

## Where the code and its comments differ, and what follows from the code

The model follows the code in each case:

- **Channel order.**
  - The doc comments on the `joyState` fields (include/autonrecorder.h:73-81)
    are shifted by one field. "Turning speed of the drive motors" sits on
    `horizontal`, and "Horizontal motion" sits just above `turn`.
  - The code stores, writes and sends the fields in declaration order: spd,
    horizontal, turn, sht, lift. Orientation multiplies `turn`.
- **Recorded frames.**
  - The doc comment of recordAuton (src/autonrecorder.c:54-56) says it
    records the driver's joystick values into `states`.
  - The code replaces the horizontal channel (see Findings). The cancel tick
    is still sent to the motors before recording stops.
- **Short files.** loadAuton overwrites every frame of `states`, also when the
  file is too short. Each byte it cannot read keeps the value left in its
  5-byte read buffer by the last frame long enough to supply it
  (`FrameCodec.StaleByte`).
- **Session after recording.** recordAuton leaves `autonLoaded = 0`, the
  "none" value. A playback right after recording therefore does nothing
  (`PlaybackSpec.PlaybackAfterRecordIsNoOp`).
- **Entering a skills run.** saveAuton only writes a skills segment when
  `progSkills` is already non-zero. No operation moves the cursor off 0, so
  from init every save writes `a1` and `p0` is never written
  (`RecorderSpec.SaveNeverLeavesCursorZero`, `RecorderSpec.CursorOnlyMovedBySave`).
- **A second skills playback.** After a full skills run, `autonLoaded` is still
  11 and `states` holds p3. Playing again without `loadAuton(11)` therefore
  plays p3, p1, p2, p3 (`PlaybackSpec.SecondSkillsPlayback`).

## Model

| member | source | states |
|---|---|---|
| `AutonHeader.DerivedSizes` | include/autonrecorder.h:14-39 | The buffer length 750 is AUTON_TIME × JOY_POLL_FREQ. The segment count 4 is PROGSKILL_TIME / AUTON_TIME and divides it exactly. The skills and hard-coded slots are MAX_AUTON_SLOTS + 1 and + 2, and no regular slot 1..10 equals 0, 11 or 12. |
| `FrameCodec.ToByte` | src/autonrecorder.c:152-160 | A signed-char channel is written as the byte congruent to it mod 256. |
| `FrameCodec.FromByte` | src/autonrecorder.c:303-307 | A byte is read back as the signed char congruent to it mod 256. |
| `FrameCodec.ByteRoundTrip` | src/autonrecorder.c:152-160 | Writing and reading a byte are inverse bijections between [-128, 127] and [0, 255]. |
| `FrameCodec.EncodeFrame` | src/autonrecorder.c:152-156 | A frame is five bytes, in the order spd, horizontal, turn, sht, lift. Each byte reads back as its channel. |
| `FrameCodec.DecodeFrame` | src/autonrecorder.c:303-307 | Decoding five bytes gives the frame whose encoding is exactly those bytes, with the same channel order. |
| `FrameCodec.FrameRoundTrip` | src/autonrecorder.c:152-156 | Decoding an encoded frame gives the frame back. |
| `FrameCodec.EncodeTrace` | src/autonrecorder.c:150-163 | The file written for a trace is 5 bytes per frame, 3750 for the buffer. |
| `FrameCodec.EncodeTraceFrame` | src/autonrecorder.c:150-161 | Frame i occupies bytes 5i..5i+4 of the written file. |
| `FrameCodec.FrameAtEncodes` | src/autonrecorder.c:297-307 | The frame read at frame offset i of a file is the one frame whose encoding is the five bytes stored there. |
| `FrameCodec.EncodedFrameAt` | src/autonrecorder.c:297-307 | Reading frame i of a written file at its offsets gives frame i. |
| `FrameCodec.StreamFrame` | src/autonrecorder.c:372-378 | Frame i read sequentially into a zeroed buffer is the decoded frame when the file has those bytes, and the zero frame once the file is exhausted. |
| `FrameCodec.StreamTrace` | src/autonrecorder.c:370-379 | A whole segment streamed from a file has 750 frames. |
| `FrameCodec.StreamRoundTrip` | src/autonrecorder.c:370-379 | Streaming a written trace gives the trace back. |
| `FrameCodec.ReadFive` | src/autonrecorder.c:372-373 | `fread` of up to 5 bytes into a zeroed 5-byte buffer fills exactly 5 bytes. |
| `FrameCodec.SequentialRead` | src/autonrecorder.c:373 | Before frame i the stream sits at min(5i, size). Reading decodes StreamFrame i, and the stream moves to min(5(i+1), size). |
| `FrameCodec.StaleByte` | src/autonrecorder.c:296-302 | Buffer byte j after frame i is the file byte 5i+j when the file has it. It is the uninitialised byte j when the file has no byte at offset j at all. |
| `FrameCodec.StaleByteStep` | src/autonrecorder.c:299-302 | Byte j of frame i is the file byte 5i+j if it exists. Otherwise it is what the reused buffer held after frame i-1, or the uninitialised content for frame 0. |
| `FrameCodec.LoadedFrame` | src/autonrecorder.c:296-307 | loadAuton's frame i is the stored frame when the file is long enough, and the decoded uninitialised buffer when the file is empty. |
| `FrameCodec.DecodeLoadedBuffer` | src/autonrecorder.c:303-307 | A buffer holding the bytes read for frame i decodes to loadAuton's frame i. |
| `FrameCodec.LoadedTrace` | src/autonrecorder.c:297-310 | loadAuton writes all 750 frames of the buffer. |
| `FrameCodec.LoadRoundTrip` | src/autonrecorder.c:150-161 | Loading a written trace restores it exactly, whatever the read buffer held before. |
| `FrameCodec.FullFileReadersAgree` | src/autonrecorder.c:297-307 | On a file of at least 3750 bytes, loadAuton's fixed-offset reader and the playback's sequential reader give the same trace. |
| `FileNames.NatToString` | src/autonrecorder.c:125 | `%d` of a number prints at least one digit, and exactly one iff the number is below 10. |
| `FileNames.FileName` | src/autonrecorder.c:125-129 | `snprintf` into the 8-byte buffer gives the full "<prefix><n>" when it fits, and otherwise its first 7 characters. |
| `FileNames.FileNameTruncates` | src/autonrecorder.c:125-129 | The name is a prefix of the full "<prefix><n>" text. It is either the whole text or the text cut at the buffer's last character. |
| `FileNames.NatToStringLength` | src/autonrecorder.c:125 | A number below 10^k prints in at most k digits. |
| `FileNames.NatToStringInjective` | src/autonrecorder.c:125 | Different numbers print differently. |
| `FileNames.GeneratedNamesFit` | include/autonrecorder.h:39 | The names a1..a10 and p0..p3 fit in AUTON_FILENAME_MAX_LENGTH with their NUL, so they are never truncated. |
| `FileNames.ConcreteNames` | src/autonrecorder.c:274-277 | The generated names are "a1", "a10", "p0", "p1", "p2" and "p3". |
| `FileNames.FileNameInjective` | src/autonrecorder.c:125-129 | Under one prefix, distinct numbers below 10^6 get distinct file names. This covers every slot and segment number the recorder uses. |
| `FileNames.RegularAndSegmentNamesDiffer` | src/autonrecorder.c:125-129 | A regular slot's file is never a skills segment's file. |
| `RecorderSpec.InitTrace` | src/autonrecorder.c:46 | Init's buffer has frame 0 zero and frames 1..749 as they were. |
| `RecorderSpec.Init` | src/autonrecorder.c:41-52 | Init leaves slot -1 (nothing in memory) and cursor 0. It zeroes frame 0 and keeps the rest of the buffer. |
| `RecorderSpec.FirstAbort` | src/autonrecorder.c:81-87 | The tick at which a loop stops is the first tick in its range that sees cancel, or the end of the range: cancel holds there, and at no earlier tick. |
| `RecorderSpec.InitKeepsStaleFrames` | src/autonrecorder.c:46 | As written, init clears only frame 0: a buffer whose frame 1 moves keeps that motion. |
| `RecorderSpec.ClearedTrace` | src/autonrecorder.c:38-46 | The buffer the init doc-comment promises has all 750 frames zero. |
| `RecorderSpec.SyntheticHorizontal` | src/autonrecorder.c:76 | The stored horizontal value (2i mod 255) - 127 lies in [-127, 127]. |
| `RecorderSpec.RecordedFrame` | src/autonrecorder.c:75-79 | A recorded frame is the sample except for horizontal, which becomes the synthetic value of its tick. |
| `RecorderSpec.RecordCommands` | src/autonrecorder.c:70-96 | recordAuton sends one live move per sampled tick, carrying that tick's joystick values, then exactly one stop. |
| `RecorderSpec.Record` | src/autonrecorder.c:57-100 | After recording, slot 0 is loaded and the cursor is unchanged. Each sampled tick holds its recorded frame, and the rest of the buffer is zero. |
| `RecorderSpec.RecordStop` | src/autonrecorder.c:70-87 | Recording stops at the first pressed tick, or runs 750 ticks. |
| `RecorderSpec.RecordTicks` | src/autonrecorder.c:70-90 | Recording takes between 1 and 750 samples. |
| `RecorderSpec.RecordedTrace` | src/autonrecorder.c:70-90 | recordAuton leaves a 750-frame trace. |
| `RecorderSpec.RecordCancelledAt` | src/autonrecorder.c:81-87 | For cancel first seen at tick i: frames i+1..749 are zero, frames 0..i are as recorded, and i+1 samples are taken. The zero-fill length 750-i-1 is non-negative and ends at the buffer's end. Moves go out for ticks 0..i, then a stop. |
| `RecorderSpec.RecordUncancelled` | src/autonrecorder.c:70-90 | Without cancel, all 750 ticks are recorded. |
| `RecorderSpec.RecordedChannels` | src/autonrecorder.c:75-79 | Each recorded frame keeps the sampled spd, turn, sht and lift, and holds the synthetic horizontal value in [-127, 127]. |
| `RecorderSpec.RecordedTraceOverridesHorizontal` | src/autonrecorder.c:76 | As written, recording an operator at rest stores horizontal -127 at tick 0, not the zero frame. |
| `RecorderSpec.IntendedTrace` | src/autonrecorder.c:75-87 | The trace as evidently intended: the samples up to the cancel tick, then zero frames. |
| `RecorderSpec.IntendedTraceKeepsSamples` | src/autonrecorder.c:75-79 | The intended trace sends the operator's own moves, and differs from the as-written trace only in horizontal. |
| `RecorderSpec.SaveSlot` | src/autonrecorder.c:111-116 | Save writes slot 1 exactly when the cursor is 0. Otherwise it writes the skills slot 11. |
| `RecorderSpec.SaveName` | src/autonrecorder.c:123-131 | Cursor 0 saves to "a1", and cursor k in 1..3 saves to "p<k>". |
| `RecorderSpec.SavedCursor` | src/autonrecorder.c:175-181 | Cursor 0 stays 0, and cursor k in 1..3 becomes (k+1) mod 4. The cursor stays in 0..3. |
| `RecorderSpec.Save` | src/autonrecorder.c:105-183 | A failed open changes nothing. Otherwise the loaded slot and cursor are SaveSlot and SavedCursor of the old cursor, and the buffer is unchanged. The save file then holds the encoded buffer, and every other file is unchanged. |
| `RecorderSpec.LoadName` | src/autonrecorder.c:272-278 | The skills slot reads "p0", and every other slot reads an "a<n>" file. Slot 1 reads "a1". |
| `RecorderSpec.Load` | src/autonrecorder.c:239-322 | Load never moves the cursor. The loaded slot stays or becomes the requested one. The buffer either stays or is the loaded trace of the slot's file, which then exists. A well-formed session stays well-formed. |
| `RecorderSpec.SaveDestination` | src/autonrecorder.c:111-182 | With cursor 0, save writes "a1" and the cursor stays 0. With cursor k in 1..3 it writes "p<k>" and the cursor becomes (k+1) mod 4. On success the loaded slot is the slot written (1 or 11), the buffer is unchanged, and the store's file names become the old ones plus that file. A failed open changes nothing. The cursor stays in 0..3. |
| `RecorderSpec.SkillsCursorCycle` | src/autonrecorder.c:175-182 | A skills run at segment 1 takes three saves to write p1, p2, p3 and bring the cursor back to 0. |
| `RecorderSpec.SaveNeverLeavesCursorZero` | src/autonrecorder.c:111-116 | With the cursor at 0, a save keeps it at 0, writes only "a1", and never writes a segment file. |
| `RecorderSpec.LoadDispatch` | src/autonrecorder.c:244-321 | Slots 0 and 12 only set the loaded slot. A regular slot already loaded is a no-op, and a missing regular file changes nothing. Skills is marked loaded before "p0" is opened, even if p0 is missing, and is always re-read. A successful load sets the slot and reads the file. The cursor never changes. |
| `RecorderSpec.SaveThenLoad` | src/autonrecorder.c:150-161 | After a successful save to a1, loading slot 1 from any other session restores the saved trace. Loading it in the saved session is a no-op. |
| `RecorderSpec.SaveSegmentZeroThenLoadSkills` | src/autonrecorder.c:272-310 | With p0 written from a trace, loading the skills slot restores that trace and marks slot 11 loaded. |
| `RecorderSpec.CursorOnlyMovedBySave` | src/autonrecorder.c:50-51 | Init puts the cursor at 0, and record and load never change it. |
| `PlaybackSpec.PlaybackMoveChannels` | src/autonrecorder.c:355-360 | A played move sends spd, horizontal, sht and lift as stored and turn multiplied by `flipped`. Unmirrored it is the live move, and mirrored it sends -turn. |
| `PlaybackSpec.Emitted` | src/autonrecorder.c:355-369 | A segment emits one move per tick played. |
| `PlaybackSpec.EmittedStep` | src/autonrecorder.c:355-369 | Each further tick appends the move for the next buffer frame. |
| `PlaybackSpec.Prefetched` | src/autonrecorder.c:370-379 | The prefetched buffer has the buffer's length. |
| `PlaybackSpec.PrefetchedStep` | src/autonrecorder.c:355-379 | Index i still holds the playing segment's frame when tick i is emitted, and only then is it overwritten with the next segment's frame i. |
| `PlaybackSpec.SegmentStop` | src/autonrecorder.c:362-368 | The tick at which a segment is cancelled lies within the segment, or is 750 when there is no cancel. |
| `PlaybackSpec.SegmentRun` | src/autonrecorder.c:350-385 | One segment keeps a 750-frame buffer. |
| `PlaybackSpec.PlaySegments` | src/autonrecorder.c:345-387 | The segments of a run keep a 750-frame buffer. |
| `PlaybackSpec.PlaySegmentsStep` | src/autonrecorder.c:346-387 | A run is its first segment, followed by the later segments only when it is a skills run, uncancelled, with a segment left. A prefetching segment's next file exists. |
| `PlaybackSpec.RunStateStep` | src/autonrecorder.c:346-387 | One pass of the do-while keeps the loop's account of the run: the moves sent so far plus the rest of the run are the whole run. A cancel ends the loop, and otherwise it goes on only in a skills run with a segment left. |
| `PlaybackSpec.SegmentRunsToEnd` | src/autonrecorder.c:355-368 | A segment with no cancelled tick plays all 750 ticks. |
| `PlaybackSpec.SegmentStopsAt` | src/autonrecorder.c:362-368 | A segment first cancelled at its tick i stops at i. |
| `PlaybackSpec.SegmentTick` | src/autonrecorder.c:362-368 | A tick up to the stop tick is the stop tick exactly when it is cancelled. |
| `PlaybackSpec.PrefetchedAll` | src/autonrecorder.c:370-379 | A full segment of prefetching leaves the next segment, streamed, in the buffer. |
| `PlaybackSpec.SkillsSegmentContinues` | src/autonrecorder.c:346-387 | An uncancelled skills segment before the last plays its whole buffer and hands the streamed next file to the rest of the run. |
| `PlaybackSpec.SkillsSegmentStops` | src/autonrecorder.c:362-379 | A skills segment cancelled at tick i plays ticks 0..i. It prefetches only below i, and only if it is not the last segment, and ends the run. |
| `PlaybackSpec.SegmentFrames` | src/autonrecorder.c:346-387 | The frames that segment k of a skills run plays have length 750. |
| `PlaybackSpec.SkillsLog` | src/autonrecorder.c:346-387 | Reference log of an uncancelled skills run from a segment: 750 moves for each remaining segment. |
| `PlaybackSpec.SkillsRunFrom` | src/autonrecorder.c:346-387 | An uncancelled skills run plays exactly the reference log and ends holding p3. |
| `PlaybackSpec.CancelledLog` | src/autonrecorder.c:362-368 | Reference log of a skills run cancelled at tick i of segment f: every tick before it, and the cancel tick itself. |
| `PlaybackSpec.CancelledLogLast` | src/autonrecorder.c:355-369 | The last move of a cancelled run is the cancel tick's frame, which is still emitted. |
| `PlaybackSpec.SkillsRunCancelled` | src/autonrecorder.c:362-387 | A skills run cancelled at segment f, tick i emits exactly the cancelled reference log. The cancel tick itself is not prefetched, so the buffer holds the next segment only below i. |
| `PlaybackSpec.SingleSegment` | src/autonrecorder.c:346-387 | Any slot other than skills plays one segment, up to the cancel tick if any, and leaves the buffer as it was. |
| `PlaybackSpec.PlaybackEntry` | src/autonrecorder.c:331-388 | With slot 0 loaded, playback emits nothing (not even a stop) and changes nothing. With nothing in memory it is exactly a playback after loadAuton(1), which never loads the skills slot. Any other slot emits at least one move and ends with a stop. |
| `PlaybackSpec.Playback` | src/autonrecorder.c:329-393 | Playback keeps the session well-formed and the cursor unchanged. Its commands are empty or end with a stop. |
| `PlaybackSpec.PlaybackAfterRecordIsNoOp` | src/autonrecorder.c:98 | As written, playback right after recording emits nothing and changes nothing. |
| `PlaybackSpec.OrientationIsNonDestructive` | src/autonrecorder.c:355-369 | A mirrored playback emits -turn with the other channels as stored, and leaves the buffer unchanged. A following straight playback emits the stored values exactly. |
| `PlaybackSpec.SkillsPlayback` | src/autonrecorder.c:346-388 | An uncancelled skills run plays the loaded buffer, then p1, p2 and p3 streamed, 750 ticks each with no gap (3000 moves), then stops. It ends holding p3. |
| `PlaybackSpec.SecondSkillsPlayback` | src/autonrecorder.c:331-388 | A second uncancelled skills run without a reload plays p3, p1, p2, p3 and leaves the session as the first run did. |
| `PlaybackSpec.SkillsLogUnrolled` | src/autonrecorder.c:346-387 | The reference log of a whole skills run, written out as four segments. |
| `PlaybackSpec.SkillsPlaybackOfSavedSegments` | src/autonrecorder.c:150-161 | With p1..p3 holding written traces, a skills run plays the loaded buffer and then exactly those traces, and ends holding the third. |
| `PlaybackSpec.CancelledRun` | src/autonrecorder.c:362-387 | A run cancelled at run tick f·750 + i sends f·750 + i + 1 moves. The last is for the frame at index i of segment f. Outside skills the buffer is left as it was. |
| `PlaybackSpec.PlaybackCancelled` | src/autonrecorder.c:362-388 | Cancel at run tick f·750 + i emits ticks 0..f·750+i, with the cancel tick's own frame last, then one stop. Outside skills the session is unchanged. |
| `PlaybackSpec.IntendedRecordingReplays` | src/autonrecorder.c:75-79 | With the intended trace in a regular slot, an uncancelled unmirrored playback sends exactly the operator's recorded moves and leaves the session unchanged. |
| `PlaybackSpec.RecordedRecordingDiverges` | src/autonrecorder.c:76 | As written, replaying a recording of an operator at rest sends horizontal -127 where the operator sent 0. |
| `AutonRecorder.Recorder.constructor` | src/autonrecorder.c:21-36 | The zero-initialised globals: nothing loaded, cursor 0, every frame zero, and the given flash contents. |
| `AutonRecorder.Recorder.InitAutonRecorder` | src/autonrecorder.c:41-52 | The new session is exactly Init of the old one: slot -1, cursor 0, only frame 0 cleared. Files are untouched. |
| `AutonRecorder.Recorder.InitAutonRecorderCleared` | src/autonrecorder.c:38-46 | The corrected init: slot -1, cursor 0, all 750 frames zero. |
| `AutonRecorder.Recorder.RecordAuton` | src/autonrecorder.c:57-100 | The tick loop leaves the session as Record describes: the recorded trace, zero-filled after a cancel, with slot 0. It sends RecordCommands: one live move per sampled tick, then a stop. |
| `AutonRecorder.Recorder.RecordLoop` | src/autonrecorder.c:70-90 | The sampling loop leaves the recorded trace in the buffer. Its moves followed by a stop are RecordCommands. |
| `AutonRecorder.Recorder.SaveAuton` | src/autonrecorder.c:105-183 | The new session and store are exactly Save of the old ones. |
| `AutonRecorder.Recorder.WriteTrace` | src/autonrecorder.c:149-163 | The per-byte write loop produces exactly EncodeTrace of the buffer. |
| `AutonRecorder.Recorder.LoadAuton` | src/autonrecorder.c:239-322 | The new session is exactly Load of the old one. The store is untouched. |
| `AutonRecorder.Recorder.ReadTrace` | src/autonrecorder.c:295-310 | The per-byte seek-and-read loop leaves exactly LoadedTrace of the file in the buffer. |
| `AutonRecorder.ReadFrame` | src/autonrecorder.c:296-307 | One pass of the frame loop decodes loadAuton's frame i. It leaves the read buffer as frame i+1 expects it. |
| `AutonRecorder.ReadFrameBytes` | src/autonrecorder.c:299-302 | The five seeks and reads for frame i leave byte j of the buffer at StaleByte i j, starting from the buffer the previous frame left. |
| `AutonRecorder.Recorder.PlaybackAuton` | src/autonrecorder.c:329-393 | The session and the commands are exactly Playback of the old session and store. The store is untouched. |
| `AutonRecorder.Recorder.PlayRun` | src/autonrecorder.c:345-387 | The do-while loop sends exactly the moves, and leaves exactly the buffer, of the run from segment 0. |
| `AutonRecorder.Recorder.PlaySegment` | src/autonrecorder.c:347-385 | One pass of the tick loop reports cancel exactly when the segment is cancelled. Its moves and resulting buffer are SegmentRun of the old buffer. |
| `AutonRecorder.Recorder.PrefetchFrame` | src/autonrecorder.c:370-379 | One prefetch overwrites only index i, with StreamFrame i, and advances the stream to min(5(i+1), size). |

## Left out

- selectAuton (src/autonrecorder.c:190-232) is an LCD button-polling loop. It is not called from this file, where playbackAuton's call to it is commented out (src/autonrecorder.c:334). The header exports it (include/autonrecorder.h:126-131) for other files. It is not part of this model.
- LCD output, `printf`, the backlight toggling, the 3-second countdown and every `delay` are display or timing only. Time is the tick index.
- `recordJoyInfo`, `moveRobot`, `motorStopAll`, `joystickGetDigital` and `isOnline` are declared in main.h, which is not part of this model. They become per-tick inputs and the returned command list.
- `fwrite` and `fread` failures other than a missing file or a short file are not modelled. The file system is a map, and the bytes a save writes appear in the store at once.
- The `malloc`'d 5-byte buffers in save and load are never freed. Memory is not modelled. The read buffer's uninitialised contents are the parameter `uninit`.
- After a cancel in a skills segment, the stream open on the next segment is not closed. Open handles are not modelled.
- AutonRecorder.Recorder.PlaybackAuton: requires that p1..p3 exist when slot 11 is loaded (`PlaybackSpec.SkillsFilesPresent`). The C code passes the NULL stream of a missing file to `fread`, which is undefined behaviour.
- Channels on playback are unbounded integers. `flipped * turn` for turn = -128 does not fit a signed char, and the type of the global `turn` is in main.h. Other `int` overflow cannot occur at these sizes and is not modelled.
- The global `autonFlipped` is never used by this file. The header's hardware constants (`AUTON_POT`, `AUTON_BUTTON`, `AUTON_POT_LOW`, `AUTON_POT_HIGH`) and its prototypes are left out. The header's `void loadAuton()` prototype is superseded by the .c signature with a slot.
- In saveAuton, the branch `if(autonSlot == 0)` at src/autonrecorder.c:117-120 can never run, because the slot is always 1 or 11. It is omitted.

## Findings

| source | as written | input that shows it | evidently intended | confidence | as-written member | corrected member |
|---|---|---|---|---|---|---|
| src/autonrecorder.c:46 | `memset(states, 0, sizeof(*states))` clears one frame (5 bytes), so frames 1..749 keep their old contents. | A buffer whose frame 1 is (1,0,0,0,0): after init frame 1 is still (1,0,0,0,0). | The doc-comment at src/autonrecorder.c:38-40 says the whole array is zeroed (`sizeof(states)`). | not executed | `RecorderSpec.InitKeepsStaleFrames` | `AutonRecorder.Recorder.InitAutonRecorderCleared` |
| src/autonrecorder.c:76 | The horizontal channel is stored as `(2i) % 255 - 127`, and the sampled horizontal is discarded (kept only in a comment). | An operator holding every stick at rest, with no cancel. Tick 0 is sent live as Move(0,0,0,0,0), but is replayed as Move(0,-127,0,0,0). | Store the sampled horizontal, so that replaying a recording sends what the operator sent. | not executed | `PlaybackSpec.RecordedRecordingDiverges` | `PlaybackSpec.IntendedRecordingReplays` |
