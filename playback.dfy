/** What playbackAuton does (src/autonrecorder.c:329-393), segment by
    segment: each segment emits the buffer tick by tick with the turn channel
    scaled by `flipped`; in a skills run the first three segments overwrite
    each buffer index with the next segment's frame right after emitting it. */
module PlaybackSpec {
  import opened AutonHeader
  import opened FrameCodec
  import opened FileNames
  import opened RecorderSpec

  /** The command emitted for a stored frame: `turn = flipped * turn`, the
      other channels as stored. */
  function PlaybackMove(f: JoyState, flipped: int): Command {
    Move(f.spd, f.horizontal, flipped * f.turn, f.sht, f.lift)
  }

  /** Playback sends the stored channels with only the turn scaled, so an
      unflipped playback sends what recording sent for the same frame, and
      a mirrored one (flipped = -1) negates the turn. */
  lemma PlaybackMoveChannels(f: JoyState, flipped: int)
    ensures var c := PlaybackMove(f, flipped);
            && c.Move? && c.spd == f.spd && c.horizontal == f.horizontal && c.sht == f.sht && c.lift == f.lift
            && c.turn == flipped * f.turn
    ensures PlaybackMove(f, 1) == LiveMove(f)
    ensures PlaybackMove(f, -1).turn == -(f.turn as int)
  {
  }

  /** The commands for the first `len` ticks of a segment playing `buf`. */
  function Emitted(buf: seq<JoyState>, flipped: int, len: nat): (r: seq<Command>)
    requires len <= |buf|
    ensures |r| == len
  {
    seq(len, i requires 0 <= i < len => PlaybackMove(buf[i], flipped))
  }

  /** One more tick of a segment emits one more move. */
  lemma EmittedStep(buf: seq<JoyState>, flipped: int, len: nat)
    requires len < |buf|
    ensures Emitted(buf, flipped, len + 1) == Emitted(buf, flipped, len) + [PlaybackMove(buf[len], flipped)]
  {
  }

  /** Whether segment `segment` streams the next segment into the buffer. */
  predicate Prefetching(loaded: int, segment: nat) {
    loaded == SkillsSlot && segment < SegmentCount - 1
  }

  /** The file streamed during segment `segment`: "p<segment+1>". */
  function NextSegmentName(segment: nat): string {
    FileName('p', segment + 1)
  }

  /** The buffer after the first `upto` ticks of a prefetching segment. */
  function Prefetched(buf: seq<JoyState>, bytes: seq<Byte>, upto: nat): (r: seq<JoyState>)
    ensures |r| == |buf|
  {
    seq(|buf|, i requires 0 <= i < |buf| => if i < upto then StreamFrame(bytes, i) else buf[i])
  }

  /** Index `upto` still holds the segment being played until it has been
      played, and is then overwritten with the next segment's frame. */
  lemma PrefetchedStep(buf: seq<JoyState>, bytes: seq<Byte>, upto: nat)
    requires upto < |buf|
    ensures Prefetched(buf, bytes, upto)[upto] == buf[upto]
    ensures Prefetched(buf, bytes, upto + 1) == Prefetched(buf, bytes, upto)[upto := StreamFrame(bytes, upto)]
  {
  }

  /** The files a skills run streams, p1 .. p3, exist (a missing one would
      make `fread` read through a NULL stream). */
  ghost predicate SkillsFilesPresent(files: Store) {
    forall k: nat :: 1 <= k < SegmentCount ==> FileName('p', k) in files
  }

  /** The tick of segment `segment` at which playback is cancelled, or
      TraceLength; ticks are numbered from the start of the run. */
  function SegmentStop(pressed: nat -> bool, online: nat -> bool, segment: nat): (c: nat)
    ensures c <= TraceLength
  {
    FirstAbort(pressed, online, segment * TraceLength, segment * TraceLength + TraceLength) - segment * TraceLength
  }

  /** One segment of a run on its own: the moves it emits (up to and
      including the cancel tick) and the buffer it leaves. */
  function SegmentRun(segment: nat, buf: seq<JoyState>, loaded: int, flipped: int, files: Store,
                      pressed: nat -> bool, online: nat -> bool): (r: (seq<Command>, seq<JoyState>))
    requires |buf| == TraceLength
    requires Prefetching(loaded, segment) ==> NextSegmentName(segment) in files
    ensures |r.1| == TraceLength
  {
    var c := SegmentStop(pressed, online, segment);
    (Emitted(buf, flipped, if c < TraceLength then c + 1 else TraceLength),
     if Prefetching(loaded, segment) then Prefetched(buf, files[NextSegmentName(segment)], c) else buf)
  }

  /** The run goes on to the next segment: no cancel in this one, a skills
      run, and a segment left. */
  predicate RunContinues(segment: nat, loaded: int, pressed: nat -> bool, online: nat -> bool) {
    SegmentStop(pressed, online, segment) == TraceLength && loaded == SkillsSlot && segment + 1 < SegmentCount
  }

  /** Commands and final buffer of segments `segment` .. of a run. */
  function PlaySegments(segment: nat, buf: seq<JoyState>, loaded: int, flipped: int, files: Store,
                        pressed: nat -> bool, online: nat -> bool): (r: (seq<Command>, seq<JoyState>))
    requires segment < SegmentCount && |buf| == TraceLength
    requires loaded == SkillsSlot ==> SkillsFilesPresent(files)
    ensures |r.1| == TraceLength
    decreases SegmentCount - segment
  {
    var one := SegmentRun(segment, buf, loaded, flipped, files, pressed, online);
    if RunContinues(segment, loaded, pressed, online) then
      var rest := PlaySegments(segment + 1, one.1, loaded, flipped, files, pressed, online);
      (one.0 + rest.0, rest.1)
    else
      one
  }

  /** A run is its first segment, followed by the rest of the run when it
      continues. */
  lemma PlaySegmentsStep(segment: nat, buf: seq<JoyState>, loaded: int, flipped: int, files: Store,
                         pressed: nat -> bool, online: nat -> bool)
    requires segment < SegmentCount && |buf| == TraceLength
    requires loaded == SkillsSlot ==> SkillsFilesPresent(files)
    ensures Prefetching(loaded, segment) ==> NextSegmentName(segment) in files
    ensures var one := SegmentRun(segment, buf, loaded, flipped, files, pressed, online);
            && (RunContinues(segment, loaded, pressed, online) ==>
                 var rest := PlaySegments(segment + 1, one.1, loaded, flipped, files, pressed, online);
                 PlaySegments(segment, buf, loaded, flipped, files, pressed, online) == (one.0 + rest.0, rest.1))
            && (!RunContinues(segment, loaded, pressed, online) ==>
                 PlaySegments(segment, buf, loaded, flipped, files, pressed, online) == one)
  {
  }

  /** Where the do-while loop of playbackAuton stands against the whole
      run `total`: while it goes on, `commands` followed by the run from
      segment `file` over `buf` is the whole run; once it stops, `commands`
      is the whole run and `buf` the buffer it leaves. */
  ghost predicate RunState(total: (seq<Command>, seq<JoyState>), commands: seq<Command>, file: nat, more: bool,
                           buf: seq<JoyState>, loaded: int, flipped: int, files: Store,
                           pressed: nat -> bool, online: nat -> bool)
    requires |buf| == TraceLength
    requires loaded == SkillsSlot ==> SkillsFilesPresent(files)
  {
    if more then
      file < SegmentCount &&
      var rest := PlaySegments(file, buf, loaded, flipped, files, pressed, online);
      total == (commands + rest.0, rest.1)
    else total == (commands, buf)
  }

  /** The loop starts with nothing sent and the whole run ahead. */
  lemma RunStateStart(buf: seq<JoyState>, loaded: int, flipped: int, files: Store,
                      pressed: nat -> bool, online: nat -> bool)
    requires |buf| == TraceLength
    requires loaded == SkillsSlot ==> SkillsFilesPresent(files)
    ensures RunState(PlaySegments(0, buf, loaded, flipped, files, pressed, online), [], 0, true,
                     buf, loaded, flipped, files, pressed, online)
  {
    var total := PlaySegments(0, buf, loaded, flipped, files, pressed, online);
    assert [] + total.0 == total.0;
  }

  /** One pass of the loop: segment `file` sends `emitted` and leaves `next`;
      a cancel jumps past the last segment, and the loop goes on only in a
      skills run with a segment left. */
  lemma RunStateStep(total: (seq<Command>, seq<JoyState>), commands: seq<Command>, file: nat,
                     buf: seq<JoyState>, loaded: int, flipped: int, files: Store,
                     pressed: nat -> bool, online: nat -> bool,
                     emitted: seq<Command>, next: seq<JoyState>, cancelled: bool)
    requires |buf| == TraceLength && |next| == TraceLength
    requires loaded == SkillsSlot ==> SkillsFilesPresent(files)
    requires RunState(total, commands, file, true, buf, loaded, flipped, files, pressed, online)
    requires Prefetching(loaded, file) ==> NextSegmentName(file) in files
    requires (emitted, next) == SegmentRun(file, buf, loaded, flipped, files, pressed, online)
    requires cancelled == (SegmentStop(pressed, online, file) < TraceLength)
    ensures var file' := (if cancelled then SegmentCount else file) + 1;
            RunState(total, commands + emitted, file', loaded == SkillsSlot && file' < SegmentCount,
                     next, loaded, flipped, files, pressed, online)
  {
    PlaySegmentsStep(file, buf, loaded, flipped, files, pressed, online);
    var file' := (if cancelled then SegmentCount else file) + 1;
    if loaded == SkillsSlot && file' < SegmentCount {
      var later := PlaySegments(file', next, loaded, flipped, files, pressed, online);
      assert commands + (emitted + later.0) == (commands + emitted) + later.0;
    }
  }

  /** playbackAuton(flipped): load slot 1 if nothing is in memory, do
      nothing if slot 0 is loaded, otherwise play and stop the motors. */
  function Playback(s: Session, files: Store, flipped: int, pressed: nat -> bool, online: nat -> bool,
                    uninit: seq<Byte>): (r: (Session, seq<Command>))
    requires WellFormed(s) && |uninit| == FrameSize
    requires s.loaded == SkillsSlot ==> SkillsFilesPresent(files)
    ensures WellFormed(r.0) && r.0.progSkills == s.progSkills
    ensures r.1 == [] || r.1[|r.1| - 1] == StopAll
  {
    var s1 := if s.loaded == -1 then Load(s, files, 1, uninit) else s;
    assert s.loaded == -1 ==> s1.loaded in {-1, 1};
    if s1.loaded == 0 then (s1, [])
    else
      var r := PlaySegments(0, s1.trace, s1.loaded, flipped, files, pressed, online);
      (s1.(trace := r.1), r.0 + [StopAll])
  }

  // ---------------------------------------------------------------------
  // Properties

  /** No cancel in the segment's ticks: it plays to its last tick. */
  lemma SegmentRunsToEnd(pressed: nat -> bool, online: nat -> bool, segment: nat)
    requires forall t :: segment * TraceLength <= t < segment * TraceLength + TraceLength ==> !Aborts(pressed, online, t)
    ensures SegmentStop(pressed, online, segment) == TraceLength
  {
  }

  /** The first cancel of segment `segment` is at its tick i. */
  lemma SegmentStopsAt(pressed: nat -> bool, online: nat -> bool, segment: nat, i: nat)
    requires i < TraceLength && Aborts(pressed, online, segment * TraceLength + i)
    requires forall t :: segment * TraceLength <= t < segment * TraceLength + i ==> !Aborts(pressed, online, t)
    ensures SegmentStop(pressed, online, segment) == i
  {
  }

  /** A tick of segment `segment` before its stop tick that is not
      cancelled is not the stop tick; one that is cancelled is. */
  lemma SegmentTick(pressed: nat -> bool, online: nat -> bool, segment: nat, i: nat)
    requires i < TraceLength && i <= SegmentStop(pressed, online, segment)
    ensures !Aborts(pressed, online, segment * TraceLength + i) ==> i < SegmentStop(pressed, online, segment)
    ensures Aborts(pressed, online, segment * TraceLength + i) ==> i == SegmentStop(pressed, online, segment)
  {
  }

  /** A complete prefetch leaves the whole next segment in the buffer. */
  lemma PrefetchedAll(buf: seq<JoyState>, bytes: seq<Byte>)
    requires |buf| == TraceLength
    ensures Prefetched(buf, bytes, TraceLength) == StreamTrace(bytes)
  {
  }

  /** A skills segment before the last that is not cancelled plays its
      whole buffer and hands the next segment's file, streamed, to the rest
      of the run. */
  lemma SkillsSegmentContinues(segment: nat, buf: seq<JoyState>, flipped: int, files: Store,
                               pressed: nat -> bool, online: nat -> bool)
    requires segment + 1 < SegmentCount && |buf| == TraceLength && SkillsFilesPresent(files)
    requires forall t :: segment * TraceLength <= t < segment * TraceLength + TraceLength ==> !Aborts(pressed, online, t)
    ensures var rest := PlaySegments(segment + 1, StreamTrace(files[FileName('p', segment + 1)]), SkillsSlot, flipped, files, pressed, online);
            PlaySegments(segment, buf, SkillsSlot, flipped, files, pressed, online)
              == (Emitted(buf, flipped, TraceLength) + rest.0, rest.1)
  {
    SegmentRunsToEnd(pressed, online, segment);
    PlaySegmentsStep(segment, buf, SkillsSlot, flipped, files, pressed, online);
    PrefetchedAll(buf, files[NextSegmentName(segment)]);
  }

  /** A skills segment cancelled at its tick i plays ticks 0..i, prefetches
      below i (unless it is the last) and ends the run. */
  lemma SkillsSegmentStops(segment: nat, buf: seq<JoyState>, flipped: int, files: Store,
                           pressed: nat -> bool, online: nat -> bool, i: nat)
    requires segment < SegmentCount && |buf| == TraceLength && SkillsFilesPresent(files)
    requires i < TraceLength && Aborts(pressed, online, segment * TraceLength + i)
    requires forall t :: segment * TraceLength <= t < segment * TraceLength + i ==> !Aborts(pressed, online, t)
    ensures segment < SegmentCount - 1 ==> NextSegmentName(segment) in files
    ensures PlaySegments(segment, buf, SkillsSlot, flipped, files, pressed, online)
              == (Emitted(buf, flipped, i + 1),
                  if segment < SegmentCount - 1 then Prefetched(buf, files[NextSegmentName(segment)], i) else buf)
  {
    SegmentStopsAt(pressed, online, segment, i);
    PlaySegmentsStep(segment, buf, SkillsSlot, flipped, files, pressed, online);
  }

  /** The frames segment k of a skills run plays when the run's segment
      `first` starts from `buf`: `buf` itself, then the streamed files. */
  function SegmentFrames(files: Store, buf: seq<JoyState>, first: nat, k: nat): (r: seq<JoyState>)
    requires |buf| == TraceLength && k < SegmentCount && SkillsFilesPresent(files)
    ensures |r| == TraceLength
  {
    if k <= first then buf else StreamTrace(files[FileName('p', k)])
  }

  /** Reference definition of an uncancelled skills run from segment
      `segment` with buffer `buf`: every tick of that buffer, then every tick
      of each later segment's file, back to back. */
  function SkillsLog(files: Store, buf: seq<JoyState>, segment: nat, flipped: int): (r: seq<Command>)
    requires segment < SegmentCount && |buf| == TraceLength && SkillsFilesPresent(files)
    ensures |r| == (SegmentCount - segment) * TraceLength
    decreases SegmentCount - segment
  {
    Emitted(buf, flipped, TraceLength) +
      if segment + 1 < SegmentCount
      then SkillsLog(files, StreamTrace(files[FileName('p', segment + 1)]), segment + 1, flipped)
      else []
  }

  /** An uncancelled skills run from segment `segment` plays the reference
      log, with no gap between segments, and ends holding the last segment
      p3 (or the buffer it was given if it is the last). */
  lemma {:induction false} SkillsRunFrom(segment: nat, buf: seq<JoyState>, flipped: int, files: Store,
                                          pressed: nat -> bool, online: nat -> bool)
    requires segment < SegmentCount && |buf| == TraceLength && SkillsFilesPresent(files)
    requires forall t :: segment * TraceLength <= t < SegmentCount * TraceLength ==> !Aborts(pressed, online, t)
    ensures var r := PlaySegments(segment, buf, SkillsSlot, flipped, files, pressed, online);
            && r.0 == SkillsLog(files, buf, segment, flipped)
            && r.1 == (if segment < SegmentCount - 1 then StreamTrace(files[FileName('p', SegmentCount - 1)]) else buf)
    decreases SegmentCount - segment
  {
    if segment + 1 < SegmentCount {
      SkillsSegmentContinues(segment, buf, flipped, files, pressed, online);
      SkillsRunFrom(segment + 1, StreamTrace(files[FileName('p', segment + 1)]), flipped, files, pressed, online);
    } else {
      SegmentRunsToEnd(pressed, online, segment);
      PlaySegmentsStep(segment, buf, SkillsSlot, flipped, files, pressed, online);
    }
  }

  /** Tick arithmetic: segment `f` starts after every tick of an earlier
      segment. */
  lemma LaterSegmentTicks(segment: nat, f: nat, i: nat)
    requires segment < f
    ensures segment * TraceLength + TraceLength <= f * TraceLength + i
    ensures (f - segment) * TraceLength == TraceLength + (f - (segment + 1)) * TraceLength
  {
  }

  /** Reference definition of a skills run from segment `segment` with
      buffer `buf` cancelled at tick i of segment f: every tick of the
      segments before f, then ticks 0..i of segment f. */
  function CancelledLog(files: Store, buf: seq<JoyState>, segment: nat, f: nat, i: nat, flipped: int): (r: seq<Command>)
    requires segment <= f < SegmentCount && i < TraceLength && |buf| == TraceLength && SkillsFilesPresent(files)
    ensures |r| == (f - segment) * TraceLength + i + 1
    decreases f - segment
  {
    if segment == f then Emitted(buf, flipped, i + 1)
    else
      LaterSegmentTicks(segment, f, i);
      Emitted(buf, flipped, TraceLength)
        + CancelledLog(files, StreamTrace(files[FileName('p', segment + 1)]), segment + 1, f, i, flipped)
  }

  /** The last element of a concatenation is the last of its second part. */
  lemma LastOfAppend<T>(a: seq<T>, b: seq<T>, c: seq<T>)
    requires |b| > 0 && c == a + b
    ensures c[|c| - 1] == b[|b| - 1]
  {
  }

  /** The last move of a segment cut after `len` ticks is the move for
      frame len - 1. */
  lemma EmittedLast(buf: seq<JoyState>, flipped: int, len: nat)
    requires 0 < len <= |buf|
    ensures Emitted(buf, flipped, len)[len - 1] == PlaybackMove(buf[len - 1], flipped)
  {
  }

  /** A cancelled log that starts before segment f is a whole segment of
      `buf`, then the log from the next segment with its streamed file. */
  lemma CancelledLogStep(files: Store, buf: seq<JoyState>, segment: nat, f: nat, i: nat, flipped: int)
    requires segment < f < SegmentCount && i < TraceLength && |buf| == TraceLength && SkillsFilesPresent(files)
    ensures var next := SegmentFrames(files, buf, segment, segment + 1);
            && CancelledLog(files, buf, segment, f, i, flipped)
                 == Emitted(buf, flipped, TraceLength) + CancelledLog(files, next, segment + 1, f, i, flipped)
            && SegmentFrames(files, next, segment + 1, f) == SegmentFrames(files, buf, segment, f)
  {
    var next := StreamTrace(files[FileName('p', segment + 1)]);
    assert SegmentFrames(files, buf, segment, segment + 1) == next;
    assert SegmentFrames(files, buf, segment, f) == StreamTrace(files[FileName('p', f)]);
  }

  /** The last move of a cancelled skills run is the one for the cancel
      tick: frame i of the frames segment f plays. */
  lemma {:induction false} CancelledLogLast(files: Store, buf: seq<JoyState>, segment: nat, f: nat, i: nat,
                                            flipped: int)
    requires segment <= f < SegmentCount && i < TraceLength && |buf| == TraceLength && SkillsFilesPresent(files)
    ensures var r := CancelledLog(files, buf, segment, f, i, flipped);
            r[|r| - 1] == PlaybackMove(SegmentFrames(files, buf, segment, f)[i], flipped)
    decreases f - segment
  {
    if segment < f {
      var next := SegmentFrames(files, buf, segment, segment + 1);
      var tail := CancelledLog(files, next, segment + 1, f, i, flipped);
      CancelledLogStep(files, buf, segment, f, i, flipped);
      CancelledLogLast(files, next, segment + 1, f, i, flipped);
      LastOfAppend(Emitted(buf, flipped, TraceLength), tail, CancelledLog(files, buf, segment, f, i, flipped));
    } else {
      EmittedLast(buf, flipped, i + 1);
    }
  }

  /** A skills run cancelled at tick i of segment f (f*TraceLength + i from
      the start) emits exactly the reference log: the ticks up to and
      including that one. The cancel tick is not prefetched, so the buffer
      holds the next segment only below index i. */
  lemma {:induction false} SkillsRunCancelled(segment: nat, buf: seq<JoyState>, flipped: int, files: Store,
                                              pressed: nat -> bool, online: nat -> bool, f: nat, i: nat)
    requires segment <= f < SegmentCount && i < TraceLength && |buf| == TraceLength && SkillsFilesPresent(files)
    requires forall t :: segment * TraceLength <= t < f * TraceLength + i ==> !Aborts(pressed, online, t)
    requires Aborts(pressed, online, f * TraceLength + i)
    ensures var r := PlaySegments(segment, buf, SkillsSlot, flipped, files, pressed, online);
            && r.0 == CancelledLog(files, buf, segment, f, i, flipped)
            && r.1 == (if f < SegmentCount - 1
                       then Prefetched(SegmentFrames(files, buf, segment, f), files[NextSegmentName(f)], i)
                       else SegmentFrames(files, buf, segment, f))
    decreases f - segment
  {
    if segment == f {
      SkillsSegmentStops(segment, buf, flipped, files, pressed, online, i);
    } else {
      var next := StreamTrace(files[FileName('p', segment + 1)]);
      LaterSegmentTicks(segment, f, i);
      SkillsSegmentContinues(segment, buf, flipped, files, pressed, online);
      SkillsRunCancelled(segment + 1, next, flipped, files, pressed, online, f, i);
      assert SegmentFrames(files, next, segment + 1, f) == SegmentFrames(files, buf, segment, f);
    }
  }

  /** Any slot other than skills plays exactly one segment, up to the cancel
      tick if any, and leaves the buffer as it was. */
  lemma SingleSegment(buf: seq<JoyState>, loaded: int, flipped: int, files: Store,
                      pressed: nat -> bool, online: nat -> bool)
    requires |buf| == TraceLength && loaded != SkillsSlot
    ensures var c := SegmentStop(pressed, online, 0);
            PlaySegments(0, buf, loaded, flipped, files, pressed, online)
              == (Emitted(buf, flipped, if c < TraceLength then c + 1 else TraceLength), buf)
  {
  }

  // ---------------------------------------------------------------------
  // Whole playback

  /** Entry: slot 0 loaded (which is also what recording leaves) returns at
      once with nothing emitted and no stop; nothing in memory is the same
      as playing after loadAuton(1); any other slot plays at least one tick
      and ends with the motors stopped. */
  lemma PlaybackEntry(s: Session, files: Store, flipped: int, pressed: nat -> bool, online: nat -> bool,
                      uninit: seq<Byte>)
    requires WellFormed(s) && |uninit| == FrameSize
    requires s.loaded == SkillsSlot ==> SkillsFilesPresent(files)
    ensures s.loaded == 0 ==> Playback(s, files, flipped, pressed, online, uninit) == (s, [])
    ensures s.loaded == -1 ==> WellFormed(Load(s, files, 1, uninit)) && Load(s, files, 1, uninit).loaded != SkillsSlot
                               && Playback(s, files, flipped, pressed, online, uninit)
                                  == Playback(Load(s, files, 1, uninit), files, flipped, pressed, online, uninit)
    ensures s.loaded != 0 && s.loaded != -1 ==>
              var out := Playback(s, files, flipped, pressed, online, uninit).1;
              |out| >= 2 && out[|out| - 1] == StopAll
  {
    ConcreteNames();
  }

  /** As written, playing back right after recording does nothing: recording
      leaves slot 0 loaded. */
  lemma PlaybackAfterRecordIsNoOp(s: Session, sample: nat -> JoyState, pressed: nat -> bool, files: Store,
                                  flipped: int, online: nat -> bool, uninit: seq<Byte>)
    requires |uninit| == FrameSize
    ensures var rec := Record(s, sample, pressed);
            Playback(rec, files, flipped, pressed, online, uninit) == (rec, [])
  {
  }

  /** Orientation is applied only on output: playing a regular slot emits
      `flipped * turn` with the other channels as stored, tick by tick, and
      leaves the trace as it was, so a second playback with the opposite
      orientation emits the stored turn values exactly. */
  lemma OrientationIsNonDestructive(s: Session, files: Store, pressed: nat -> bool, online: nat -> bool,
                                    uninit: seq<Byte>)
    requires WellFormed(s) && |uninit| == FrameSize
    requires s.loaded != 0 && s.loaded != -1 && s.loaded != SkillsSlot
    ensures var (s1, mirrored) := Playback(s, files, -1, pressed, online, uninit);
            var (s2, straight) := Playback(s1, files, 1, pressed, online, uninit);
            && s1 == s && s2 == s
            && 2 <= |mirrored| <= TraceLength + 1 && |mirrored| == |straight|
            && mirrored[|mirrored| - 1] == StopAll
            && (forall i :: 0 <= i < |mirrored| - 1 ==>
                  mirrored[i] == Move(s.trace[i].spd, s.trace[i].horizontal, -(s.trace[i].turn as int), s.trace[i].sht, s.trace[i].lift))
            && (forall i :: 0 <= i < |straight| - 1 ==> straight[i] == LiveMove(s.trace[i]))
  {
    SingleSegment(s.trace, s.loaded, -1, files, pressed, online);
    SingleSegment(s.trace, s.loaded, 1, files, pressed, online);
  }

  /** A complete skills run: the loaded buffer, then p1, p2 and p3 streamed,
      each for a full 750 ticks with no gap (3000 moves), then a stop; the
      buffer ends holding p3. */
  lemma SkillsPlayback(s: Session, files: Store, flipped: int, pressed: nat -> bool, online: nat -> bool,
                       uninit: seq<Byte>)
    requires WellFormed(s) && |uninit| == FrameSize
    requires s.loaded == SkillsSlot && SkillsFilesPresent(files)
    requires forall t :: 0 <= t < SegmentCount * TraceLength ==> !Aborts(pressed, online, t)
    ensures "p1" in files && "p2" in files && "p3" in files
    ensures var (s', out) := Playback(s, files, flipped, pressed, online, uninit);
            && out == Emitted(s.trace, flipped, TraceLength)
                      + Emitted(StreamTrace(files["p1"]), flipped, TraceLength)
                      + Emitted(StreamTrace(files["p2"]), flipped, TraceLength)
                      + Emitted(StreamTrace(files["p3"]), flipped, TraceLength)
                      + [StopAll]
            && |out| == SegmentCount * TraceLength + 1
            && s' == s.(trace := StreamTrace(files["p3"]))
  {
    ConcreteNames();
    SkillsRunFrom(0, s.trace, flipped, files, pressed, online);
    SkillsLogUnrolled(files, s.trace, flipped);
  }

  /** A skills run leaves slot 11 loaded with p3 in the buffer, so playing
      again without reloading replays p3 as the first segment: p3, p1, p2,
      p3, and the session is the same as after the first run. */
  lemma SecondSkillsPlayback(s: Session, files: Store, flipped: int, pressed: nat -> bool, online: nat -> bool,
                             pressed': nat -> bool, online': nat -> bool, uninit: seq<Byte>)
    requires WellFormed(s) && |uninit| == FrameSize
    requires s.loaded == SkillsSlot && SkillsFilesPresent(files)
    requires forall t :: 0 <= t < SegmentCount * TraceLength ==> !Aborts(pressed, online, t)
    requires forall t :: 0 <= t < SegmentCount * TraceLength ==> !Aborts(pressed', online', t)
    ensures "p1" in files && "p2" in files && "p3" in files
    ensures var (s1, _) := Playback(s, files, flipped, pressed, online, uninit);
            var (s2, out) := Playback(s1, files, flipped, pressed', online', uninit);
            && out == Emitted(StreamTrace(files["p3"]), flipped, TraceLength)
                      + Emitted(StreamTrace(files["p1"]), flipped, TraceLength)
                      + Emitted(StreamTrace(files["p2"]), flipped, TraceLength)
                      + Emitted(StreamTrace(files["p3"]), flipped, TraceLength)
                      + [StopAll]
            && s2 == s1
  {
    SkillsPlayback(s, files, flipped, pressed, online, uninit);
    var s1 := Playback(s, files, flipped, pressed, online, uninit).0;
    SkillsPlayback(s1, files, flipped, pressed', online', uninit);
  }

  /** The reference log of a whole skills run, written out segment by segment. */
  lemma SkillsLogUnrolled(files: Store, buf: seq<JoyState>, flipped: int)
    requires |buf| == TraceLength && SkillsFilesPresent(files)
    ensures "p1" in files && "p2" in files && "p3" in files
    ensures SkillsLog(files, buf, 0, flipped)
            == Emitted(buf, flipped, TraceLength)
               + Emitted(StreamTrace(files["p1"]), flipped, TraceLength)
               + Emitted(StreamTrace(files["p2"]), flipped, TraceLength)
               + Emitted(StreamTrace(files["p3"]), flipped, TraceLength)
  {
    ConcreteNames();
    var p1 := StreamTrace(files["p1"]);
    var p2 := StreamTrace(files["p2"]);
    var p3 := StreamTrace(files["p3"]);
    assert SkillsLog(files, p3, 3, flipped) == Emitted(p3, flipped, TraceLength);
    assert SkillsLog(files, p2, 2, flipped) == Emitted(p2, flipped, TraceLength) + SkillsLog(files, p3, 3, flipped);
    assert SkillsLog(files, p1, 1, flipped) == Emitted(p1, flipped, TraceLength) + SkillsLog(files, p2, 2, flipped);
    assert SkillsLog(files, buf, 0, flipped) == Emitted(buf, flipped, TraceLength) + SkillsLog(files, p1, 1, flipped);
  }

  /** With segments 1..3 saved as encoded traces, a complete skills run plays
      the loaded buffer and then exactly the saved traces, and ends holding
      the third. */
  lemma {:induction false} SkillsPlaybackOfSavedSegments(s: Session, t1: seq<JoyState>, t2: seq<JoyState>,
                                                        t3: seq<JoyState>, files: Store, flipped: int,
                                                        pressed: nat -> bool, online: nat -> bool,
                                                        uninit: seq<Byte>)
    requires WellFormed(s) && |uninit| == FrameSize && |t1| == |t2| == |t3| == TraceLength
    requires s.loaded == SkillsSlot
    requires "p1" in files && files["p1"] == EncodeTrace(t1)
    requires "p2" in files && files["p2"] == EncodeTrace(t2)
    requires "p3" in files && files["p3"] == EncodeTrace(t3)
    requires forall t :: 0 <= t < SegmentCount * TraceLength ==> !Aborts(pressed, online, t)
    ensures SkillsFilesPresent(files)
    ensures var (s', out) := Playback(s, files, flipped, pressed, online, uninit);
            && out == Emitted(s.trace, flipped, TraceLength) + Emitted(t1, flipped, TraceLength)
                      + Emitted(t2, flipped, TraceLength) + Emitted(t3, flipped, TraceLength) + [StopAll]
            && s'.trace == t3
  {
    ConcreteNames();
    StreamRoundTrip(t1);
    StreamRoundTrip(t2);
    StreamRoundTrip(t3);
    assert SkillsFilesPresent(files) by {
      forall k: nat | 1 <= k < SegmentCount
        ensures FileName('p', k) in files
      {
        assert k == 1 || k == 2 || k == 3;
      }
    }
    SkillsPlayback(s, files, flipped, pressed, online, uninit);
  }

  /** The moves of a run cancelled at run tick t = f*750 + i: ticks 0..t,
      the last being the frame at index i of segment f; a single-segment run
      leaves the buffer as it was. */
  lemma CancelledRun(buf: seq<JoyState>, loaded: int, files: Store, flipped: int, pressed: nat -> bool,
                     online: nat -> bool, f: nat, i: nat)
    requires |buf| == TraceLength
    requires loaded == SkillsSlot ==> SkillsFilesPresent(files) && f < SegmentCount
    requires loaded != SkillsSlot ==> f == 0
    requires i < TraceLength && Aborts(pressed, online, f * TraceLength + i)
    requires forall t :: 0 <= t < f * TraceLength + i ==> !Aborts(pressed, online, t)
    ensures var r := PlaySegments(0, buf, loaded, flipped, files, pressed, online);
            && |r.0| == f * TraceLength + i + 1
            && (loaded == SkillsSlot ==> r.0[|r.0| - 1] == PlaybackMove(SegmentFrames(files, buf, 0, f)[i], flipped))
            && (loaded != SkillsSlot ==> r.0[|r.0| - 1] == PlaybackMove(buf[i], flipped) && r.1 == buf)
  {
    if loaded == SkillsSlot {
      SkillsRunCancelled(0, buf, flipped, files, pressed, online, f, i);
      CancelledLogLast(files, buf, 0, f, i, flipped);
    } else {
      SegmentStopsAt(pressed, online, 0, i);
      SingleSegment(buf, loaded, flipped, files, pressed, online);
    }
  }

  /** Cancel during playback at run tick t = f*750 + i: ticks 0..t are
      emitted, then the motors stop; nothing else runs. */
  lemma PlaybackCancelled(s: Session, files: Store, flipped: int, pressed: nat -> bool, online: nat -> bool,
                          uninit: seq<Byte>, f: nat, i: nat)
    requires WellFormed(s) && |uninit| == FrameSize
    requires s.loaded != 0 && s.loaded != -1
    requires s.loaded == SkillsSlot ==> SkillsFilesPresent(files) && f < SegmentCount
    requires s.loaded != SkillsSlot ==> f == 0
    requires i < TraceLength && Aborts(pressed, online, f * TraceLength + i)
    requires forall t :: 0 <= t < f * TraceLength + i ==> !Aborts(pressed, online, t)
    ensures var (s', out) := Playback(s, files, flipped, pressed, online, uninit);
            && |out| == f * TraceLength + i + 2 && out[|out| - 1] == StopAll
            && (s.loaded == SkillsSlot ==> out[|out| - 2] == PlaybackMove(SegmentFrames(files, s.trace, 0, f)[i], flipped))
            && (s.loaded != SkillsSlot ==> out[|out| - 2] == PlaybackMove(s.trace[i], flipped))
            && (s.loaded != SkillsSlot ==> s' == s)
  {
    var r := PlaySegments(0, s.trace, s.loaded, flipped, files, pressed, online);
    assert Playback(s, files, flipped, pressed, online, uninit) == (s.(trace := r.1), r.0 + [StopAll]);
    CancelledRun(s.trace, s.loaded, files, flipped, pressed, online, f, i);
    assert (r.0 + [StopAll])[|r.0|] == StopAll;
    assert (r.0 + [StopAll])[|r.0| - 1] == r.0[|r.0| - 1];
  }

  /** Record and replay with the intended trace: playing a regular slot that
      holds it, unmirrored and uncancelled, sends exactly the moves the
      operator sent while recording, and leaves the session as it was. */
  lemma IntendedRecordingReplays(sample: nat -> JoyState, pressed: nat -> bool, slot: int, cursor: int,
                                 files: Store, playPressed: nat -> bool, online: nat -> bool, uninit: seq<Byte>)
    requires IsRegularSlot(slot) && |uninit| == FrameSize
    requires forall t :: 0 <= t < TraceLength ==> !Aborts(playPressed, online, t)
    ensures var s := Session(slot, cursor, IntendedTrace(sample, pressed));
            var (s', out) := Playback(s, files, 1, playPressed, online, uninit);
            && s' == s && |out| == TraceLength + 1
            && forall k :: 0 <= k < RecordTicks(pressed) ==> out[k] == RecordCommands(sample, pressed)[k]
  {
    var trace := IntendedTrace(sample, pressed);
    SegmentRunsToEnd(playPressed, online, 0);
    SingleSegment(trace, slot, 1, files, playPressed, online);
    var out := Emitted(trace, 1, TraceLength) + [StopAll];
    forall k | 0 <= k < RecordTicks(pressed)
      ensures out[k] == RecordCommands(sample, pressed)[k]
    {
      assert trace[k] == sample(k);
      assert out[k] == PlaybackMove(sample(k), 1) == LiveMove(sample(k));
    }
  }

  /** As written, record and replay differ: replaying the recording of an
      operator at rest sends horizontal -127 at tick 0 where the operator
      sent 0. */
  lemma RecordedRecordingDiverges(slot: int, files: Store, uninit: seq<Byte>)
    requires IsRegularSlot(slot) && |uninit| == FrameSize
    ensures var s := Session(slot, 0, RecordedTrace(t => Still, t => false));
            var (s', out) := Playback(s, files, 1, t => false, t => false, uninit);
            && |out| == TraceLength + 1
            && out[0] == Move(0, -127, 0, 0, 0)
            && RecordCommands(t => Still, t => false)[0] == Move(0, 0, 0, 0, 0)
  {
    var trace := RecordedTrace(t => Still, t => false);
    RecordedTraceOverridesHorizontal();
    RecordUncancelled(t => Still, t => false);
    SegmentRunsToEnd(t => false, t => false, 0);
    SingleSegment(trace, slot, 1, files, t => false, t => false);
  }
}
