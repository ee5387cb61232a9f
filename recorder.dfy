/** The recorder itself (src/autonrecorder.c): the globals `states`,
    `autonLoaded` and `progSkills` as the fields of one object, the flash file
    system as a map it updates, and the five operations as methods that change
    them step by step as the C code does. Each method is proved to leave the
    state the matching function of RecorderSpec or PlaybackSpec describes.

    The joystick, the cancel button and the field-control flag are inputs
    indexed by tick; the LCD, the console and the delays are left out. */
module AutonRecorder {
  import opened AutonHeader
  import opened FrameCodec
  import opened FileNames
  import opened RecorderSpec
  import opened PlaybackSpec

  class Recorder {
    /** `joyState states[AUTON_TIME * JOY_POLL_FREQ]`. */
    var states: array<JoyState>
    /** Slot of the routine in memory: -1 none yet, 0 none, 1..10, 11, 12. */
    var autonLoaded: int
    /** Segment cursor of a programming-skills recording. */
    var progSkills: int
    /** The flash file system. */
    var files: Store

    ghost predicate Valid()
      reads this
    {
      states.Length == TraceLength
    }

    /** The globals as a session value. */
    ghost function View(): Session
      reads this, states
    {
      Session(autonLoaded, progSkills, states[..])
    }

    /** Program start: C globals are zero-initialised; the flash holds
        whatever was saved before. */
    constructor (flash: Store)
      ensures Valid() && fresh(states)
      ensures View() == Session(0, 0, ClearedTrace()) && files == flash
    {
      states := new JoyState[TraceLength](_ => Still);
      autonLoaded := 0;
      progSkills := 0;
      files := flash;
      new;
      assert states[..] == ClearedTrace();
    }

    /** initAutonRecorder: `memset(states, 0, sizeof(*states))` clears frame
        0 only; nothing is in memory and the cursor is reset. */
    method InitAutonRecorder()
      requires Valid()
      modifies this, states
      ensures Valid() && states == old(states) && files == old(files)
      ensures View() == Init(old(View()))
    {
      states[0] := Still;
      autonLoaded := -1;
      progSkills := 0;
      assert states[..] == [Still] + old(states[..])[1..];
    }

    /** initAutonRecorder clearing the whole buffer, as its documentation
        says it does. */
    method InitAutonRecorderCleared()
      requires Valid()
      modifies this, states
      ensures Valid() && states == old(states) && files == old(files)
      ensures View() == Session(-1, 0, ClearedTrace())
    {
      forall k | 0 <= k < states.Length {
        states[k] := Still;
      }
      autonLoaded := -1;
      progSkills := 0;
      assert states[..] == ClearedTrace();
    }

    /** recordAuton: sample every tick, store the frame with its synthetic
        horizontal value, stop early (zero-filling the rest) when the cancel
        button is down, drive the robot from the live sample, then stop the
        motors and mark slot 0 loaded. */
    method RecordAuton(sample: nat -> JoyState, pressed: nat -> bool) returns (commands: seq<Command>)
      requires Valid()
      modifies this, states
      ensures Valid() && states == old(states) && files == old(files)
      ensures View() == Record(old(View()), sample, pressed)
      ensures commands == RecordCommands(sample, pressed)
    {
      commands := RecordLoop(sample, pressed);
      commands := commands + [StopAll];
      autonLoaded := 0;
    }

    /** The sampling loop of recordAuton: one frame and one live move per
        tick until the cancel button is seen or the buffer is full. */
    method RecordLoop(sample: nat -> JoyState, pressed: nat -> bool) returns (moves: seq<Command>)
      requires Valid()
      modifies states
      ensures states[..] == RecordedTrace(sample, pressed)
      ensures moves + [StopAll] == RecordCommands(sample, pressed)
    {
      moves := [];
      var i := 0;
      while i < TraceLength
        invariant 0 <= i <= TraceLength + 1
        invariant i <= TraceLength ==> |moves| == i && forall t :: 0 <= t < i ==> !pressed(t)
        invariant i == TraceLength + 1 ==> 1 <= |moves| <= TraceLength && RecordTicks(pressed) == |moves|
        invariant forall k :: 0 <= k < |moves| ==> moves[k] == LiveMove(sample(k))
        invariant forall k :: 0 <= k < |moves| ==> states[k] == RecordedFrame(sample(k), k)
        invariant i == TraceLength + 1 ==> forall k :: |moves| <= k < TraceLength ==> states[k] == Still
      {
        var joy := sample(i);
        states[i] := JoyState(joy.spd, SyntheticHorizontal(i), joy.turn, joy.sht, joy.lift);
        if pressed(i) {
          RecordCancelledAt(sample, pressed, i);
          forall k | i + 1 <= k < TraceLength {
            states[k] := Still;
          }
          i := TraceLength;
        }
        moves := moves + [LiveMove(joy)];
        i := i + 1;
      }
      if i == TraceLength {
        RecordUncancelled(sample, pressed);
      }
      assert states[..] == RecordedTrace(sample, pressed);
      assert moves + [StopAll] == RecordCommands(sample, pressed);
    }

    /** saveAuton: write the buffer to "a1", or to "p<progSkills>" inside a
        skills run, one byte per `fwrite`; then advance the cursor inside a
        skills run and mark the slot written as loaded. `openFails` stands
        for `fopen` returning NULL. */
    method SaveAuton(openFails: bool)
      requires Valid()
      modifies this
      ensures Valid() && states == old(states)
      ensures (View(), files) == Save(old(View()), old(files), openFails)
    {
      var autonSlot := if progSkills == 0 then 1 else MaxAutonSlots + 1;
      var filename := if autonSlot != MaxAutonSlots + 1 then FileName('a', autonSlot) else FileName('p', progSkills);
      if openFails {
        return;
      }
      assert autonSlot == SaveSlot(progSkills) && filename == SaveName(progSkills);
      ghost var saved := Save(View(), files, false);
      assert saved.1 == files[filename := EncodeTrace(states[..])];
      var contents := WriteTrace();
      files := files[filename := contents];
      if autonSlot == MaxAutonSlots + 1 {
        progSkills := progSkills + 1;
      }
      if progSkills == SegmentCount {
        progSkills := 0;
      }
      autonLoaded := autonSlot;
      assert View() == saved.0;
    }

    /** The write loop of saveAuton: for each frame the five channel bytes,
        one `fwrite` each, appended to the file. */
    method WriteTrace() returns (contents: seq<Byte>)
      requires Valid()
      ensures contents == EncodeTrace(states[..])
    {
      contents := [];
      for i := 0 to TraceLength
        invariant contents == EncodeTrace(states[..i])
      {
        var write: seq<Byte> := [ToByte(states[i].spd), ToByte(states[i].horizontal), ToByte(states[i].turn),
                                 ToByte(states[i].sht), ToByte(states[i].lift)];
        for j := 0 to FrameSize
          invariant contents == EncodeTrace(states[..i]) + write[..j]
        {
          contents := contents + [write[j]];
        }
        assert states[..i + 1][..i] == states[..i];
        assert write[..FrameSize] == EncodeFrame(states[i]);
      }
      assert states[..TraceLength] == states[..];
    }

    /** loadAuton(autonSlot): the slot dispatch, then for each frame i a seek
        to 5i+j and a one-byte read into a reused buffer for each byte j; a
        read past the end of the file leaves that buffer byte as it was.
        `uninit` is what the freshly allocated buffer holds. */
    method LoadAuton(autonSlot: int, uninit: seq<Byte>)
      requires Valid() && |uninit| == FrameSize
      modifies this, states
      ensures Valid() && states == old(states) && files == old(files)
      ensures View() == Load(old(View()), files, autonSlot, uninit)
    {
      if autonSlot == 0 {
        autonLoaded := 0;
        return;
      } else if autonSlot == MaxAutonSlots + 1 {
        autonLoaded := MaxAutonSlots + 1;
      } else if autonSlot == MaxAutonSlots + 2 {
        autonLoaded := MaxAutonSlots + 2;
        return;
      } else if autonSlot == autonLoaded {
        return;
      }
      var filename := if autonSlot != MaxAutonSlots + 1 then FileName('a', autonSlot) else FileName('p', 0);
      if filename !in files {
        return;
      }
      ReadTrace(files[filename], uninit);
      autonLoaded := autonSlot;
    }

    /** The frame loop of loadAuton on an open file holding `bytes`: for
        each frame i and byte j a seek to 5i+j and a one-byte read into the
        buffer, which starts out holding `uninit`; a read past the end of the
        file leaves that buffer byte as it was. */
    method ReadTrace(bytes: seq<Byte>, uninit: seq<Byte>)
      requires Valid() && |uninit| == FrameSize
      modifies states
      ensures states[..] == LoadedTrace(bytes, uninit)
    {
      var read := uninit;
      for i := 0 to TraceLength
        invariant |read| == FrameSize
        invariant forall j :: 0 <= j < FrameSize ==> read[j] == BufferBefore(bytes, uninit, i, j)
        invariant forall k :: 0 <= k < i ==> states[k] == LoadedFrame(bytes, uninit, k)
      {
        var f;
        f, read := ReadFrame(bytes, uninit, i, read);
        states[i] := f;
      }
      LoadedTraceOfFrames(states[..], bytes, uninit);
    }

    /** playbackAuton(flipped): load slot 1 if nothing is in memory, return
        if slot 0 is loaded, otherwise play the buffer tick by tick with the
        turn channel scaled by `flipped`; in a skills run, stream the next
        segment's file into each index right after playing it and continue
        with that segment; a cancel (button down while not under field
        control) ends the tick and the run. Finally stop the motors. */
    method PlaybackAuton(flipped: int, pressed: nat -> bool, online: nat -> bool, uninit: seq<Byte>)
      returns (commands: seq<Command>)
      requires Valid() && |uninit| == FrameSize
      requires autonLoaded == SkillsSlot ==> SkillsFilesPresent(files)
      modifies this, states
      ensures Valid() && states == old(states) && files == old(files)
      ensures (View(), commands) == Playback(old(View()), old(files), flipped, pressed, online, uninit)
    {
      commands := [];
      if autonLoaded == -1 {
        LoadAuton(1, uninit);
      }
      if autonLoaded == 0 {
        return;
      }
      commands := PlayRun(flipped, pressed, online);
      commands := commands + [StopAll];
    }

    /** The do-while loop of playbackAuton: play segment `file`, then go on
        with the next one while a skills run is neither cancelled nor at its
        last segment. */
    method PlayRun(flipped: int, pressed: nat -> bool, online: nat -> bool) returns (commands: seq<Command>)
      requires Valid()
      requires autonLoaded == SkillsSlot ==> SkillsFilesPresent(files)
      modifies states
      ensures (commands, states[..]) == PlaySegments(0, old(states[..]), autonLoaded, flipped, files, pressed, online)
    {
      commands := [];
      ghost var total := PlaySegments(0, states[..], autonLoaded, flipped, files, pressed, online);
      RunStateStart(states[..], autonLoaded, flipped, files, pressed, online);
      var file := 0;
      var more := true;
      while more
        invariant 0 <= file <= SegmentCount + 1
        invariant more ==> file < SegmentCount
        invariant RunState(total, commands, file, more, states[..], autonLoaded, flipped, files, pressed, online)
        decreases SegmentCount + 1 - file
      {
        ghost var buf := states[..];
        PlaySegmentsStep(file, buf, autonLoaded, flipped, files, pressed, online);
        var emitted, cancelled := PlaySegment(file, flipped, pressed, online);
        RunStateStep(total, commands, file, buf, autonLoaded, flipped, files, pressed, online,
                     emitted, states[..], cancelled);
        commands := commands + emitted;
        if cancelled {
          file := SegmentCount;
        }
        file := file + 1;
        more := autonLoaded == MaxAutonSlots + 1 && file < SegmentCount;
      }
    }

    /** One pass of playbackAuton's do-while body over segment `file`: play
        each index of the buffer, polling cancel at run tick
        file * TraceLength + i; in a skills segment before the last, read the
        next frame of "p<file+1>" into the index just played. Returns the
        moves sent and whether the run was cancelled. */
    method PlaySegment(file: nat, flipped: int, pressed: nat -> bool, online: nat -> bool)
      returns (emitted: seq<Command>, cancelled: bool)
      requires Valid() && file < SegmentCount
      requires Prefetching(autonLoaded, file) ==> NextSegmentName(file) in files
      modifies states
      ensures cancelled == (SegmentStop(pressed, online, file) < TraceLength)
      ensures (emitted, states[..]) == SegmentRun(file, old(states[..]), autonLoaded, flipped, files, pressed, online)
    {
      ghost var buf := states[..];
      ghost var c := SegmentStop(pressed, online, file);
      var segment := file;
      var prefetch := autonLoaded == MaxAutonSlots + 1 && segment < SegmentCount - 1;
      var nextFile: seq<Byte> := [];
      var pos := 0;
      if prefetch {
        nextFile := files[FileName('p', segment + 1)];
      }
      emitted := [];
      cancelled := false;
      ghost var completed := 0;
      var i := 0;
      while i < TraceLength
        invariant 0 <= i <= TraceLength + 1 && completed <= c && completed <= i
        invariant !cancelled ==> i == completed && segment == file && |emitted| == i
        invariant cancelled ==> i == TraceLength + 1 && segment == SegmentCount && c == completed < TraceLength
        invariant cancelled ==> |emitted| == c + 1
        invariant emitted == Emitted(buf, flipped, |emitted|)
        invariant prefetch ==> pos == Min(FrameSize * completed, |nextFile|)
        invariant states[..] == if prefetch then Prefetched(buf, nextFile, completed) else buf
      {
        EmittedStep(buf, flipped, i);
        SegmentTick(pressed, online, file, i);
        if prefetch {
          PrefetchedStep(buf, nextFile, i);
        }
        var cmd := PlaybackMove(states[i], flipped);
        if pressed(segment * TraceLength + i) && !online(segment * TraceLength + i) {
          i := TraceLength;
          segment := SegmentCount;
          cancelled := true;
        }
        emitted := emitted + [cmd];
        if autonLoaded == MaxAutonSlots + 1 && segment < SegmentCount - 1 {
          pos := PrefetchFrame(i, nextFile, pos);
        }
        if !cancelled {
          completed := completed + 1;
        }
        i := i + 1;
      }
    }

    /** The prefetch of one frame: `fread` of five bytes of the next
        segment's file, from stream position `pos`, into a zeroed buffer,
        stored at index i of the buffer being played. */
    method PrefetchFrame(i: nat, nextFile: seq<Byte>, pos: nat) returns (next: nat)
      requires Valid() && i < TraceLength && pos == Min(FrameSize * i, |nextFile|)
      modifies states
      ensures next == Min(FrameSize * (i + 1), |nextFile|)
      ensures states[..] == old(states[..])[i := StreamFrame(nextFile, i)]
    {
      SequentialRead(nextFile, i);
      var read := ReadFive(nextFile, pos);
      next := pos + Min(FrameSize, |nextFile| - pos);
      states[i] := DecodeFrame(read);
    }
  }

  /** One iteration of loadAuton's frame loop: read frame i's bytes over
      the buffer and decode them. */
  method ReadFrame(bytes: seq<Byte>, uninit: seq<Byte>, i: nat, read: seq<Byte>) returns (f: JoyState, r: seq<Byte>)
    requires |uninit| == FrameSize && |read| == FrameSize
    requires forall j :: 0 <= j < FrameSize ==> read[j] == BufferBefore(bytes, uninit, i, j)
    ensures f == LoadedFrame(bytes, uninit, i)
    ensures |r| == FrameSize
    ensures forall j :: 0 <= j < FrameSize ==> r[j] == BufferBefore(bytes, uninit, i + 1, j)
  {
    r := ReadFrameBytes(bytes, uninit, i, read);
    DecodeLoadedBuffer(bytes, uninit, i, r);
    f := DecodeFrame(r);
  }

  /** The byte loop of loadAuton for frame i: for each j a seek to 5i+j and
      a one-byte `fread` into `read`, which holds what the previous frame
      left; a read past the end of the file leaves that byte as it was. */
  method ReadFrameBytes(bytes: seq<Byte>, uninit: seq<Byte>, i: nat, read: seq<Byte>) returns (r: seq<Byte>)
    requires |uninit| == FrameSize && |read| == FrameSize
    requires forall j :: 0 <= j < FrameSize ==> read[j] == BufferBefore(bytes, uninit, i, j)
    ensures |r| == FrameSize
    ensures forall j :: 0 <= j < FrameSize ==> r[j] == StaleByte(bytes, uninit, i, j)
  {
    r := read;
    for j := 0 to FrameSize
      invariant |r| == FrameSize
      invariant forall j' :: 0 <= j' < j ==> r[j'] == StaleByte(bytes, uninit, i, j')
      invariant forall j' :: j <= j' < FrameSize ==> r[j'] == BufferBefore(bytes, uninit, i, j')
    {
      var offset := FrameSize * i + j;
      if offset < |bytes| {
        r := r[j := bytes[offset]];
      }
      StaleByteStep(bytes, uninit, i, j);
    }
  }
}
