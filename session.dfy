/** The recorder's session as a value, and what initAutonRecorder,
    recordAuton, saveAuton and loadAuton do to it (src/autonrecorder.c).
    The class in recorder.dfy is proved to follow these functions. */
module RecorderSpec {
  import opened AutonHeader
  import opened FrameCodec
  import opened FileNames

  /** A command sent to the motors: `moveRobot` with the five drive globals
      (the playback turn value is `flipped * turn`, so channels are plain
      integers), or `motorStopAll`. */
  datatype Command = Move(spd: int, horizontal: int, turn: int, sht: int, lift: int) | StopAll

  /** The globals: `autonLoaded` (-1 nothing in memory, 0 none, 1..10
      regular, 11 skills, 12 hard-coded), `progSkills` (skills segment cursor)
      and the contents of `states`. */
  datatype Session = Session(loaded: int, progSkills: int, trace: seq<JoyState>)

  /** The flash file system: file name to contents. */
  type Store = map<string, seq<Byte>>

  ghost predicate WellFormed(s: Session) {
    |s.trace| == TraceLength
  }

  // ---------------------------------------------------------------------
  // Cancellation, polled once per tick

  /** Tick t is cancelled: the cancel button is down and (in playback) the
      robot is not under field control. */
  predicate Aborts(pressed: nat -> bool, online: nat -> bool, t: nat) {
    pressed(t) && !online(t)
  }

  /** Recording polls the button without the field-control guard. */
  const NeverOnline: nat -> bool := (t: nat) => false

  /** The first cancelled tick in [from, end), or end if there is none. */
  function FirstAbort(pressed: nat -> bool, online: nat -> bool, from: nat, end: nat): (t: nat)
    requires from <= end
    ensures from <= t <= end
    ensures t < end ==> Aborts(pressed, online, t)
    ensures forall u :: from <= u < t ==> !Aborts(pressed, online, u)
    decreases end - from
  {
    if from == end then end
    else if Aborts(pressed, online, from) then from
    else FirstAbort(pressed, online, from + 1, end)
  }

  // ---------------------------------------------------------------------
  // initAutonRecorder

  /** The trace after `memset(states, 0, sizeof(*states))`: only frame 0 is
      cleared. */
  function InitTrace(trace: seq<JoyState>): (r: seq<JoyState>)
    requires |trace| == TraceLength
    ensures |r| == TraceLength && r[0] == Still
    ensures forall i :: 1 <= i < TraceLength ==> r[i] == trace[i]
  {
    [Still] + trace[1..]
  }

  /** initAutonRecorder: nothing in memory, cursor at 0, frame 0 cleared. */
  function Init(s: Session): (r: Session)
    requires WellFormed(s)
    ensures WellFormed(r) && r.loaded == -1 && r.progSkills == 0
    ensures r.trace[0] == Still && r.trace[1..] == s.trace[1..]
  {
    Session(-1, 0, InitTrace(s.trace))
  }

  /** As written, init leaves every frame but the first as it was: a buffer
      whose frame 1 moves keeps that motion after init. */
  lemma InitKeepsStaleFrames()
    ensures var before := seq(TraceLength, i => if i == 1 then JoyState(1, 0, 0, 0, 0) else Still);
            InitTrace(before)[1] == JoyState(1, 0, 0, 0, 0) != Still
  {
  }

  /** The trace the doc-comment of initAutonRecorder promises: all zero. */
  function ClearedTrace(): (r: seq<JoyState>)
    ensures |r| == TraceLength
    ensures forall i :: 0 <= i < |r| ==> r[i] == Still
  {
    seq(TraceLength, i => Still)
  }

  // ---------------------------------------------------------------------
  // recordAuton

  /** The horizontal value stored at tick i in place of the sampled one. */
  function SyntheticHorizontal(i: nat): (h: SChar)
    ensures -127 <= h <= 127
  {
    (i * 2) % 255 - 127
  }

  /** The frame stored for tick i: the sample with its horizontal channel
      overwritten. */
  function RecordedFrame(sample: JoyState, i: nat): (f: JoyState)
    ensures f.(horizontal := sample.horizontal) == sample
    ensures f.horizontal == SyntheticHorizontal(i)
  {
    sample.(horizontal := SyntheticHorizontal(i))
  }

  /** The tick at which recording sees the cancel button, or TraceLength. */
  function RecordStop(pressed: nat -> bool): (c: nat)
    ensures c <= TraceLength
  {
    FirstAbort(pressed, NeverOnline, 0, TraceLength)
  }

  /** The number of samples recording takes. */
  function RecordTicks(pressed: nat -> bool): (n: nat)
    ensures 1 <= n <= TraceLength
  {
    var c := RecordStop(pressed);
    if c < TraceLength then c + 1 else TraceLength
  }

  /** The buffer recordAuton leaves: recorded frames up to and including the
      cancel tick, zero frames after it. */
  function RecordedTrace(sample: nat -> JoyState, pressed: nat -> bool): (r: seq<JoyState>)
    ensures |r| == TraceLength
  {
    var n := RecordTicks(pressed);
    seq(TraceLength, i requires 0 <= i < TraceLength => if i < n then RecordedFrame(sample(i), i) else Still)
  }

  /** The move command for a live sample (it carries the live horizontal). */
  function LiveMove(f: JoyState): Command {
    Move(f.spd, f.horizontal, f.turn, f.sht, f.lift)
  }

  /** The commands recording sends: one move per sampled tick, then stop. */
  function RecordCommands(sample: nat -> JoyState, pressed: nat -> bool): (r: seq<Command>)
    ensures |r| == RecordTicks(pressed) + 1 && r[|r| - 1] == StopAll
    ensures forall t :: 0 <= t < RecordTicks(pressed) ==> r[t] == LiveMove(sample(t))
  {
    seq(RecordTicks(pressed), t requires 0 <= t < RecordTicks(pressed) => LiveMove(sample(t))) + [StopAll]
  }

  /** recordAuton: a new trace, and `autonLoaded = 0`. */
  function Record(s: Session, sample: nat -> JoyState, pressed: nat -> bool): (r: Session)
    ensures WellFormed(r) && r.loaded == 0 && r.progSkills == s.progSkills
    ensures forall k :: 0 <= k < RecordTicks(pressed) ==> r.trace[k] == RecordedFrame(sample(k), k)
    ensures forall k :: RecordTicks(pressed) <= k < TraceLength ==> r.trace[k] == Still
  {
    Session(0, s.progSkills, RecordedTrace(sample, pressed))
  }

  /** Cancel seen at tick i: frames after i are zero, frames up to i are as
      recorded, i + 1 samples were taken, and the zero-filled range
      i+1 .. TraceLength-1 (TraceLength - i - 1 frames) stays in the buffer. */
  lemma {:induction false} RecordCancelledAt(sample: nat -> JoyState, pressed: nat -> bool, i: nat)
    requires i < TraceLength && pressed(i)
    requires forall j :: 0 <= j < i ==> !pressed(j)
    ensures RecordTicks(pressed) == i + 1
    ensures 0 <= TraceLength - i - 1 && i + 1 + (TraceLength - i - 1) == TraceLength
    ensures forall k :: i < k < TraceLength ==> RecordedTrace(sample, pressed)[k] == Still
    ensures forall k :: 0 <= k <= i ==> RecordedTrace(sample, pressed)[k] == RecordedFrame(sample(k), k)
    ensures |RecordCommands(sample, pressed)| == i + 2
  {
    assert Aborts(pressed, NeverOnline, i);
    assert forall j :: 0 <= j < i ==> !Aborts(pressed, NeverOnline, j);
  }

  /** Without cancel every tick is recorded. */
  lemma {:induction false} RecordUncancelled(sample: nat -> JoyState, pressed: nat -> bool)
    requires forall j :: 0 <= j < TraceLength ==> !pressed(j)
    ensures RecordTicks(pressed) == TraceLength
    ensures forall k :: 0 <= k < TraceLength ==> RecordedTrace(sample, pressed)[k] == RecordedFrame(sample(k), k)
  {
    assert forall j :: 0 <= j < TraceLength ==> !Aborts(pressed, NeverOnline, j);
  }

  /** Every recorded frame keeps the sampled spd, turn, sht and lift and holds
      the synthetic horizontal value, which lies in [-127, 127]. */
  lemma RecordedChannels(sample: nat -> JoyState, pressed: nat -> bool, k: nat)
    requires k < RecordTicks(pressed)
    ensures var f := RecordedTrace(sample, pressed)[k];
            && f.spd == sample(k).spd && f.turn == sample(k).turn
            && f.sht == sample(k).sht && f.lift == sample(k).lift
            && f.horizontal as int == (k * 2) % 255 - 127
            && -127 <= f.horizontal <= 127
  {
  }

  /** As written, recording drops the sampled horizontal value: recording an
      operator who holds every stick at rest stores -127 at tick 0. */
  lemma RecordedTraceOverridesHorizontal()
    ensures RecordedTrace(t => Still, t => false)[0].horizontal == -127
    ensures RecordedTrace(t => Still, t => false)[0] != Still
  {
    var trace := RecordedTrace(t => Still, t => false);
    assert trace[0] == RecordedFrame(Still, 0);
    assert SyntheticHorizontal(0) == -127;
  }

  /** The trace the recorder evidently means to store: the samples
      themselves, zero frames after a cancel. */
  function IntendedTrace(sample: nat -> JoyState, pressed: nat -> bool): (r: seq<JoyState>)
    ensures |r| == TraceLength
  {
    var n := RecordTicks(pressed);
    seq(TraceLength, i requires 0 <= i < TraceLength => if i < n then sample(i) else Still)
  }

  /** The intended trace replays exactly what the operator sent, and agrees
      with the as-written trace on every channel but horizontal. */
  lemma IntendedTraceKeepsSamples(sample: nat -> JoyState, pressed: nat -> bool, k: nat)
    requires k < TraceLength
    ensures k < RecordTicks(pressed) ==> LiveMove(IntendedTrace(sample, pressed)[k]) == LiveMove(sample(k))
    ensures IntendedTrace(sample, pressed)[k].(horizontal := 0) == RecordedTrace(sample, pressed)[k].(horizontal := 0)
  {
  }

  // ---------------------------------------------------------------------
  // saveAuton

  /** The slot saveAuton writes: 1 outside a skills run, 11 inside one. */
  function SaveSlot(progSkills: int): (slot: int)
    ensures (slot == 1) == (progSkills == 0)
    ensures slot == 1 || slot == SkillsSlot
  {
    if progSkills == 0 then 1 else SkillsSlot
  }

  /** The file saveAuton writes. */
  function SaveName(progSkills: int): (name: string)
    ensures 2 <= |name| && name[0] == (if progSkills == 0 then 'a' else 'p')
    ensures progSkills == 0 ==> name == "a1"
    ensures 0 < progSkills < SegmentCount ==> name == "p" + [Digit(progSkills)]
  {
    ConcreteNames();
    GeneratedNamesFit(progSkills);
    if SaveSlot(progSkills) != SkillsSlot then FileName('a', SaveSlot(progSkills))
    else FileName('p', progSkills)
  }

  /** The cursor after a successful save: advanced inside a skills run, and
      reset once it reaches the segment count. */
  function SavedCursor(progSkills: int): (p: int)
    ensures progSkills == 0 ==> p == 0
    ensures 0 < progSkills < SegmentCount ==> p == (progSkills + 1) % SegmentCount
    ensures 0 <= progSkills < SegmentCount ==> 0 <= p < SegmentCount
  {
    var p := if SaveSlot(progSkills) == SkillsSlot then progSkills + 1 else progSkills;
    if p == SegmentCount then 0 else p
  }

  /** saveAuton, where `openFails` stands for `fopen` returning NULL. */
  function Save(s: Session, files: Store, openFails: bool): (r: (Session, Store))
    ensures openFails ==> r == (s, files)
    ensures !openFails ==> r.0.loaded == SaveSlot(s.progSkills) && r.0.progSkills == SavedCursor(s.progSkills)
                           && r.0.trace == s.trace
    ensures !openFails ==> SaveName(s.progSkills) in r.1 && r.1[SaveName(s.progSkills)] == EncodeTrace(s.trace)
    ensures !openFails ==> forall name :: name != SaveName(s.progSkills) ==>
              (name in r.1 <==> name in files) && (name in files ==> r.1[name] == files[name])
  {
    if openFails then (s, files)
    else
      (Session(SaveSlot(s.progSkills), SavedCursor(s.progSkills), s.trace),
       files[SaveName(s.progSkills) := EncodeTrace(s.trace)])
  }

  /** Destination and cursor of a save: "a1" with the cursor kept at 0, or
      "p<k>" with the cursor moved to (k+1) mod 4; the loaded slot becomes the
      slot written; a failed open changes nothing; the cursor stays in 0..3. */
  lemma SaveDestination(s: Session, files: Store, openFails: bool)
    ensures s.progSkills == 0 ==> SaveName(s.progSkills) == "a1" && SavedCursor(s.progSkills) == 0
    ensures 1 <= s.progSkills < SegmentCount ==>
      SaveName(s.progSkills) == "p" + [Digit(s.progSkills)] &&
      SavedCursor(s.progSkills) == (s.progSkills + 1) % SegmentCount
    ensures openFails ==> Save(s, files, openFails) == (s, files)
    ensures !openFails ==> Save(s, files, openFails).0.loaded == SaveSlot(s.progSkills)
                           && Save(s, files, openFails).0.loaded in {1, SkillsSlot}
                           && Save(s, files, openFails).0.trace == s.trace
                           && Save(s, files, openFails).1.Keys == files.Keys + {SaveName(s.progSkills)}
    ensures 0 <= s.progSkills < SegmentCount ==> 0 <= Save(s, files, openFails).0.progSkills < SegmentCount
  {
    ConcreteNames();
    if 1 <= s.progSkills < SegmentCount {
      GeneratedNamesFit(s.progSkills);
    }
  }

  /** A skills run entered at segment 1 cycles 1 -> 2 -> 3 -> 0 over three
      successful saves, writing p1, p2, p3. */
  lemma SkillsCursorCycle(s: Session, files: Store)
    requires s.progSkills == 1
    ensures var (s1, f1) := Save(s, files, false);
            var (s2, f2) := Save(s1, f1, false);
            var (s3, f3) := Save(s2, f2, false);
            && s1.progSkills == 2 && s2.progSkills == 3 && s3.progSkills == 0
            && s3.loaded == SkillsSlot
            && f3 == files["p1" := EncodeTrace(s.trace)]["p2" := EncodeTrace(s.trace)]["p3" := EncodeTrace(s.trace)]
  {
    ConcreteNames();
  }

  /** As written, a cursor at 0 stays at 0 (saving never enters a skills
      run), so from initAutonRecorder every save writes "a1" and "p0" is
      never written by the recorder. */
  lemma SaveNeverLeavesCursorZero(s: Session, files: Store, openFails: bool)
    requires s.progSkills == 0
    ensures Save(s, files, openFails).0.progSkills == 0
    ensures !openFails ==> Save(s, files, openFails).1 == files["a1" := EncodeTrace(s.trace)]
    ensures forall k :: 0 <= k < SegmentCount ==> SaveName(s.progSkills) != FileName('p', k)
  {
    ConcreteNames();
    forall k | 0 <= k < SegmentCount
      ensures SaveName(s.progSkills) != FileName('p', k)
    {
      RegularAndSegmentNamesDiffer(1, k);
    }
  }

  // ---------------------------------------------------------------------
  // loadAuton

  /** The file loadAuton opens for a slot: "a<slot>", or "p0" for skills. */
  function LoadName(slot: int): (name: string)
    ensures slot == SkillsSlot ==> name == "p0"
    ensures 2 <= |name| && (slot != SkillsSlot ==> name[0] == 'a')
    ensures slot == 1 ==> name == "a1"
  {
    ConcreteNames();
    if slot != SkillsSlot then FileName('a', slot) else FileName('p', 0)
  }

  /** loadAuton(slot); `uninit` is the uninitialised content of its 5-byte
      read buffer. */
  function Load(s: Session, files: Store, slot: int, uninit: seq<Byte>): (r: Session)
    requires |uninit| == FrameSize
    ensures r.progSkills == s.progSkills
    ensures r.loaded == s.loaded || r.loaded == slot
    ensures r.trace == s.trace || (LoadName(slot) in files && r.trace == LoadedTrace(files[LoadName(slot)], uninit))
    ensures WellFormed(s) ==> WellFormed(r)
  {
    if slot == 0 then s.(loaded := 0)
    else if slot == HardcodedSlot then s.(loaded := HardcodedSlot)
    else if slot != SkillsSlot && slot == s.loaded then s
    else
      var s1 := if slot == SkillsSlot then s.(loaded := SkillsSlot) else s;
      if LoadName(slot) !in files then s1
      else Session(slot, s.progSkills, LoadedTrace(files[LoadName(slot)], uninit))
  }

  /** The dispatch of loadAuton: slots 0 and 12 only set the loaded slot; a
      regular slot already loaded is a no-op; a missing file leaves the
      trace (and, except for skills, the loaded slot) unchanged; skills is
      marked loaded before "p0" is opened and always re-read; a successful
      load sets the slot and reads the file; the cursor never changes. */
  lemma LoadDispatch(s: Session, files: Store, slot: int, uninit: seq<Byte>)
    requires |uninit| == FrameSize
    ensures Load(s, files, slot, uninit).progSkills == s.progSkills
    ensures slot == 0 ==> Load(s, files, slot, uninit) == s.(loaded := 0)
    ensures slot == HardcodedSlot ==> Load(s, files, slot, uninit) == s.(loaded := HardcodedSlot)
    ensures slot !in {0, SkillsSlot, HardcodedSlot} && slot == s.loaded ==> Load(s, files, slot, uninit) == s
    ensures slot !in {0, SkillsSlot, HardcodedSlot} && slot != s.loaded && LoadName(slot) !in files ==>
      Load(s, files, slot, uninit) == s
    ensures slot == SkillsSlot && "p0" !in files ==> Load(s, files, slot, uninit) == s.(loaded := SkillsSlot)
    ensures slot == SkillsSlot && "p0" in files ==>
      Load(s, files, slot, uninit) == Session(SkillsSlot, s.progSkills, LoadedTrace(files["p0"], uninit))
    ensures slot !in {0, SkillsSlot, HardcodedSlot} && slot != s.loaded && LoadName(slot) in files ==>
      Load(s, files, slot, uninit) == Session(slot, s.progSkills, LoadedTrace(files[LoadName(slot)], uninit))
  {
    ConcreteNames();
  }

  /** The codec round trip through the store: after a successful save, loading
      the slot written restores the saved trace, from any session in which
      that slot is not already marked loaded (and if it is, the trace is the
      saved one already). */
  lemma {:induction false} SaveThenLoad(s: Session, files: Store, other: Session, uninit: seq<Byte>)
    requires WellFormed(s) && |uninit| == FrameSize
    requires s.progSkills == 0
    requires other.loaded != 1
    ensures var (saved, files') := Save(s, files, false);
            && Load(other, files', 1, uninit).trace == s.trace
            && Load(other, files', 1, uninit).loaded == 1
            && Load(saved, files', 1, uninit) == saved
  {
    ConcreteNames();
    LoadRoundTrip(s.trace, uninit);
  }

  /** Loading the skills run after its first segment was saved restores that
      segment. */
  lemma {:induction false} SaveSegmentZeroThenLoadSkills(trace: seq<JoyState>, files: Store, other: Session, uninit: seq<Byte>)
    requires |trace| == TraceLength && |uninit| == FrameSize
    ensures Load(other, files["p0" := EncodeTrace(trace)], SkillsSlot, uninit) == Session(SkillsSlot, other.progSkills, trace)
  {
    ConcreteNames();
    LoadRoundTrip(trace, uninit);
  }

  /** Every operation but save leaves the cursor alone, so a cursor at 0
      stays at 0 forever. */
  lemma CursorOnlyMovedBySave(s: Session, sample: nat -> JoyState, pressed: nat -> bool, files: Store, slot: int, uninit: seq<Byte>)
    requires WellFormed(s) && |uninit| == FrameSize
    ensures Init(s).progSkills == 0
    ensures Record(s, sample, pressed).progSkills == s.progSkills
    ensures Load(s, files, slot, uninit).progSkills == s.progSkills
  {
  }
}
