/** Constants and the frame type of the autonomous recorder header
    (include/autonrecorder.h). */
module AutonHeader {

  /** Seconds in the autonomous period. */
  const AutonTime: nat := 15

  /** Seconds in the programming-skills challenge. */
  const ProgSkillTime: nat := 60

  /** Joystick samples taken per second. */
  const JoyPollFreq: nat := 50

  /** Number of regular autonomous slots (1..MaxAutonSlots). */
  const MaxAutonSlots: int := 10

  /** Size of the file-name buffer, terminating NUL included. */
  const FilenameMaxLength: nat := 8

  /** Frames in the trace buffer: one per poll over one autonomous period,
      AutonTime * JoyPollFreq (DerivedSizes). */
  const TraceLength: nat := 750

  /** Autonomous-length segments stitched into one programming-skills run,
      ProgSkillTime / AutonTime (DerivedSizes). */
  const SegmentCount: nat := 4

  /** Slot number of the composite programming-skills run, MaxAutonSlots + 1. */
  const SkillsSlot: int := 11

  /** Slot number of the hard-coded run, which has no file, MaxAutonSlots + 2. */
  const HardcodedSlot: int := 12

  /** A C `signed char`. */
  type SChar = x: int | -128 <= x < 128

  /** One sampled instant of the operator's controls (`joyState`), channels
      in declaration and storage order. */
  datatype JoyState = JoyState(spd: SChar, horizontal: SChar, turn: SChar, sht: SChar, lift: SChar)

  /** The all-zero frame: no motion on any channel. */
  const Still: JoyState := JoyState(0, 0, 0, 0, 0)

  /** A regular slot, one backed by a file `a<n>`. */
  predicate IsRegularSlot(slot: int) {
    1 <= slot <= MaxAutonSlots
  }

  /** The derived sizes are the header's expressions. */
  lemma DerivedSizes()
    ensures TraceLength == AutonTime * JoyPollFreq
    ensures SegmentCount == ProgSkillTime / AutonTime && SegmentCount * AutonTime == ProgSkillTime
    ensures SkillsSlot == MaxAutonSlots + 1 && HardcodedSlot == MaxAutonSlots + 2
    ensures forall slot :: IsRegularSlot(slot) ==> slot != 0 && slot != SkillsSlot && slot != HardcodedSlot
  {
  }
}
