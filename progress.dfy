/**
 * The progress protocol: the event callback handed to the flash driver and the
 * character bar it draws for update events.
 */
module ProgressReport {
  import opened Common

  /** Number of bar cells that a full (100%) bar fills. */
  const BarCells: nat := 40

  /** Width of the blank line that wipes the bar. */
  const ClearWidth: nat := 54

  /** Number of `*` cells drawn for a percentage. */
  function StarCount(percent: nat): (stars: nat)
    ensures percent <= 100 ==> stars <= BarCells
    ensures percent == 100 ==> stars == BarCells
  {
    (BarCells * percent) / 100
  }

  /**
   * Number of `.` cells drawn after the stars. The first loop's failing test also
   * increments the shared counter, so the second loop starts one past the star count.
   */
  function DotCount(percent: nat): (dots: nat)
    ensures StarCount(percent) < BarCells ==> StarCount(percent) + dots == BarCells - 1
    ensures StarCount(percent) >= BarCells ==> dots == 0
  {
    if StarCount(percent) + 1 < BarCells then BarCells - 1 - StarCount(percent) else 0
  }

  /**
   * `Progress`: the cells between the brackets, drawn by two counting loops over one
   * post-incremented counter.
   */
  method Progress(percent: nat) returns (bar: seq<char>)
    ensures |bar| == StarCount(percent) + DotCount(percent)
    ensures forall i :: 0 <= i < StarCount(percent) ==> bar[i] == '*'
    ensures forall i :: StarCount(percent) <= i < |bar| ==> bar[i] == '.'
    ensures percent < 100 ==> |bar| == BarCells - 1
    ensures percent == 100 ==> bar == seq(BarCells, _ => '*')
  {
    var stars := (BarCells * percent) / 100;
    var n := 0;
    bar := [];
    // while (n++ < stars) print '*'
    while n < stars
      invariant 0 <= n <= stars
      invariant |bar| == n
      invariant forall i :: 0 <= i < n ==> bar[i] == '*'
    {
      n := n + 1;
      bar := bar + ['*'];
    }
    n := n + 1;
    // while (n++ < 40) print '.'
    while n < BarCells
      invariant stars + 1 <= n
      invariant n <= BarCells || n == stars + 1
      invariant |bar| == n - 1
      invariant forall i :: 0 <= i < stars ==> bar[i] == '*'
      invariant forall i :: stars <= i < |bar| ==> bar[i] == '.'
    {
      n := n + 1;
      bar := bar + ['.'];
    }
  }

  /** `ClearProgress`: the blank run that overwrites the bar line. */
  method ClearProgress() returns (blank: seq<char>)
    ensures |blank| == ClearWidth
    ensures forall i :: 0 <= i < |blank| ==> blank[i] == ' '
  {
    var n := 0;
    blank := [];
    while n < ClearWidth
      invariant 0 <= n <= ClearWidth
      invariant |blank| == n
      invariant forall i :: 0 <= i < n ==> blank[i] == ' '
    {
      n := n + 1;
      blank := blank + [' '];
    }
  }

  datatype Phase = Erase | Program | Verify

  datatype Stage = Start | Update | End | Error

  /** What the callback puts on the console for one event. */
  datatype Report =
    | Banner(phase: Phase)                              // "Erasing..." and the like
    | Bar(percent: nat)                                 // Progress(percent)
    | Done(phase: Phase)                                // ClearProgress, then "Done"
    | EraseFault(address: Dword, readBack: Byte)        // erase error: only the byte read
    | WriteFault(phase: Phase, address: Dword, written: nat, readBack: Byte)

  /** The percentage an update event shows: `(dwPos*100)/dwExtent` in DWORD arithmetic. */
  function PercentOf(pos: Dword, extent: Dword): (p: nat)
    requires extent > 0
  {
    ((pos * 100) % DwordModulus) / extent
  }

  /** How a driver packs the byte it wrote and the byte it read into an error extent. */
  function PackFault(written: Byte, readBack: Byte): (extent: Dword)
  {
    written * 256 + readBack
  }

  /**
   * `FlashingCallback`: maps each event to what is shown, and always asks the driver
   * to carry on. Update events divide by the extent, which the driver keeps non-zero.
   */
  function FlashingCallback(phase: Phase, stage: Stage, pos: Dword, extent: Dword): (r: (Report, bool))
    requires stage == Update ==> extent > 0
    ensures r.1
    ensures stage == Start <==> r.0 == Banner(phase)
    ensures stage == End <==> r.0 == Done(phase)
    ensures stage == Update <==> r.0.Bar?
    ensures stage == Error <==> (if phase == Erase then r.0.EraseFault? else r.0.WriteFault? && r.0.phase == phase)
    ensures stage == Error ==> r.0.address == pos && r.0.readBack == extent % 256
    ensures stage == Update ==> r.0 == Bar(PercentOf(pos, extent))
    ensures stage == Error && phase != Erase ==> r.0.written == extent / 256
  {
    match stage
    case Start => (Banner(phase), true)
    case Update => (Bar(PercentOf(pos, extent)), true)
    case End => (Done(phase), true)
    case Error =>
      if phase == Erase then (EraseFault(pos, extent % 256), true)
      else (WriteFault(phase, pos, extent / 256, extent % 256), true)
  }

  /**
   * Without DWORD wrap-around the percentage is the floor of 100*pos/extent, and a
   * position within the extent gives at most 100.
   */
  lemma {:induction false} PercentIsFloor(pos: Dword, extent: Dword)
    requires extent > 0 && pos * 100 < DwordModulus
    ensures PercentOf(pos, extent) * extent <= pos * 100 < (PercentOf(pos, extent) + 1) * extent
    ensures pos <= extent ==> PercentOf(pos, extent) <= 100
  {
    var p := PercentOf(pos, extent);
    assert (pos * 100) % DwordModulus == pos * 100;
    assert p == (pos * 100) / extent;
    assert pos * 100 == p * extent + (pos * 100) % extent;
  }

  /** Program and verify faults give back both packed bytes; erase faults the byte read. */
  lemma {:induction false} FaultDecodesPackedBytes(phase: Phase, pos: Dword, written: Byte, readBack: Byte)
    ensures phase != Erase ==>
      FlashingCallback(phase, Error, pos, PackFault(written, readBack)).0 == WriteFault(phase, pos, written, readBack)
    ensures phase == Erase ==>
      FlashingCallback(phase, Error, pos, PackFault(written, readBack)).0 == EraseFault(pos, readBack)
  {
    var extent := PackFault(written, readBack);
    assert extent / 256 == written && extent % 256 == readBack;
  }

  /** An update halfway through (position 20 of 40) shows 50%: 20 stars then 19 dots. */
  lemma HalfwayUpdate()
    ensures FlashingCallback(Program, Update, 20, 40).0 == Bar(50)
    ensures StarCount(50) == 20 && DotCount(50) == 19
  {
  }
}
