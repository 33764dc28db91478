/**
 * The sequencing of `main` once the catalog is loaded: detection, the JEDEC check,
 * the optional erase-and-program action and the optional readback, with the exit
 * status each path ends in. The flash driver and the file system are not modelled;
 * what they answer is an input (`Driver`, the image size).
 */
module Raincoat {
  import opened Common
  import opened Jedec

  /** The command-line switches that steer the run: `-p`, `-r` and `-a`. */
  datatype Options = Options(program: bool, readback: bool, startOffset: Dword)

  /** What the flash driver answers: detection, what it read, and the two write actions. */
  datatype Driver = Driver(
    detected: bool,             // BootFlashGetDescriptor
    manufacturerId: Byte,       // the fields detection fills in
    deviceId: Byte,
    lengthInBytes: Dword,
    description: seq<char>,
    writeCapable: bool,
    eraseOk: bool,              // BootFlashEraseMinimalRegion
    programOk: bool)            // BootFlashProgram

  /** The observable steps of a run: driver calls and the diagnostics that do not stop it. */
  datatype Step =
    | Detect
    | CheckId
    | OffsetTooLarge                  // "-a start offset ... is too large"
    | Erase
    | EraseFailed(switchHint: bool)   // with the Matrix/Xodus hint for manufacturer 0xbf
    | ProgramImage
    | ProgramFailed
    | Dump(length: Dword)             // readback of `length` bytes

  /** Exit status, steps taken, and the final used-area and length fields of the flash object. */
  datatype Outcome = Outcome(status: int, trace: seq<Step>, usedArea: Dword, length: Dword)

  /** The programming block's result: whether it returned 1, its steps, the used area it set. */
  datatype Programming = Programming(fatal: bool, steps: seq<Step>, usedArea: Dword)

  /** `m_dwLengthInBytes - m_dwStartOffset` in DWORD arithmetic. */
  function Available(length: Dword, startOffset: Dword): Dword
  {
    (length - startOffset) % DwordModulus
  }

  /** The readback length: a chip of unknown size is read as 1 MiB. */
  function ReadbackLength(length: Dword): Dword
  {
    if length == 0 then 0x100000 else length
  }

  /** The programming block: the lock gate, the image read, the size gate, erase then program. */
  function ProgramPhase(d: Driver, startOffset: Dword, image: Option<nat>): Programming
  {
    if !d.writeCapable || image.None? then Programming(true, [], 0)
    else
      var used := image.value % DwordModulus;
      if image.value > Available(d.lengthInBytes, startOffset) then Programming(true, [], used)
      else if !d.eraseOk then Programming(false, [Erase, EraseFailed(d.manufacturerId == 0xbf)], used)
      else Programming(false, [Erase, ProgramImage] + (if d.programOk then [] else [ProgramFailed]), used)
  }

  /** What a run does, for a flash object as it is constructed at the start of `main`. */
  function MainOutcome(opts: Options, d: Driver, image: Option<nat>): Outcome
  {
    var head := [Detect, CheckId];
    if !IsValidManufacturerId(d.manufacturerId) || (!d.detected && !opts.readback) then
      Outcome(1, head, 0, d.lengthInBytes)
    else
      var warned := head + (if opts.startOffset >= d.lengthInBytes then [OffsetTooLarge] else []);
      var p := if opts.program then ProgramPhase(d, opts.startOffset, image) else Programming(false, [], 0);
      if p.fatal then Outcome(1, warned, p.usedArea, d.lengthInBytes)
      else if opts.readback then
        Outcome(0, warned + p.steps + [Dump(ReadbackLength(d.lengthInBytes))], p.usedArea, ReadbackLength(d.lengthInBytes))
      else Outcome(0, warned + p.steps, p.usedArea, d.lengthInBytes)
  }

  /** The global flash object: the fields `main` and detection write. */
  class FlashObject {
    var manufacturerId: Byte
    var deviceId: Byte
    var lengthInBytes: Dword
    var startOffset: Dword
    var lengthUsedArea: Dword
    var description: seq<char>
    var detectedUsing28xxxConventions: bool
    var writeCapable: bool

    /** Construction at the start of `main`: ids and sizes zero, description "Unknown". */
    constructor()
      ensures manufacturerId == 0 && deviceId == 0 && lengthInBytes == 0
      ensures startOffset == 0 && lengthUsedArea == 0
      ensures !detectedUsing28xxxConventions && !writeCapable && description == "Unknown"
    {
      manufacturerId, deviceId, lengthInBytes := 0, 0, 0;
      startOffset, lengthUsedArea := 0, 0;
      detectedUsing28xxxConventions, writeCapable := false, false;
      description := "Unknown";
    }

    /** Detection by the driver: it fills in what it read, whether or not it recognised the chip. */
    method Describe(d: Driver) returns (found: bool)
      modifies this
      ensures found == d.detected
      ensures manufacturerId == d.manufacturerId && deviceId == d.deviceId && lengthInBytes == d.lengthInBytes
      ensures description == d.description && writeCapable == d.writeCapable
      ensures startOffset == old(startOffset) && lengthUsedArea == old(lengthUsedArea)
    {
      manufacturerId, deviceId, lengthInBytes := d.manufacturerId, d.deviceId, d.lengthInBytes;
      description, writeCapable := d.description, d.writeCapable;
      found := d.detected;
    }

    /** The programming block, run after detection has filled in the fields from `d`. */
    method ProgramBlock(d: Driver, image: Option<nat>) returns (fatal: bool, steps: seq<Step>)
      requires manufacturerId == d.manufacturerId && lengthInBytes == d.lengthInBytes
      requires writeCapable == d.writeCapable && lengthUsedArea == 0
      modifies this
      ensures fatal == ProgramPhase(d, startOffset, image).fatal && steps == ProgramPhase(d, startOffset, image).steps
      ensures lengthUsedArea == ProgramPhase(d, startOffset, image).usedArea
      ensures lengthInBytes == old(lengthInBytes) && startOffset == old(startOffset)
      ensures manufacturerId == old(manufacturerId) && deviceId == old(deviceId) && description == old(description)
      ensures writeCapable == old(writeCapable) && detectedUsing28xxxConventions == old(detectedUsing28xxxConventions)
    {
      fatal, steps := true, [];
      if !writeCapable || image.None? {
        return;
      }
      lengthUsedArea := image.value % DwordModulus;
      if image.value > (lengthInBytes - startOffset) % DwordModulus {
        return;
      }
      fatal := false;
      if d.eraseOk {
        steps := [Erase, ProgramImage] + (if d.programOk then [] else [ProgramFailed]);
      } else {
        steps := [Erase, EraseFailed(manufacturerId == 0xbf)];
      }
    }

    /** The readback block: a zero length is replaced by 1 MiB before the dump. */
    method ReadBack() returns (step: Step)
      modifies this
      ensures lengthInBytes == ReadbackLength(old(lengthInBytes)) && step == Dump(lengthInBytes)
      ensures lengthUsedArea == old(lengthUsedArea) && startOffset == old(startOffset)
      ensures manufacturerId == old(manufacturerId) && deviceId == old(deviceId) && description == old(description)
      ensures writeCapable == old(writeCapable) && detectedUsing28xxxConventions == old(detectedUsing28xxxConventions)
    {
      if lengthInBytes == 0 {
        lengthInBytes := 0x100000;
      }
      step := Dump(lengthInBytes);
    }
  }

  /**
   * `main` from the construction of the flash object to its final `return`: each gate
   * that fails returns 1 at once; erase and program failures are reported and the run
   * goes on to the readback.
   */
  method Run(opts: Options, d: Driver, image: Option<nat>) returns (status: int, trace: seq<Step>, flash: FlashObject)
    ensures fresh(flash)
    ensures status == MainOutcome(opts, d, image).status && trace == MainOutcome(opts, d, image).trace
    ensures flash.lengthUsedArea == MainOutcome(opts, d, image).usedArea
    ensures flash.lengthInBytes == MainOutcome(opts, d, image).length
    ensures flash.startOffset == opts.startOffset && flash.manufacturerId == d.manufacturerId && flash.deviceId == d.deviceId
    ensures flash.description == d.description && flash.writeCapable == d.writeCapable
  {
    flash := new FlashObject();
    flash.startOffset := opts.startOffset;
    var found := flash.Describe(d);
    trace := [Detect, CheckId];
    status := 1;
    if !IsValidManufacturerId(flash.manufacturerId) || (!found && !opts.readback) {
      return;
    }
    if flash.startOffset >= flash.lengthInBytes {
      trace := trace + [OffsetTooLarge];
    }
    if opts.program {
      var fatal, steps := flash.ProgramBlock(d, image);
      if fatal {
        return;
      }
      trace := trace + steps;
    }
    if opts.readback {
      var dump := flash.ReadBack();
      trace := trace + [dump];
    }
    status := 0;
  }

  /** Every run detects and then checks the ID, on both detection outcomes. */
  lemma AlwaysChecksId(opts: Options, d: Driver, image: Option<nat>)
    ensures |MainOutcome(opts, d, image).trace| >= 2
    ensures MainOutcome(opts, d, image).trace[..2] == [Detect, CheckId]
    ensures MainOutcome(opts, d, image).status in {0, 1}
  {
  }

  /**
   * An ID of even parity exits with status 1 right after the check, whether or not
   * the chip was recognised: nothing is erased, programmed or read back.
   */
  lemma {:induction false} EvenParityHalts(opts: Options, d: Driver, image: Option<nat>)
    requires PopCount(d.manufacturerId) % 2 == 0
    ensures MainOutcome(opts, d, image) == Outcome(1, [Detect, CheckId], 0, d.lengthInBytes)
  {
    ValidIffOddParity(d.manufacturerId);
  }

  /** An unrecognised chip is fatal only when no readback is asked for. */
  lemma UnknownDeviceGate(opts: Options, d: Driver, image: Option<nat>)
    requires IsValidManufacturerId(d.manufacturerId) && !d.detected
    ensures !opts.readback ==> MainOutcome(opts, d, image) == Outcome(1, [Detect, CheckId], 0, d.lengthInBytes)
    ensures opts.readback && !opts.program ==> MainOutcome(opts, d, image).status == 0
  {
  }

  /** Without `-p`, an accepted chip always ends in status 0: the offset check only warns. */
  lemma OffsetOnlyWarns(opts: Options, d: Driver, image: Option<nat>)
    requires IsValidManufacturerId(d.manufacturerId) && (d.detected || opts.readback) && !opts.program
    ensures MainOutcome(opts, d, image).status == 0
    ensures OffsetTooLarge in MainOutcome(opts, d, image).trace <==> opts.startOffset >= d.lengthInBytes
  {
  }

  /** A locked chip stops programming before the image is read: the image does not matter. */
  lemma LockedChipStopsBeforeImage(opts: Options, d: Driver, image: Option<nat>)
    requires opts.program && !d.writeCapable
    ensures MainOutcome(opts, d, image).status == 1
    ensures MainOutcome(opts, d, image) == MainOutcome(opts, d, None)
    ensures Erase !in MainOutcome(opts, d, image).trace && MainOutcome(opts, d, image).usedArea == 0
  {
  }

  /**
   * An image larger than the DWORD difference of length and start offset stops the run
   * before any erase; the used area has already been set to the size cut to 32 bits.
   */
  lemma OversizeImageStopsBeforeErase(opts: Options, d: Driver, size: nat)
    requires opts.program && d.writeCapable && size > Available(d.lengthInBytes, opts.startOffset)
    ensures MainOutcome(opts, d, Some(size)).status == 1
    ensures Erase !in MainOutcome(opts, d, Some(size)).trace
    ensures Dump(ReadbackLength(d.lengthInBytes)) !in MainOutcome(opts, d, Some(size)).trace
  {
  }

  /** A program step is taken exactly when an erase was made and succeeded. */
  lemma ProgramIffErased(opts: Options, d: Driver, image: Option<nat>)
    ensures ProgramImage in MainOutcome(opts, d, image).trace <==> Erase in MainOutcome(opts, d, image).trace && d.eraseOk
  {
  }

  /** Every program step in `t` comes right after an erase step. */
  predicate ProgramsAfterErase(t: seq<Step>)
  {
    forall i :: 0 <= i < |t| && t[i] == ProgramImage ==> 0 < i && t[i - 1] == Erase
  }

  /** Steps without a program step around the programming block keep it after its erase. */
  lemma {:induction false} ProgramsAfterEraseAround(w: seq<Step>, s: seq<Step>, r: seq<Step>)
    requires ProgramImage !in w && ProgramImage !in r && ProgramsAfterErase(s)
    ensures ProgramsAfterErase(w + s + r)
  {
    var t := w + s + r;
    forall i | 0 <= i < |t| && t[i] == ProgramImage
      ensures 0 < i && t[i - 1] == Erase
    {
      if |w| <= i < |w| + |s| {
        assert t[i] == s[i - |w|] && t[i - 1] == s[i - 1 - |w|];
      }
    }
  }

  /** The program step comes right after the erase step. */
  lemma {:induction false} ProgramFollowsErase(opts: Options, d: Driver, image: Option<nat>)
    ensures ProgramsAfterErase(MainOutcome(opts, d, image).trace)
  {
    var o := MainOutcome(opts, d, image);
    var w := [Detect, CheckId] + (if opts.startOffset >= d.lengthInBytes then [OffsetTooLarge] else []);
    var p := if opts.program then ProgramPhase(d, opts.startOffset, image) else Programming(false, [], 0);
    var r := if opts.readback then [Dump(ReadbackLength(d.lengthInBytes))] else [];
    if IsValidManufacturerId(d.manufacturerId) && (d.detected || opts.readback) && !p.fatal {
      assert o.trace == w + p.steps + r;
      ProgramsAfterEraseAround(w, p.steps, r);
    }
  }

  /**
   * Once the image passes the gates, erase and program failures are only reported:
   * the run still reads back and ends in status 0, whatever the driver answers.
   */
  lemma FailuresStillReadBack(opts: Options, d: Driver, size: nat)
    requires IsValidManufacturerId(d.manufacturerId) && (d.detected || opts.readback)
    requires opts.program && opts.readback && d.writeCapable && size <= Available(d.lengthInBytes, opts.startOffset)
    ensures MainOutcome(opts, d, Some(size)).status == 0
    ensures Erase in MainOutcome(opts, d, Some(size)).trace
    ensures MainOutcome(opts, d, Some(size)).usedArea == size % DwordModulus
    ensures var t := MainOutcome(opts, d, Some(size)).trace; t[|t| - 1] == Dump(ReadbackLength(d.lengthInBytes))
  {
  }

  /** A readback that runs dumps the chip length, or 1 MiB when the length is unknown. */
  lemma DumpLength(opts: Options, d: Driver, image: Option<nat>)
    requires MainOutcome(opts, d, image).status == 0 && opts.readback
    ensures var t := MainOutcome(opts, d, image).trace; t[|t| - 1] == Dump(MainOutcome(opts, d, image).length)
    ensures MainOutcome(opts, d, image).length == ReadbackLength(d.lengthInBytes) != 0
  {
  }

  /** With the start offset inside the chip, the size gate rejects exactly the images that do not fit. */
  lemma {:induction false} SizeGateInRange(length: Dword, startOffset: Dword, size: nat)
    requires startOffset <= length
    ensures size > Available(length, startOffset) <==> startOffset + size > length
  {
    assert 0 <= length - startOffset < DwordModulus;
  }

  /**
   * With the start offset past the chip the subtraction wraps, so the space the gate
   * allows is larger than the whole chip.
   */
  lemma {:induction false} WrappedSpaceExceedsChip(length: Dword, startOffset: Dword)
    requires startOffset > length
    ensures Available(length, startOffset) == DwordModulus - (startOffset - length) > length
  {
    assert -DwordModulus < length - startOffset < 0;
  }

  /**
   * A 2 MiB image for a 1 MiB chip with `-a 0x100001` passes the size gate: the run
   * warns about the offset, then erases and programs.
   */
  lemma OversizeImageWithLargeOffsetIsProgrammed()
    ensures var d := Driver(true, 0x01, 0x02, 0x100000, "", true, true, true);
      MainOutcome(Options(true, false, 0x100001), d, Some(0x200000))
        == Outcome(0, [Detect, CheckId, OffsetTooLarge, Erase, ProgramImage], 0x200000, 0x100000)
  {
    AcceptedSampleOne();
  }
}
