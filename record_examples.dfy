/**
 * Three configuration lines and what the record scan makes of them: a well-formed
 * record, a record whose id has no comma after it, and a record whose numbers carry
 * a second `0x` prefix.
 */
module RecordExamples {
  import opened Common
  import opened ConfigScan
  import opened RecordSyntax

  /** `flash = 0x0304, "NewChip", 0x00080000` is chip 03 04, named NewChip, of 512 KiB. */
  lemma NewChipExample(lastSize: Dword)
    ensures Record("flash = 0x0304, \"NewChip\", 0x00080000\n", 0, lastSize)
      == Attempt(Some(Entry(3, 4, "NewChip", 0x80000)), 37)
  {
    NewChipLine();
    NewChipRoundTrip(lastSize);
  }

  /** The line written from its id, description and size digits. */
  lemma NewChipLine()
    ensures RecordLine("0304", "NewChip", "00080000", "") == "flash = 0x0304, \"NewChip\", 0x00080000\n"
  {
  }

  /** The round trip of that line. */
  lemma NewChipRoundTrip(lastSize: Dword)
    ensures Record(RecordLine("0304", "NewChip", "00080000", ""), 0, lastSize)
      == Attempt(Some(Entry(3, 4, "NewChip", 0x80000)), 37)
  {
    NewChipSpellable();
    NewChipValues();
    RecordRoundTrip("0304", "NewChip", "00080000", "", lastSize);
  }

  /** Its parts can be written as a record line. */
  lemma NewChipSpellable()
    ensures Spellable("0304", "NewChip", "00080000")
  {
  }

  /** The values of its digits, and the entry they make: id 0x0304 splits into bytes 3 and 4. */
  lemma NewChipValues()
    ensures HexValue("0304") == 0x304 && HexValue("00080000") == 0x80000
    ensures EntryOf(HexValue("0304"), "NewChip", HexValue("00080000")) == Entry(3, 4, "NewChip", 0x80000)
    ensures 18 + |"0304"| + |"NewChip"| + |"00080000"| == 37
  {
    NewChipIdValue();
    NewChipSizeValue();
  }

  lemma NewChipIdValue()
    ensures HexValue("0304") == 0x304
  {
    assert "0304"[..3] == "030" && "030"[..2] == "03" && "03"[..1] == "0" && "0"[..0] == [];
  }

  lemma NewChipSizeValue()
    ensures HexValue("00080000") == 0x80000
  {
    assert "00080000"[..7] == "0008000" && "0008000"[..6] == "000800" && "000800"[..5] == "00080";
    assert "00080"[..4] == "0008" && "0008"[..3] == "000" && "000"[..2] == "00" && "00"[..1] == "0";
  }

  /** `flash = 0xAB` has no comma after its id, so the scan makes no entry of it. */
  lemma ShortIdRejected(lastSize: Dword)
    ensures Record("flash = 0xAB\n", 0, lastSize).candidate == None
  {
    CommaMissingRejected("flash = 0xAB\n", 0, lastSize);
  }

  /** A line with no comma anywhere after `pos` is never a record. */
  lemma CommaMissingRejected(text: seq<char>, pos: nat, lastSize: Dword)
    requires pos <= |text| && ',' !in text[pos..]
    ensures Record(text, pos, lastSize).candidate == None
  {
    RecordAcceptance(text, pos, lastSize);
    if l :| LaidOut(text, pos, l) {
      assert false;
    }
  }

  /** A record line whose numbers both carry a second `0x` prefix. */
  const Prefixed: seq<char> := "flash = 0x0x0304, \"E\", 0x0x10 \n"

  /**
   * `flash = 0x0x0304, "E", 0x0x10` gives chip 00 00 of size 0: each number is read
   * from the character after the first `x` and stops at the second one.
   */
  lemma PrefixedNumbersExample(lastSize: Dword)
    ensures Record(Prefixed, 0, lastSize) == Attempt(Some(Entry(0, 0, "E", 0)), 29)
  {
    PrefixedLaidOut();
    PrefixedFields(lastSize);
    RecordOfLayout(Prefixed, 0, Layout(6, 9, 16, 18, 20, 24, 29), lastSize);
  }

  /** Its landmarks: `=` at 6, the first `x` at 9, the comma at 16, the quotes at 18 and 20, the second `x` at 24, the space at 29. */
  lemma PrefixedLaidOut()
    ensures LaidOut(Prefixed, 0, Layout(6, 9, 16, 18, 20, 24, 29))
  {
    PrefixedId();
    PrefixedDescription();
    PrefixedSize();
  }

  lemma PrefixedId()
    ensures IdLaidOut(Prefixed, 0, 6, 9, 16)
  {
    assert Prefixed[..5] == "flash";
  }

  lemma PrefixedDescription()
    ensures DescriptionLaidOut(Prefixed, 16, 18, 20)
  {
  }

  lemma PrefixedSize()
    ensures SizeLaidOut(Prefixed, 20, 24, 29)
  {
  }

  /** What is read at those landmarks: a lone `0` before each second `x`, and the description `E`. */
  lemma PrefixedFields(lastSize: Dword)
    ensures HexOr(Prefixed, 10, 2) == 0 && HexOr(Prefixed, 25, lastSize) == 0
    ensures Prefixed[19..20] == "E"
  {
    HexOrOfRun(Prefixed, 10, "0", 2);
    HexOrOfRun(Prefixed, 25, "0", lastSize);
  }
}
