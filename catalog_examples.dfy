/** The NewChip record line of `RecordExamples` loaded into the table of known flash types. */
module CatalogExamples {
  import opened Common
  import opened ConfigScan
  import opened KnownFlashTypes
  import opened RecordExamples

  /**
   * Loaded as the whole configuration text, the NewChip line adds exactly one entry,
   * chip 03 04 named NewChip of 512 KiB, to a table that does not know that key.
   */
  lemma NewChipMerged(lastSize: Dword, known: seq<Entry>, budget: nat)
    requires !KeyIn(Key(3, 4), known) && budget > 0
    ensures Merge(Records("flash = 0x0304, \"NewChip\", 0x00080000\n", 0, lastSize), known, budget)
      == [Entry(3, 4, "NewChip", 0x80000)]
  {
    var t := "flash = 0x0304, \"NewChip\", 0x00080000\n";
    NewChipExample(lastSize);
    assert Live(t, 0);
    assert NextLine(t, 37) == 38;
    assert Records(t, 38, 0x80000) == [];
  }
}
