/**
 * Which configuration lines the record scan of src/raincoat.c:324-357 accepts, and the entry
 * it makes of them, stated by the positions of a record's landmarks instead of by
 * the scan: the `=` after the keyword, the first `x`, the comma within nine
 * characters, the opening quote, the end of the description, the second `x`, and the
 * white space within nine characters after it.
 */
module RecordSyntax {
  import opened Common
  import opened ConfigScan

  /** Positions of a record's landmarks in the text. */
  datatype Layout = Layout(eq: nat, x1: nat, comma: nat, q1: nat, dEnd: nat, x2: nat, ws: nat)

  /** `eq` holds `=` and only white space lies between `from` and it. */
  predicate SpacedEquals(text: seq<char>, from: nat, eq: nat)
  {
    from <= eq < |text| && text[eq] == '=' && forall k :: from <= k < eq ==> IsSpace(text[k])
  }

  /** `at` holds the first c from `from` on, and no NUL comes before it. */
  predicate FirstOf(text: seq<char>, from: nat, at: nat, c: char)
  {
    from <= at < |text| && text[at] == c && forall k :: from <= k < at ==> text[k] != c && text[k] != NUL
  }

  /** `at` holds the first stop character, inside the nine-character window from `from`. */
  predicate FirstWithin(text: seq<char>, from: nat, at: nat, stop: Stop)
  {
    from <= at < from + Window && at < |text| && Stops(stop, text[at])
    && forall k :: from <= k < at ==> !Stops(stop, text[k])
  }

  /**
   * `text[from..dEnd]` is a description: at most 63 characters without a quote or a
   * NUL, closed by a quote unless it is that long, and followed by a live character.
   */
  predicate Described(text: seq<char>, from: nat, dEnd: nat)
  {
    from <= dEnd <= from + DescriptionLimit && Live(text, dEnd)
    && (forall k :: from <= k < dEnd ==> text[k] != NUL && text[k] != '"')
    && (dEnd < from + DescriptionLimit ==> text[dEnd] == '"')
  }

  /** The keyword, then `=`, the first `x` and the id's comma within nine characters. */
  predicate IdLaidOut(text: seq<char>, pos: nat, eq: nat, x1: nat, comma: nat)
  {
    && StartsWithKeyword(text, pos)
    && SpacedEquals(text, pos + 5, eq)
    && FirstOf(text, eq, x1, 'x')
    && FirstWithin(text, x1 + 1, comma, Comma)
  }

  /** The first quote after the comma, then the description that follows it. */
  predicate DescriptionLaidOut(text: seq<char>, comma: nat, q1: nat, dEnd: nat)
  {
    FirstOf(text, comma, q1, '"') && Described(text, q1 + 1, dEnd)
  }

  /** The first `x` after the description, then white space within nine characters. */
  predicate SizeLaidOut(text: seq<char>, dEnd: nat, x2: nat, ws: nat)
  {
    FirstOf(text, dEnd, x2, 'x') && FirstWithin(text, x2 + 1, ws, Space)
  }

  /** The line at `pos` is a record whose landmarks sit at the positions of `l`. */
  predicate LaidOut(text: seq<char>, pos: nat, l: Layout)
  {
    && IdLaidOut(text, pos, l.eq, l.x1, l.comma)
    && DescriptionLaidOut(text, l.comma, l.q1, l.dEnd)
    && SizeLaidOut(text, l.dEnd, l.x2, l.ws)
  }

  /** The landmarks of `l` lie in the text in order, and the size read after the second `x` fits a dword. */
  predicate Fits(text: seq<char>, l: Layout, lastSize: Dword)
  {
    && l.x1 + 1 <= l.comma <= l.x1 + Window && l.comma <= |text|
    && l.q1 + 1 <= l.dEnd <= |text| && l.x2 + 1 <= |text|
    && HexOr(text, l.x2 + 1, lastSize) < DwordModulus
  }

  /**
   * The entry a record laid out at `l` spells: the id `v` read after the first `x`
   * (the scan's countdown when it has no digits) split into its two low bytes, the
   * description between the quotes, and the size read after the second `x`.
   */
  function LaidOutEntry(text: seq<char>, l: Layout, lastSize: Dword): Entry
    requires Fits(text, l, lastSize)
  {
    EntryOf(HexOr(text, l.x1 + 1, 8 - (l.comma - (l.x1 + 1))), text[l.q1 + 1..l.dEnd], HexOr(text, l.x2 + 1, lastSize))
  }

  /** An entry whose two id bytes are the low bytes of `id`, high byte first. */
  function EntryOf(id: nat, description: seq<char>, size: Dword): Entry
  {
    Entry((id / 256) % 256, id % 256, description, size)
  }

  /**
   * The scan accepts the line at `pos` exactly when it is laid out as a record, and
   * then yields that record's entry and stops on the white space after its size.
   */
  lemma RecordAcceptance(text: seq<char>, pos: nat, lastSize: Dword)
    requires pos <= |text|
    ensures Record(text, pos, lastSize).candidate.Some? <==> exists l :: LaidOut(text, pos, l)
    ensures forall l :: LaidOut(text, pos, l) ==>
      Fits(text, l, lastSize) && Record(text, pos, lastSize) == Attempt(Some(LaidOutEntry(text, l, lastSize)), l.ws)
  {
    forall l | LaidOut(text, pos, l)
      ensures Fits(text, l, lastSize) && Record(text, pos, lastSize) == Attempt(Some(LaidOutEntry(text, l, lastSize)), l.ws)
    {
      RecordOfLayout(text, pos, l, lastSize);
    }
    if Record(text, pos, lastSize).candidate.Some? {
      LayoutOfRecord(text, pos, lastSize);
    }
  }

  /** A record laid out at `l` is accepted with the entry it spells. */
  lemma RecordOfLayout(text: seq<char>, pos: nat, l: Layout, lastSize: Dword)
    requires LaidOut(text, pos, l)
    ensures Fits(text, l, lastSize)
    ensures Record(text, pos, lastSize) == Attempt(Some(LaidOutEntry(text, l, lastSize)), l.ws)
  {
    IdOfLayout(text, pos, l, lastSize);
    DescriptionOfLayout(text, l, lastSize);
    FitsOfLayout(text, l, lastSize);
    LaidOutEntryOf(text, l, lastSize);
    RecordOfParts(text, pos, l, lastSize,
      EntryOf(HexOr(text, l.x1 + 1, 8 - (l.comma - (l.x1 + 1))), text[l.q1 + 1..l.dEnd], HexOr(text, l.x2 + 1, lastSize)));
  }

  /** An accepted line is laid out as a record: the scan's stops are its landmarks. */
  lemma LayoutOfRecord(text: seq<char>, pos: nat, lastSize: Dword)
    requires pos <= |text| && Record(text, pos, lastSize).candidate.Some?
    ensures exists l :: LaidOut(text, pos, l)
  {
    var l0 := RecordStops(text, pos, lastSize);
    IdLaidOutOfStops(text, pos, l0);
    RecordWhenStopped(text, pos, l0, lastSize);
    var l := AfterIdStops(text, l0, lastSize);
    DescriptionLaidOutOfStops(text, l);
    SizeLaidOutOfStops(text, l);
    assert LaidOut(text, pos, l);
  }

  // The scans' stops, layer by layer: the id, the description, the size.

  predicate IdStopped(text: seq<char>, pos: nat, l: Layout)
  {
    && StartsWithKeyword(text, pos)
    && SpacesEnd(text, pos + 5) == l.eq && Live(text, l.eq) && text[l.eq] == '='
    && SeekEnd(text, l.eq, 'x') == l.x1 && Live(text, l.x1)
    && Probe9(text, l.x1 + 1, Comma) == Found(l.comma)
  }

  predicate DescriptionStopped(text: seq<char>, l: Layout)
  {
    && l.comma <= |text| && SeekEnd(text, l.comma, '"') == l.q1 && Live(text, l.q1)
    && DescriptionEnd(text, l.q1 + 1, DescriptionLimit) == l.dEnd && Live(text, l.dEnd)
  }

  predicate SizeStopped(text: seq<char>, l: Layout)
  {
    && l.dEnd <= |text| && SeekEnd(text, l.dEnd, 'x') == l.x2 && Live(text, l.x2)
    && Probe9(text, l.x2 + 1, Space) == Found(l.ws)
  }

  /** The id of a line laid out as a record is where the scans up to it stop. */
  lemma IdStops(text: seq<char>, pos: nat, l: Layout)
    requires IdLaidOut(text, pos, l.eq, l.x1, l.comma)
    ensures IdStopped(text, pos, l)
  {
    SpacesEndAt(text, pos + 5, l.eq);
    SeekEndAt(text, l.eq, l.x1, 'x');
    ProbeFromAt(text, l.x1 + 1, l.x1 + 1 + Window, Comma, l.comma);
  }

  /** Where the scans up to the id stop, the line is laid out as a record's start. */
  lemma IdLaidOutOfStops(text: seq<char>, pos: nat, l: Layout)
    requires IdStopped(text, pos, l)
    ensures IdLaidOut(text, pos, l.eq, l.x1, l.comma)
  {
    SpacesEndSkipsOnlySpaces(text, pos + 5);
    SeekEndIsFirst(text, l.eq, 'x');
    ProbeFromIsFirst(text, l.x1 + 1, l.x1 + 1 + Window, Comma);
  }

  /** A line the id scans accept is handed to the description scan after its comma. */
  lemma RecordWhenStopped(text: seq<char>, pos: nat, l: Layout, lastSize: Dword)
    requires IdStopped(text, pos, l)
    ensures l.x1 + 1 <= l.comma <= l.x1 + Window && l.comma < |text|
    ensures Record(text, pos, lastSize) == AfterId(text, l.comma, HexOr(text, l.x1 + 1, 8 - (l.comma - (l.x1 + 1))), lastSize)
  {
  }

  /** The stops of the id scans of an accepted line. */
  lemma RecordStops(text: seq<char>, pos: nat, lastSize: Dword) returns (l: Layout)
    requires pos <= |text| && Record(text, pos, lastSize).candidate.Some?
    ensures IdStopped(text, pos, l)
  {
    var eq := SpacesEnd(text, pos + 5);
    var x1 := SeekEnd(text, eq, 'x');
    l := Layout(eq, x1, Probe9(text, x1 + 1, Comma).at, 0, 0, 0, 0);
  }

  /** A line that starts laid out as a record is handed to the description scan after its id. */
  lemma IdOfLayout(text: seq<char>, pos: nat, l: Layout, lastSize: Dword)
    requires IdLaidOut(text, pos, l.eq, l.x1, l.comma)
    ensures l.x1 + 1 <= l.comma <= l.x1 + Window && l.comma < |text|
    ensures Record(text, pos, lastSize) == AfterId(text, l.comma, HexOr(text, l.x1 + 1, 8 - (l.comma - (l.x1 + 1))), lastSize)
  {
    IdStops(text, pos, l);
    RecordWhenStopped(text, pos, l, lastSize);
  }

  /** The description of a record laid out at `l` is where its scans stop. */
  lemma DescriptionStops(text: seq<char>, l: Layout)
    requires l.comma <= |text| && DescriptionLaidOut(text, l.comma, l.q1, l.dEnd)
    ensures DescriptionStopped(text, l)
  {
    SeekEndAt(text, l.comma, l.q1, '"');
    DescriptionEndAt(text, l.q1 + 1, DescriptionLimit, l.dEnd);
  }

  /** Where the description scans stop, the description is laid out as a record's. */
  lemma DescriptionLaidOutOfStops(text: seq<char>, l: Layout)
    requires DescriptionStopped(text, l)
    ensures DescriptionLaidOut(text, l.comma, l.q1, l.dEnd)
  {
    SeekEndIsFirst(text, l.comma, '"');
    DescriptionEndStopsAtQuote(text, l.q1 + 1, DescriptionLimit);
  }

  /** The size of a record laid out at `l` is where its scans stop, and it fits a dword. */
  lemma SizeStops(text: seq<char>, l: Layout, lastSize: Dword)
    requires l.dEnd <= |text| && SizeLaidOut(text, l.dEnd, l.x2, l.ws)
    ensures SizeStopped(text, l) && HexOr(text, l.x2 + 1, lastSize) < DwordModulus
  {
    SeekEndAt(text, l.dEnd, l.x2, 'x');
    ProbeFromAt(text, l.x2 + 1, l.x2 + 1 + Window, Space, l.ws);
    SizeDigitsFit(text, l.x2 + 1, l.ws, lastSize);
  }

  /** Where the size scans stop, the size is laid out as a record's. */
  lemma SizeLaidOutOfStops(text: seq<char>, l: Layout)
    requires SizeStopped(text, l)
    ensures SizeLaidOut(text, l.dEnd, l.x2, l.ws)
  {
    SeekEndIsFirst(text, l.dEnd, 'x');
    ProbeFromIsFirst(text, l.x2 + 1, l.x2 + 1 + Window, Space);
  }

  /** After the id's comma, a description and size laid out as a record's are accepted. */
  lemma DescriptionOfLayout(text: seq<char>, l: Layout, lastSize: Dword)
    requires l.x1 + 1 <= l.comma <= l.x1 + Window && l.comma <= |text|
    requires DescriptionLaidOut(text, l.comma, l.q1, l.dEnd) && SizeLaidOut(text, l.dEnd, l.x2, l.ws)
    ensures HexOr(text, l.x2 + 1, lastSize) < DwordModulus
    ensures AfterId(text, l.comma, HexOr(text, l.x1 + 1, 8 - (l.comma - (l.x1 + 1))), lastSize)
      == Attempt(Some(EntryOf(HexOr(text, l.x1 + 1, 8 - (l.comma - (l.x1 + 1))), text[l.q1 + 1..l.dEnd], HexOr(text, l.x2 + 1, lastSize))), l.ws)
  {
    DescriptionStops(text, l);
    SizeStops(text, l, lastSize);
    AfterIdWhenStopped(text, l, lastSize);
  }

  /** Where the description and size scans stop as at `l`, the rest of the record is accepted. */
  lemma AfterIdWhenStopped(text: seq<char>, l: Layout, lastSize: Dword)
    requires l.x1 + 1 <= l.comma <= l.x1 + Window && l.comma <= |text|
    requires DescriptionStopped(text, l) && SizeStopped(text, l) && HexOr(text, l.x2 + 1, lastSize) < DwordModulus
    ensures AfterId(text, l.comma, HexOr(text, l.x1 + 1, 8 - (l.comma - (l.x1 + 1))), lastSize)
      == Attempt(Some(EntryOf(HexOr(text, l.x1 + 1, 8 - (l.comma - (l.x1 + 1))), text[l.q1 + 1..l.dEnd], HexOr(text, l.x2 + 1, lastSize))), l.ws)
  {
    DescriptionWhenStopped(text, l, lastSize);
    SizeWhenStopped(text, l, lastSize);
  }

  lemma DescriptionWhenStopped(text: seq<char>, l: Layout, lastSize: Dword)
    requires l.x1 + 1 <= l.comma <= l.x1 + Window && l.comma <= |text| && DescriptionStopped(text, l)
    ensures l.q1 + 1 <= l.dEnd < |text|
    ensures AfterId(text, l.comma, HexOr(text, l.x1 + 1, 8 - (l.comma - (l.x1 + 1))), lastSize)
      == AfterDescription(text, l.dEnd, HexOr(text, l.x1 + 1, 8 - (l.comma - (l.x1 + 1))), text[l.q1 + 1..l.dEnd], lastSize)
  {
  }

  lemma SizeWhenStopped(text: seq<char>, l: Layout, lastSize: Dword)
    requires l.x1 + 1 <= l.comma <= l.x1 + Window && l.comma <= |text| && l.q1 + 1 <= l.dEnd < |text|
    requires SizeStopped(text, l) && HexOr(text, l.x2 + 1, lastSize) < DwordModulus
    ensures AfterDescription(text, l.dEnd, HexOr(text, l.x1 + 1, 8 - (l.comma - (l.x1 + 1))), text[l.q1 + 1..l.dEnd], lastSize)
      == Attempt(Some(EntryOf(HexOr(text, l.x1 + 1, 8 - (l.comma - (l.x1 + 1))), text[l.q1 + 1..l.dEnd], HexOr(text, l.x2 + 1, lastSize))), l.ws)
  {
  }

  /** The stops of the description and size scans of a line accepted after its id. */
  lemma AfterIdStops(text: seq<char>, l0: Layout, lastSize: Dword) returns (l: Layout)
    requires l0.x1 + 1 <= l0.comma <= l0.x1 + Window && l0.comma <= |text|
    requires AfterId(text, l0.comma, HexOr(text, l0.x1 + 1, 8 - (l0.comma - (l0.x1 + 1))), lastSize).candidate.Some?
    ensures l.eq == l0.eq && l.x1 == l0.x1 && l.comma == l0.comma
    ensures DescriptionStopped(text, l) && SizeStopped(text, l)
  {
    var lm := DescriptionStopsOf(text, l0, lastSize);
    DescriptionWhenStopped(text, lm, lastSize);
    l := SizeStopsOf(text, lm, lastSize);
  }

  lemma DescriptionStopsOf(text: seq<char>, l0: Layout, lastSize: Dword) returns (l: Layout)
    requires l0.x1 + 1 <= l0.comma <= l0.x1 + Window && l0.comma <= |text|
    requires AfterId(text, l0.comma, HexOr(text, l0.x1 + 1, 8 - (l0.comma - (l0.x1 + 1))), lastSize).candidate.Some?
    ensures l == l0.(q1 := l.q1, dEnd := l.dEnd)
    ensures DescriptionStopped(text, l)
  {
    var q1 := SeekEnd(text, l0.comma, '"');
    l := l0.(q1 := q1, dEnd := DescriptionEnd(text, q1 + 1, DescriptionLimit));
  }

  lemma SizeStopsOf(text: seq<char>, l0: Layout, lastSize: Dword) returns (l: Layout)
    requires l0.x1 + 1 <= l0.comma <= l0.x1 + Window && l0.q1 + 1 <= l0.dEnd < |text|
    requires DescriptionStopped(text, l0)
    requires AfterDescription(text, l0.dEnd, HexOr(text, l0.x1 + 1, 8 - (l0.comma - (l0.x1 + 1))), text[l0.q1 + 1..l0.dEnd], lastSize).candidate.Some?
    ensures l == l0.(x2 := l.x2, ws := l.ws)
    ensures DescriptionStopped(text, l) && SizeStopped(text, l)
  {
    var x2 := SeekEnd(text, l0.dEnd, 'x');
    l := l0.(x2 := x2, ws := Probe9(text, x2 + 1, Space).at);
  }

  /** The landmarks of a layout lie in order and its size fits, once the size is known to fit. */
  lemma FitsOfLayout(text: seq<char>, l: Layout, lastSize: Dword)
    requires l.x1 + 1 <= l.comma <= l.x1 + Window && l.comma <= |text|
    requires DescriptionLaidOut(text, l.comma, l.q1, l.dEnd) && SizeLaidOut(text, l.dEnd, l.x2, l.ws)
    requires HexOr(text, l.x2 + 1, lastSize) < DwordModulus
    ensures Fits(text, l, lastSize)
  {
  }

  /** The entry of a layout that fits: its id split into bytes, its description and its size. */
  lemma LaidOutEntryOf(text: seq<char>, l: Layout, lastSize: Dword)
    requires Fits(text, l, lastSize)
    ensures LaidOutEntry(text, l, lastSize)
      == EntryOf(HexOr(text, l.x1 + 1, 8 - (l.comma - (l.x1 + 1))), text[l.q1 + 1..l.dEnd], HexOr(text, l.x2 + 1, lastSize))
  {
  }

  /** The id and the rest of the record, each accepted, make the record's entry. */
  lemma RecordOfParts(text: seq<char>, pos: nat, l: Layout, lastSize: Dword, e: Entry)
    requires pos <= |text| && Fits(text, l, lastSize) && LaidOutEntry(text, l, lastSize) == e
    requires Record(text, pos, lastSize) == AfterId(text, l.comma, HexOr(text, l.x1 + 1, 8 - (l.comma - (l.x1 + 1))), lastSize)
    requires AfterId(text, l.comma, HexOr(text, l.x1 + 1, 8 - (l.comma - (l.x1 + 1))), lastSize) == Attempt(Some(e), l.ws)
    ensures Record(text, pos, lastSize) == Attempt(Some(LaidOutEntry(text, l, lastSize)), l.ws)
  {
  }

  // The record line written out from its parts.

  /** What a record line may hold: one to eight id digits, a description the scan copies whole, one to eight size digits. */
  predicate Spellable(h: seq<char>, d: seq<char>, z: seq<char>)
  {
    && 1 <= |h| <= 8 && AllHex(h)
    && |d| <= DescriptionLimit && (forall k :: 0 <= k < |d| ==> d[k] != NUL && d[k] != '"')
    && 1 <= |z| <= 8 && AllHex(z)
  }

  /** The line `flash = 0x<h>, "<d>", 0x<z>` followed by a line break and the rest of the file. */
  function RecordLine(h: seq<char>, d: seq<char>, z: seq<char>, rest: seq<char>): seq<char>
  {
    "flash = 0x" + h + ", \"" + d + "\", 0x" + z + "\n" + rest
  }

  /** Where the landmarks of that line sit. */
  function LineLayout(h: seq<char>, d: seq<char>, z: seq<char>): Layout
  {
    Layout(6, 9, 10 + |h|, 12 + |h|, 13 + |h| + |d|, 17 + |h| + |d|, 18 + |h| + |d| + |z|)
  }

  /**
   * Writing a record line and scanning it gives back the entry it was written from:
   * the id's two low bytes, the description and the size, with the scan stopped on the
   * line break after the size.
   */
  lemma RecordRoundTrip(h: seq<char>, d: seq<char>, z: seq<char>, rest: seq<char>, lastSize: Dword)
    requires Spellable(h, d, z)
    ensures HexValue(z) < DwordModulus
    ensures Record(RecordLine(h, d, z, rest), 0, lastSize)
      == Attempt(Some(EntryOf(HexValue(h), d, HexValue(z))), 18 + |h| + |d| + |z|)
  {
    LineText(h, d, z, rest);
    PiecesRoundTrip(RecordLine(h, d, z, rest), h, d, z, lastSize);
  }

  /** A text that starts with a record line is accepted with that line's entry. */
  lemma PiecesRoundTrip(t: seq<char>, h: seq<char>, d: seq<char>, z: seq<char>, lastSize: Dword)
    requires Spellable(h, d, z) && Pieces(t, h, d, z)
    ensures HexValue(z) < DwordModulus
    ensures Record(t, 0, lastSize) == Attempt(Some(EntryOf(HexValue(h), d, HexValue(z))), 18 + |h| + |d| + |z|)
  {
    LineLaidOut(h, d, z);
    LineEntry(h, d, z, lastSize);
    RecordAcceptance(t, 0, lastSize);
  }

  /** Every text that starts with a record line is laid out as one. */
  lemma LineLaidOut(h: seq<char>, d: seq<char>, z: seq<char>)
    ensures forall t :: Spellable(h, d, z) && Pieces(t, h, d, z) ==> LaidOut(t, 0, LineLayout(h, d, z))
  {
    forall t | Spellable(h, d, z) && Pieces(t, h, d, z)
      ensures LaidOut(t, 0, LineLayout(h, d, z))
    {
      PiecesLaidOut(t, h, d, z);
    }
  }

  /** The entry of every text that starts with a record line, and fits, is the line's. */
  lemma LineEntry(h: seq<char>, d: seq<char>, z: seq<char>, lastSize: Dword)
    ensures forall t :: Spellable(h, d, z) && Pieces(t, h, d, z) && Fits(t, LineLayout(h, d, z), lastSize) ==>
      && HexValue(z) < DwordModulus
      && LaidOutEntry(t, LineLayout(h, d, z), lastSize) == EntryOf(HexValue(h), d, HexValue(z))
  {
    LineFields(h, d, z, lastSize);
  }

  /** The fields read at the landmarks of every text that starts with a record line are the line's. */
  lemma LineFields(h: seq<char>, d: seq<char>, z: seq<char>, lastSize: Dword)
    ensures forall t :: Spellable(h, d, z) && Pieces(t, h, d, z) ==>
      var l := LineLayout(h, d, z);
      && HexOr(t, l.x1 + 1, 8 - (l.comma - (l.x1 + 1))) == HexValue(h)
      && t[l.q1 + 1..l.dEnd] == d
      && HexOr(t, l.x2 + 1, lastSize) == HexValue(z)
  {
    LineId(h, d, z);
    LineSize(h, d, z, lastSize);
  }

  /** `t` starts with a record line written from `h`, `d` and `z`, and goes on past it. */
  predicate Pieces(t: seq<char>, h: seq<char>, d: seq<char>, z: seq<char>)
  {
    && |t| > 18 + |h| + |d| + |z|
    && t[..10] == "flash = 0x" && t[10..10 + |h|] == h
    && t[10 + |h|..13 + |h|] == ", \"" && t[13 + |h|..13 + |h| + |d|] == d
    && t[13 + |h| + |d|..18 + |h| + |d|] == "\", 0x" && t[18 + |h| + |d|..18 + |h| + |d| + |z|] == z
    && t[18 + |h| + |d| + |z|] == '\n'
  }

  /** A record line followed by the rest of the file starts with its pieces. */
  lemma LineText(h: seq<char>, d: seq<char>, z: seq<char>, rest: seq<char>)
    ensures Pieces(RecordLine(h, d, z, rest), h, d, z)
  {
    var t := RecordLine(h, d, z, rest);
    assert t == (((((("flash = 0x" + h) + ", \"") + d) + "\", 0x") + z) + "\n") + rest;
  }

  /** A text that starts with a record line is laid out as a record. */
  lemma PiecesLaidOut(t: seq<char>, h: seq<char>, d: seq<char>, z: seq<char>)
    requires Spellable(h, d, z) && Pieces(t, h, d, z)
    ensures LaidOut(t, 0, LineLayout(h, d, z))
  {
    PiecesIdLaidOut(t, h, d, z);
    PiecesDescriptionLaidOut(t, h, d, z);
    PiecesSizeLaidOut(t, h, d, z);
  }

  lemma PiecesIdLaidOut(t: seq<char>, h: seq<char>, d: seq<char>, z: seq<char>)
    requires Spellable(h, d, z) && Pieces(t, h, d, z)
    ensures var l := LineLayout(h, d, z); IdLaidOut(t, 0, l.eq, l.x1, l.comma)
  {
    assert t[..5] == "flash";
    assert forall k :: 10 <= k < 10 + |h| ==> t[k] == h[k - 10];
    assert t[10 + |h|] == ',';
  }

  lemma PiecesDescriptionLaidOut(t: seq<char>, h: seq<char>, d: seq<char>, z: seq<char>)
    requires Spellable(h, d, z) && Pieces(t, h, d, z)
    ensures var l := LineLayout(h, d, z); DescriptionLaidOut(t, l.comma, l.q1, l.dEnd)
  {
    CharsOfSlice(t, 10 + |h|, 13 + |h|, ", \"");
    CharsOfSlice(t, 13 + |h|, 13 + |h| + |d|, d);
    CharsOfSlice(t, 13 + |h| + |d|, 18 + |h| + |d|, "\", 0x");
  }

  lemma PiecesSizeLaidOut(t: seq<char>, h: seq<char>, d: seq<char>, z: seq<char>)
    requires Spellable(h, d, z) && Pieces(t, h, d, z)
    ensures var l := LineLayout(h, d, z); SizeLaidOut(t, l.dEnd, l.x2, l.ws)
  {
    assert forall k :: 18 + |h| + |d| <= k < 18 + |h| + |d| + |z| ==> t[k] == z[k - (18 + |h| + |d|)];
    var e := 13 + |h| + |d|;
    CharsOfSlice(t, e, e + 5, "\", 0x");
  }

  /** Each character of a slice that equals `s` is the matching character of `s`. */
  lemma CharsOfSlice(t: seq<char>, i: nat, j: nat, s: seq<char>)
    requires i <= j <= |t| && t[i..j] == s
    ensures forall k :: i <= k < j ==> t[k] == s[k - i]
  {
    forall k | i <= k < j
      ensures t[k] == s[k - i]
    {
      assert t[i..j][k - i] == t[k];
    }
  }

  /** The id read from every text that starts with a record line is the value of its digits. */
  lemma LineId(h: seq<char>, d: seq<char>, z: seq<char>)
    ensures forall t :: Spellable(h, d, z) && Pieces(t, h, d, z) ==>
      var l := LineLayout(h, d, z);
      HexOr(t, l.x1 + 1, 8 - (l.comma - (l.x1 + 1))) == HexValue(h)
  {
    forall t | Spellable(h, d, z) && Pieces(t, h, d, z)
      ensures HexOr(t, 10, 8 - |h|) == HexValue(h)
    {
      CharsOfSlice(t, 10 + |h|, 13 + |h|, ", \"");
      HexOrOfRun(t, 10, h, 8 - |h|);
    }
  }

  /** The size read from every text that starts with a record line is the value of its digits. */
  lemma LineSize(h: seq<char>, d: seq<char>, z: seq<char>, lastSize: Dword)
    ensures forall t :: Spellable(h, d, z) && Pieces(t, h, d, z) ==>
      var l := LineLayout(h, d, z);
      HexOr(t, l.x2 + 1, lastSize) == HexValue(z)
  {
    forall t | Spellable(h, d, z) && Pieces(t, h, d, z)
      ensures HexOr(t, 18 + |h| + |d|, lastSize) == HexValue(z)
    {
      HexOrOfRun(t, 18 + |h| + |d|, z, lastSize);
    }
  }

  /** Reading at `i`, where the hex digits `s` stand before a non-digit, gives their value. */
  lemma HexOrOfRun(t: seq<char>, i: nat, s: seq<char>, previous: nat)
    requires 1 <= |s| && AllHex(s) && i + |s| < |t| && t[i..i + |s|] == s && !IsHexDigit(t[i + |s|])
    ensures HexOr(t, i, previous) == HexValue(s)
  {
    assert forall k :: i <= k < i + |s| ==> t[k] == s[k - i];
    HexEndAt(t, i, i + |s|);
  }

  // Each scan stops at the landmark that its characterisation names.

  lemma {:induction false} SpacesEndAt(text: seq<char>, i: nat, r: nat)
    requires i <= r < |text| && !IsSpace(text[r]) && forall k :: i <= k < r ==> IsSpace(text[k])
    ensures SpacesEnd(text, i) == r
    decreases r - i
  {
    if i < r {
      SpacesEndAt(text, i + 1, r);
    }
  }

  lemma {:induction false} SeekEndAt(text: seq<char>, i: nat, r: nat, c: char)
    requires c != NUL && FirstOf(text, i, r, c)
    ensures SeekEnd(text, i, c) == r
    decreases r - i
  {
    if i < r {
      SeekEndAt(text, i + 1, r, c);
    }
  }

  lemma {:induction false} ProbeFromAt(text: seq<char>, j: nat, limit: nat, stop: Stop, at: nat)
    requires j <= at < limit && at < |text| && Stops(stop, text[at])
    requires forall k :: j <= k < at ==> !Stops(stop, text[k])
    ensures ProbeFrom(text, j, limit, stop) == Found(at)
    decreases at - j
  {
    if j < at {
      ProbeFromAt(text, j + 1, limit, stop, at);
    }
  }

  lemma {:induction false} DescriptionEndAt(text: seq<char>, i: nat, n: nat, r: nat)
    requires i <= r <= i + n && r <= |text|
    requires forall k :: i <= k < r ==> text[k] != NUL && text[k] != '"'
    requires r < i + n ==> !Live(text, r) || text[r] == '"'
    ensures DescriptionEnd(text, i, n) == r
    decreases n
  {
    if i < r {
      DescriptionEndAt(text, i + 1, n - 1, r);
    }
  }

  lemma {:induction false} HexEndAt(text: seq<char>, i: nat, r: nat)
    requires i <= r <= |text| && (r < |text| ==> !IsHexDigit(text[r]))
    requires forall k :: i <= k < r ==> IsHexDigit(text[k])
    ensures HexEnd(text, i) == r
    decreases r - i
  {
    if i < r {
      HexEndAt(text, i + 1, r);
    }
  }
}
