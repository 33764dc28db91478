/**
 * The cursor-driven scanner that reads `flash = 0x<id>, "<description>", 0x<size>`
 * records out of the configuration text.
 *
 * The file is read into a buffer with a NUL after its last byte, and every test of
 * `*sz` stops at a NUL, including one inside the file. Here the text is a `seq<char>`
 * and a position at or past its end reads as that NUL. Each scanning step is given as
 * a function that says where the cursor lands, and as a method with the source's loop
 * that is proved to land there.
 */
module ConfigScan {
  import opened Common

  const NUL: char := '\0'

  /** Number of characters the two bounded scans examine. */
  const Window: nat := 9

  /** `*sz` is non-zero at position i. */
  predicate Live(text: seq<char>, i: nat)
  {
    i < |text| && text[i] != NUL
  }

  /** C `isspace` in the C locale: space, tab, newline, vertical tab, form feed, return. */
  predicate IsSpace(c: char)
  {
    c == ' ' || ('\t' <= c <= '\r')
  }

  predicate IsBreak(c: char)
  {
    c == '\n' || c == '\r'
  }

  predicate IsHexDigit(c: char)
  {
    ('0' <= c <= '9') || ('a' <= c <= 'f') || ('A' <= c <= 'F')
  }

  function HexDigitValue(c: char): (d: nat)
    requires IsHexDigit(c)
    ensures d < 16
  {
    if '0' <= c <= '9' then (c as int) - ('0' as int)
    else if 'a' <= c <= 'f' then (c as int) - ('a' as int) + 10
    else (c as int) - ('A' as int) + 10
  }

  predicate AllHex(s: seq<char>)
  {
    forall k :: 0 <= k < |s| ==> IsHexDigit(s[k])
  }

  /** Value of a run of hex digits, most significant first. */
  function HexValue(s: seq<char>): nat
    requires AllHex(s)
  {
    if s == [] then 0 else 16 * HexValue(s[..|s| - 1]) + HexDigitValue(s[|s| - 1])
  }

  /** One more digit at the end multiplies the value so far by sixteen. */
  lemma HexValueAppend(s: seq<char>, c: char)
    requires AllHex(s) && IsHexDigit(c)
    ensures AllHex(s + [c]) && HexValue(s + [c]) == 16 * HexValue(s) + HexDigitValue(c)
  {
    assert (s + [c])[..|s|] == s;
  }

  function Pow16(n: nat): (p: nat)
    ensures p >= 1
  {
    if n == 0 then 1 else 16 * Pow16(n - 1)
  }

  /** A run of n hex digits denotes a value below 16^n. */
  lemma {:induction false} HexValueBound(s: seq<char>)
    requires AllHex(s)
    ensures HexValue(s) < Pow16(|s|)
  {
    if s != [] {
      HexValueBound(s[..|s| - 1]);
    }
  }

  lemma {:induction false} Pow16Monotonic(m: nat, n: nat)
    requires m <= n
    ensures Pow16(m) <= Pow16(n)
  {
    if m < n {
      Pow16Monotonic(m, n - 1);
    }
  }

  /** The line starts with the keyword, in exactly one of its two spellings. */
  predicate StartsWithKeyword(text: seq<char>, pos: nat)
  {
    pos + 5 <= |text| && (text[pos..pos + 5] == "flash" || text[pos..pos + 5] == "Flash")
  }

  /** Where skipping white space from i stops (src/raincoat.c:326). */
  function SpacesEnd(text: seq<char>, i: nat): (r: nat)
    requires i <= |text|
    ensures i <= r <= |text|
    ensures r < |text| ==> !IsSpace(text[r])
    decreases |text| - i
  {
    if Live(text, i) && IsSpace(text[i]) then SpacesEnd(text, i + 1) else i
  }

  lemma {:induction false} SpacesEndSkipsOnlySpaces(text: seq<char>, i: nat)
    requires i <= |text|
    ensures forall k :: i <= k < SpacesEnd(text, i) ==> IsSpace(text[k])
    decreases |text| - i
  {
    if Live(text, i) && IsSpace(text[i]) {
      SpacesEndSkipsOnlySpaces(text, i + 1);
    }
  }

  /** Where seeking character c from i stops: at c, at a NUL, or at the end (src/raincoat.c lines 328, 340, 350). */
  function SeekEnd(text: seq<char>, i: nat, c: char): (r: nat)
    requires i <= |text| && c != NUL
    ensures i <= r <= |text|
    ensures Live(text, r) ==> text[r] == c
    decreases |text| - i
  {
    if Live(text, i) && text[i] != c then SeekEnd(text, i + 1, c) else i
  }

  /** The seek stops at the first c: it passes over neither c nor a NUL. */
  lemma {:induction false} SeekEndIsFirst(text: seq<char>, i: nat, c: char)
    requires i <= |text| && c != NUL
    ensures forall k :: i <= k < SeekEnd(text, i, c) ==> text[k] != c && text[k] != NUL
    decreases |text| - i
  {
    if Live(text, i) && text[i] != c {
      SeekEndIsFirst(text, i + 1, c);
    }
  }

  /** What ends one of the two bounded scans: a comma after the id, white space after the size. */
  datatype Stop = Comma | Space

  predicate Stops(stop: Stop, c: char)
  {
    match stop
    case Comma => c == ','
    case Space => IsSpace(c)
  }

  /** Outcome of a bounded scan: the stop character's position, or where the cursor was left. */
  datatype Probe = Found(at: nat) | Missed(resume: nat)

  /**
   * The bounded scan of src/raincoat.c lines 335 and 355, from j up to the limit `start + Window`.
   * The source does not test for the NUL there, so a scan that reaches the end of the
   * text would read past the buffer; here it fails and leaves the cursor at the end.
   */
  function ProbeFrom(text: seq<char>, j: nat, limit: nat, stop: Stop): (p: Probe)
    requires j <= limit && j <= |text|
    ensures p.Found? ==> j <= p.at < limit && p.at < |text| && Stops(stop, text[p.at])
    ensures p.Missed? ==> p.resume == limit <= |text| || p.resume == |text| < limit
    decreases limit - j
  {
    if j == limit then Missed(limit)
    else if j == |text| then Missed(|text|)
    else if Stops(stop, text[j]) then Found(j)
    else ProbeFrom(text, j + 1, limit, stop)
  }

  /**
   * A scan that succeeds stops at the first stop character; one that fails saw none
   * up to where it left the cursor.
   */
  lemma {:induction false} ProbeFromIsFirst(text: seq<char>, j: nat, limit: nat, stop: Stop)
    requires j <= limit && j <= |text|
    ensures var p := ProbeFrom(text, j, limit, stop);
      forall k :: j <= k < (if p.Found? then p.at else p.resume) ==> !Stops(stop, text[k])
    decreases limit - j
  {
    if j < limit && j < |text| && !Stops(stop, text[j]) {
      ProbeFromIsFirst(text, j + 1, limit, stop);
    }
  }

  function Probe9(text: seq<char>, start: nat, stop: Stop): (p: Probe)
    requires start <= |text|
    ensures p.Found? ==> start <= p.at < start + Window && p.at < |text| && Stops(stop, text[p.at])
    ensures p.Missed? ==> start <= p.resume <= |text|
  {
    ProbeFrom(text, start, start + Window, stop)
  }

  /** End of the run of hex digits that starts at i. */
  function HexEnd(text: seq<char>, i: nat): (r: nat)
    requires i <= |text|
    ensures i <= r <= |text|
    ensures AllHex(text[i..r])
    ensures r < |text| ==> !IsHexDigit(text[r])
    decreases |text| - i
  {
    if i < |text| && IsHexDigit(text[i]) then HexEnd(text, i + 1) else i
  }

  /**
   * What `sscanf("%x")` stores from position i: the value of the hex digits found
   * there, or the variable's previous value when there are none.
   */
  function HexOr(text: seq<char>, i: nat, previous: nat): nat
    requires i <= |text|
  {
    var e := HexEnd(text, i);
    if e == i then previous else HexValue(text[i..e])
  }

  /**
   * Where copying the description from i stops: at the closing quote, at a NUL or end,
   * or after n characters (src/raincoat.c:345).
   */
  function DescriptionEnd(text: seq<char>, i: nat, n: nat): (r: nat)
    requires i <= |text|
    ensures i <= r <= |text| && r <= i + n
    ensures r < i + n ==> !Live(text, r) || text[r] == '"'
    decreases n
  {
    if n == 0 || !Live(text, i) || text[i] == '"' then i else DescriptionEnd(text, i + 1, n - 1)
  }

  /** The copied description holds neither a quote nor a NUL. */
  lemma {:induction false} DescriptionEndStopsAtQuote(text: seq<char>, i: nat, n: nat)
    requires i <= |text|
    ensures forall k :: i <= k < DescriptionEnd(text, i, n) ==> text[k] != NUL && text[k] != '"'
    decreases n
  {
    if n > 0 && Live(text, i) && text[i] != '"' {
      DescriptionEndStopsAtQuote(text, i + 1, n - 1);
    }
  }

  /** End of the current line's remaining characters (src/raincoat.c:440). */
  function LineEnd(text: seq<char>, i: nat): (r: nat)
    requires i <= |text|
    ensures i <= r <= |text|
    ensures Live(text, i) && !IsBreak(text[i]) ==> i < r
    ensures Live(text, r) ==> IsBreak(text[r])
    decreases |text| - i
  {
    if Live(text, i) && !IsBreak(text[i]) then LineEnd(text, i + 1) else i
  }

  /** End of a run of line breaks (src/raincoat.c:441). */
  function BreaksEnd(text: seq<char>, i: nat): (r: nat)
    requires i <= |text|
    ensures i <= r <= |text|
    ensures i < r ==> IsBreak(text[r - 1])
    ensures i < |text| && IsBreak(text[i]) ==> i < r
    ensures r < |text| ==> !IsBreak(text[r])
    decreases |text| - i
  {
    if i < |text| && IsBreak(text[i]) then BreaksEnd(text, i + 1) else i
  }

  /**
   * Where the next record is looked for: past the rest of the line and its breaks, so
   * at the start of a line unless the text has ended.
   */
  function NextLine(text: seq<char>, i: nat): (r: nat)
    requires i <= |text|
    ensures i <= r <= |text|
    ensures Live(text, i) ==> i < r
    ensures Live(text, r) ==> 0 < r && IsBreak(text[r - 1])
  {
    BreaksEnd(text, LineEnd(text, i))
  }

  /** One scan of a record: the candidate, if every step succeeded, and the cursor after it. */
  datatype Attempt = Attempt(candidate: Option<Entry>, cursor: nat)

  /**
   * One pass of the body of the loop at src/raincoat.c:323 up to the skip to the next line.
   * `lastSize` is the size field of the candidate buffer, which persists between
   * records and keeps its value when no size digits are found.
   */
  function Record(text: seq<char>, pos: nat, lastSize: Dword): (a: Attempt)
    requires pos <= |text|
    ensures pos <= a.cursor <= |text|
    ensures !StartsWithKeyword(text, pos) ==> a == Attempt(None, pos)
    ensures a.candidate.Some? ==> StartsWithKeyword(text, pos) && ValidCandidate(text, a)
  {
    if !StartsWithKeyword(text, pos) then Attempt(None, pos)
    else
      var eq := SpacesEnd(text, pos + 5);
      if !(Live(text, eq) && text[eq] == '=') then Attempt(None, eq)
      else
        var x1 := SeekEnd(text, eq, 'x');
        if !Live(text, x1) then Attempt(None, x1)
        else match Probe9(text, x1 + 1, Comma)
          case Missed(q) => Attempt(None, q)
          case Found(comma) =>
            // with no digits the id keeps the scan's countdown value
            AfterId(text, comma, HexOr(text, x1 + 1, 8 - (comma - (x1 + 1))), lastSize)
  }

  /**
   * What every accepted candidate satisfies: its description has at most
   * `DescriptionLimit` characters and no quote, and the scan stopped on the white space
   * after its size.
   */
  predicate ValidCandidate(text: seq<char>, a: Attempt)
    requires a.candidate.Some?
  {
    && a.cursor < |text| && IsSpace(text[a.cursor])
    && |a.candidate.value.description| <= DescriptionLimit
    && '"' !in a.candidate.value.description
  }

  /** src/raincoat.c:340-348: the quoted description after the id's comma. */
  function AfterId(text: seq<char>, comma: nat, id: nat, lastSize: Dword): (a: Attempt)
    requires comma <= |text|
    ensures comma <= a.cursor <= |text|
    ensures a.candidate.Some? ==> ValidCandidate(text, a)
  {
    var q1 := SeekEnd(text, comma, '"');
    if !Live(text, q1) then Attempt(None, q1)
    else
      var dEnd := DescriptionEnd(text, q1 + 1, DescriptionLimit);
      if !Live(text, dEnd) then Attempt(None, dEnd)
      else
        DescriptionEndStopsAtQuote(text, q1 + 1, DescriptionLimit);
        AfterDescription(text, dEnd, id, text[q1 + 1..dEnd], lastSize)
  }

  /** src/raincoat.c:349-357: the size after the description. */
  function AfterDescription(text: seq<char>, dEnd: nat, id: nat, description: seq<char>, lastSize: Dword): (a: Attempt)
    requires dEnd <= |text|
    ensures dEnd <= a.cursor <= |text|
    ensures a.candidate.Some? ==> a.cursor < |text| && IsSpace(text[a.cursor])
    ensures a.candidate.Some? ==> a.candidate.value.description == description
  {
    var x2 := SeekEnd(text, dEnd, 'x');
    if !Live(text, x2) then Attempt(None, x2)
    else match Probe9(text, x2 + 1, Space)
      case Missed(q) => Attempt(None, q)
      case Found(ws) =>
        SizeDigitsFit(text, x2 + 1, ws, lastSize);
        Attempt(Some(Entry((id / 256) % 256, id % 256, description, HexOr(text, x2 + 1, lastSize))), ws)
  }

  /**
   * The candidates of the records met from cursor `pos` on, in file order, one item per
   * attempt (None for a rejected one), when the loop at src/raincoat.c:323 is not cut short by the
   * table's capacity. After each attempt the scan resumes at the next line.
   */
  function Records(text: seq<char>, pos: nat, lastSize: Dword): seq<Option<Entry>>
    requires pos <= |text|
    decreases |text| - pos, 1
  {
    if !Live(text, pos) then [] else RecordsAt(text, pos, lastSize)
  }

  /** `Records` at a cursor that is not at the end of the text. */
  function RecordsAt(text: seq<char>, pos: nat, lastSize: Dword): seq<Option<Entry>>
    requires pos <= |text| && Live(text, pos)
    decreases |text| - pos, 0
  {
    var a := Record(text, pos, lastSize);
    var next := NextLine(text, a.cursor);
    match a.candidate
    case None => [None] + Records(text, next, lastSize)
    case Some(e) => [Some(e)] + Records(text, next, e.sizeBytes)
  }

  function KeyOfCandidate(c: Option<Entry>): Option<Key>
  {
    match c
    case None => None
    case Some(e) => Some(KeyOf(e))
  }

  function CandidateKeys(cs: seq<Option<Entry>>): (ks: seq<Option<Key>>)
    ensures |ks| == |cs|
  {
    if cs == [] then [] else [KeyOfCandidate(cs[0])] + CandidateKeys(cs[1..])
  }

  lemma AfterDescriptionIgnoresLastSize(text: seq<char>, dEnd: nat, id: nat, description: seq<char>, lastSize: Dword, otherSize: Dword)
    requires dEnd <= |text|
    ensures var a, b := AfterDescription(text, dEnd, id, description, lastSize), AfterDescription(text, dEnd, id, description, otherSize);
      a.cursor == b.cursor && KeyOfCandidate(a.candidate) == KeyOfCandidate(b.candidate)
  {
  }

  lemma AfterIdIgnoresLastSize(text: seq<char>, comma: nat, id: nat, lastSize: Dword, otherSize: Dword)
    requires comma <= |text|
    ensures var a, b := AfterId(text, comma, id, lastSize), AfterId(text, comma, id, otherSize);
      a.cursor == b.cursor && KeyOfCandidate(a.candidate) == KeyOfCandidate(b.candidate)
  {
    var q1 := SeekEnd(text, comma, '"');
    if Live(text, q1) {
      var dEnd := DescriptionEnd(text, q1 + 1, DescriptionLimit);
      if Live(text, dEnd) {
        AfterDescriptionIgnoresLastSize(text, dEnd, id, text[q1 + 1..dEnd], lastSize, otherSize);
      }
    }
  }

  /** Which records are accepted, with which keys, and where the scan resumes does not depend on the stale size. */
  lemma RecordIgnoresLastSize(text: seq<char>, pos: nat, lastSize: Dword, otherSize: Dword)
    requires pos <= |text|
    ensures var a, b := Record(text, pos, lastSize), Record(text, pos, otherSize);
      a.cursor == b.cursor && KeyOfCandidate(a.candidate) == KeyOfCandidate(b.candidate)
  {
    if StartsWithKeyword(text, pos) {
      var eq := SpacesEnd(text, pos + 5);
      if Live(text, eq) && text[eq] == '=' {
        var x1 := SeekEnd(text, eq, 'x');
        if Live(text, x1) {
          var p := Probe9(text, x1 + 1, Comma);
          if p.Found? {
            AfterIdIgnoresLastSize(text, p.at, HexOr(text, x1 + 1, 8 - (p.at - (x1 + 1))), lastSize, otherSize);
          }
        }
      }
    }
  }

  /** The stream of keys the configuration yields does not depend on the stale size. */
  lemma {:induction false} RecordKeysIgnoreLastSize(text: seq<char>, pos: nat, lastSize: Dword, otherSize: Dword)
    requires pos <= |text|
    ensures CandidateKeys(Records(text, pos, lastSize)) == CandidateKeys(Records(text, pos, otherSize))
    decreases |text| - pos
  {
    if Live(text, pos) {
      RecordIgnoresLastSize(text, pos, lastSize, otherSize);
      var a, b := Record(text, pos, lastSize), Record(text, pos, otherSize);
      var next := NextLine(text, a.cursor);
      var sa := if a.candidate.Some? then a.candidate.value.sizeBytes else lastSize;
      var sb := if b.candidate.Some? then b.candidate.value.sizeBytes else otherSize;
      RecordKeysIgnoreLastSize(text, next, sa, sb);
      var ra, rb := Records(text, pos, lastSize), Records(text, pos, otherSize);
      assert ra == RecordsAt(text, pos, lastSize) && rb == RecordsAt(text, pos, otherSize);
      assert ra == [a.candidate] + Records(text, next, sa);
      assert rb == [b.candidate] + Records(text, next, sb);
      assert ra[1..] == Records(text, next, sa) && rb[1..] == Records(text, next, sb);
    }
  }

  /**
   * The size digits read at i stop at the white space the window found at ws, so at
   * most eight of them are read and the size fits a DWORD.
   */
  lemma {:induction false} SizeDigitsFit(text: seq<char>, i: nat, ws: nat, lastSize: Dword)
    requires i <= ws < i + Window && ws < |text| && IsSpace(text[ws])
    ensures HexEnd(text, i) <= ws
    ensures HexOr(text, i, lastSize) < DwordModulus
  {
    var e := HexEnd(text, i);
    assert !IsHexDigit(text[ws]);
    if e > i {
      HexValueBound(text[i..e]);
      Pow16Monotonic(e - i, 8);
    }
  }

  // The source's loops, each proved to stop where the function above says.

  method SkipSpaces(text: seq<char>, i: nat) returns (j: nat)
    requires i <= |text|
    ensures j == SpacesEnd(text, i)
  {
    j := i;
    while Live(text, j) && IsSpace(text[j])
      invariant i <= j <= |text|
      invariant SpacesEnd(text, j) == SpacesEnd(text, i)
      decreases |text| - j
    {
      j := j + 1;
    }
  }

  method Seek(text: seq<char>, i: nat, c: char) returns (j: nat)
    requires i <= |text| && c != NUL
    ensures j == SeekEnd(text, i, c)
  {
    j := i;
    while Live(text, j) && text[j] != c
      invariant i <= j <= |text|
      invariant SeekEnd(text, j, c) == SeekEnd(text, i, c)
      decreases |text| - j
    {
      j := j + 1;
    }
  }

  /**
   * `n = 9; while ((n--) && *sz != stop) sz++; if (n >= 0) ...`: the countdown `n`
   * is left at 8 minus the stop character's offset; it reads -1 when the window is used up.
   */
  method ProbeWindow(text: seq<char>, start: nat, stop: Stop) returns (p: Probe, n: int)
    requires start <= |text|
    ensures p == Probe9(text, start, stop)
    ensures p.Found? ==> n == 8 - (p.at - start) && n >= 0
  {
    var j := start;
    n := Window;
    while n > 0 && j < |text| && !Stops(stop, text[j])
      invariant start <= j <= |text|
      invariant n == Window - (j - start) && n >= 0
      invariant ProbeFrom(text, j, start + Window, stop) == Probe9(text, start, stop)
      decreases n
    {
      n := n - 1;
      j := j + 1;
    }
    if n == 0 {
      p, n := Missed(j), -1;
    } else if j == |text| {
      p, n := Missed(|text|), -1;
    } else {
      p, n := Found(j), n - 1;
    }
  }

  /** `sscanf(szHex, "%x", &v)` on the maximal hex-digit prefix; v keeps `previous` if there is none. */
  method ReadHex(text: seq<char>, i: nat, previous: nat) returns (v: nat)
    requires i <= |text|
    ensures v == HexOr(text, i, previous)
  {
    var j := i;
    v := 0;
    while j < |text| && IsHexDigit(text[j])
      invariant i <= j <= |text|
      invariant AllHex(text[i..j]) && v == HexValue(text[i..j])
      invariant HexEnd(text, j) == HexEnd(text, i)
      decreases |text| - j
    {
      HexRunStep(text, i, j);
      v := 16 * v + HexDigitValue(text[j]);
      j := j + 1;
    }
    if j == i {
      v := previous;
    }
  }

  /** Extending a run of hex digits by the digit after it. */
  lemma HexRunStep(text: seq<char>, i: nat, j: nat)
    requires i <= j < |text| && AllHex(text[i..j]) && IsHexDigit(text[j])
    ensures AllHex(text[i..j + 1]) && HexValue(text[i..j + 1]) == 16 * HexValue(text[i..j]) + HexDigitValue(text[j])
    ensures HexEnd(text, j + 1) == HexEnd(text, j)
  {
    HexValueAppend(text[i..j], text[j]);
    assert text[i..j + 1] == text[i..j] + [text[j]];
  }

  /** The copy loop at src/raincoat.c:345: at most `DescriptionLimit` characters, up to a quote or NUL. */
  method CopyDescription(text: seq<char>, i: nat) returns (description: seq<char>, j: nat)
    requires i <= |text|
    ensures j == DescriptionEnd(text, i, DescriptionLimit)
    ensures description == text[i..j]
  {
    var n: nat := DescriptionLimit;
    j := i;
    description := [];
    while n > 0 && Live(text, j) && text[j] != '"'
      invariant i <= j <= |text| && n + (j - i) == DescriptionLimit
      invariant description == text[i..j]
      invariant DescriptionEnd(text, j, n) == DescriptionEnd(text, i, DescriptionLimit)
      decreases n
    {
      description := description + [text[j]];
      j := j + 1;
      n := n - 1;
    }
  }

  /** src/raincoat.c:440-441: to the end of the line, then past its line breaks. */
  method SkipLine(text: seq<char>, i: nat) returns (j: nat)
    requires i <= |text|
    ensures j == NextLine(text, i)
  {
    j := i;
    while Live(text, j) && !IsBreak(text[j])
      invariant i <= j <= |text|
      invariant LineEnd(text, j) == LineEnd(text, i)
      decreases |text| - j
    {
      j := j + 1;
    }
    ghost var lineEnd := j;
    while Live(text, j) && IsBreak(text[j])
      invariant lineEnd <= j <= |text|
      invariant BreaksEnd(text, j) == BreaksEnd(text, lineEnd)
      decreases |text| - j
    {
      j := j + 1;
    }
  }

  /** The nested scans of src/raincoat.c:324-339 for one record, as the source runs them. */
  method ParseRecord(text: seq<char>, pos: nat, lastSize: Dword) returns (candidate: Option<Entry>, cursor: nat)
    requires pos <= |text|
    ensures Attempt(candidate, cursor) == Record(text, pos, lastSize)
  {
    candidate, cursor := None, pos;
    if !StartsWithKeyword(text, pos) {
      return;
    }
    cursor := SkipSpaces(text, pos + 5);
    if !(Live(text, cursor) && text[cursor] == '=') {
      return;
    }
    cursor := Seek(text, cursor, 'x');
    if !Live(text, cursor) {
      return;
    }
    var hexStart := cursor + 1;
    var probe, n := ProbeWindow(text, hexStart, Comma);
    if probe.Missed? {
      cursor := probe.resume;
      return;
    }
    var id := ReadHex(text, hexStart, n);
    candidate, cursor := ParseDescription(text, probe.at, id, lastSize);
  }

  /** src/raincoat.c:340-348. */
  method ParseDescription(text: seq<char>, comma: nat, id: nat, lastSize: Dword) returns (candidate: Option<Entry>, cursor: nat)
    requires comma <= |text|
    ensures Attempt(candidate, cursor) == AfterId(text, comma, id, lastSize)
  {
    candidate := None;
    cursor := Seek(text, comma, '"');
    if !Live(text, cursor) {
      return;
    }
    var description;
    description, cursor := CopyDescription(text, cursor + 1);
    if !Live(text, cursor) {
      return;
    }
    candidate, cursor := ParseSize(text, cursor, id, description, lastSize);
  }

  /** src/raincoat.c:349-357. */
  method ParseSize(text: seq<char>, dEnd: nat, id: nat, description: seq<char>, lastSize: Dword)
    returns (candidate: Option<Entry>, cursor: nat)
    requires dEnd <= |text|
    ensures Attempt(candidate, cursor) == AfterDescription(text, dEnd, id, description, lastSize)
  {
    candidate := None;
    cursor := Seek(text, dEnd, 'x');
    if !Live(text, cursor) {
      return;
    }
    var hexStart := cursor + 1;
    var probe, n := ProbeWindow(text, hexStart, Space);
    if probe.Missed? {
      cursor := probe.resume;
      return;
    }
    cursor := probe.at;
    var size := ReadHex(text, hexStart, lastSize);
    SizeDigitsFit(text, hexStart, cursor, lastSize);
    candidate := Some(Entry((id / 256) % 256, id % 256, description, size));
  }
}
