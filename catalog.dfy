/**
 * The table of known flash types: a fixed array seeded with the built-in list and
 * extended, in place, by the records of the configuration text.
 */
module KnownFlashTypes {
  import opened Common
  import opened ConfigScan

  /** Slots in the table: 1023 flash types and one terminator. */
  const TableSize: nat := 1024
  const MaxFlashTypes: nat := TableSize - 1

  /** An entry that ends the count of built-in types: either of its ids is zero. */
  predicate IsStop(e: Entry)
  {
    e.manufacturerId == 0 || e.deviceId == 0
  }

  /** No entry of `added` repeats a key of `known` or of an earlier entry of `added`. */
  ghost predicate NoNewDuplicates(known: seq<Entry>, added: seq<Entry>)
    decreases |added|
  {
    added != [] ==>
      !KeyIn(KeyOf(added[0]), known) && NoNewDuplicates(known + [added[0]], added[1..])
  }

  /**
   * The entries that the loop at src/raincoat.c:323 appends for a stream of record candidates,
   * when `known` is the table's in-use part and `budget` the slots left: a candidate
   * whose key is already in the table is dropped, and the loop stops when no slot is left.
   */
  function Merge(candidates: seq<Option<Entry>>, known: seq<Entry>, budget: nat): seq<Entry>
  {
    if candidates == [] || budget == 0 then []
    else match candidates[0]
      case None => Merge(candidates[1..], known, budget)
      case Some(e) =>
        if KeyIn(KeyOf(e), known) then Merge(candidates[1..], known, budget)
        else [e] + Merge(candidates[1..], known + [e], budget - 1)
  }

  /** The configuration never adds more entries than there are free slots. */
  lemma {:induction false} MergeWithinBudget(candidates: seq<Option<Entry>>, known: seq<Entry>, budget: nat)
    ensures |Merge(candidates, known, budget)| <= budget
  {
    if candidates != [] && budget > 0 {
      var rest := candidates[1..];
      match candidates[0]
      case None => MergeWithinBudget(rest, known, budget);
      case Some(e) =>
        if KeyIn(KeyOf(e), known) {
          MergeWithinBudget(rest, known, budget);
        } else {
          MergeWithinBudget(rest, known + [e], budget - 1);
        }
    }
  }

  /** No appended entry repeats a key already in the table or appended before it. */
  lemma {:induction false} MergeAddsNoDuplicates(candidates: seq<Option<Entry>>, known: seq<Entry>, budget: nat)
    ensures NoNewDuplicates(known, Merge(candidates, known, budget))
  {
    if candidates != [] && budget > 0 {
      var rest := candidates[1..];
      match candidates[0]
      case None => MergeAddsNoDuplicates(rest, known, budget);
      case Some(e) =>
        if KeyIn(KeyOf(e), known) {
          MergeAddsNoDuplicates(rest, known, budget);
        } else {
          var added := Merge(rest, known + [e], budget - 1);
          MergeAddsNoDuplicates(rest, known + [e], budget - 1);
          assert ([e] + added)[1..] == added;
        }
    }
  }

  /** The appended entries are accepted candidates, kept in the order the file gives them. */
  lemma {:induction false} MergeKeepsFileOrder(candidates: seq<Option<Entry>>, known: seq<Entry>, budget: nat)
    ensures IsSubsequence(Merge(candidates, known, budget), candidates)
  {
    if candidates != [] && budget > 0 {
      var rest := candidates[1..];
      match candidates[0]
      case None =>
        MergeKeepsFileOrder(rest, known, budget);
      case Some(e) =>
        if KeyIn(KeyOf(e), known) {
          MergeKeepsFileOrder(rest, known, budget);
        } else {
          MergeKeepsFileOrder(rest, known + [e], budget - 1);
          assert ([e] + Merge(rest, known + [e], budget - 1))[1..] == Merge(rest, known + [e], budget - 1);
        }
    }
  }

  /** `added` can be picked out, in order, from the accepted candidates of `candidates`. */
  ghost predicate IsSubsequence(added: seq<Entry>, candidates: seq<Option<Entry>>)
    decreases |candidates|
  {
    added == [] ||
    (candidates != [] &&
      ((candidates[0] == Some(added[0]) && IsSubsequence(added[1..], candidates[1..])) ||
       IsSubsequence(added, candidates[1..])))
  }

  lemma KeyInExtend(k: Key, known: seq<Entry>, more: seq<Entry>)
    requires KeyIn(k, known)
    ensures KeyIn(k, known + more)
  {
    var i :| 0 <= i < |known| && KeyOf(known[i]) == k;
    assert (known + more)[i] == known[i];
  }

  /** Every key in the stream is already in `known`. */
  ghost predicate KeysKnown(keys: seq<Option<Key>>, known: seq<Entry>)
  {
    forall i :: 0 <= i < |keys| && keys[i].Some? ==> KeyIn(keys[i].value, known)
  }

  /** A merge that stops short of the capacity has seen, and now knows, every candidate's key. */
  lemma {:induction false} MergeCoversCandidates(candidates: seq<Option<Entry>>, known: seq<Entry>, budget: nat)
    requires |Merge(candidates, known, budget)| < budget
    ensures KeysKnown(CandidateKeys(candidates), known + Merge(candidates, known, budget))
  {
    if candidates != [] {
      var rest := candidates[1..];
      var r := Merge(candidates, known, budget);
      var keys := CandidateKeys(candidates);
      assert keys == [KeyOfCandidate(candidates[0])] + CandidateKeys(rest);
      match candidates[0]
      case None =>
        MergeCoversCandidates(rest, known, budget);
      case Some(e) =>
        if KeyIn(KeyOf(e), known) {
          MergeCoversCandidates(rest, known, budget);
          KeyInExtend(KeyOf(e), known, r);
        } else {
          var added := Merge(rest, known + [e], budget - 1);
          assert r == [e] + added;
          MergeCoversCandidates(rest, known + [e], budget - 1);
          assert known + r == (known + [e]) + added;
          assert (known + r)[|known|] == e;
        }
    }
  }

  /** When every candidate's key is known, the merge appends nothing. */
  lemma {:induction false} KnownCandidatesAddNothing(candidates: seq<Option<Entry>>, known: seq<Entry>, budget: nat)
    requires KeysKnown(CandidateKeys(candidates), known)
    ensures Merge(candidates, known, budget) == []
  {
    if candidates != [] && budget > 0 {
      var keys := CandidateKeys(candidates);
      assert keys == [KeyOfCandidate(candidates[0])] + CandidateKeys(candidates[1..]);
      assert keys[0] == KeyOfCandidate(candidates[0]);
      assert forall i :: 0 <= i < |keys| - 1 ==> CandidateKeys(candidates[1..])[i] == keys[i + 1];
      KnownCandidatesAddNothing(candidates[1..], known, budget);
    }
  }

  /**
   * Merging a second stream with the same keys into the merged table adds nothing.
   */
  lemma MergeAgainAddsNothing(first: seq<Option<Entry>>, again: seq<Option<Entry>>, known: seq<Entry>, budget: nat)
    requires CandidateKeys(first) == CandidateKeys(again)
    ensures |Merge(first, known, budget)| <= budget
    ensures Merge(again, known + Merge(first, known, budget), budget - |Merge(first, known, budget)|) == []
  {
    var added := Merge(first, known, budget);
    MergeWithinBudget(first, known, budget);
    if |added| < budget {
      MergeCoversCandidates(first, known, budget);
      KnownCandidatesAddNothing(again, known + added, budget - |added|);
    }
  }

  /**
   * Merging the same configuration text again into the merged table adds nothing,
   * whatever the stale size field holds the second time.
   */
  lemma MergeIdempotent(text: seq<char>, known: seq<Entry>, budget: nat, lastSize: Dword, otherSize: Dword)
    ensures |Merge(Records(text, 0, lastSize), known, budget)| <= budget
    ensures |Merge(Records(text, 0, otherSize), known + Merge(Records(text, 0, lastSize), known, budget),
                   budget - |Merge(Records(text, 0, lastSize), known, budget)|)| == 0
  {
    RecordKeysIgnoreLastSize(text, 0, lastSize, otherSize);
    MergeAgainAddsNothing(Records(text, 0, lastSize), Records(text, 0, otherSize), known, budget);
  }

  /** Merging two streams one after the other is merging the first, then the second after what the first added. */
  lemma {:induction false} MergeAppend(xs: seq<Option<Entry>>, ys: seq<Option<Entry>>, known: seq<Entry>, budget: nat)
    ensures |Merge(xs, known, budget)| <= budget
    ensures Merge(xs + ys, known, budget) ==
      Merge(xs, known, budget) + Merge(ys, known + Merge(xs, known, budget), budget - |Merge(xs, known, budget)|)
  {
    MergeWithinBudget(xs, known, budget);
    if xs == [] {
      assert xs + ys == ys;
      assert known + [] == known;
    } else if budget > 0 {
      var rest := xs[1..];
      assert (xs + ys)[0] == xs[0] && (xs + ys)[1..] == rest + ys;
      match xs[0]
      case None => MergeAppend(rest, ys, known, budget);
      case Some(e) =>
        if KeyIn(KeyOf(e), known) {
          MergeAppend(rest, ys, known, budget);
        } else {
          MergeAppend(rest, ys, known + [e], budget - 1);
          assert known + [e] + Merge(rest, known + [e], budget - 1) == known + Merge(xs, known, budget);
        }
    }
  }

  /** No candidate of `candidates` carries the key `k`. */
  ghost predicate Unseen(k: Key, candidates: seq<Option<Entry>>)
  {
    forall j :: 0 <= j < |candidates| && candidates[j].Some? ==> KeyOf(candidates[j].value) != k
  }

  /** A key that no candidate carries is never appended. */
  lemma {:induction false} MergeAddsOnlyCandidateKeys(k: Key, candidates: seq<Option<Entry>>, known: seq<Entry>, budget: nat)
    requires Unseen(k, candidates)
    ensures !KeyIn(k, Merge(candidates, known, budget))
  {
    if candidates != [] && budget > 0 {
      var rest := candidates[1..];
      assert Unseen(k, rest) by {
        forall j | 0 <= j < |rest| && rest[j].Some? ensures KeyOf(rest[j].value) != k {
          assert rest[j] == candidates[j + 1];
        }
      }
      match candidates[0]
      case None => MergeAddsOnlyCandidateKeys(k, rest, known, budget);
      case Some(e) =>
        if KeyIn(KeyOf(e), known) {
          MergeAddsOnlyCandidateKeys(k, rest, known, budget);
        } else {
          var added := Merge(rest, known + [e], budget - 1);
          MergeAddsOnlyCandidateKeys(k, rest, known + [e], budget - 1);
          forall m | 0 <= m < |[e] + added| ensures KeyOf(([e] + added)[m]) != k {
            if m > 0 {
              assert ([e] + added)[m] == added[m - 1];
            }
          }
        }
    }
  }

  /** The key stream lists the key of each candidate at its own position. */
  lemma {:induction false} CandidateKeysAt(candidates: seq<Option<Entry>>)
    ensures forall j :: 0 <= j < |candidates| ==> CandidateKeys(candidates)[j] == KeyOfCandidate(candidates[j])
  {
    if candidates != [] {
      CandidateKeysAt(candidates[1..]);
    }
  }

  /**
   * First seen wins (src/raincoat.c:367-426): the first record that carries a key not in the
   * table is appended, while a slot is left, right after the entries the records
   * before it added.
   */
  lemma FirstSeenWins(candidates: seq<Option<Entry>>, i: nat, e: Entry, known: seq<Entry>, budget: nat)
    requires i < |candidates| && candidates[i] == Some(e)
    requires !KeyIn(KeyOf(e), known) && Unseen(KeyOf(e), candidates[..i])
    requires |Merge(candidates[..i], known, budget)| < budget
    ensures |Merge(candidates[..i], known, budget)| < |Merge(candidates, known, budget)|
    ensures Merge(candidates, known, budget)[|Merge(candidates[..i], known, budget)|] == e
  {
    var before := candidates[..i];
    var added := Merge(before, known, budget);
    assert candidates == before + candidates[i..];
    MergeAppend(before, candidates[i..], known, budget);
    MergeAddsOnlyCandidateKeys(KeyOf(e), before, known, budget);
    KeyNotInEither(KeyOf(e), known, added);
    assert candidates[i..][0] == Some(e);
  }

  /**
   * The corollary: a record whose key is already in the table, or on an earlier
   * record, adds nothing; merging without it gives the same entries.
   */
  lemma LaterDuplicateIgnored(candidates: seq<Option<Entry>>, i: nat, e: Entry, known: seq<Entry>, budget: nat)
    requires i < |candidates| && candidates[i] == Some(e)
    requires KeyIn(KeyOf(e), known) || !Unseen(KeyOf(e), candidates[..i])
    ensures Merge(candidates, known, budget) == Merge(candidates[..i] + candidates[i + 1..], known, budget)
  {
    var before, after := candidates[..i], candidates[i + 1..];
    var added := Merge(before, known, budget);
    assert candidates == before + ([Some(e)] + after);
    MergeAppend(before, [Some(e)] + after, known, budget);
    MergeAppend(before, after, known, budget);
    if |added| < budget {
      if !KeyIn(KeyOf(e), known) {
        var j :| 0 <= j < i && before[j].Some? && KeyOf(before[j].value) == KeyOf(e);
        MergeCoversCandidates(before, known, budget);
        CandidateKeysAt(before);
        assert CandidateKeys(before)[j] == Some(KeyOf(e));
      } else {
        KeyInExtend(KeyOf(e), known, added);
      }
      assert ([Some(e)] + after)[1..] == after;
    }
  }

  lemma KeyNotInEither(k: Key, known: seq<Entry>, more: seq<Entry>)
    requires !KeyIn(k, known) && !KeyIn(k, more)
    ensures !KeyIn(k, known + more)
  {
    forall m | 0 <= m < |known + more| ensures KeyOf((known + more)[m]) != k {
      if m >= |known| {
        assert (known + more)[m] == more[m - |known|];
      }
    }
  }

  /** Two records with the same key: the first is kept. */
  lemma FirstOfTwoKept(budget: nat)
    requires budget > 0
    ensures Merge([Some(Entry(3, 4, "first", 1)), Some(Entry(3, 4, "second", 2))], [], budget) == [Entry(3, 4, "first", 1)]
  {
    var first, second := Entry(3, 4, "first", 1), Entry(3, 4, "second", 2);
    var both := [Some(first), Some(second)];
    assert both[1..] == [Some(second)] && [Some(second)][1..] == [];
    assert [] + [first] == [first] && KeyOf([first][0]) == KeyOf(second);
    assert Merge(both, [], budget) == [first] + Merge([Some(second)], [first], budget - 1);
  }

  /**
   * src/raincoat.c:184: the number of built-in types is the index of the first entry with a zero
   * manufacturer or device id. The table must hold such an entry.
   */
  method CountSeen(table: array<Entry>) returns (n: nat)
    requires exists i :: 0 <= i < table.Length && IsStop(table[i])
    ensures n < table.Length && IsStop(table[n])
    ensures forall i :: 0 <= i < n ==> !IsStop(table[i])
  {
    n := 0;
    while table[n].manufacturerId != 0 && table[n].deviceId != 0
      invariant n < table.Length
      invariant exists i :: n <= i < table.Length && IsStop(table[i])
      invariant forall i :: 0 <= i < n ==> !IsStop(table[i])
      decreases table.Length - n
    {
      n := n + 1;
    }
  }

  /**
   * `aknownflashtype` with `nCountSeen`: the table of known types and the number in use.
   * `inUse` is the part of the table that counts as known.
   */
  class FlashCatalog {
    const entries: array<Entry>
    var count: nat
    ghost var inUse: seq<Entry>

    ghost predicate Valid()
      reads this, entries
    {
      entries.Length == TableSize && count <= MaxFlashTypes && |inUse| == count &&
      forall i :: 0 <= i < count ==> entries[i] == inUse[i]
    }

    /**
     * The compiled-in table (src/raincoat.c:62-64): the seed list followed by all-zero entries;
     * `count` is where the built-in list stops (src/raincoat.c:184). A seed that fills every slot
     * must itself hold an entry with a zero id.
     */
    constructor (seed: seq<Entry>)
      requires |seed| <= TableSize
      requires |seed| < TableSize || exists i :: 0 <= i < |seed| && IsStop(seed[i])
      ensures Valid() && fresh(entries)
      ensures entries[..] == seed + seq(TableSize - |seed|, _ => Terminator)
      ensures inUse == entries[..count]
      ensures IsStop(entries[count]) && forall i :: 0 <= i < count ==> !IsStop(inUse[i])
    {
      var table := new Entry[TableSize](i => if 0 <= i < |seed| then seed[i] else Terminator);
      if |seed| < TableSize {
        assert IsStop(table[|seed|]);
      } else {
        var i :| 0 <= i < |seed| && IsStop(seed[i]);
        assert IsStop(table[i]);
      }
      assert table[..] == seed + seq(TableSize - |seed|, _ => Terminator);
      var n := CountSeen(table);
      entries, count := table, n;
      inUse := table[..n];
    }

    /** src/raincoat.c:367-380: whether the key of `candidate` is already among the entries in use. */
    method IsKnown(candidate: Entry) returns (found: bool)
      requires Valid()
      ensures found <==> KeyIn(KeyOf(candidate), inUse)
    {
      found := false;
      var i := 0;
      while i < count
        invariant 0 <= i <= count
        invariant found <==> exists j :: 0 <= j < i && KeyOf(inUse[j]) == KeyOf(candidate)
      {
        if candidate.manufacturerId == entries[i].manufacturerId && candidate.deviceId == entries[i].deviceId {
          found := true;
        }
        i := i + 1;
      }
    }

    /**
     * src/raincoat.c:367-426: adds `candidate` after the entries in use unless its key is
     * already among them.
     */
    method Append(candidate: Entry) returns (added: bool)
      requires Valid() && count < MaxFlashTypes
      modifies this, entries
      ensures Valid()
      ensures added <==> !KeyIn(KeyOf(candidate), old(inUse))
      ensures inUse == if added then old(inUse) + [candidate] else old(inUse)
      ensures forall i :: count <= i < TableSize ==> entries[i] == old(entries[i])
    {
      var found := IsKnown(candidate);
      added := !found;
      if added {
        entries[count] := candidate;
        count := count + 1;
        inUse := inUse + [candidate];
      }
    }

    /**
     * src/raincoat.c:309-450: appends the records of the configuration text that carry new keys,
     * in file order, while slots are left, then writes the terminator after the last
     * entry. `staleSize` is the size field of the candidate buffer before the first
     * record sets it. Returns the number of entries added and whether the capacity
     * notice was given.
     */
    method MergeConfig(text: seq<char>, staleSize: Dword) returns (fromFile: nat, full: bool)
      requires Valid()
      modifies this, entries
      ensures Valid()
      ensures inUse == old(inUse) + Merge(Records(text, 0, staleSize), old(inUse), MaxFlashTypes - old(count))
      ensures NoNewDuplicates(old(inUse), inUse[old(count)..])
      ensures entries[count] == Terminator
      ensures forall i :: count < i < TableSize ==> entries[i] == old(entries[i])
      ensures fromFile == count - old(count)
      ensures full <==> old(count) < count == MaxFlashTypes
    {
      var start := count;
      ghost var head := inUse;
      full := MergeLines(text, 0, staleSize);
      Terminate();
      fromFile := count - start;
      MergeAddsNoDuplicates(Records(text, 0, staleSize), head, MaxFlashTypes - start);
    }

    /** src/raincoat.c:450: clears the slot after the entries in use. */
    method Terminate()
      requires Valid()
      modifies entries
      ensures Valid() && entries[count] == Terminator
      ensures forall i :: 0 <= i < TableSize && i != count ==> entries[i] == old(entries[i])
    {
      entries[count] := Terminator;
    }

    /**
     * The loop at src/raincoat.c:323-442 from line offset `pos` on, with `lastSize` in the size
     * field of the candidate buffer: merges the records into the entries in use until
     * the text ends or no slot is left. `full` is the capacity notice of src/raincoat.c:389-391.
     */
    method MergeLines(text: seq<char>, pos: nat, lastSize: Dword) returns (full: bool)
      requires Valid() && pos <= |text|
      modifies this, entries
      ensures Valid() && old(count) <= count
      ensures inUse == old(inUse) + Merge(Records(text, pos, lastSize), old(inUse), MaxFlashTypes - old(count))
      ensures inUse[old(count)..] == Merge(Records(text, pos, lastSize), old(inUse), MaxFlashTypes - old(count))
      ensures forall i :: count <= i < TableSize ==> entries[i] == old(entries[i])
      ensures full <==> old(count) < count == MaxFlashTypes
    {
      var start := count;
      ghost var pending := Records(text, pos, lastSize);
      var sz, size := pos, lastSize;
      full := false;
      ghost var target := inUse + Merge(pending, inUse, MaxFlashTypes - count);
      while Live(text, sz) && count < MaxFlashTypes
        invariant Valid() && start <= count && sz <= |text|
        invariant pending == Records(text, sz, size)
        invariant Continues(inUse, pending, MaxFlashTypes - count, target)
        invariant forall i :: count <= i < TableSize ==> entries[i] == old(entries[i])
        invariant full <==> start < count == MaxFlashTypes
        decreases |text| - sz
      {
        var filled;
        sz, size, pending, filled := Absorb(text, sz, size, target);
        full := full || filled;
      }
      if !Live(text, sz) {
        RecordsEnd(text, sz, size);
      }
      ContinuesEnd(inUse, pending, MaxFlashTypes - count, target);
    }

    /**
     * One turn of the loop at src/raincoat.c:323-442: parses the record at `sz`, offers its
     * candidate to the table and moves to the next line. `filled` is whether this turn
     * took the last free slot, when src/raincoat.c:389-391 print the capacity notice.
     */
    method Absorb(text: seq<char>, sz: nat, lastSize: Dword, ghost target: seq<Entry>)
      returns (next: nat, nextSize: Dword, ghost later: seq<Option<Entry>>, filled: bool)
      requires Valid() && count < MaxFlashTypes && sz <= |text| && Live(text, sz)
      requires Continues(inUse, Records(text, sz, lastSize), MaxFlashTypes - count, target)
      modifies this, entries
      ensures Valid() && old(count) <= count && sz < next <= |text|
      ensures inUse == old(inUse) + Contribution(Record(text, sz, lastSize).candidate, old(inUse))
      ensures next == NextLine(text, Record(text, sz, lastSize).cursor)
      ensures nextSize == if Record(text, sz, lastSize).candidate.Some? then Record(text, sz, lastSize).candidate.value.sizeBytes else lastSize
      ensures later == Records(text, next, nextSize)
      ensures Continues(inUse, later, MaxFlashTypes - count, target)
      ensures forall i :: count <= i < TableSize ==> entries[i] == old(entries[i])
      ensures filled <==> old(count) < count == MaxFlashTypes
    {
      var before := count;
      var found;
      found, next, nextSize := NextRecord(text, sz, lastSize);
      later := Records(text, next, nextSize);
      Offer(found, later, target);
      filled := before < count == MaxFlashTypes;
    }

    /**
     * The append step of one turn of the loop at src/raincoat.c:323-442: `found` is the record
     * just parsed and `later` the rest of the record stream; `target` is the table the
     * whole loop ends with.
     */
    method Offer(found: Option<Entry>, ghost later: seq<Option<Entry>>, ghost target: seq<Entry>)
      requires Valid() && count < MaxFlashTypes
      requires Continues(inUse, [found] + later, MaxFlashTypes - count, target)
      modifies this, entries
      ensures Valid() && old(count) <= count
      ensures inUse == old(inUse) + Contribution(found, old(inUse))
      ensures Continues(inUse, later, MaxFlashTypes - count, target)
      ensures forall i :: count <= i < TableSize ==> entries[i] == old(entries[i])
    {
      ghost var step := Contribution(found, inUse);
      ghost var after := MaxFlashTypes - count - |step|;
      ContinuesStep(found, later, inUse, MaxFlashTypes - count, after, target);
      if found.Some? {
        var appended := Append(found.value);
      }
    }
  }

  /**
   * The loop invariant of `MergeLines`: the entries in `table`, followed by what the
   * rest of the stream still adds to them, make up `target`.
   */
  ghost predicate Continues(table: seq<Entry>, pending: seq<Option<Entry>>, budget: nat, target: seq<Entry>)
  {
    table + Merge(pending, table, budget) == target
  }

  lemma ContinuesStep(c: Option<Entry>, later: seq<Option<Entry>>, table: seq<Entry>, budget: nat, after: nat, target: seq<Entry>)
    requires budget > 0 && after == budget - |Contribution(c, table)|
    requires Continues(table, [c] + later, budget, target)
    ensures Continues(table + Contribution(c, table), later, after, target)
  {
    var step := Contribution(c, table);
    MergeStep(c, later, table, budget);
    var tail := Merge(later, table + step, budget - |step|);
    assert table + (step + tail) == (table + step) + tail;
  }

  lemma ContinuesEnd(table: seq<Entry>, pending: seq<Option<Entry>>, budget: nat, target: seq<Entry>)
    requires pending == [] || budget == 0
    requires Continues(table, pending, budget, target)
    ensures table == target
  {
    assert table + [] == table;
  }
  lemma RecordsEnd(text: seq<char>, pos: nat, lastSize: Dword)
    requires pos <= |text| && !Live(text, pos)
    ensures Records(text, pos, lastSize) == []
  {
  }

  /** What one candidate adds to the entries `known`: itself when its key is new. */
  function Contribution(c: Option<Entry>, known: seq<Entry>): seq<Entry>
  {
    if c.Some? && !KeyIn(KeyOf(c.value), known) then [c.value] else []
  }

  /** Merging a stream is merging its head, then the rest after what the head added. */
  lemma MergeStep(c: Option<Entry>, rest: seq<Option<Entry>>, known: seq<Entry>, budget: nat)
    requires budget > 0
    ensures |Contribution(c, known)| <= budget
    ensures Merge([c] + rest, known, budget) ==
      Contribution(c, known) + Merge(rest, known + Contribution(c, known), budget - |Contribution(c, known)|)
  {
    assert ([c] + rest)[1..] == rest;
    assert known + [] == known;
  }

  /**
   * Parses the record that starts at `sz` and skips to the next line: the first element
   * of the record stream at `sz`, and where the rest of the stream starts.
   */
  method NextRecord(text: seq<char>, sz: nat, lastSize: Dword) returns (found: Option<Entry>, next: nat, nextSize: Dword)
    requires sz <= |text| && Live(text, sz)
    ensures sz < next <= |text|
    ensures found == Record(text, sz, lastSize).candidate && next == NextLine(text, Record(text, sz, lastSize).cursor)
    ensures nextSize == if found.Some? then found.value.sizeBytes else lastSize
    ensures Records(text, sz, lastSize) == [found] + Records(text, next, nextSize)
  {
    var cursor;
    found, cursor := ParseRecord(text, sz, lastSize);
    next := SkipLine(text, cursor);
    nextSize := if found.Some? then found.value.sizeBytes else lastSize;
    RecordsStep(text, sz, lastSize);
  }

  lemma RecordsStep(text: seq<char>, pos: nat, lastSize: Dword)
    requires pos <= |text| && Live(text, pos)
    ensures var a := Record(text, pos, lastSize);
      Records(text, pos, lastSize) ==
        [a.candidate] + Records(text, NextLine(text, a.cursor), if a.candidate.Some? then a.candidate.value.sizeBytes else lastSize)
  {
  }
}
