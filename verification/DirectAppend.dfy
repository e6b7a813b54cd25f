/** `DirectAppendObserver`: cutting the incoming file into records through bounded windows. */
module DirectAppend {
  import opened Common
  import opened Lines

  const MAX_READ_BYTES: nat := 256 * 1024
  const MAX_INGESTION_RECORD_BYTES: nat := 64 * 1024
  const MAX_MALFORMED_PREVIEW_BYTES: nat := 256

  /** A non-empty complete line and where it starts. */
  datatype Rec = Rec(start: nat, content: seq<byte>)

  /** The records of the file from `pos` on: split at LF, drop empty lines, keep back an incomplete last one. */
  function RecordsFrom(file: seq<byte>, pos: nat): seq<Rec>
    decreases |file| - pos
  {
    if pos >= |file| then []
    else
      var end := LineEnd(file, pos);
      if file[end - 1] != LF then []
      else (if end - 1 > pos then [Rec(pos, file[pos..end - 1])] else []) + RecordsFrom(file, end)
  }

  /** Zero, or just past an LF. */
  predicate Boundary(file: seq<byte>, pos: nat)
  {
    pos == 0 || (pos <= |file| && file[pos - 1] == LF)
  }

  ghost predicate HasLf(file: seq<byte>, from: nat, to: nat)
  {
    exists i | from <= i < to && i < |file| :: file[i] == LF
  }

  /** What the observer hands to ingestion for one record: the bytes it hashed, their number, the length of
      the preview, and whether the record goes the way of oversized ones. */
  datatype Observation = Observation(
    start: nat, hashed: seq<byte>, actualByteLength: nat, previewByteLength: nat, oversized: bool)

  function Described(r: Rec): Observation
  {
    Observation(r.start, r.content, |r.content|, Min(|r.content|, MAX_MALFORMED_PREVIEW_BYTES),
                |r.content| > MAX_INGESTION_RECORD_BYTES)
  }

  function DescribedAll(rs: seq<Rec>): seq<Observation>
  {
    seq(|rs|, i requires 0 <= i < |rs| => Described(rs[i]))
  }

  // --- facts about cutting ---------------------------------------------------------------------------

  lemma {:induction false} NoLfNoRecords(file: seq<byte>, pos: nat)
    requires !HasLf(file, pos, |file|)
    ensures RecordsFrom(file, pos) == []
  {
  }

  /** A complete line at `pos` comes first; an empty one is dropped. */
  lemma FirstRecord(file: seq<byte>, pos: nat, newline: nat)
    requires pos <= newline < |file| && file[newline] == LF
    requires forall i | pos <= i < newline :: file[i] != LF
    ensures RecordsFrom(file, pos)
         == (if newline > pos then [Rec(pos, file[pos..newline])] else []) + RecordsFrom(file, newline + 1)
  {
  }

  /** A record seen without cutting: it starts at a boundary, holds no LF, and an LF follows it. */
  ghost predicate IsLine(file: seq<byte>, r: Rec)
  {
    var end := r.start + |r.content|;
    && r.content != [] && LF !in r.content && Boundary(file, r.start)
    && end < |file| && file[r.start..end] == r.content && file[end] == LF
  }

  /** The records are exactly the non-empty complete lines, in the order of the file and each once. */
  lemma {:induction false} RecordsAreTheLines(file: seq<byte>, pos: nat, r: Rec)
    requires pos <= |file| && Boundary(file, pos)
    ensures r in RecordsFrom(file, pos) <==> IsLine(file, r) && r.start >= pos
    decreases |file| - pos
  {
    if pos < |file| {
      var end := LineEnd(file, pos);
      if file[end - 1] == LF {
        var first := if end - 1 > pos then [Rec(pos, file[pos..end - 1])] else [];
        FirstRecord(file, pos, end - 1);
        hide RecordsFrom, IsLine;
        RecordsAreTheLines(file, end, r);
        LineAtOrBehind(file, pos, end, r);
        assert r in first + RecordsFrom(file, end) <==> r in first || r in RecordsFrom(file, end);
      } else if IsLine(file, r) && r.start >= pos {
        LineHasLf(file, pos, r);
      }
    } else if IsLine(file, r) && r.start >= pos {
      LineHasLf(file, pos, r);
    }
  }

  lemma LineHasLf(file: seq<byte>, pos: nat, r: Rec)
    requires IsLine(file, r) && r.start >= pos
    ensures HasLf(file, pos, |file|)
  {
  }

  lemma LineAtOrBehind(file: seq<byte>, pos: nat, end: nat, r: Rec)
    requires pos < end <= |file| && Boundary(file, pos) && file[end - 1] == LF
    requires forall i | pos <= i < end - 1 :: file[i] != LF
    ensures IsLine(file, r) && r.start >= pos
       <==> (IsLine(file, r) && r.start >= end) || (end - 1 > pos && r == Rec(pos, file[pos..end - 1]))
  {
  }

  ghost predicate StartsSorted(rs: seq<Rec>, pos: nat)
  {
    (forall i | 0 <= i < |rs| :: pos <= rs[i].start) && (forall i, j | 0 <= i < j < |rs| :: rs[i].start < rs[j].start)
  }

  lemma {:induction false} StartsIncrease(file: seq<byte>, pos: nat)
    ensures StartsSorted(RecordsFrom(file, pos), pos)
    decreases |file| - pos
  {
    if pos < |file| {
      var end := LineEnd(file, pos);
      if file[end - 1] == LF {
        StartsIncrease(file, end);
        PutInFront(if end - 1 > pos then [Rec(pos, file[pos..end - 1])] else [], RecordsFrom(file, end), pos, end);
      }
    }
  }

  lemma PutInFront(first: seq<Rec>, rest: seq<Rec>, pos: nat, end: nat)
    requires StartsSorted(rest, end) && pos < end && (first == [] || (|first| == 1 && first[0].start == pos))
    ensures StartsSorted(first + rest, pos)
  {
  }

  /** Cutting at a boundary: the records of the front, then those of the rest. */
  lemma {:induction false} RecordsSplit(file: seq<byte>, pos: nat, cut: nat)
    requires pos <= cut <= |file| && (cut == pos || file[cut - 1] == LF)
    ensures RecordsFrom(file, pos) == RecordsFrom(file[..cut], pos) + RecordsFrom(file, cut)
    decreases cut - pos
  {
    hide RecordsFrom;
    if cut > pos {
      var front := file[..cut];
      var end := LineEnd(front, pos);
      assert front[end - 1] == LF by { if end == cut { assert file[cut - 1] == LF; } }
      assert forall i | pos <= i < end - 1 :: file[i] == front[i];
      FirstRecord(front, pos, end - 1);
      FirstRecord(file, pos, end - 1);
      assert front[pos..end - 1] == file[pos..end - 1];
      RecordsSplit(file, end, cut);
    } else {
      NoBytesNoRecords(file, pos);
    }
  }

  lemma {:induction false} NoBytesNoRecords(file: seq<byte>, pos: nat)
    requires pos <= |file|
    ensures RecordsFrom(file[..pos], pos) == []
  {
  }

  lemma NothingDescribed()
    ensures DescribedAll([]) == []
  {
  }

  /** One more record has been described. */
  lemma OneMoreRecord(all: seq<Rec>, done: seq<Rec>, r: Rec, rest: seq<Rec>)
    requires all == done + ([r] + rest)
    ensures all == done + [r] + rest
    ensures DescribedAll(done + [r]) == DescribedAll(done) + [Described(r)]
  {
  }

  /** Appending bytes only appends records. */
  lemma {:induction false} RecordsGrow(file: seq<byte>, more: seq<byte>, cut: nat)
    requires cut <= |file| && Boundary(file, cut)
    ensures RecordsFrom((file + more)[..cut], 0) == RecordsFrom(file[..cut], 0)
    ensures RecordsFrom(file, 0) <= RecordsFrom(file + more, 0)
  {
    assert (file + more)[..cut] == file[..cut];
    var last := LastBoundary(file);
    RecordsSplit(file, 0, last);
    RecordsSplit(file + more, 0, last);
    assert (file + more)[..last] == file[..last];
    NoLfNoRecords(file, last);
  }

  /** The last boundary of a file. */
  function LastBoundary(file: seq<byte>): (b: nat)
    ensures b <= |file| && Boundary(file, b) && !HasLf(file, b, |file|)
  {
    if file == [] then 0
    else if file[|file| - 1] == LF then |file|
    else
      var b := LastBoundary(file[..|file| - 1]);
      assert forall i | b <= i < |file| - 1 :: file[i] == file[..|file| - 1][i];
      b
  }

  // --- the implementation ------------------------------------------------------------------------------

  /** The cursor file: absent, unreadable, or an offset. */
  datatype CursorFile = Missing | Corrupt | Offset(offset: int)

  /** `readCursor`, and the check against the size of the incoming file. */
  function ReadCursor(cursor: CursorFile): nat
  {
    if cursor.Offset? && cursor.offset >= 0 then cursor.offset else 0
  }

  function StartOffset(file: seq<byte>, cursor: CursorFile): (offset: nat)
    ensures offset <= |file|
    ensures cursor.Offset? && 0 <= cursor.offset <= |file| ==> offset == cursor.offset
    ensures cursor == Missing || cursor == Corrupt || cursor.offset < 0 || cursor.offset > |file| ==> offset == 0
  {
    if ReadCursor(cursor) <= |file| then ReadCursor(cursor) else 0
  }

  method LastIndexOf(contents: seq<byte>) returns (index: int)
    ensures index == -1 ==> LF !in contents
    ensures index != -1 ==> 0 <= index < |contents| && contents[index] == LF
    ensures index >= -1 && forall i | index < i < |contents| :: contents[i] != LF
  {
    index := |contents| - 1;
    while index >= 0 && contents[index] != LF
      invariant -1 <= index < |contents|
      invariant forall i | index < i < |contents| :: contents[i] != LF
    {
      index := index - 1;
    }
  }

  method IndexOf(contents: seq<byte>, from: nat) returns (index: int)
    requires from <= |contents|
    ensures index == -1 ==> forall i | from <= i < |contents| :: contents[i] != LF
    ensures index != -1 ==> from <= index < |contents| && contents[index] == LF
    ensures index != -1 ==> forall i | from <= i < index :: contents[i] != LF
  {
    index := from;
    while index < |contents| && contents[index] != LF
      invariant from <= index <= |contents|
      invariant forall i | from <= i < index :: contents[i] != LF
    {
      index := index + 1;
    }
    if index == |contents| { index := -1; }
  }

  /** The oversized path reads on block by block until the LF; `None` when the record is not complete yet. */
  method ScanOversizedRecord(file: seq<byte>, start: nat) returns (scan: Option<Observation>, recordEnd: nat)
    requires start <= |file|
    ensures scan.None? <==> !HasLf(file, start, |file|)
    ensures scan.Some? ==>
      && start < recordEnd <= |file| && file[recordEnd - 1] == LF
      && (forall i | start <= i < recordEnd - 1 :: file[i] != LF)
      && scan.value.start == start && scan.value.hashed == file[start..recordEnd - 1]
      && scan.value.actualByteLength == recordEnd - 1 - start
      && scan.value.previewByteLength == Min(recordEnd - 1 - start, MAX_MALFORMED_PREVIEW_BYTES)
      && scan.value.oversized
  {
    var position := start;
    var actualByteLength, previewByteLength := 0, 0;
    var hashed: seq<byte> := [];
    while position < |file|
      invariant start <= position <= |file|
      invariant forall i | start <= i < position :: file[i] != LF
      invariant hashed == file[start..position] && actualByteLength == position - start
      invariant previewByteLength == Min(actualByteLength, MAX_MALFORMED_PREVIEW_BYTES)
    {
      var block := file[position..position + Min(MAX_READ_BYTES, |file| - position)];
      var newline := IndexOf(block, 0);
      var recordBytes := if newline >= 0 then block[..newline] else block;
      assert recordBytes == file[position..position + |recordBytes|];
      forall i | position <= i < position + |recordBytes| ensures file[i] != LF {
        assert file[i] == block[i - position];
      }
      assert hashed + recordBytes == file[start..position + |recordBytes|];
      hashed := hashed + recordBytes;
      actualByteLength := actualByteLength + |recordBytes|;
      previewByteLength := previewByteLength
        + Min(|recordBytes|, MAX_MALFORMED_PREVIEW_BYTES - previewByteLength);
      if newline >= 0 {
        recordEnd := position + newline + 1;
        assert file[recordEnd - 1] == block[newline];
        return Some(Observation(start, hashed, actualByteLength, previewByteLength, true)), recordEnd;
      }
      position := position + |recordBytes|;
    }
    return None, 0;
  }

  /** `observed` describes the records between two positions. */
  ghost predicate Cut(file: seq<byte>, from: nat, to: nat, observed: seq<Observation>)
  {
    exists done :: RecordsFrom(file, from) == done + RecordsFrom(file, to) && observed == DescribedAll(done)
  }

  /** Everything a tick found: what it observed and the cursor it writes, if it writes one. It takes all complete
      lines of its window; when the window holds none, it takes the one record that fills it, if that is complete. */
  ghost predicate Tick(file: seq<byte>, offset: nat, observed: seq<Observation>, written: Option<nat>)
  {
    match written
    case None => observed == [] && !HasLf(file, offset, |file|)
    case Some(next) =>
      && offset <= next <= |file| && (if next == offset then offset == |file| else file[next - 1] == LF)
      && Cut(file, offset, next, observed)
      && !HasLf(file, next, offset + 262144)
      && (next > offset + 262144 ==> !HasLf(file, offset, next - 1))
  }

  /** The first LF found in a window of complete lines ends the line that starts there. */
  lemma LineInWindow(file: seq<byte>, offset: nat, length: nat, relative: nat, newline: int)
    requires offset + length <= |file| && relative < length && file[offset + length - 1] == LF
    requires var complete := file[offset..offset + length];
             && (newline == -1 ==> forall i | relative <= i < length :: complete[i] != LF)
             && (newline != -1 ==> relative <= newline < length && complete[newline] == LF
                                   && forall i | relative <= i < newline :: complete[i] != LF)
    ensures relative <= newline < length
    ensures file[offset..offset + length][relative..newline] == file[offset + relative..offset + newline]
    ensures RecordsFrom(file, offset + relative)
         == (if newline > relative then [Rec(offset + relative, file[offset + relative..offset + newline])] else [])
            + RecordsFrom(file, offset + newline + 1)
  {
    hide RecordsFrom;
    var complete := file[offset..offset + length];
    assert complete[length - 1] == LF;
    forall i | offset + relative <= i < offset + newline ensures file[i] != LF {
      assert file[i] == complete[i - offset];
    }
    FirstRecord(file, offset + relative, offset + newline);
    var line := complete[relative..newline];
    assert forall k | 0 <= k < |line| :: line[k] == file[offset + relative + k];
    assert line == file[offset + relative..offset + newline];
  }

  /** The next line of the window and where its LF stands, relative to the window. */
  method NextLine(file: seq<byte>, offset: nat, length: nat, relative: nat) returns (line: seq<byte>, newline: nat)
    requires offset + length <= |file| && relative < length && file[offset + length - 1] == LF
    ensures relative <= newline < length && |line| == newline - relative
    ensures RecordsFrom(file, offset + relative)
         == (if |line| > 0 then [Rec(offset + relative, line)] else []) + RecordsFrom(file, offset + newline + 1)
  {
    hide RecordsFrom;
    var complete := file[offset..offset + length];
    var index := IndexOf(complete, relative);
    LineInWindow(file, offset, length, relative, index);
    newline := index;
    line := complete[relative..newline];
  }

  /** The window of complete lines in front of the cursor, cut into observations. */
  method ObserveLines(file: seq<byte>, offset: nat, length: nat) returns (observed: seq<Observation>)
    requires offset + length <= |file| && length > 0 && file[offset + length - 1] == LF
    ensures Cut(file, offset, offset + length, observed)
  {
    hide RecordsFrom, DescribedAll;
    observed := [];
    ghost var done: seq<Rec> := [];
    NothingDescribed();
    var relativeOffset := 0;
    while relativeOffset < length
      invariant relativeOffset <= length
      invariant RecordsFrom(file, offset) == done + RecordsFrom(file, offset + relativeOffset)
      invariant observed == DescribedAll(done)
    {
      var line, newline := NextLine(file, offset, length, relativeOffset);
      if |line| > 0 {
        var sourceOffset := offset + relativeOffset;
        observed := observed + [Observation(
          sourceOffset, line, |line|, Min(|line|, MAX_MALFORMED_PREVIEW_BYTES), |line| > MAX_INGESTION_RECORD_BYTES)];
        OneMoreRecord(
          RecordsFrom(file, offset), done, Rec(sourceOffset, line), RecordsFrom(file, offset + newline + 1));
        done := done + [Rec(sourceOffset, line)];
      }
      relativeOffset := newline + 1;
    }
  }

  lemma NoLfBehind(file: seq<byte>, offset: nat, contents: seq<byte>, last: int)
    requires offset < |file| && contents == file[offset..offset + Min(|file| - offset, MAX_READ_BYTES)]
    requires -1 <= last < |contents| && forall i | last < i < |contents| :: contents[i] != LF
    ensures !HasLf(file, offset + last + 1, offset + MAX_READ_BYTES)
  {
  }

  /** A record that fills the window is longer than the window, and hence than the limit. */
  lemma OversizedTick(file: seq<byte>, offset: nat, recordEnd: nat, o: Observation)
    requires offset + MAX_READ_BYTES < recordEnd <= |file| && file[recordEnd - 1] == LF
    requires forall i | offset <= i < recordEnd - 1 :: file[i] != LF
    requires o == Described(Rec(offset, file[offset..recordEnd - 1]))
    ensures Tick(file, offset, [o], Some(recordEnd))
  {
    hide RecordsFrom;
    FirstRecord(file, offset, recordEnd - 1);
    assert DescribedAll([Rec(offset, file[offset..recordEnd - 1])]) == [o];
  }

  lemma EmptyTick(file: seq<byte>)
    ensures Tick(file, |file|, [], Some(|file|))
  {
    NothingDescribed();
    assert RecordsFrom(file, |file|) == [] + RecordsFrom(file, |file|);
  }

  /** `processSessionWhileLocked` up to the calls into ingestion: read a window at the cursor, take its
      complete lines, or scan on when a record is longer than the window. */
  method ObserveTick(file: seq<byte>, cursor: CursorFile) returns (observed: seq<Observation>, written: Option<nat>)
    ensures Tick(file, StartOffset(file, cursor), observed, written)
    ensures Boundary(file, StartOffset(file, cursor)) && written.Some? ==> Boundary(file, written.value)
  {
    hide RecordsFrom, Cut;
    var offset := StartOffset(file, cursor);
    var available := |file| - offset;
    if available == 0 {
      if offset != ReadCursor(cursor) {
        EmptyTick(file);
        return [], Some(offset);
      }
      return [], None;
    }
    var contents := file[offset..offset + Min(available, MAX_READ_BYTES)];
    var finalNewline := LastIndexOf(contents);
    NoLfBehind(file, offset, contents, finalNewline);
    if finalNewline < 0 {
      if available > MAX_INGESTION_RECORD_BYTES {
        var scan, recordEnd := ScanOversizedRecord(file, offset);
        if scan.Some? {
          OversizedTick(file, offset, recordEnd, scan.value);
          return [scan.value], Some(recordEnd);
        }
      }
      return [], None;
    }
    assert file[offset + finalNewline] == contents[finalNewline];
    observed := ObserveLines(file, offset, finalNewline + 1);
    return observed, Some(offset + finalNewline + 1);
  }
}
