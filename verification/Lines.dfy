/** Reading a byte file line by line. */
module Lines {
  import opened Common

  /** Just past the first LF at or after `pos`, or the end of the file: what `read_line` consumes. */
  function LineEnd(file: seq<byte>, pos: nat): (end: nat)
    requires pos <= |file|
    ensures pos <= end <= |file|
    ensures pos < |file| ==> pos < end
    ensures forall i | pos <= i < end - 1 :: file[i] != LF
    ensures end < |file| ==> end > pos && file[end - 1] == LF
    decreases |file| - pos
  {
    if pos == |file| then pos
    else if file[pos] == LF then pos + 1
    else LineEnd(file, pos + 1)
  }

  /** The line without its trailing CR and LF characters. */
  function TrimEnd(line: seq<byte>): seq<byte>
  {
    if line != [] && (line[|line| - 1] == LF || line[|line| - 1] == CR) then TrimEnd(line[..|line| - 1]) else line
  }

  /** Only CR and LF are cut off, and all of them. */
  lemma {:induction false} TrimEndCuts(line: seq<byte>)
    ensures TrimEnd(line) <= line && forall i | |TrimEnd(line)| <= i < |line| :: line[i] == 10 || line[i] == 13
    ensures TrimEnd(line) != [] ==> TrimEnd(line)[|TrimEnd(line)| - 1] !in {10, 13}
  {
    if line != [] && (line[|line| - 1] == LF || line[|line| - 1] == CR) { TrimEndCuts(line[..|line| - 1]); }
  }

  /** Every line of the file is terminated. */
  predicate Complete(file: seq<byte>) { file == [] || file[|file| - 1] == LF }

  /** Line ends are fixed by the first LF. */
  lemma {:induction false} LineEndAt(file: seq<byte>, pos: nat, end: nat)
    requires pos < end <= |file|
    requires forall i | pos <= i < end - 1 :: file[i] != LF
    requires file[end - 1] == LF || end == |file|
    ensures LineEnd(file, pos) == end
    decreases end - pos
  {
  }

  /** Appending to a file of complete lines leaves the line ends inside it where they were. */
  lemma {:induction false} LineEndStable(file: seq<byte>, more: seq<byte>, pos: nat)
    requires Complete(file) && pos < |file|
    ensures LineEnd(file + more, pos) == LineEnd(file, pos)
  {
    var end := LineEnd(file, pos);
    LineEndAt(file + more, pos, end);
  }

  /** A text without LF, written with its LF between other bytes, is read back as one line. */
  lemma {:induction false} LineInside(front: seq<byte>, text: seq<byte>, rest: seq<byte>)
    requires LF !in text
    ensures var file := front + (text + [LF]) + rest;
            && LineEnd(file, |front|) == |front| + |text| + 1
            && file[|front|..|front| + |text| + 1] == text + [LF]
  {
    var file := front + (text + [LF]) + rest;
    forall k | |front| <= k < |front| + |text| ensures file[k] != LF { assert file[k] == text[k - |front|]; }
    LineEndAt(file, |front|, |front| + |text| + 1);
  }

  lemma {:induction false} TrimLine(text: seq<byte>)
    requires text != [] && text[|text| - 1] != LF && text[|text| - 1] != CR
    ensures TrimEnd(text + [LF]) == text
  {
  }

  /** The text can be written as one line and read back from it. */
  predicate OneLine(text: seq<byte>)
  {
    text != [] && LF !in text && text[|text| - 1] != CR
  }

  /** The file with the given lines. */
  function Joined(lines: seq<seq<byte>>): seq<byte>
  {
    if lines == [] then [] else Joined(lines[..|lines| - 1]) + (lines[|lines| - 1] + [LF])
  }

  lemma NothingJoined(lines: seq<seq<byte>>)
    ensures Joined(lines[..0]) == []
  {
  }

  lemma JoinedNext(lines: seq<seq<byte>>, i: nat)
    requires i < |lines|
    ensures Joined(lines[..i + 1]) == Joined(lines[..i]) + (lines[i] + [LF])
  {
    assert lines[..i + 1][..i] == lines[..i];
  }

  lemma {:induction false} JoinedComplete(lines: seq<seq<byte>>)
    ensures Complete(Joined(lines))
  {
  }

  lemma {:induction false} JoinedPrefix(lines: seq<seq<byte>>, i: nat)
    requires i <= |lines|
    ensures Joined(lines[..i]) <= Joined(lines)
    ensures i < |lines| ==> |Joined(lines[..i])| < |Joined(lines)|
  {
    if i == |lines| {
      assert lines[..i] == lines;
    } else {
      JoinedPrefix(lines[..|lines| - 1], i);
      assert lines[..|lines| - 1][..i] == lines[..i];
    }
  }

  /** Line `i` starts after the lines before it, and is read back as it was. */
  lemma JoinedLine(lines: seq<seq<byte>>, i: nat)
    requires i < |lines| && (OneLine(lines[i]) || lines[i] == [])
    ensures var start, end := |Joined(lines[..i])|, |Joined(lines[..i + 1])|;
            && start < end <= |Joined(lines)|
            && LineEnd(Joined(lines), start) == end
            && Joined(lines)[start..end] == lines[i] + [LF]
            && TrimEnd(Joined(lines)[start..end]) == lines[i]
  {
    hide Joined;
    var front, text := Joined(lines[..i]), lines[i];
    JoinedPrefix(lines, i + 1);
    JoinedNext(lines, i);
    var rest := Joined(lines)[|Joined(lines[..i + 1])|..];
    assert Joined(lines) == front + (text + [LF]) + rest;
    LineInside(front, text, rest);
    if text != [] { TrimLine(text); }
  }
}
