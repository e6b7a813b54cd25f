/** `normalizeSensitiveKey`: the chain of regular-expression replacements, and what it does to spellings. */
module SensitiveKeys {
  import opened Common

  predicate Upper(c: char) { 'A' <= c <= 'Z' }

  predicate Lower(c: char) { 'a' <= c <= 'z' }

  predicate Digit(c: char) { '0' <= c <= '9' }

  predicate LowerOrDigit(c: char) { Lower(c) || Digit(c) }

  predicate Alphanumeric(c: char) { Upper(c) || LowerOrDigit(c) }

  function ToLower(c: char): char { if Upper(c) then (c as int + 32) as char else c }

  /** The length of the run of capitals at the front. */
  function CapitalRun(s: string): (n: nat)
    ensures n <= |s| && forall i | 0 <= i < n :: Upper(s[i])
    ensures n < |s| ==> !Upper(s[n])
  {
    if s == [] || !Upper(s[0]) then 0 else 1 + CapitalRun(s[1..])
  }

  /** A match of ([A-Z]+)([A-Z][a-z]) at the front: two or more capitals and a small letter behind. */
  predicate RunAtFront(s: string) { var n := CapitalRun(s); n >= 2 && n < |s| && Lower(s[n]) }

  /** Replacing every match of ([A-Z]+)([A-Z][a-z]) by $1_$2. The only way to match at a given place is to
      take the whole run of capitals up to its last as $1, which needs two of them and a small letter behind. */
  function SplitAcronyms(s: string): string
    decreases |s|
  {
    if s == [] then []
    else if RunAtFront(s) then
      var n := CapitalRun(s);
      s[..n - 1] + "_" + s[n - 1..n + 1] + SplitAcronyms(s[n + 1..])
    else [s[0]] + SplitAcronyms(s[1..])
  }

  /** Replacing every match of ([a-z0-9])([A-Z]) by $1_$2. */
  function SplitWords(s: string): string
  {
    if s == [] then []
    else if |s| >= 2 && LowerOrDigit(s[0]) && Upper(s[1]) then [s[0], '_', s[1]] + SplitWords(s[2..])
    else [s[0]] + SplitWords(s[1..])
  }

  function DropSeparators(s: string): string
  {
    if s != [] && !Alphanumeric(s[0]) then DropSeparators(s[1..]) else s
  }

  /** Replacing every match of [^a-zA-Z0-9]+ by one underscore. */
  function Collapse(s: string): string
    decreases |s|
  {
    if s == [] then []
    else if Alphanumeric(s[0]) then [s[0]] + Collapse(s[1..])
    else
      DropShortens(s[1..]);
      "_" + Collapse(DropSeparators(s[1..]))
  }

  lemma {:induction false} DropShortens(s: string)
    ensures |DropSeparators(s)| <= |s|
    ensures DropSeparators(s) != [] ==> Alphanumeric(DropSeparators(s)[0])
  {
    if s != [] && !Alphanumeric(s[0]) { DropShortens(s[1..]); }
  }

  function AllLower(s: string): string
  {
    seq(|s|, i requires 0 <= i < |s| => ToLower(s[i]))
  }

  function TrimFront(s: string): string { if s != [] && s[0] == '_' then TrimFront(s[1..]) else s }

  function TrimBack(s: string): string
  {
    if s != [] && s[|s| - 1] == '_' then TrimBack(s[..|s| - 1]) else s
  }

  function NormalizeSensitiveKey(key: string): string
  {
    TrimBack(TrimFront(AllLower(Collapse(SplitWords(SplitAcronyms(key))))))
  }

  // --- normal forms ------------------------------------------------------------------------------

  ghost predicate NothingDoubled(s: string)
  {
    forall i, j | 0 <= i < j < |s| && j == i + 1 :: !(s[i] == '_' && s[j] == '_')
  }

  /** Only [a-z0-9_], and no leading, trailing or doubled underscore. */
  ghost predicate NormalForm(s: string)
  {
    && (forall i | 0 <= i < |s| :: LowerOrDigit(s[i]) || s[i] == '_')
    && (s != [] ==> s[0] != '_' && s[|s| - 1] != '_')
    && NothingDoubled(s)
  }

  /** Only letters, digits and single underscores. */
  ghost predicate Collapsed(s: string)
  {
    && (forall i | 0 <= i < |s| :: Alphanumeric(s[i]) || s[i] == '_')
    && NothingDoubled(s)
  }

  lemma {:induction false} CollapseCollapses(s: string)
    ensures Collapsed(Collapse(s))
    ensures s != [] ==> Collapse(s) != [] && (Collapse(s)[0] == '_' <==> !Alphanumeric(s[0]))
    decreases |s|
  {
    if s != [] {
      if Alphanumeric(s[0]) {
        CollapseCollapses(s[1..]);
      } else {
        DropShortens(s[1..]);
        CollapseCollapses(DropSeparators(s[1..]));
      }
    }
  }

  ghost predicate LowerCollapsed(s: string)
  {
    && (forall i | 0 <= i < |s| :: LowerOrDigit(s[i]) || s[i] == '_')
    && NothingDoubled(s)
  }

  lemma LoweringKeepsForm(s: string)
    requires Collapsed(s)
    ensures LowerCollapsed(AllLower(s))
  {
  }

  lemma {:induction false} TrimmedIsNormal(low: string)
    requires LowerCollapsed(low)
    ensures NormalForm(TrimBack(TrimFront(low)))
  {
  }

  /** The result of normalising is always in normal form. */
  lemma NormalizeIsNormal(key: string)
    ensures NormalForm(NormalizeSensitiveKey(key))
  {
    var collapsed := Collapse(SplitWords(SplitAcronyms(key)));
    CollapseCollapses(SplitWords(SplitAcronyms(key)));
    LoweringKeepsForm(collapsed);
    TrimmedIsNormal(AllLower(collapsed));
  }

  lemma {:induction false} NoCapitalsNoSplit(s: string)
    requires forall i | 0 <= i < |s| :: !Upper(s[i])
    ensures SplitAcronyms(s) == s && SplitWords(s) == s
  {
    if s != [] { NoCapitalsNoSplit(s[1..]); }
  }

  lemma {:induction false} CollapsedStays(s: string)
    requires Collapsed(s)
    ensures Collapse(s) == s
  {
    if s != [] {
      CollapsedStays(s[1..]);
      if !Alphanumeric(s[0]) && |s| > 1 { assert Alphanumeric(s[1]); }
      assert s == [s[0]] + s[1..];
    }
  }

  /** A key in normal form is left alone. */
  lemma NormalFormStays(s: string)
    requires NormalForm(s)
    ensures NormalizeSensitiveKey(s) == s
  {
    hide SplitAcronyms, SplitWords, Collapse;
    NoCapitalsNoSplit(s);
    CollapsedStays(s);
    hide Collapsed, NothingDoubled;
    assert AllLower(s) == s;
  }

  lemma NormalizeIdempotent(key: string)
    ensures NormalizeSensitiveKey(NormalizeSensitiveKey(key)) == NormalizeSensitiveKey(key)
  {
    NormalizeIsNormal(key);
    NormalFormStays(NormalizeSensitiveKey(key));
  }

  // --- where the two splitting passes put underscores ----------------------------------------------

  /** A capital after a capital and before a small letter. */
  predicate AcronymEnds(prev: Option<char>, c: char, next: Option<char>)
  {
    Upper(c) && prev.Some? && Upper(prev.value) && next.Some? && Lower(next.value)
  }

  /** A capital after a small letter or digit. */
  predicate WordStarts(prev: Option<char>, c: char)
  {
    Upper(c) && prev.Some? && LowerOrDigit(prev.value)
  }

  function Peek(s: string): Option<char> { if s == [] then None else Some(s[0]) }

  /** Underscores before the capitals that end an acronym. */
  function MarkAcronyms(prev: Option<char>, s: string): string
    decreases |s|
  {
    if s == [] then []
    else (if AcronymEnds(prev, s[0], Peek(s[1..])) then "_" else "") + [s[0]] + MarkAcronyms(Some(s[0]), s[1..])
  }

  /** Underscores before the capitals that start a word. */
  function MarkWords(prev: Option<char>, s: string): string
    decreases |s|
  {
    if s == [] then []
    else (if WordStarts(prev, s[0]) then "_" else "") + [s[0]] + MarkWords(Some(s[0]), s[1..])
  }

  /** Both at once. */
  function Mark(prev: Option<char>, s: string): string
    decreases |s|
  {
    if s == [] then []
    else
      (if AcronymEnds(prev, s[0], Peek(s[1..])) || WordStarts(prev, s[0]) then "_" else "")
      + [s[0]] + Mark(Some(s[0]), s[1..])
  }

  lemma {:induction false} MarkOne(prev: Option<char>, c: char, rest: string)
    ensures MarkAcronyms(prev, [c] + rest)
         == (if AcronymEnds(prev, c, Peek(rest)) then "_" else "") + [c] + MarkAcronyms(Some(c), rest)
  {
  }

  /** A run of capitals before a small letter gets one underscore, before its last capital. */
  lemma {:induction false} MarkRun(prev: Option<char>, run: string, c: char, rest: string)
    requires run != [] && Lower(c) && AllUpper(run)
    requires |run| >= 2 || (prev.Some? && Upper(prev.value))
    ensures MarkAcronyms(prev, run + [c] + rest)
         == run[..|run| - 1] + "_" + [run[|run| - 1], c] + MarkAcronyms(Some(c), rest)
    decreases |run|
  {
    hide MarkAcronyms;
    var a, more, tail := run[0], run[1..], MarkAcronyms(Some(c), rest);
    assert run + [c] + rest == [a] + (more + [c] + rest);
    MarkOne(prev, a, more + [c] + rest);
    if more == [] {
      assert more + [c] + rest == [c] + rest;
      MarkOne(Some(a), c, rest);
      assert "_" + [a] + ([] + [c] + tail) == [] + "_" + [a, c] + tail;
    } else {
      MarkRun(Some(a), more, c, rest);
      assert Peek(more + [c] + rest) == Some(run[1]);
      var n := |run|;
      assert [] + [a] + (more[..n - 2] + "_" + [more[n - 2], c] + tail) == run[..n - 1] + "_" + [run[n - 1], c] + tail;
    }
  }

  /** What stands before a text matters only for its first character. */
  lemma {:induction false} MarkUnlessAcronym(prev: Option<char>, s: string)
    requires s != [] ==> !AcronymEnds(prev, s[0], Peek(s[1..]))
    ensures MarkAcronyms(prev, s) == MarkAcronyms(None, s)
  {
  }

  lemma SliceParts(s: string, n: nat, run: string, rest: string)
    requires 1 <= n < |s| && run == s[..n] && rest == s[n + 1..]
    ensures |run| == n && run + [s[n]] + rest == s
    ensures run[..n - 1] == s[..n - 1] && [run[n - 1], s[n]] == s[n - 1..n + 1]
  {
  }

  ghost predicate AllUpper(s: string) { forall i | 0 <= i < |s| :: Upper(s[i]) }

  lemma {:induction false} MarkRunOf(s: string, n: nat, run: string, rest: string)
    requires 2 <= n < |s| && Lower(s[n]) && run == s[..n] && rest == s[n + 1..] && AllUpper(run)
    ensures MarkAcronyms(None, s) == s[..n - 1] + "_" + s[n - 1..n + 1] + MarkAcronyms(Some(s[n]), rest)
  {
    hide MarkAcronyms, AllUpper, Lower;
    SliceParts(s, n, run, rest);
    MarkRun(None, run, s[n], rest);
  }

  lemma {:induction false} SplitAcronymsStep(s: string)
    requires s != []
    ensures var n := CapitalRun(s);
            SplitAcronyms(s) == if RunAtFront(s) then s[..n - 1] + "_" + s[n - 1..n + 1] + SplitAcronyms(s[n + 1..])
                                else [s[0]] + SplitAcronyms(s[1..])
  {
    hide CapitalRun, RunAtFront;
  }

  /** The first pass, match by match, marks exactly the ends of acronyms. */
  lemma {:induction false} SplitAcronymsMarks(s: string)
    ensures SplitAcronyms(s) == MarkAcronyms(None, s)
    decreases |s|
  {
    if s != [] {
      SplitAcronymsStep(s);
      if RunAtFront(s) {
        MatchMarks(s);
        SplitAcronymsMarks(s[CapitalRun(s) + 1..]);
      } else {
        NoMatchMarks(s);
        SplitAcronymsMarks(s[1..]);
      }
    }
  }

  lemma {:induction false} MatchMarks(s: string)
    requires RunAtFront(s)
    ensures var n := CapitalRun(s);
            MarkAcronyms(None, s) == s[..n - 1] + "_" + s[n - 1..n + 1] + MarkAcronyms(None, s[n + 1..])
  {
    var n := CapitalRun(s);
    MarkUnlessAcronym(Some(s[n]), s[n + 1..]);
    hide MarkAcronyms;
    MarkRunOf(s, n, s[..n], s[n + 1..]);
  }

  lemma {:induction false} NoMatchMarks(s: string)
    requires s != [] && !RunAtFront(s)
    ensures MarkAcronyms(None, s) == [s[0]] + MarkAcronyms(None, s[1..])
  {
  }

  lemma {:induction false} MarkWordsOne(prev: Option<char>, c: char, rest: string)
    ensures MarkWords(prev, [c] + rest) == (if WordStarts(prev, c) then "_" else "") + [c] + MarkWords(Some(c), rest)
  {
  }

  lemma {:induction false} SplitWordsStep(s: string)
    ensures SplitWords(s) == if s == [] then []
                             else if |s| >= 2 && LowerOrDigit(s[0]) && Upper(s[1]) then
                               [s[0], '_', s[1]] + SplitWords(s[2..])
                             else [s[0]] + SplitWords(s[1..])
  {
  }

  lemma {:induction false} MarkWordsTwo(c: char, d: char, rest: string)
    requires LowerOrDigit(c) && Upper(d)
    ensures MarkWords(None, [c, d] + rest) == [c, '_', d] + MarkWords(None, rest)
  {
    assert MarkWords(Some(d), rest) == MarkWords(None, rest);
    hide MarkWords;
    assert [c, d] + rest == [c] + ([d] + rest);
    MarkWordsOne(None, c, [d] + rest);
    MarkWordsOne(Some(c), d, rest);
    assert "" + [c] + ("_" + [d] + MarkWords(None, rest)) == [c, '_', d] + MarkWords(None, rest);
  }

  lemma {:induction false} MarkUnlessWord(prev: Option<char>, s: string)
    requires s != [] ==> !WordStarts(prev, s[0])
    ensures MarkWords(prev, s) == MarkWords(None, s)
  {
  }

  lemma {:induction false} SplitWordsMarks(s: string)
    ensures SplitWords(s) == MarkWords(None, s)
    decreases |s|
  {
    hide SplitWords;
    SplitWordsStep(s);
    if s != [] {
      if |s| >= 2 && LowerOrDigit(s[0]) && Upper(s[1]) {
        assert s == [s[0], s[1]] + s[2..];
        MarkWordsTwo(s[0], s[1], s[2..]);
        SplitWordsMarks(s[2..]);
      } else {
        SplitWordsMarks(s[1..]);
        MarkUnlessWord(Some(s[0]), s[1..]);
      }
    }
  }

  lemma {:induction false} MarksCompose(prev: Option<char>, s: string)
    ensures MarkWords(prev, MarkAcronyms(prev, s)) == Mark(prev, s)
    decreases |s|
  {
    if s != [] {
      var rest := MarkAcronyms(Some(s[0]), s[1..]);
      MarksCompose(Some(s[0]), s[1..]);
      if AcronymEnds(prev, s[0], Peek(s[1..])) {
        var t := "_" + [s[0]] + rest;
        assert t[1..] == [s[0]] + rest && t[1..][1..] == rest;
        assert MarkWords(prev, t) == ['_'] + MarkWords(Some('_'), t[1..]);
        assert MarkWords(Some('_'), t[1..]) == [s[0]] + MarkWords(Some(s[0]), rest);
      } else {
        assert ([s[0]] + rest)[1..] == rest;
      }
    }
  }

  /** Together the two passes mark every end of an acronym and every start of a word. */
  lemma {:induction false} SplittingMarks(s: string)
    ensures SplitWords(SplitAcronyms(s)) == Mark(None, s)
  {
    SplitAcronymsMarks(s);
    SplitWordsMarks(SplitAcronyms(s));
    MarksCompose(None, s);
  }
}
