/** Snake, kebab, camel and Pascal spellings of the same words, and when they normalise alike. */
module KeySpellings {
  import opened Common
  import opened SensitiveKeys

  /** A small letter followed by small letters and digits. */
  predicate Word(w: string)
  {
    |w| >= 1 && Lower(w[0]) && forall i | 0 <= i < |w| :: LowerOrDigit(w[i])
  }

  predicate Words(words: seq<string>) { forall i | 0 <= i < |words| :: Word(words[i]) }

  function ToUpper(c: char): char { if Lower(c) then (c as int - 32) as char else c }

  function Capitalize(w: string): string
    requires w != []
  {
    [ToUpper(w[0])] + w[1..]
  }

  /** Each word preceded by the separator. */
  function Prefixed(words: seq<string>, separator: char): string
  {
    if words == [] then [] else [separator] + words[0] + Prefixed(words[1..], separator)
  }

  function Joined(words: seq<string>, separator: char): string
  {
    if words == [] then [] else words[0] + Prefixed(words[1..], separator)
  }

  function Snake(words: seq<string>): string { Joined(words, '_') }

  function Kebab(words: seq<string>): string { Joined(words, '-') }

  function Pascal(words: seq<string>): string
    requires Words(words)
  {
    if words == [] then [] else Capitalize(words[0]) + Pascal(words[1..])
  }

  function Camel(words: seq<string>): string
    requires Words(words)
  {
    if words == [] then [] else words[0] + Pascal(words[1..])
  }

  /** The last character of a capitalised word. */
  function LastOf(w: string): char
    requires Word(w)
  {
    if |w| == 1 then ToUpper(w[0]) else w[|w| - 1]
  }

  /** The splitting passes can tell each word of `words` from what stands before it, given that `last` is
      the character before the first: that is a small letter or digit, or else the word goes on with a letter. */
  predicate Distinguishable(last: char, words: seq<string>)
    requires Words(words)
    decreases |words|
  {
    words == [] ||
    ((!Upper(last) || (|words[0]| >= 2 && Lower(words[0][1]))) && Distinguishable(LastOf(words[0]), words[1..]))
  }

  /** For camel and Pascal case: every word after the first can be told from the one before. */
  predicate CamelTellsWordsApart(words: seq<string>)
    requires Words(words)
  {
    words == [] || Distinguishable(words[0][|words[0]| - 1], words[1..])
  }

  predicate PascalTellsWordsApart(words: seq<string>)
    requires Words(words)
  {
    words == [] || Distinguishable(LastOf(words[0]), words[1..])
  }

  // --- keys made of letters and digits only --------------------------------------------------------

  predicate Plain(s: string) { forall i | 0 <= i < |s| :: Alphanumeric(s[i]) }

  predicate Small(s: string) { forall i | 0 <= i < |s| :: LowerOrDigit(s[i]) }

  /** One step of the marking. */
  lemma {:induction false} MarkOneStep(prev: Option<char>, c: char, rest: string)
    ensures Mark(prev, [c] + rest)
         == (if AcronymEnds(prev, c, Peek(rest)) || WordStarts(prev, c) then "_" else "") + [c] + Mark(Some(c), rest)
  {
  }

  lemma PrependKeepsForm(separator: string, c: char, rest: string)
    requires Collapsed(rest) && Alphanumeric(c) && (separator == "" || separator == "_")
    ensures Collapsed(separator + [c] + rest)
  {
    var s := separator + [c] + rest;
    assert rest == s[|separator| + 1..];
  }

  lemma NothingCollapsed()
    ensures Collapsed([])
  {
  }

  lemma {:induction false} MarkForm(prev: Option<char>, s: string)
    requires Plain(s)
    ensures Collapsed(Mark(prev, s)) && |Mark(prev, s)| >= |s|
    ensures s != [] ==> Mark(prev, s) != [] && Mark(prev, s)[|Mark(prev, s)| - 1] != '_'
    ensures s != [] && prev.None? ==> Mark(prev, s)[0] != '_'
    decreases |s|
  {
    if s == [] {
      NothingCollapsed();
    } else {
      var separator := if AcronymEnds(prev, s[0], Peek(s[1..])) || WordStarts(prev, s[0]) then "_" else "";
      assert prev.None? ==> separator == "";
      hide Collapsed, AcronymEnds, WordStarts;
      MarkForm(Some(s[0]), s[1..]);
      assert s == [s[0]] + s[1..];
      MarkOneStep(prev, s[0], s[1..]);
      hide Mark;
      PrependKeepsForm(separator, s[0], Mark(Some(s[0]), s[1..]));
    }
  }

  lemma LowerForm(s: string)
    requires Collapsed(s) && (s != [] ==> s[0] != '_' && s[|s| - 1] != '_')
    ensures TrimBack(TrimFront(AllLower(s))) == AllLower(s)
  {
  }

  /** On letters and digits, normalising is marking and lowering. */
  lemma {:induction false} NormalizeAlphanumeric(s: string)
    requires Plain(s)
    ensures NormalizeSensitiveKey(s) == AllLower(Mark(None, s))
  {
    SplittingMarks(s);
    MarkForm(None, s);
    assert s == [] ==> Mark(None, s) == [];
    hide Mark, SplitWords, SplitAcronyms, Collapse, Collapsed;
    CollapsedStays(Mark(None, s));
    LowerForm(Mark(None, s));
  }

  /** Nothing is marked inside the small letters and digits of a word. */
  lemma {:induction false} MarkTail(last: char, t: string, rest: string)
    requires Small(t)
    ensures Mark(Some(last), t + rest) == t + Mark(Some(if t == [] then last else t[|t| - 1]), rest)
    decreases |t|
  {
    hide Mark;
    if t == [] {
      assert t + rest == rest;
    } else {
      assert t + rest == [t[0]] + (t[1..] + rest);
      MarkOneStep(Some(last), t[0], t[1..] + rest);
      MarkTail(t[0], t[1..], rest);
      assert "" + [t[0]] + (t[1..] + Mark(Some(t[|t| - 1]), rest)) == t + Mark(Some(t[|t| - 1]), rest);
    }
  }

  predicate ToldApart(last: char, w: string) { !Upper(last) || (|w| >= 2 && Lower(w[1])) }

  lemma {:induction false} SeparatorBefore(last: char, w: string, words: seq<string>)
    requires Word(w) && Words(words) && Alphanumeric(last)
    ensures var first, next := ToUpper(w[0]), Peek(w[1..] + Pascal(words));
            AcronymEnds(Some(last), first, next) || WordStarts(Some(last), first) <==> ToldApart(last, w)
  {
  }

  /** A capitalised word gets its underscore exactly when it can be told from what stands before. */
  lemma {:induction false} MarkWord(last: char, w: string, words: seq<string>)
    requires Word(w) && Words(words) && Alphanumeric(last)
    ensures Mark(Some(last), Capitalize(w) + Pascal(words))
         == (if ToldApart(last, w) then "_" else "") + Capitalize(w) + Mark(Some(LastOf(w)), Pascal(words))
  {
    hide Mark, Pascal, AcronymEnds, WordStarts, Words, ToldApart;
    var first, tail, rest := ToUpper(w[0]), w[1..], Pascal(words);
    var separator := if ToldApart(last, w) then "_" else "";
    SeparatorBefore(last, w, words);
    assert Capitalize(w) + rest == [first] + (tail + rest);
    MarkOneStep(Some(last), first, tail + rest);
    MarkTail(first, tail, rest);
    var marked := Mark(Some(LastOf(w)), rest);
    assert Mark(Some(first), tail + rest) == tail + marked;
    assert separator + [first] + (tail + marked) == separator + Capitalize(w) + marked;
  }

  lemma LowerAppend(a: string, b: string)
    ensures AllLower(a + b) == AllLower(a) + AllLower(b)
  {
  }

  lemma LowerWord(w: string)
    requires Word(w)
    ensures AllLower(Capitalize(w)) == w && AllLower(w) == w
  {
  }

  /** Marked and lowered, capitalised words are the underscored ones exactly when all can be told apart;
      otherwise underscores are missing. */
  lemma {:induction false} MarkedPascal(last: char, words: seq<string>)
    requires Words(words) && Alphanumeric(last)
    ensures Distinguishable(last, words) ==> AllLower(Mark(Some(last), Pascal(words))) == Prefixed(words, '_')
    ensures !Distinguishable(last, words) ==> |AllLower(Mark(Some(last), Pascal(words)))| < |Prefixed(words, '_')|
    decreases |words|
  {
    if words != [] {
      var w, rest := words[0], words[1..];
      MarkWord(last, w, rest);
      MarkedPascal(LastOf(w), rest);
      LowerWord(w);
      var told := !Upper(last) || (|w| >= 2 && Lower(w[1]));
      var separator := if told then "_" else "";
      LowerAppend(separator + Capitalize(w), Mark(Some(LastOf(w)), Pascal(rest)));
      LowerAppend(separator, Capitalize(w));
      assert AllLower(separator) == separator;
    }
  }

  lemma {:induction false} PascalAlphanumeric(words: seq<string>)
    requires Words(words)
    ensures Plain(Pascal(words))
  {
    if words != [] { PascalAlphanumeric(words[1..]); }
  }

  /** A first word and capitalised ones after it normalise to the snake-case spelling if and only if they can be
      told apart. */
  lemma {:induction false} FirstAndPascal(first: char, w: string, words: seq<string>, last: char)
    requires Word(w) && Words(words) && (first == w[0] || first == ToUpper(w[0]))
    requires last == if |w| == 1 then first else w[|w| - 1]
    ensures NormalizeSensitiveKey([first] + w[1..] + Pascal(words)) == w + Prefixed(words, '_')
       <==> Distinguishable(last, words)
  {
    WordEndsPlain(first, w, last);
    hide *;
    PascalAlphanumeric(words);
    MarkedPascal(last, words);
    FirstWord(first, w, Pascal(words), last);
    var low := AllLower(Mark(Some(last), Pascal(words)));
    assert w + low == w + Prefixed(words, '_') ==> |low| == |Prefixed(words, '_')|;
  }

  lemma WordEndsPlain(first: char, w: string, last: char)
    requires Word(w) && (first == w[0] || first == ToUpper(w[0])) && last == if |w| == 1 then first else w[|w| - 1]
    ensures Alphanumeric(last)
  {
  }

  /** The camel-case spelling normalises to the snake-case one if and only if its words can be told apart. */
  lemma CamelNormalizes(words: seq<string>)
    requires Words(words)
    ensures NormalizeSensitiveKey(Camel(words)) == Snake(words) <==> CamelTellsWordsApart(words)
  {
    if words == [] {
      NormalizeAlphanumeric([]);
    } else {
      var w := words[0];
      hide NormalizeSensitiveKey, Pascal, Prefixed, Distinguishable;
      FirstAndPascal(w[0], w, words[1..], w[|w| - 1]);
      assert w == [w[0]] + w[1..];
    }
  }

  /** The same for Pascal case. */
  lemma {:induction false} PascalNormalizes(words: seq<string>)
    requires Words(words)
    ensures NormalizeSensitiveKey(Pascal(words)) == Snake(words) <==> PascalTellsWordsApart(words)
  {
    if words == [] {
      NormalizeAlphanumeric([]);
    } else {
      var w := words[0];
      assert Pascal(words) == [ToUpper(w[0])] + w[1..] + Pascal(words[1..]);
      hide NormalizeSensitiveKey, Pascal, Prefixed, Distinguishable;
      FirstAndPascal(ToUpper(w[0]), w, words[1..], LastOf(w));
    }
  }

  lemma LowerFirst(first: char, w: string)
    requires Word(w) && (first == w[0] || first == ToUpper(w[0]))
    ensures AllLower([first] + w[1..]) == w
    ensures Alphanumeric(first)
  {
  }

  lemma MarkFirstWord(first: char, tail: string, rest: string)
    requires Small(tail)
    ensures Mark(None, [first] + tail + rest)
         == ([first] + tail) + Mark(Some(if tail == [] then first else tail[|tail| - 1]), rest)
  {
    hide Mark;
    var marked := Mark(Some(if tail == [] then first else tail[|tail| - 1]), rest);
    assert [first] + tail + rest == [first] + (tail + rest);
    MarkOneStep(None, first, tail + rest);
    MarkTail(first, tail, rest);
    assert "" + [first] + (tail + marked) == ([first] + tail) + marked;
  }

  /** The first word, with or without its capital, comes out as it is. */
  lemma {:induction false} FirstWord(first: char, w: string, rest: string, last: char)
    requires Word(w) && (first == w[0] || first == ToUpper(w[0])) && Plain(rest)
    requires last == if |w| == 1 then first else w[|w| - 1]
    ensures NormalizeSensitiveKey([first] + w[1..] + rest) == w + AllLower(Mark(Some(last), rest))
  {
    var head := [first] + w[1..];
    FirstWordCharacters(first, w, rest);
    LowerFirst(first, w);
    assert last == if w[1..] == [] then first else w[1..][|w[1..]| - 1];
    hide *;
    MarkFirstWord(first, w[1..], rest);
    NormalizeAlphanumeric(head + rest);
    LowerAppend(head, Mark(Some(last), rest));
  }

  lemma FirstWordCharacters(first: char, w: string, rest: string)
    requires Word(w) && (first == w[0] || first == ToUpper(w[0])) && Plain(rest)
    ensures Plain([first] + w[1..] + rest) && Small(w[1..])
  {
  }

  lemma {:induction false} PrefixedForm(words: seq<string>)
    requires Words(words)
    ensures var s := Prefixed(words, '_');
            && (forall i | 0 <= i < |s| :: LowerOrDigit(s[i]) || s[i] == '_')
            && NothingDoubled(s)
            && (s != [] ==> s[0] == '_' && s[|s| - 1] != '_')
  {
    if words != [] {
      var rest := Prefixed(words[1..], '_');
      PrefixedForm(words[1..]);
      var w := words[0];
      var s := "_" + w + rest;
      forall i, j | 0 <= i < j < |s| && j == i + 1 ensures !(s[i] == '_' && s[j] == '_') {
        if i > |w| { assert s[i] == rest[i - |w| - 1] && s[j] == rest[j - |w| - 1]; }
      }
    }
  }

  /** The snake-case spelling is its own normal form. */
  lemma SnakeNormalizes(words: seq<string>)
    requires Words(words)
    ensures NormalizeSensitiveKey(Snake(words)) == Snake(words)
  {
    if words != [] {
      var rest := Prefixed(words[1..], '_');
      PrefixedForm(words[1..]);
      var s := words[0] + rest;
      forall i, j | 0 <= i < j < |s| && j == i + 1 ensures !(s[i] == '_' && s[j] == '_') {
        if i >= |words[0]| { assert s[i] == rest[i - |words[0]|] && s[j] == rest[j - |words[0]|]; }
      }
    }
    NormalFormStays(Snake(words));
  }

  lemma {:induction false} CollapseWord(w: string, rest: string)
    requires Plain(w)
    ensures Collapse(w + rest) == w + Collapse(rest)
  {
    if w == [] {
      assert w + rest == rest;
    } else {
      assert (w + rest)[1..] == w[1..] + rest;
      CollapseWord(w[1..], rest);
      assert [w[0]] + (w[1..] + Collapse(rest)) == w + Collapse(rest);
    }
  }

  lemma {:induction false} CollapseKebab(words: seq<string>)
    requires Words(words)
    ensures Collapse(Prefixed(words, '-')) == Prefixed(words, '_')
  {
    if words != [] {
      var w, rest := words[0], Prefixed(words[1..], '-');
      CollapseKebab(words[1..]);
      CollapseWord(w, rest);
      assert ("-" + w + rest)[1..] == w + rest;
      assert DropSeparators(w + rest) == w + rest;
    }
  }

  lemma {:induction false} NoCapitalsJoined(words: seq<string>, separator: char)
    requires Words(words) && !Upper(separator)
    ensures forall i | 0 <= i < |Prefixed(words, separator)| :: !Upper(Prefixed(words, separator)[i])
  {
    if words != [] { NoCapitalsJoined(words[1..], separator); }
  }

  /** The kebab-case spelling normalises to the snake-case one. */
  lemma KebabNormalizes(words: seq<string>)
    requires Words(words)
    ensures NormalizeSensitiveKey(Kebab(words)) == Snake(words)
  {
    if words != [] {
      NoCapitalsJoined(words[1..], '-');
      CollapseWord(words[0], Prefixed(words[1..], '-'));
      CollapseKebab(words[1..]);
    }
    NoCapitalsNoSplit(Kebab(words));
    assert Collapse(Kebab(words)) == Snake(words);
    SnakeNormalizes(words);
    SnakeHasNoCapitals(words);
  }

  lemma SnakeHasNoCapitals(words: seq<string>)
    requires Words(words)
    ensures SplitWords(SplitAcronyms(Snake(words))) == Snake(words) && Collapse(Snake(words)) == Snake(words)
  {
    if words != [] {
      NoCapitalsJoined(words[1..], '_');
      CollapseWord(words[0], Prefixed(words[1..], '_'));
      CollapseUnderscored(words[1..]);
    }
    NoCapitalsNoSplit(Snake(words));
  }

  lemma {:induction false} CollapseUnderscored(words: seq<string>)
    requires Words(words)
    ensures Collapse(Prefixed(words, '_')) == Prefixed(words, '_')
  {
    if words != [] {
      var w, rest := words[0], Prefixed(words[1..], '_');
      CollapseUnderscored(words[1..]);
      CollapseWord(w, rest);
      assert ("_" + w + rest)[1..] == w + rest;
      assert DropSeparators(w + rest) == w + rest;
    }
  }

  lemma {:induction false} LongWordsAreDistinguishable(last: char, words: seq<string>)
    requires Words(words) && forall i | 0 <= i < |words| :: |words[i]| >= 2
    requires !Upper(last)
    ensures Distinguishable(last, words)
    decreases |words|
  {
    if words != [] { LongWordsAreDistinguishable(LastOf(words[0]), words[1..]); }
  }

  /** Words of at least two characters: all four spellings have one normal form. */
  lemma {:induction false} SpellingsAgree(words: seq<string>)
    requires Words(words) && forall i | 0 <= i < |words| :: |words[i]| >= 2
    ensures NormalizeSensitiveKey(Camel(words)) == NormalizeSensitiveKey(Pascal(words)) == Snake(words)
    ensures NormalizeSensitiveKey(Snake(words)) == NormalizeSensitiveKey(Kebab(words)) == Snake(words)
  {
    if words != [] { LongWordsAreDistinguishable(LastOf(words[0]), words[1..]); }
    CamelNormalizes(words);
    PascalNormalizes(words);
    SnakeNormalizes(words);
    KebabNormalizes(words);
  }

  /** Two one-letter words in a row are lost in camel case: xYZ does not become x_y_z. */
  lemma OneLetterWordsMerge()
    ensures Words(["x", "y", "z"]) && !CamelTellsWordsApart(["x", "y", "z"])
    ensures NormalizeSensitiveKey(Camel(["x", "y", "z"])) != Snake(["x", "y", "z"])
  {
    var words := ["x", "y", "z"];
    assert words[1..] == ["y", "z"] && words[1..][1..] == ["z"];
    assert Distinguishable('x', ["y", "z"]) == Distinguishable('Y', ["z"]);
    CamelNormalizes(words);
  }

  // --- the spelling of header names ------------------------------------------------------------------------

  /** Each word capitalised and preceded by a hyphen. */
  function Hyphenated(words: seq<string>): string
    requires Words(words)
  {
    if words == [] then [] else "-" + Capitalize(words[0]) + Hyphenated(words[1..])
  }

  function Train(words: seq<string>): string
    requires Words(words)
  {
    if words == [] then [] else Capitalize(words[0]) + Hyphenated(words[1..])
  }

  /** Behind a hyphen nothing is marked. */
  lemma MarkAfterHyphen(first: char, tail: string, rest: string)
    requires Small(tail)
    ensures Mark(Some('-'), [first] + tail + rest)
         == [first] + tail + Mark(Some(if tail == [] then first else tail[|tail| - 1]), rest)
  {
    assert !AcronymEnds(Some('-'), first, Peek(tail + rest)) && !WordStarts(Some('-'), first);
    hide Mark, AcronymEnds, WordStarts;
    assert [first] + tail + rest == [first] + (tail + rest);
    MarkOneStep(Some('-'), first, tail + rest);
    MarkTail(first, tail, rest);
    var marked := Mark(Some(if tail == [] then first else tail[|tail| - 1]), rest);
    assert "" + [first] + (tail + marked) == [first] + tail + marked;
  }

  lemma {:induction false} MarkHyphenated(last: char, words: seq<string>)
    requires Words(words)
    ensures Mark(Some(last), Hyphenated(words)) == Hyphenated(words)
    decreases |words|
  {
    if words != [] {
      var w, rest := words[0], Hyphenated(words[1..]);
      var first, tail := ToUpper(w[0]), w[1..];
      var end := if tail == [] then first else tail[|tail| - 1];
      MarkHyphenated(end, words[1..]);
      assert Hyphenated(words) == ['-'] + ([first] + tail + rest);
      assert Small(tail) && !Upper('-');
      hide Mark;
      MarkOneStep(Some(last), '-', [first] + tail + rest);
      MarkAfterHyphen(first, tail, rest);
      assert "" + ['-'] + ([first] + tail + rest) == ['-'] + ([first] + tail + rest);
    }
  }

  lemma {:induction false} CollapseHyphenated(words: seq<string>)
    requires Words(words)
    ensures AllLower(Collapse(Hyphenated(words))) == Prefixed(words, '_')
  {
    if words != [] {
      var w, rest := words[0], Hyphenated(words[1..]);
      CollapseHyphenated(words[1..]);
      CapitalizedPlain(w);
      CollapseWord(Capitalize(w), rest);
      assert ("-" + Capitalize(w) + rest)[1..] == Capitalize(w) + rest;
      assert DropSeparators(Capitalize(w) + rest) == Capitalize(w) + rest;
      hide Collapse, DropSeparators;
      LowerWord(w);
      LowerAppend("_", Capitalize(w) + Collapse(rest));
      LowerAppend(Capitalize(w), Collapse(rest));
      assert AllLower("_") == "_";
      assert "_" + (w + Prefixed(words[1..], '_')) == Prefixed(words, '_');
    }
  }

  lemma CapitalizedPlain(w: string)
    requires Word(w)
    ensures Plain(Capitalize(w))
  {
  }

  /** The spelling of header names, as in Set-Cookie, normalises to the snake-case one. */
  lemma TrainNormalizes(words: seq<string>)
    requires Words(words)
    ensures NormalizeSensitiveKey(Train(words)) == Snake(words)
  {
    SplittingMarks(Train(words));
    var marked := Mark(None, Train(words));
    if words != [] {
      var w, rest := words[0], Hyphenated(words[1..]);
      CapitalizedPlain(w);
      assert Small(w[1..]);
      assert Capitalize(w) == [ToUpper(w[0])] + w[1..];
      hide Mark, Collapse, AllLower;
      MarkFirstWord(ToUpper(w[0]), w[1..], rest);
      MarkHyphenated(if w[1..] == [] then ToUpper(w[0]) else w[1..][|w[1..]| - 1], words[1..]);
      assert marked == Train(words);
      CollapseWord(Capitalize(w), rest);
      CollapseHyphenated(words[1..]);
      LowerAppend(Capitalize(w), Collapse(rest));
      LowerWord(w);
    }
    assert AllLower(Collapse(marked)) == Snake(words);
    SnakeNormalizes(words);
    SnakeHasNoCapitals(words);
    LowSnake(words);
  }

  lemma LowSnake(words: seq<string>)
    requires Words(words)
    ensures AllLower(Snake(words)) == Snake(words)
  {
    if words != [] {
      NoCapitalsJoined(words[1..], '_');
    }
  }
}
