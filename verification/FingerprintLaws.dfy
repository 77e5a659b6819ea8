/** What the normalisation passes replace and what they leave, by references of their own: a message
    word by word, a trace line number by number, a trace line by line. */
module FingerprintLaws {
  import opened Prelude
  import opened Fingerprint
  import opened FingerprintTheorems

  // ----- Long numbers: every maximal run of word characters for itself -----

  predicate AllWord(cs: Chars, s: string) {
    forall c | c in s :: cs.isWord(c)
  }

  predicate AllDigits(cs: Chars, s: string) {
    forall c | c in s :: cs.isDigit(c)
  }

  lemma {:induction false} DigitRunStops(cs: Chars, a: string, c: char, b: string)
    requires !cs.isDigit(c)
    ensures DigitRun(cs, a + [c] + b) == DigitRun(cs, a)
  {
    if a != "" {
      assert (a + [c] + b)[1..] == a[1..] + [c] + b;
      DigitRunStops(cs, a[1..], c, b);
    }
  }

  lemma Regroup(a: string, b: string, c: string, d: string)
    ensures a + (b + c + d) == a + b + c + d
  {
  }

  lemma LongStartsAlike(cs: Chars, a: string, c: char, b: string)
    requires cs.Sound() && !cs.isWord(c)
    ensures DigitRun(cs, a + [c] + b) == DigitRun(cs, a) && (StartsLong(cs, a + [c] + b) <==> StartsLong(cs, a))
  {
    DigitRunStops(cs, a, c, b);
    var s, n := a + [c] + b, DigitRun(cs, a);
    assert n < |a| ==> s[n] == a[n];
    assert n == |a| ==> s[n] == c;
  }

  /** A character outside words parts the text: both sides are substituted for themselves. */
  lemma {:induction false} NumbersSplit(cs: Chars, a: string, c: char, b: string, afterWord: bool)
    requires cs.Sound() && !cs.isWord(c)
    ensures SubLongNumbers(cs, a + [c] + b, afterWord)
            == SubLongNumbers(cs, a, afterWord) + [c] + SubLongNumbers(cs, b, false)
    decreases |a|
  {
    var s, n := a + [c] + b, DigitRun(cs, a);
    LongStartsAlike(cs, a, c, b);
    hide StartsLong, DigitRun;
    var after := SubLongNumbers(cs, b, false);
    if a == "" {
      assert s[1..] == b;
    } else if !afterWord && StartsLong(cs, a) {
      assert s[n..] == a[n..] + [c] + b;
      NumbersSplit(cs, a[n..], c, b, true);
      var x := SubLongNumbers(cs, a[n..], true);
      assert SubLongNumbers(cs, a, afterWord) == "<number>" + x;
      assert SubLongNumbers(cs, s, afterWord) == "<number>" + (x + [c] + after);
      hide SubLongNumbers;
      Regroup("<number>", x, [c], after);
    } else {
      assert s[1..] == a[1..] + [c] + b;
      NumbersSplit(cs, a[1..], c, b, cs.isWord(a[0]));
      var x := SubLongNumbers(cs, a[1..], cs.isWord(a[0]));
      assert SubLongNumbers(cs, a, afterWord) == [a[0]] + x;
      assert SubLongNumbers(cs, s, afterWord) == [a[0]] + (x + [c] + after);
      hide SubLongNumbers;
      Regroup([a[0]], x, [c], after);
    }
  }

  lemma {:induction false} WordIsCopiedAfterWord(cs: Chars, word: string)
    requires AllWord(cs, word)
    ensures SubLongNumbers(cs, word, true) == word
  {
    if word != "" {
      WordIsCopiedAfterWord(cs, word[1..]);
    }
  }

  /** A whole run of word characters becomes the placeholder exactly when it is five or more digits. */
  lemma NumberIsReplacedExactlyWhenLong(cs: Chars, word: string)
    requires cs.Sound() && AllWord(cs, word)
    ensures SubLongNumbers(cs, word, false)
            == if |word| >= 5 && AllDigits(cs, word) then "<number>" else word
  {
    var n := DigitRun(cs, word);
    if word != "" {
      assert n < |word| ==> cs.isWord(word[n]);
      assert StartsLong(cs, word) <==> |word| >= 5 && AllDigits(cs, word);
      if StartsLong(cs, word) {
        assert word[n..] == "" && "<number>" + "" == "<number>";
      } else {
        WordIsCopiedAfterWord(cs, word[1..]);
      }
    }
  }

  // ----- White space: the words of a text -----

  /** `str.split()`. */
  function Words(cs: Chars, s: string): seq<string>
    decreases |s|
  {
    if s == "" then []
    else if cs.isSpace(s[0]) then Words(cs, s[1..])
    else
      var k := IndexOf(s, cs.isSpace);
      [s[..k]] + Words(cs, s[k..])
  }

  predicate Solid(cs: Chars, s: string) {
    s != "" && forall c | c in s :: !cs.isSpace(c)
  }

  lemma {:induction false} WordsSkipSpace(cs: Chars, s: string)
    ensures Words(cs, StripLeft(cs, s)) == Words(cs, s)
  {
    if s != "" && cs.isSpace(s[0]) {
      WordsSkipSpace(cs, s[1..]);
    }
  }

  lemma {:induction false} IndexAfterSolid(cs: Chars, word: string, rest: string)
    requires (forall c | c in word :: !cs.isSpace(c)) && (rest != "" ==> cs.isSpace(rest[0]))
    ensures IndexOf(word + rest, cs.isSpace) == |word|
  {
    if word == "" {
      assert word + rest == rest;
    } else {
      assert (word + rest)[1..] == word[1..] + rest;
      IndexAfterSolid(cs, word[1..], rest);
    }
  }

  lemma FirstWord(cs: Chars, word: string, rest: string)
    requires Solid(cs, word) && (rest != "" ==> cs.isSpace(rest[0]))
    ensures Words(cs, word + rest) == [word] + Words(cs, rest)
  {
    IndexAfterSolid(cs, word, rest);
    assert (word + rest)[..|word|] == word && (word + rest)[|word|..] == rest;
  }

  lemma {:induction false} CollapseKeepsWord(cs: Chars, word: string, rest: string)
    requires forall c | c in word :: !cs.isSpace(c)
    ensures Collapse(cs, word + rest) == word + Collapse(cs, rest)
  {
    if word == "" {
      assert word + rest == rest;
    } else {
      assert (word + rest)[1..] == word[1..] + rest;
      CollapseKeepsWord(cs, word[1..], rest);
      assert [word[0]] + (word[1..] + Collapse(cs, rest)) == word + Collapse(cs, rest);
    }
  }

  lemma {:induction false} StripRightBehind(cs: Chars, a: string, b: string)
    requires b != "" && !cs.isSpace(b[0])
    ensures StripRight(cs, a + b) == a + StripRight(cs, b)
    decreases |b|
  {
    if cs.isSpace(b[|b| - 1]) {
      assert (a + b)[..|a + b| - 1] == a + b[..|b| - 1];
      StripRightBehind(cs, a, b[..|b| - 1]);
    }
  }

  lemma SolidStays(cs: Chars, word: string)
    requires Solid(cs, word)
    ensures StripRight(cs, word) == word && StripRight(cs, word + " ") == (if cs.isSpace(' ') then word else word + " ")
  {
    assert (word + " ")[..|word + " "| - 1] == word;
  }

  /** A text that starts with a word: the word, and what follows the white space behind it. */
  lemma SplitFirstWord(cs: Chars, s: string) returns (word: string, rest: string, next: string)
    requires cs.Sound() && s != "" && !cs.isSpace(s[0])
    ensures s == word + rest && Solid(cs, word) && |next| < |s|
    ensures rest == "" || cs.isSpace(rest[0])
    ensures next == if rest == "" then "" else StripLeft(cs, rest[1..])
    ensures next != "" ==> !cs.isSpace(next[0])
    ensures Words(cs, s) == [word] + Words(cs, next) && (next == "" ==> Words(cs, s) == [word])
    ensures next != "" ==> Collapse(cs, s) == word + " " + Collapse(cs, next) && Words(cs, next) != []
    ensures next == "" ==> Collapse(cs, s) == word || Collapse(cs, s) == word + " "
  {
    word, rest := FirstCut(cs, s);
    next := if rest == "" then "" else StripLeft(cs, rest[1..]);
    AfterWord(cs, rest, next);
    FirstWord(cs, word, rest);
    CollapseKeepsWord(cs, word, rest);
    hide *;
    assert word + "" == word && word + (" " + Collapse(cs, next)) == word + " " + Collapse(cs, next);
  }

  lemma FirstCut(cs: Chars, s: string) returns (word: string, rest: string)
    requires s != "" && !cs.isSpace(s[0])
    ensures s == word + rest && Solid(cs, word) && (rest == "" || cs.isSpace(rest[0]))
  {
    var k := IndexOf(s, cs.isSpace);
    word, rest := s[..k], s[k..];
    assert forall i | 0 <= i < k :: word[i] == s[i] && !cs.isSpace(s[i]);
  }

  lemma AfterWord(cs: Chars, rest: string, next: string)
    requires rest != "" ==> cs.isSpace(rest[0])
    requires next == if rest == "" then "" else StripLeft(cs, rest[1..])
    ensures |next| <= |rest| && (next != "" ==> |next| < |rest| && !cs.isSpace(next[0]) && Words(cs, next) != [])
    ensures Words(cs, rest) == Words(cs, next) && (next == "" ==> Words(cs, next) == [])
    ensures next != "" ==> Collapse(cs, rest) == " " + Collapse(cs, next)
    ensures next == "" ==> Collapse(cs, rest) == "" || Collapse(cs, rest) == " "
  {
    if rest != "" {
      StripLeftShrinks(cs, rest[1..]);
      StripLeftLeads(cs, rest[1..]);
      WordsSkipSpace(cs, rest[1..]);
      assert Collapse(cs, rest) == " " + Collapse(cs, next);
      if next == "" {
        assert Collapse(cs, next) == "" && " " + "" == " ";
      } else {
        NextHasWords(cs, next);
      }
    }
  }

  lemma NextHasWords(cs: Chars, s: string)
    requires s != "" && !cs.isSpace(s[0])
    ensures Words(cs, s) != []
  {
  }

  /** Collapsing and trimming a text joins its words by single blanks. */
  lemma {:induction false} CollapsedTextIsItsWords(cs: Chars, s: string)
    requires cs.Sound() && (s != "" ==> !cs.isSpace(s[0]))
    ensures StripRight(cs, Collapse(cs, s)) == Join(' ', Words(cs, s))
    decreases |s|
  {
    if s != "" {
      hide Words, Collapse, IndexOf, StripLeft, StripRight;
      var word, rest, next := SplitFirstWord(cs, s);
      SolidStays(cs, word);
      if next == "" {
        assert Join(' ', [word]) == word;
      } else {
        CollapsedTextIsItsWords(cs, next);
        CollapseSingleSpaces(cs, next);
        StripRightBehind(cs, word + " ", Collapse(cs, next));
        JoinMore(word, Words(cs, next));
      }
    } else {
      assert Collapse(cs, s) == "" && Words(cs, s) == [];
    }
  }

  lemma JoinMore(word: string, words: seq<string>)
    ensures words != [] ==> Join(' ', [word] + words) == word + " " + Join(' ', words)
  {
    assert ([word] + words)[1..] == words;
  }

  lemma TrimmedTextIsItsWords(cs: Chars, s: string)
    requires cs.Sound()
    ensures Strip(cs, Collapse(cs, s)) == Join(' ', Words(cs, s))
  {
    if s != "" && cs.isSpace(s[0]) {
      var next := StripLeft(cs, s[1..]);
      StripLeftLeads(cs, s[1..]);
      WordsSkipSpace(cs, s[1..]);
      CollapsedTextIsItsWords(cs, next);
      if next != "" {
        CollapseSingleSpaces(cs, next);
      }
      assert Collapse(cs, s)[1..] == Collapse(cs, next);
    } else {
      CollapsedTextIsItsWords(cs, s);
      if s != "" {
        CollapseSingleSpaces(cs, s);
      }
    }
  }

  function Numbered(cs: Chars, words: seq<string>): seq<string> {
    if words == [] then [] else [SubLongNumbers(cs, words[0], false)] + Numbered(cs, words[1..])
  }

  lemma {:induction false} NumberedStaysSolid(cs: Chars, word: string, afterWord: bool)
    requires cs.Sound() && Solid(cs, word)
    ensures Solid(cs, SubLongNumbers(cs, word, afterWord))
    decreases |word|
  {
    assert forall c | c in "<number>" :: !cs.isSpace(c);
    if !afterWord && StartsLong(cs, word) {
      var rest := word[DigitRun(cs, word)..];
      if rest != "" {
        NumberedStaysSolid(cs, rest, true);
      }
    } else if |word| > 1 {
      NumberedStaysSolid(cs, word[1..], cs.isWord(word[0]));
    }
  }

  /** Substituting long numbers works word by word. */
  lemma {:induction false} NumbersWordByWord(cs: Chars, s: string)
    requires cs.Sound()
    ensures Words(cs, SubLongNumbers(cs, s, false)) == Numbered(cs, Words(cs, s))
    decreases |s|
  {
    hide SubLongNumbers;
    var k := IndexOf(s, cs.isSpace);
    var word, rest := s[..k], s[k..];
    assert s == word + rest;
    if rest == "" {
      assert word == s;
      WordThenRest(cs, word, "", "");
      assert SubLongNumbers(cs, s, false) + "" == SubLongNumbers(cs, s, false) && s + "" == s;
    } else {
      NumbersWordByWord(cs, rest[1..]);
      hide Words, Numbered, IndexOf;
      OneWordMore(cs, word, rest[0], rest[1..]);
      assert s == word + [rest[0]] + rest[1..];
    }
  }

  lemma OneWordMore(cs: Chars, word: string, c: char, after: string)
    requires cs.Sound() && cs.isSpace(c) && (forall x | x in word :: !cs.isSpace(x))
    requires Words(cs, SubLongNumbers(cs, after, false)) == Numbered(cs, Words(cs, after))
    ensures Words(cs, SubLongNumbers(cs, word + [c] + after, false)) == Numbered(cs, Words(cs, word + [c] + after))
  {
    hide Words, Numbered, SubLongNumbers;
    var first, numbered := SubLongNumbers(cs, word, false), SubLongNumbers(cs, after, false);
    NumbersSplit(cs, word, c, after, false);
    SpaceBefore(cs, c, after);
    SpaceBefore(cs, c, numbered);
    WordThenRest(cs, word, [c] + after, [c] + numbered);
    assert word + [c] + after == word + ([c] + after) && first + [c] + numbered == first + ([c] + numbered);
  }

  lemma SpaceBefore(cs: Chars, c: char, s: string)
    requires cs.isSpace(c)
    ensures Words(cs, [c] + s) == Words(cs, s)
  {
    assert ([c] + s)[1..] == s;
  }

  lemma WordThenRest(cs: Chars, word: string, rest: string, tail: string)
    requires cs.Sound() && (forall c | c in word :: !cs.isSpace(c))
    requires (rest != "" ==> cs.isSpace(rest[0])) && (tail != "" ==> cs.isSpace(tail[0]))
    requires Words(cs, tail) == Numbered(cs, Words(cs, rest))
    ensures Words(cs, SubLongNumbers(cs, word, false) + tail) == Numbered(cs, Words(cs, word + rest))
  {
    if word == "" {
      assert word + rest == rest && SubLongNumbers(cs, word, false) + tail == tail;
    } else {
      NumberedStaysSolid(cs, word, false);
      FirstWord(cs, word, rest);
      FirstWord(cs, SubLongNumbers(cs, word, false), tail);
      assert ([word] + Words(cs, rest))[1..] == Words(cs, rest);
    }
  }

  /** After the earlier passes a message is normalised word by word: words are joined by single
      blanks, and within a word only long numbers are replaced. */
  lemma MessageIsNormalizedWordByWord(rules: Rules, text: string)
    requires rules.chars.Sound()
    ensures NormalizeCommon(rules, text)
            == Join(' ', Numbered(rules.chars, Words(rules.chars, rules.earlier(Strip(rules.chars, text)))))
  {
    var earlier := rules.earlier(Strip(rules.chars, text));
    TrimmedTextIsItsWords(rules.chars, SubLongNumbers(rules.chars, earlier, false));
    NumbersWordByWord(rules.chars, earlier);
  }

  // ----- Trace lines -----

  /** Up to its first colon a text is left alone; a number right after the colon is replaced. */
  lemma {:induction false} ColonNumbersExactly(cs: Chars, a: string, rest: string)
    requires ':' !in a
    ensures SubColonNumbers(cs, a + ":" + rest)
            == a + (if DigitRun(cs, rest) > 0 then ":<line>" else ":") + SubColonNumbers(cs, rest[DigitRun(cs, rest)..])
  {
    var s := a + ":" + rest;
    if a == "" {
      assert s[1..] == rest;
    } else {
      assert s[1..] == a[1..] + ":" + rest;
      hide DigitRun;
      ColonNumbersExactly(cs, a[1..], rest);
      var colon := if DigitRun(cs, rest) > 0 then ":<line>" else ":";
      var tail := SubColonNumbers(cs, rest[DigitRun(cs, rest)..]);
      assert SubColonNumbers(cs, s) == [a[0]] + (a[1..] + colon + tail);
      hide SubColonNumbers;
      Regroup([a[0]], a[1..], colon, tail);
      assert [a[0]] + a[1..] == a;
    }
  }

  lemma {:induction false} NoColonStays(cs: Chars, s: string)
    requires ':' !in s
    ensures SubColonNumbers(cs, s) == s
  {
    if s != "" {
      NoColonStays(cs, s[1..]);
    }
  }

  predicate NoFrameBefore(cs: Chars, s: string, k: nat)
    requires k <= |s|
  {
    forall i | 0 <= i < k :: MatchFrame(cs, s[i..]).None?
  }

  /** Up to its first frame a line is left alone. */
  lemma {:induction false} FramesExactly(cs: Chars, s: string, k: nat)
    requires k <= |s| && NoFrameBefore(cs, s, k)
    ensures SubFrames(cs, s) == s[..k] + SubFrames(cs, s[k..])
  {
    hide MatchFrame;
    if k == 0 {
      assert s[0..] == s && s[..0] == "";
    } else {
      assert MatchFrame(cs, s[0..]).None? && s[0..] == s;
      forall i | 0 <= i < k - 1 ensures MatchFrame(cs, s[1..][i..]).None? {
        assert s[1..][i..] == s[i + 1..];
      }
      FramesExactly(cs, s[1..], k - 1);
      assert s[1..][k - 1..] == s[k..] && [s[0]] + s[1..][..k - 1] == s[..k];
      assert SubFrames(cs, s) == [s[0]] + (s[1..][..k - 1] + SubFrames(cs, s[k..]));
      hide SubFrames;
      ConcatAssociative([s[0]], s[1..][..k - 1], SubFrames(cs, s[k..]));
    }
  }

  /** A line without frames comes back as it is. */
  lemma FramelessStays(cs: Chars, s: string)
    requires NoFrameBefore(cs, s, |s|)
    ensures SubFrames(cs, s) == s
  {
    FramesExactly(cs, s, |s|);
    assert s[|s|..] == "" && s[..|s|] == s && s + "" == s;
  }

  /** In a frame only the number is replaced, and the text behind it follows the same rule. */
  lemma FrameThenRest(cs: Chars, path: string, number: string, name: string, rest: string)
    requires cs.Sound() && FrameParts(cs, path, number, name) && (rest != "" ==> rest[0] == '\n')
    ensures SubFrames(cs, FrameLine(path, number, name) + rest)
            == FrameLine(path, "<line>", name) + SubFrames(cs, rest)
  {
    hide MatchFrame;
    var line, from := FrameLine(path, number, name), 14 + |path|;
    var s := line + rest;
    FrameIsMatched(cs, path, number, name, rest);
    assert SubFrames(cs, s) == s[..from] + "<line>" + s[from + |number|..|line|] + SubFrames(cs, s[|line|..]);
    SlicesBeforeRest(path, number, name, rest);
    NewNumber(path, name);
    hide SubFrames, FrameLine;
  }

  lemma NewNumber(path: string, name: string)
    ensures "File \"" + path + "\", line " + "<line>" + (", in " + name) == FrameLine(path, "<line>", name)
  {
  }

  lemma SlicesBeforeRest(path: string, number: string, name: string, rest: string)
    ensures
      var line, from := FrameLine(path, number, name), 14 + |path|;
      && |line| == from + |number| + 5 + |name|
      && (line + rest)[..from] == "File \"" + path + "\", line "
      && (line + rest)[from + |number|..|line|] == ", in " + name && (line + rest)[|line|..] == rest
  {
    FrameSlices(path, number, name);
    hide FrameLine;
    var line, from := FrameLine(path, number, name), 14 + |path|;
    assert (line + rest)[..from] == line[..from];
    assert (line + rest)[from + |number|..|line|] == line[from + |number|..];
  }

  /** What is taken for a frame is one: quoted path, a whole number, and a name up to the end of line. */
  lemma MatchedFrameIsOne(cs: Chars, s: string) returns (path: string, number: string, name: string)
    requires MatchFrame(cs, s).Some?
    ensures
      var m := MatchFrame(cs, s).value;
      && FrameParts(cs, path, number, name) && s[m.numberFrom..m.numberTo] == number
      && s == FrameLine(path, number, name) + s[m.end..] && (m.end < |s| ==> s[m.end] == '\n')
  {
    var m := MatchFrame(cs, s).value;
    var p := MatchedPath(cs, s);
    MatchedName(cs, s, 14 + p);
    hide MatchFrame, MatchNumberAndName, IndexOf, DigitRun;
    path, number, name := s[6..6 + p], s[m.numberFrom..m.numberTo], s[m.numberTo + 5..m.end];
    Pieces(s, p, m, path, number, name);
  }

  lemma MatchedPath(cs: Chars, s: string) returns (p: nat)
    requires MatchFrame(cs, s).Some?
    ensures p > 0 && 14 + p <= |s| && MatchNumberAndName(cs, s, 14 + p) == MatchFrame(cs, s)
    ensures s[..6] == "File \"" && '\"' !in s[6..6 + p] && s[6 + p..14 + p] == "\", line "
  {
    hide MatchNumberAndName, IndexOf;
    p := IndexOf(s[6..], Is('\"'));
    assert forall i | 0 <= i < p :: s[6 + i] == s[6..][i] && !Is('\"')(s[6..][i]);
    assert s[6 + p..][..8] == s[6 + p..14 + p];
  }

  lemma MatchedName(cs: Chars, s: string, from: nat)
    requires from <= |s| && MatchNumberAndName(cs, s, from).Some?
    ensures
      var m := MatchNumberAndName(cs, s, from).value;
      && m.numberFrom == from < m.numberTo && m.numberTo + 5 < m.end <= |s|
      && (forall c | c in s[from..m.numberTo] :: cs.isDigit(c)) && s[m.numberTo..m.numberTo + 5] == ", in "
      && '\n' !in s[m.numberTo + 5..m.end] && (m.end < |s| ==> s[m.end] == '\n')
  {
    hide IndexOf, DigitRun;
    var m := MatchNumberAndName(cs, s, from).value;
    assert forall i | from <= i < m.numberTo :: s[i] == s[from..][i - from];
    assert s[m.numberTo..][..5] == s[m.numberTo..m.numberTo + 5];
    var tail := s[m.numberTo + 5..];
    assert forall i | 0 <= i < m.end - m.numberTo - 5 :: s[m.numberTo + 5 + i] == tail[i] && !Is('\n')(tail[i]);
    assert m.end < |s| ==> s[m.end] == tail[m.end - m.numberTo - 5] && Is('\n')(s[m.end]);
  }

  lemma Extends(s: string, i: nat, j: nat, piece: string)
    requires i <= j <= |s| && s[i..j] == piece
    ensures s[..j] == s[..i] + piece
  {
  }

  lemma WholeText(s: string)
    ensures s[..|s|] == s
  {
  }

  lemma Pieces(s: string, p: nat, m: FrameMatch, path: string, number: string, name: string)
    requires 14 + p == m.numberFrom < m.numberTo && m.numberTo + 5 <= m.end <= |s|
    requires s[..6] == "File \"" && s[6..6 + p] == path && s[6 + p..14 + p] == "\", line "
    requires s[m.numberFrom..m.numberTo] == number && s[m.numberTo..m.numberTo + 5] == ", in "
    requires s[m.numberTo + 5..m.end] == name
    ensures s == FrameLine(path, number, name) + s[m.end..]
  {
    UpToNumber(s, p, m, path, number);
    Extends(s, m.numberTo, m.numberTo + 5, ", in ");
    Extends(s, m.numberTo + 5, m.end, name);
    Extends(s, m.end, |s|, s[m.end..]);
    WholeText(s);
  }

  lemma UpToNumber(s: string, p: nat, m: FrameMatch, path: string, number: string)
    requires 14 + p == m.numberFrom < m.numberTo <= |s|
    requires s[..6] == "File \"" && s[6..6 + p] == path && s[6 + p..14 + p] == "\", line "
    requires s[m.numberFrom..m.numberTo] == number
    ensures s[..m.numberTo] == "File \"" + path + "\", line " + number
  {
    Extends(s, 6, 6 + p, path);
    Extends(s, 6 + p, 14 + p, "\", line ");
    Extends(s, 14 + p, m.numberTo, number);
  }

  /** A line without frames is normalised like a message, and then its colon numbers are replaced. */
  lemma FramelessLine(rules: Rules, line: string)
    requires rules.chars.Sound() && NoFrameBefore(rules.chars, line, |line|)
    ensures
      var words := Words(rules.chars, rules.earlier(Strip(rules.chars, line)));
      NormalizeLine(rules, line) == SubColonNumbers(rules.chars, Join(' ', Numbered(rules.chars, words)))
  {
    FramelessStays(rules.chars, line);
    MessageIsNormalizedWordByWord(rules, line);
  }

  // ----- Lines -----

  lemma {:induction false} StripLeftStops(cs: Chars, lead: string, rest: string)
    requires (forall c | c in lead :: cs.isSpace(c)) && (rest != "" ==> !cs.isSpace(rest[0]))
    ensures StripLeft(cs, lead + rest) == rest
  {
    if lead == "" {
      assert lead + rest == rest;
    } else {
      assert (lead + rest)[1..] == lead[1..] + rest;
      StripLeftStops(cs, lead[1..], rest);
    }
  }

  lemma {:induction false} StripRightStops(cs: Chars, rest: string, trail: string)
    requires (forall c | c in trail :: cs.isSpace(c)) && (rest != "" ==> !cs.isSpace(rest[|rest| - 1]))
    ensures StripRight(cs, rest + trail) == rest
  {
    if trail == "" {
      assert rest + trail == rest;
    } else {
      assert (rest + trail)[..|rest + trail| - 1] == rest + trail[..|trail| - 1];
      StripRightStops(cs, rest, trail[..|trail| - 1]);
    }
  }

  /** Stripping takes away exactly the white space on both sides. */
  lemma StripExactly(cs: Chars, lead: string, core: string, trail: string)
    requires (forall c | c in lead :: cs.isSpace(c)) && (forall c | c in trail :: cs.isSpace(c))
    requires core != "" && !cs.isSpace(core[0]) && !cs.isSpace(core[|core| - 1])
    ensures Strip(cs, lead + core + trail) == core
  {
    assert lead + core + trail == lead + (core + trail);
    StripLeftStops(cs, lead, core + trail);
    StripRightStops(cs, core, trail);
  }

  /** A trace's lines are normalised one by one, in order, and exactly the blank ones are left out. */
  lemma LinesOneByOne(rules: Rules, before: seq<string>, raw: string, after: seq<string>)
    ensures NormalizedLines(rules, before + [raw] + after)
            == NormalizedLines(rules, before)
               + (if exists i :: 0 <= i < |raw| && !rules.chars.isSpace(raw[i])
                  then [NormalizeLine(rules, Strip(rules.chars, raw))] else [])
               + NormalizedLines(rules, after)
  {
    var cs := rules.chars;
    hide NormalizeLine;
    assert [raw][1..] == [] && NormalizedLines(rules, [raw]) == NormalizeRaw(rules, raw) + [];
    if exists i :: 0 <= i < |raw| && !cs.isSpace(raw[i]) {
      StripKeepsText(cs, raw);
    } else {
      StripRightStops(cs, "", "");
      StripLeftStops(cs, raw, "");
      assert raw + "" == raw;
    }
    hide NormalizeRaw, Strip;
    NormalizedLinesAppend(rules, before, [raw]);
    NormalizedLinesAppend(rules, before + [raw], after);
  }

  /** A text splits at its first line break and nowhere before. */
  lemma SplitLinesExactly(cs: Chars, line: string, c: char, rest: string)
    requires (forall x | x in line :: !cs.isBreak(x)) && cs.isBreak(c)
    requires !(c == '\r' && rest != "" && rest[0] == '\n')
    ensures SplitLines(cs, line + [c] + rest) == [line] + SplitLines(cs, rest)
  {
    var s := line + [c] + rest;
    assert s == line + ([c] + rest);
    BreakAt(cs, line, [c] + rest);
    assert s[..|line|] == line && s[|line| + 1..] == rest && s[|line|] == c;
    assert rest != "" ==> s[|line| + 1] == rest[0];
    hide IndexOf;
  }

  /** `\r\n` is one line break. */
  lemma SplitLinesAtPair(cs: Chars, line: string, rest: string)
    requires (forall x | x in line :: !cs.isBreak(x)) && cs.isBreak('\r')
    ensures SplitLines(cs, line + "\r\n" + rest) == [line] + SplitLines(cs, rest)
  {
    var s := line + "\r\n" + rest;
    assert s == line + ("\r\n" + rest);
    BreakAt(cs, line, "\r\n" + rest);
    assert s[..|line|] == line && s[|line| + 2..] == rest && s[|line|] == '\r' && s[|line| + 1] == '\n';
    hide IndexOf;
  }

  /** A text without line breaks is one line, unless it is empty. */
  lemma SplitLinesOfOne(cs: Chars, line: string)
    requires forall x | x in line :: !cs.isBreak(x)
    ensures SplitLines(cs, line) == if line == "" then [] else [line]
  {
    BreakAt(cs, line, "");
    assert line + "" == line;
  }

  lemma {:induction false} BreakAt(cs: Chars, line: string, rest: string)
    requires (forall x | x in line :: !cs.isBreak(x)) && (rest != "" ==> cs.isBreak(rest[0]))
    ensures IndexOf(line + rest, cs.isBreak) == |line|
  {
    if line == "" {
      assert line + rest == rest;
    } else {
      assert (line + rest)[1..] == line[1..] + rest;
      BreakAt(cs, line[1..], rest);
    }
  }
}
