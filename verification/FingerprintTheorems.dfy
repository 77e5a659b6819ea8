/** What the normalised texts and fingerprints have in common, whatever the earlier passes do. */
module FingerprintTheorems {
  import opened Prelude
  import opened Fingerprint

  // ----- Long numbers -----

  /** `s[i..j]` is a run of at least five digits with a word boundary on each side. */
  predicate BoundedLongNumber(cs: Chars, s: string, i: int, j: int) {
    0 <= i && i + 5 <= j <= |s| && (forall k | i <= k < j :: cs.isDigit(s[k]))
    && (i > 0 ==> !cs.isWord(s[i - 1])) && (j < |s| ==> !cs.isWord(s[j]))
  }

  /** No long number starts anywhere, given whether a word character stands before the text. */
  predicate NoLong(cs: Chars, s: string, afterWord: bool) {
    s != "" ==> (!afterWord ==> !StartsLong(cs, s)) && NoLong(cs, s[1..], cs.isWord(s[0]))
  }

  lemma {:induction false} NoLongMeansNone(cs: Chars, s: string, afterWord: bool, i: nat, j: nat)
    requires cs.Sound() && NoLong(cs, s, afterWord) && BoundedLongNumber(cs, s, i, j)
    ensures i == 0 && afterWord
  {
    if i == 0 {
      assert DigitRun(cs, s) == j;
    } else if i > 1 {
      assert BoundedLongNumber(cs, s[1..], i - 1, j - 1) by {
        assert forall k | 0 <= k < |s| - 1 :: s[1..][k] == s[k + 1];
      }
      NoLongMeansNone(cs, s[1..], cs.isWord(s[0]), i - 1, j - 1);
    }
  }

  /** After a word character the substitution copies the rest of the word. */
  lemma {:induction false} RestOfWordIsCopied(cs: Chars, s: string)
    requires cs.Sound()
    ensures
      var t, n := SubLongNumbers(cs, s, true), DigitRun(cs, s);
      DigitRun(cs, t) == n && (n == |s| ==> n == |t|) && (n < |s| ==> n < |t| && t[n] == s[n])
  {
    if s != "" && cs.isDigit(s[0]) {
      RestOfWordIsCopied(cs, s[1..]);
      assert SubLongNumbers(cs, s, true)[1..] == SubLongNumbers(cs, s[1..], true);
    }
  }

  lemma NoLongAfterPlaceholder(cs: Chars, rest: string)
    requires cs.Sound() && NoLong(cs, rest, false)
    ensures NoLong(cs, "<number>" + rest, false)
  {
    assert forall c | c in "<number>" :: !cs.isDigit(c);
    NoLongBehind(cs, "<number>", rest);
  }

  /** Text without digits that ends in a non-word character does not matter to what follows. */
  lemma {:induction false} NoLongBehind(cs: Chars, a: string, b: string)
    requires cs.Sound() && a != "" && (forall c | c in a :: !cs.isDigit(c))
    requires !cs.isWord(a[|a| - 1]) && NoLong(cs, b, false)
    ensures forall afterWord :: NoLong(cs, a + b, afterWord)
  {
    assert (a + b)[1..] == a[1..] + b;
    if |a| == 1 {
      assert a[1..] + b == b;
    } else {
      NoLongBehind(cs, a[1..], b);
    }
  }

  /** A character that is copied starts no long number that was not there before. */
  lemma CopyStartsNone(cs: Chars, s: string)
    requires cs.Sound() && s != "" && !StartsLong(cs, s)
    ensures !StartsLong(cs, [s[0]] + SubLongNumbers(cs, s[1..], cs.isWord(s[0])))
  {
    hide SubLongNumbers;
    var u := SubLongNumbers(cs, s[1..], cs.isWord(s[0]));
    var t := [s[0]] + u;
    assert t[1..] == u;
    if cs.isDigit(s[0]) {
      RestOfWordIsCopied(cs, s[1..]);
      var n := DigitRun(cs, s);
      assert DigitRun(cs, t) == n == 1 + DigitRun(cs, s[1..]);
      assert n < |s| ==> t[n] == u[n - 1] && s[n] == s[1..][n - 1];
    }
  }

  lemma {:induction false} SubLongNumbersLeavesNone(cs: Chars, s: string, afterWord: bool)
    requires cs.Sound()
    ensures NoLong(cs, SubLongNumbers(cs, s, afterWord), afterWord)
    decreases |s|
  {
    if s != "" {
      var t := SubLongNumbers(cs, s, afterWord);
      if !afterWord && StartsLong(cs, s) {
        var rest := s[DigitRun(cs, s)..];
        SubLongNumbersLeavesNone(cs, rest, true);
        var restSub := SubLongNumbers(cs, rest, true);
        assert rest != "" ==> restSub[0] == rest[0];
        assert NoLong(cs, restSub, false);
        NoLongAfterPlaceholder(cs, restSub);
      } else {
        SubLongNumbersLeavesNone(cs, s[1..], cs.isWord(s[0]));
        assert t[1..] == SubLongNumbers(cs, s[1..], cs.isWord(s[0]));
        if !afterWord {
          CopyStartsNone(cs, s);
        }
      }
    }
  }

  // ----- White space -----

  lemma {:induction false} CollapseKeepsNoLong(cs: Chars, s: string, afterWord: bool)
    requires cs.Sound() && NoLong(cs, s, afterWord)
    ensures NoLong(cs, Collapse(cs, s), afterWord)
    decreases |s|
  {
    if s != "" {
      if cs.isSpace(s[0]) {
        StripLeftShrinks(cs, s[1..]);
        StripLeftKeepsNoLong(cs, s[1..]);
        CollapseKeepsNoLong(cs, StripLeft(cs, s[1..]), false);
        assert Collapse(cs, s)[1..] == Collapse(cs, StripLeft(cs, s[1..]));
      } else {
        CollapseKeepsNoLong(cs, s[1..], cs.isWord(s[0]));
        assert Collapse(cs, s)[1..] == Collapse(cs, s[1..]);
        CollapseKeepsRun(cs, s);
      }
    }
  }

  lemma {:induction false} CollapseKeepsRun(cs: Chars, s: string)
    requires cs.Sound()
    ensures
      var t, n := Collapse(cs, s), DigitRun(cs, s);
      DigitRun(cs, t) == n && (n == |s| ==> n == |t|) && (n < |s| ==> n < |t| && cs.isWord(t[n]) == cs.isWord(s[n]))
  {
    if s != "" && cs.isDigit(s[0]) {
      CollapseKeepsRun(cs, s[1..]);
      assert Collapse(cs, s)[1..] == Collapse(cs, s[1..]);
    }
  }

  lemma {:induction false} StripLeftKeepsNoLong(cs: Chars, s: string)
    requires cs.Sound() && NoLong(cs, s, false)
    ensures NoLong(cs, StripLeft(cs, s), false)
  {
    if s != "" && cs.isSpace(s[0]) {
      StripLeftKeepsNoLong(cs, s[1..]);
    }
  }

  lemma {:induction false} CutSpaceKeepsNoLong(cs: Chars, s: string, afterWord: bool)
    requires cs.Sound() && NoLong(cs, s, afterWord) && s != "" && cs.isSpace(s[|s| - 1])
    ensures NoLong(cs, s[..|s| - 1], afterWord)
  {
    var t := s[..|s| - 1];
    if t != "" {
      assert t[1..] == s[1..][..|s[1..]| - 1];
      CutSpaceKeepsNoLong(cs, s[1..], cs.isWord(s[0]));
      CutSpaceKeepsRun(cs, s);
    }
  }

  lemma {:induction false} CutSpaceKeepsRun(cs: Chars, s: string)
    requires cs.Sound() && s != "" && cs.isSpace(s[|s| - 1])
    ensures DigitRun(cs, s[..|s| - 1]) == DigitRun(cs, s) < |s|
  {
    if cs.isDigit(s[0]) {
      assert |s| > 1 && s[..|s| - 1][1..] == s[1..][..|s[1..]| - 1];
      CutSpaceKeepsRun(cs, s[1..]);
    }
  }

  lemma {:induction false} StripRightKeepsNoLong(cs: Chars, s: string)
    requires cs.Sound() && NoLong(cs, s, false)
    ensures NoLong(cs, StripRight(cs, s), false)
  {
    if s != "" && cs.isSpace(s[|s| - 1]) {
      CutSpaceKeepsNoLong(cs, s, false);
      StripRightKeepsNoLong(cs, s[..|s| - 1]);
    }
  }

  /** Every white-space character is a single blank between two others. */
  predicate SingleSpaced(cs: Chars, s: string) {
    forall i | 0 <= i < |s| && cs.isSpace(s[i]) :: s[i] == ' ' && (i + 1 < |s| ==> !cs.isSpace(s[i + 1]))
  }

  predicate Trimmed(cs: Chars, s: string) {
    s != "" ==> !cs.isSpace(s[0]) && !cs.isSpace(s[|s| - 1])
  }

  lemma {:induction false} StripLeftLeads(cs: Chars, s: string)
    ensures StripLeft(cs, s) != "" ==> !cs.isSpace(StripLeft(cs, s)[0])
  {
    if s != "" && cs.isSpace(s[0]) {
      StripLeftLeads(cs, s[1..]);
    }
  }

  lemma {:induction false} CollapseSingleSpaces(cs: Chars, s: string)
    requires cs.Sound()
    ensures SingleSpaced(cs, Collapse(cs, s))
    ensures s != "" && !cs.isSpace(s[0]) ==> Collapse(cs, s) != "" && Collapse(cs, s)[0] == s[0]
    decreases |s|
  {
    if s != "" {
      var rest := if cs.isSpace(s[0]) then StripLeft(cs, s[1..]) else s[1..];
      StripLeftShrinks(cs, s[1..]);
      StripLeftLeads(cs, s[1..]);
      CollapseSingleSpaces(cs, rest);
      var t, u := Collapse(cs, s), Collapse(cs, rest);
      assert t[1..] == u;
      forall i | 0 <= i < |t| && cs.isSpace(t[i])
        ensures t[i] == ' ' && (i + 1 < |t| ==> !cs.isSpace(t[i + 1]))
      {
        assert i > 0 ==> t[i] == u[i - 1];
        assert 0 < i < |t| - 1 ==> t[i + 1] == u[i];
        assert i == 0 && 1 < |t| ==> t[1] == u[0];
      }
    }
  }

  lemma {:induction false} StripRightIsPrefix(cs: Chars, s: string)
    ensures
      var t := StripRight(cs, s);
      |t| <= |s| && t == s[..|t|] && (t != "" ==> !cs.isSpace(t[|t| - 1]))
      && forall i | |t| <= i < |s| :: cs.isSpace(s[i])
  {
    if s != "" && cs.isSpace(s[|s| - 1]) {
      StripRightIsPrefix(cs, s[..|s| - 1]);
    }
  }

  lemma StripTrims(cs: Chars, s: string)
    ensures Trimmed(cs, Strip(cs, s))
    ensures SingleSpaced(cs, s) ==> SingleSpaced(cs, Strip(cs, s))
  {
    var left := StripLeft(cs, s);
    StripLeftLeads(cs, s);
    StripLeftShrinks(cs, s);
    StripRightIsPrefix(cs, left);
    var from, t := |s| - |left|, Strip(cs, s);
    assert forall i | 0 <= i < |t| :: t[i] == s[from + i];
  }

  /** Whatever the earlier passes do, a normalised message has no leading, trailing or repeated
      white space and no long number left. */
  lemma NormalizedMessageIsClean(rules: Rules, message: string)
    requires rules.chars.Sound()
    ensures
      var t := NormalizeCommon(rules, message);
      Trimmed(rules.chars, t) && SingleSpaced(rules.chars, t)
      && forall i, j :: !BoundedLongNumber(rules.chars, t, i, j)
  {
    var cs := rules.chars;
    var text := rules.earlier(Strip(cs, message));
    var subbed := SubLongNumbers(cs, text, false);
    var t := NormalizeCommon(rules, message);
    SubLongNumbersLeavesNone(cs, text, false);
    CollapseKeepsNoLong(cs, subbed, false);
    StripLeftKeepsNoLong(cs, Collapse(cs, subbed));
    StripRightKeepsNoLong(cs, StripLeft(cs, Collapse(cs, subbed)));
    CollapseSingleSpaces(cs, subbed);
    StripTrims(cs, Collapse(cs, subbed));
    forall i, j ensures !BoundedLongNumber(cs, t, i, j) {
      if BoundedLongNumber(cs, t, i, j) {
        NoLongMeansNone(cs, t, false, i, j);
      }
    }
  }

  // ----- Stack traces: the lines of a normalised trace -----

  predicate NonBlank(cs: Chars, s: string) {
    exists i :: 0 <= i < |s| && !cs.isSpace(s[i])
  }

  /** No earlier pass erases a text: each replaces what it matches by a placeholder. */
  ghost predicate EarlierKeepsText(rules: Rules) {
    forall s :: NonBlank(rules.chars, s) ==> NonBlank(rules.chars, rules.earlier(s))
  }

  /** A line that survives a split at newlines, and whose colons are not followed by digits. */
  predicate CleanLine(cs: Chars, line: string) {
    line != "" && (forall c | c in line :: c != '\n')
    && forall i | 0 <= i < |line| - 1 :: !(line[i] == ':' && cs.isDigit(line[i + 1]))
  }

  lemma {:induction false} SubLongNumbersKeepsText(cs: Chars, s: string, afterWord: bool)
    requires cs.Sound() && NonBlank(cs, s)
    ensures NonBlank(cs, SubLongNumbers(cs, s, afterWord))
    decreases |s|
  {
    var t := SubLongNumbers(cs, s, afterWord);
    if !afterWord && StartsLong(cs, s) {
      assert t[0] == '<' && !cs.isSpace(t[0]);
    } else if !cs.isSpace(s[0]) {
      assert t[0] == s[0];
    } else {
      var i :| 0 <= i < |s| && !cs.isSpace(s[i]);
      assert s[1..][i - 1] == s[i];
      SubLongNumbersKeepsText(cs, s[1..], cs.isWord(s[0]));
      var u := SubLongNumbers(cs, s[1..], cs.isWord(s[0]));
      var j :| 0 <= j < |u| && !cs.isSpace(u[j]);
      assert t[j + 1] == u[j];
    }
  }

  lemma StripKeepsText(cs: Chars, s: string)
    requires NonBlank(cs, s)
    ensures Strip(cs, s) != ""
  {
    hide StripLeft, StripRight;
    var i :| 0 <= i < |s| && !cs.isSpace(s[i]);
    StripLeftDropsSpaces(cs, s);
    var left := StripLeft(cs, s);
    assert left[i - (|s| - |left|)] == s[i];
    StripRightIsPrefix(cs, left);
  }

  lemma {:induction false} StripLeftDropsSpaces(cs: Chars, s: string)
    ensures
      var t := StripLeft(cs, s);
      |t| <= |s| && t == s[|s| - |t|..] && forall i | 0 <= i < |s| - |t| :: cs.isSpace(s[i])
  {
    if s != "" && cs.isSpace(s[0]) {
      StripLeftDropsSpaces(cs, s[1..]);
      var t := StripLeft(cs, s);
      forall i | 0 <= i < |s| - |t| ensures cs.isSpace(s[i]) {
        assert i > 0 ==> s[i] == s[1..][i - 1];
      }
    }
  }

  lemma {:induction false} CollapseKeepsText(cs: Chars, s: string)
    requires cs.Sound() && NonBlank(cs, s)
    ensures NonBlank(cs, Collapse(cs, s))
    decreases |s|
  {
    var t := Collapse(cs, s);
    if !cs.isSpace(s[0]) {
      assert t[0] == s[0];
    } else {
      var rest := StripLeft(cs, s[1..]);
      StripLeftDropsSpaces(cs, s[1..]);
      var i :| 0 <= i < |s| && !cs.isSpace(s[i]);
      assert s[1..][i - 1] == s[i] && rest[i - 1 - (|s[1..]| - |rest|)] == s[i];
      CollapseKeepsText(cs, rest);
      var u := Collapse(cs, rest);
      var j :| 0 <= j < |u| && !cs.isSpace(u[j]);
      assert t[j + 1] == u[j];
    }
  }

  lemma {:induction false} SubColonNumbersCleans(cs: Chars, s: string)
    requires cs.Sound() && s != "" && forall c | c in s :: c != '\n'
    ensures CleanLine(cs, SubColonNumbers(cs, s)) && SubColonNumbers(cs, s)[0] == s[0]
    decreases |s|
  {
    var t := SubColonNumbers(cs, s);
    var n := if s[0] == ':' then DigitRun(cs, s[1..]) else 0;
    var head, rest := if n > 0 then ":<line>" else [s[0]], s[1 + n..];
    var u := SubColonNumbers(cs, rest);
    assert t == head + u;
    assert forall c | c in rest :: c in s;
    assert forall c | c in ":<line>" :: c != '\n';
    if rest != "" {
      SubColonNumbersCleans(cs, rest);
      assert rest[0] == s[1 + n];
      assert n == 0 && s[0] == ':' ==> !cs.isDigit(s[1..][0]);
    }
    assert forall c | c in u :: c != '\n';
    assert forall c | c in head :: c != '\n' by {
      assert s[0] in s;
    }
    forall i | 0 <= i < |t| - 1 ensures !(t[i] == ':' && cs.isDigit(t[i + 1])) {
      assert i >= |head| ==> t[i] == u[i - |head|] && t[i + 1] == u[i + 1 - |head|];
    }
  }

  /** A stripped, non-empty line normalises to a clean line. */
  lemma NormalizedLineIsClean(rules: Rules, line: string)
    requires rules.chars.Sound() && EarlierKeepsText(rules)
    requires line != "" && !rules.chars.isSpace(line[0])
    ensures CleanLine(rules.chars, NormalizeLine(rules, line))
  {
    var cs := rules.chars;
    var framed := SubFrames(cs, line);
    assert framed[0] == line[0];
    assert NonBlank(cs, framed);
    StripKeepsText(cs, framed);
    StripTrims(cs, framed);
    var stripped := Strip(cs, framed);
    assert !cs.isSpace(stripped[0]);
    assert NonBlank(cs, stripped);
    var early := rules.earlier(stripped);
    SubLongNumbersKeepsText(cs, early, false);
    var subbed := SubLongNumbers(cs, early, false);
    CollapseKeepsText(cs, subbed);
    CollapseSingleSpaces(cs, subbed);
    StripKeepsText(cs, Collapse(cs, subbed));
    StripTrims(cs, Collapse(cs, subbed));
    var common := NormalizeCommon(rules, framed);
    assert forall c | c in common :: c != '\n';
    SubColonNumbersCleans(cs, common);
  }

  function CountNonBlank(cs: Chars, lines: seq<string>): nat {
    if lines == [] then 0
    else (if Strip(cs, lines[0]) != "" then 1 else 0) + CountNonBlank(cs, lines[1..])
  }

  lemma {:induction false} NormalizedLinesAreClean(rules: Rules, lines: seq<string>)
    requires rules.chars.Sound() && EarlierKeepsText(rules)
    ensures
      var out := NormalizedLines(rules, lines);
      |out| == CountNonBlank(rules.chars, lines) && forall k | 0 <= k < |out| :: CleanLine(rules.chars, out[k])
  {
    hide NormalizeLine, CleanLine, Strip, EarlierKeepsText;
    if lines != [] {
      NormalizedLinesAreClean(rules, lines[1..]);
      var line := Strip(rules.chars, lines[0]);
      if line != "" {
        StripTrims(rules.chars, lines[0]);
        NormalizedLineIsClean(rules, line);
      }
    }
  }

  /** `str.split` at one character. */
  function SplitOn(s: string, separator: char): seq<string>
    decreases |s|
  {
    var k := IndexOf(s, Is(separator));
    if k == |s| then [s] else [s[..k]] + SplitOn(s[k + 1..], separator)
  }

  lemma FirstIndex(a: string, c: char, b: string)
    requires c !in a
    ensures IndexOf(a + [c] + b, Is(c)) == |a|
  {
    var s := a + [c] + b;
    assert s[|a|] == c;
    assert forall i | 0 <= i < |a| :: s[i] == a[i] && a[i] in a;
  }

  lemma {:induction false} SplitUndoesJoin(separator: char, parts: seq<string>)
    requires parts != [] && forall k | 0 <= k < |parts| :: separator !in parts[k]
    ensures SplitOn(Join(separator, parts), separator) == parts
  {
    var s := Join(separator, parts);
    if |parts| > 1 {
      FirstIndex(parts[0], separator, Join(separator, parts[1..]));
      var k := |parts[0]|;
      assert s[..k] == parts[0] && s[k + 1..] == Join(separator, parts[1..]);
      SplitUndoesJoin(separator, parts[1..]);
    }
  }

  /** Splitting a normalised trace at newlines gives back its lines: one clean, non-empty line for
      each non-blank line of the input. */
  lemma NormalizedTraceSplitsBack(rules: Rules, trace: string)
    requires rules.chars.Sound() && EarlierKeepsText(rules)
    ensures
      var raw := SplitLines(rules.chars, trace);
      var text := NormalizeStackTrace(rules, Some(trace));
      var lines := if text == "" then [] else SplitOn(text, '\n');
      && lines == NormalizedLines(rules, raw)
      && |lines| == CountNonBlank(rules.chars, raw)
      && forall k | 0 <= k < |lines| :: CleanLine(rules.chars, lines[k])
  {
    var lines := NormalizedLines(rules, SplitLines(rules.chars, trace));
    NormalizedLinesAreClean(rules, SplitLines(rules.chars, trace));
    if lines != [] {
      assert CleanLine(rules.chars, lines[0]);
      forall k | 0 <= k < |lines| ensures '\n' !in lines[k] {
        assert CleanLine(rules.chars, lines[k]);
      }
      SplitUndoesJoin('\n', lines);
      assert Join('\n', lines) != "" by {
        if |lines| > 1 {
          assert Join('\n', lines)[|lines[0]|] == '\n';
        }
      }
    }
  }

  // ----- Stack traces: line numbers do not matter -----

  function FrameLine(path: string, number: string, name: string): string {
    "File \"" + (path + ("\", line " + (number + (", in " + name))))
  }

  /** A path without quotes, a number of digits, and a name on the same line. */
  predicate FrameParts(cs: Chars, path: string, number: string, name: string) {
    path != "" && '\"' !in path && number != "" && (forall c | c in number :: cs.isDigit(c))
    && name != "" && '\n' !in name
  }

  lemma {:induction false} DigitRunOfNumber(cs: Chars, number: string, rest: string)
    requires forall c | c in number :: cs.isDigit(c)
    requires rest != "" && !cs.isDigit(rest[0])
    ensures DigitRun(cs, number + rest) == |number|
  {
    if number == "" {
      assert number + rest == rest;
    } else {
      assert (number + rest)[1..] == number[1..] + rest;
      DigitRunOfNumber(cs, number[1..], rest);
    }
  }

  lemma PrefixOf(prefix: string, rest: string)
    ensures StartsWith(prefix + rest, prefix) && (prefix + rest)[|prefix|..] == rest
  {
  }

  lemma NameToEnd(name: string)
    requires '\n' !in name
    ensures IndexOf(name, Is('\n')) == |name|
  {
    assert forall i | 0 <= i < |name| :: name[i] in name;
  }

  lemma NameBefore(name: string, rest: string)
    requires '\n' !in name && (rest != "" ==> rest[0] == '\n')
    ensures IndexOf(name + rest, Is('\n')) == |name|
  {
    if rest == "" {
      assert name + rest == name;
      NameToEnd(name);
    } else {
      assert name + rest == name + ['\n'] + rest[1..];
      FirstIndex(name, '\n', rest[1..]);
    }
  }

  lemma NumberAndNameMatched(cs: Chars, s: string, from: nat, number: string, tail: string, n: nat)
    requires cs.Sound() && from <= |s| && s[from..] == number + (", in " + tail)
    requires number != "" && (forall c | c in number :: cs.isDigit(c)) && IndexOf(tail, Is('\n')) == n > 0
    ensures MatchNumberAndName(cs, s, from) == Some(FrameMatch(from, from + |number|, from + |number| + 5 + n))
  {
    hide IndexOf, DigitRun, FrameLine;
    var afterNumber, to := ", in " + tail, from + |number|;
    assert !cs.isDigit(afterNumber[0]) by {
      assert ',' in "<>:,\"|";
    }
    DigitRunOfNumber(cs, number, afterNumber);
    assert s[to..] == s[from..][|number|..] == afterNumber;
    PrefixOf(", in ", tail);
    assert s[to + 5..] == s[to..][5..] == tail;
  }

  lemma PathIsMatched(cs: Chars, s: string, path: string, afterLine: string)
    requires s == "File \"" + (path + ("\", line " + afterLine)) && path != "" && '\"' !in path
    ensures s[14 + |path|..] == afterLine && MatchFrame(cs, s) == MatchNumberAndName(cs, s, 14 + |path|)
  {
    hide IndexOf, MatchNumberAndName;
    var afterPath := "\", line " + afterLine;
    PrefixOf("File \"", path + afterPath);
    assert path + afterPath == path + ['\"'] + afterPath[1..];
    FirstIndex(path, '\"', afterPath[1..]);
    assert s[6 + |path|..] == s[6..][|path|..] == afterPath;
    PrefixOf("\", line ", afterLine);
    assert s[14 + |path|..] == s[6 + |path|..][8..] == afterLine;
  }

  lemma FrameIsMatched(cs: Chars, path: string, number: string, name: string, rest: string)
    requires cs.Sound() && FrameParts(cs, path, number, name) && (rest != "" ==> rest[0] == '\n')
    ensures
      var line := FrameLine(path, number, name);
      MatchFrame(cs, line + rest) == Some(FrameMatch(14 + |path|, 14 + |path| + |number|, |line|))
  {
    hide IndexOf, DigitRun, MatchNumberAndName, MatchFrame;
    var s := FrameLine(path, number, name) + rest;
    var afterLine := number + (", in " + (name + rest));
    assert s == "File \"" + (path + ("\", line " + afterLine));
    PathIsMatched(cs, s, path, afterLine);
    NameBefore(name, rest);
    NumberAndNameMatched(cs, s, 14 + |path|, number, name + rest, |name|);
  }

  lemma FrameSlices(path: string, number: string, name: string)
    ensures
      var line, from := FrameLine(path, number, name), 14 + |path|;
      |line| == from + |number| + 5 + |name|
      && line == line[..from] + number + line[from + |number|..]
      && line[..from] == "File \"" + path + "\", line " && line[from + |number|..] == ", in " + name
  {
  }

  lemma WholeLineFrame(cs: Chars, s: string, m: FrameMatch)
    requires MatchFrame(cs, s) == Some(m) && m.end == |s|
    ensures SubFrames(cs, s) == s[..m.numberFrom] + "<line>" + s[m.numberTo..]
  {
    assert s[m.end..] == "" && s[m.numberTo..m.end] == s[m.numberTo..];
    assert SubFrames(cs, s[m.end..]) == "";
  }

  lemma FrameNumberIsDropped(cs: Chars, path: string, number: string, name: string)
    requires cs.Sound() && FrameParts(cs, path, number, name)
    ensures SubFrames(cs, FrameLine(path, number, name)) == FrameLine(path, "<line>", name)
  {
    FrameIsMatched(cs, path, number, name, "");
    assert FrameLine(path, number, name) + "" == FrameLine(path, number, name);
    var line := FrameLine(path, number, name);
    WholeLineFrame(cs, line, FrameMatch(14 + |path|, 14 + |path| + |number|, |line|));
    FrameSlices(path, number, name);
    FrameSlices(path, "<line>", name);
  }

  /** Equal lines, or frames that differ at most in the line number. */
  ghost predicate SameFrame(cs: Chars, a: string, b: string) {
    a == b || exists path, m, n, name ::
      FrameParts(cs, path, m, name) && FrameParts(cs, path, n, name)
      && Strip(cs, a) == FrameLine(path, m, name) && Strip(cs, b) == FrameLine(path, n, name)
  }

  lemma SameFrameNormalizesAlike(rules: Rules, a: string, b: string)
    requires rules.chars.Sound() && SameFrame(rules.chars, a, b)
    ensures NormalizeRaw(rules, a) == NormalizeRaw(rules, b)
  {
    var cs := rules.chars;
    if a != b {
      var path, m, n, name :| FrameParts(cs, path, m, name) && FrameParts(cs, path, n, name)
        && Strip(cs, a) == FrameLine(path, m, name) && Strip(cs, b) == FrameLine(path, n, name);
      FrameNumberIsDropped(cs, path, m, name);
      FrameNumberIsDropped(cs, path, n, name);
    }
  }

  lemma {:induction false} SameFramesNormalizeAlike(rules: Rules, a: seq<string>, b: seq<string>)
    requires rules.chars.Sound() && |a| == |b|
    requires forall k | 0 <= k < |a| :: SameFrame(rules.chars, a[k], b[k])
    ensures NormalizedLines(rules, a) == NormalizedLines(rules, b)
  {
    if a != [] {
      SameFrameNormalizesAlike(rules, a[0], b[0]);
      SameFramesNormalizeAlike(rules, a[1..], b[1..]);
    }
  }

  /** Traces whose lines differ only in the numbers of such frames normalise to the same text, and
      reports that differ only by them get the same fingerprint. */
  lemma LineNumbersDoNotMatter(rules: Rules, input: FingerprintInput, a: string, b: string)
    requires rules.chars.Sound()
    requires |SplitLines(rules.chars, a)| == |SplitLines(rules.chars, b)|
    requires forall k | 0 <= k < |SplitLines(rules.chars, a)| ::
               SameFrame(rules.chars, SplitLines(rules.chars, a)[k], SplitLines(rules.chars, b)[k])
    ensures NormalizeStackTrace(rules, Some(a)) == NormalizeStackTrace(rules, Some(b))
    ensures GenerateFingerprint(rules, input.(stackTrace := Some(a)))
            == GenerateFingerprint(rules, input.(stackTrace := Some(b)))
  {
    SameFramesNormalizeAlike(rules, SplitLines(rules.chars, a), SplitLines(rules.chars, b));
  }

  // ----- Which reports share a fingerprint -----

  function CountBars(s: string): nat {
    if s == "" then 0 else (if s[0] == '|' then 1 else 0) + CountBars(s[1..])
  }

  /** With equally many separators inside, a joined text determines its first part and the rest. */
  lemma {:induction false} BarsLocateTheJoin(a: string, x: string, b: string, y: string)
    requires a + ['|'] + x == b + ['|'] + y && CountBars(a) == CountBars(b)
    ensures a == b && x == y
  {
    var s, t := a + ['|'] + x, b + ['|'] + y;
    assert s[0] == (if a == "" then '|' else a[0]) && t[0] == (if b == "" then '|' else b[0]);
    if a == "" && b == "" {
      assert x == s[1..] && y == t[1..];
    } else if a != "" && b != "" {
      assert s[1..] == a[1..] + ['|'] + x && t[1..] == b[1..] + ['|'] + y;
      BarsLocateTheJoin(a[1..], x, b[1..], y);
    }
  }

  function ExceptionPart(rules: Rules, input: FingerprintInput): string {
    var exceptionType := match input.exceptionType case None => "" case Some(name) => name;
    rules.lower(Strip(rules.chars, exceptionType))
  }

  function ServicePart(rules: Rules, input: FingerprintInput): string {
    rules.lower(Strip(rules.chars, input.serviceName))
  }

  predicate SameParts(rules: Rules, a: FingerprintInput, b: FingerprintInput) {
    && ServicePart(rules, a) == ServicePart(rules, b)
    && a.normalizedMessage == b.normalizedMessage
    && ExceptionPart(rules, a) == ExceptionPart(rules, b)
    && NormalizeStackTrace(rules, a.stackTrace) == NormalizeStackTrace(rules, b.stackTrace)
  }

  /** Service, message and exception type hold equally many separators each. */
  predicate SameBars(rules: Rules, a: FingerprintInput, b: FingerprintInput) {
    && CountBars(ServicePart(rules, a)) == CountBars(ServicePart(rules, b))
    && CountBars(a.normalizedMessage) == CountBars(b.normalizedMessage)
    && CountBars(ExceptionPart(rules, a)) == CountBars(ExceptionPart(rules, b))
  }

  lemma FingerprintTextParts(rules: Rules, input: FingerprintInput)
    ensures FingerprintText(rules, input)
            == ServicePart(rules, input) + ['|'] + (input.normalizedMessage + ['|']
               + (ExceptionPart(rules, input) + ['|'] + NormalizeStackTrace(rules, input.stackTrace)))
  {
    hide Strip, NormalizeStackTrace;
    var service, message := ServicePart(rules, input), input.normalizedMessage;
    var exceptionPart, trace := ExceptionPart(rules, input), NormalizeStackTrace(rules, input.stackTrace);
    assert [service, message, exceptionPart, trace][1..] == [message, exceptionPart, trace];
    assert [message, exceptionPart, trace][1..] == [exceptionPart, trace];
    assert [exceptionPart, trace][1..] == [trace];
    assert Join('|', [exceptionPart, trace]) == exceptionPart + ['|'] + trace;
    assert Join('|', [message, exceptionPart, trace]) == message + ['|'] + Join('|', [exceptionPart, trace]);
  }

  /** Two reports agree in service, message, exception type and normalised trace exactly when they
      share a fingerprint and hold equally many separators in each of the first three. So
      two reports with one fingerprint differ exactly when their separators stand differently. */
  lemma FingerprintsSeparateExactlyWhen(rules: Rules, a: FingerprintInput, b: FingerprintInput)
    ensures SameParts(rules, a, b)
            <==> GenerateFingerprint(rules, a) == GenerateFingerprint(rules, b) && SameBars(rules, a, b)
  {
    FingerprintTextParts(rules, a);
    FingerprintTextParts(rules, b);
    hide FingerprintText, ServicePart, ExceptionPart, NormalizeStackTrace, CountBars;
    if GenerateFingerprint(rules, a) == GenerateFingerprint(rules, b) && SameBars(rules, a, b) {
      var traceA := ExceptionPart(rules, a) + ['|'] + NormalizeStackTrace(rules, a.stackTrace);
      var traceB := ExceptionPart(rules, b) + ['|'] + NormalizeStackTrace(rules, b.stackTrace);
      BarsLocateTheJoin(ServicePart(rules, a), a.normalizedMessage + ['|'] + traceA,
                        ServicePart(rules, b), b.normalizedMessage + ['|'] + traceB);
      BarsLocateTheJoin(a.normalizedMessage, traceA, b.normalizedMessage, traceB);
      BarsLocateTheJoin(ExceptionPart(rules, a), NormalizeStackTrace(rules, a.stackTrace),
                        ExceptionPart(rules, b), NormalizeStackTrace(rules, b.stackTrace));
    }
  }

  const BAR_IN_MESSAGE := FingerprintInput("s", "m|e", None, None)
  const BAR_IN_EXCEPTION := FingerprintInput("s", "m", Some("e|"), None)

  /** `lower` and the white-space class are Python's on the few texts of the example. */
  predicate PlainOnExample(rules: Rules) {
    && (forall s | s in ["", "s", "e|"] :: rules.lower(s) == s)
    && forall c | c in "sme|" :: !rules.chars.isSpace(c)
  }

  /** Two different reports of one service, told apart by message and exception type, get one
      fingerprint, even from a collision-free digest. */
  lemma SeparatorsRunTogether(rules: Rules)
    requires PlainOnExample(rules)
    ensures !SameParts(rules, BAR_IN_MESSAGE, BAR_IN_EXCEPTION)
    ensures GenerateFingerprint(rules, BAR_IN_MESSAGE) == GenerateFingerprint(rules, BAR_IN_EXCEPTION)
  {
    var cs, a, b := rules.chars, BAR_IN_MESSAGE, BAR_IN_EXCEPTION;
    assert cs.isSpace("s"[0]) == false && cs.isSpace("e|"[0]) == false && cs.isSpace("e|"[1]) == false;
    FingerprintTextParts(rules, a);
    FingerprintTextParts(rules, b);
    assert ServicePart(rules, a) == "s" == ServicePart(rules, b);
    assert ExceptionPart(rules, a) == "" && ExceptionPart(rules, b) == "e|";
  }
}
