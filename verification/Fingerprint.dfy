/** Message and stack trace normalisation and the fingerprint (app/services/fingerprint.py).
    The passes before the long-number pass are an arbitrary function of the text. */
module Fingerprint {
  import opened Prelude

  /** Python's character classes: `\d`, `\w`, `\s` and the separators of `str.splitlines`. */
  datatype Chars = Chars(
    isDigit: char -> bool, isWord: char -> bool, isSpace: char -> bool, isBreak: char -> bool)
  {
    ghost predicate Sound() {
      && (forall c :: isDigit(c) ==> isWord(c))
      && (forall c :: isSpace(c) ==> !isWord(c))
      && (forall c :: isBreak(c) ==> isSpace(c))
      && isSpace(' ') && isSpace('\n')
      && (forall c | c in "<>:,\"|" :: !isWord(c) && !isSpace(c))
      && (forall c | c in "numberlineF" :: isWord(c) && !isDigit(c))
    }
  }

  /** `earlier` stands for the UUID, timestamp, date, e-mail, IP, memory address, request id,
      label number and hex passes; `lower` for `str.lower`. */
  datatype Rules = Rules(chars: Chars, earlier: string -> string, lower: string -> string)

  datatype FingerprintInput = FingerprintInput(
    serviceName: string, normalizedMessage: string,
    exceptionType: Option<string>, stackTrace: Option<string>)

  // ----- The passes -----

  function StripLeft(cs: Chars, s: string): string {
    if s != "" && cs.isSpace(s[0]) then StripLeft(cs, s[1..]) else s
  }

  function StripRight(cs: Chars, s: string): string {
    if s != "" && cs.isSpace(s[|s| - 1]) then StripRight(cs, s[..|s| - 1]) else s
  }

  function Strip(cs: Chars, s: string): string {
    StripRight(cs, StripLeft(cs, s))
  }

  /** How many digits the text starts with. */
  function DigitRun(cs: Chars, s: string): (n: nat)
    ensures n <= |s| && (forall i | 0 <= i < n :: cs.isDigit(s[i]))
    ensures n < |s| ==> !cs.isDigit(s[n])
  {
    if s != "" && cs.isDigit(s[0]) then 1 + DigitRun(cs, s[1..]) else 0
  }

  /** At a word boundary, `\d{5,}\b` matches here. */
  predicate StartsLong(cs: Chars, s: string) {
    var n := DigitRun(cs, s);
    n >= 5 && (n < |s| ==> !cs.isWord(s[n]))
  }

  /** `re.sub(r"\b\d{5,}\b", "<number>", s)` from a point where the character before is a word
      character or not. */
  function SubLongNumbers(cs: Chars, s: string, afterWord: bool): string
    decreases |s|
  {
    if s == "" then ""
    else if !afterWord && StartsLong(cs, s) then
      "<number>" + SubLongNumbers(cs, s[DigitRun(cs, s)..], true)
    else [s[0]] + SubLongNumbers(cs, s[1..], cs.isWord(s[0]))
  }

  /** `re.sub(r"\s+", " ", s)`. */
  function Collapse(cs: Chars, s: string): string
    decreases |s|
  {
    if s == "" then ""
    else if cs.isSpace(s[0]) then
      StripLeftShrinks(cs, s[1..]);
      " " + Collapse(cs, StripLeft(cs, s[1..]))
    else [s[0]] + Collapse(cs, s[1..])
  }

  lemma StripLeftShrinks(cs: Chars, s: string)
    ensures |StripLeft(cs, s)| <= |s|
    ensures StripLeft(cs, s) == s[|s| - |StripLeft(cs, s)|..]
  {
  }

  /** `_normalize_common`, the whole of `normalize_message`. */
  function NormalizeCommon(rules: Rules, text: string): string {
    Strip(rules.chars, Collapse(rules.chars,
      SubLongNumbers(rules.chars, rules.earlier(Strip(rules.chars, text)), false)))
  }

  function IndexOf(s: string, p: char -> bool): (k: nat)
    ensures k <= |s| && (forall i | 0 <= i < k :: !p(s[i])) && (k < |s| ==> p(s[k]))
  {
    if s == "" || p(s[0]) then 0 else 1 + IndexOf(s[1..], p)
  }

  function Is(c: char): char -> bool {
    x => x == c
  }

  predicate StartsWith(s: string, prefix: string) {
    |prefix| <= |s| && s[..|prefix|] == prefix
  }

  /** Where `File "path", line N, in name` at the start of a text has its number and its end. */
  datatype FrameMatch = FrameMatch(numberFrom: nat, numberTo: nat, end: nat)

  /** `(\d+)(, in .+)` at `from`. */
  function MatchNumberAndName(cs: Chars, s: string, from: nat): (r: Option<FrameMatch>)
    requires from <= |s|
    ensures r.Some? ==> r.value.numberFrom == from < r.value.numberTo <= r.value.end <= |s|
  {
    var to := from + DigitRun(cs, s[from..]);
    if to == from || !StartsWith(s[to..], ", in ") then None
    else
      var name := IndexOf(s[to + 5..], Is('\n'));
      if name == 0 then None else Some(FrameMatch(from, to, to + 5 + name))
  }

  function MatchFrame(cs: Chars, s: string): (r: Option<FrameMatch>)
    ensures r.Some? ==> 0 < r.value.numberFrom < r.value.numberTo <= r.value.end <= |s| && s[0] == 'F'
  {
    if !StartsWith(s, "File \"") then None
    else
      var path := IndexOf(s[6..], Is('\"'));
      if path == 0 || !StartsWith(s[6 + path..], "\", line ") then None
      else MatchNumberAndName(cs, s, 6 + path + 8)
  }

  /** `_STACK_LINE_RE.sub`: every frame's number becomes `<line>`. */
  function SubFrames(cs: Chars, s: string): string
    decreases |s|
  {
    if s == "" then ""
    else
      match MatchFrame(cs, s)
      case None => [s[0]] + SubFrames(cs, s[1..])
      case Some(FrameMatch(from, to, end)) =>
        s[..from] + "<line>" + s[to..end] + SubFrames(cs, s[end..])
  }

  /** `re.sub(r":\d+", ":<line>", s)`. */
  function SubColonNumbers(cs: Chars, s: string): string
    decreases |s|
  {
    if s == "" then ""
    else if s[0] == ':' && DigitRun(cs, s[1..]) > 0 then
      ":<line>" + SubColonNumbers(cs, s[1 + DigitRun(cs, s[1..])..])
    else [s[0]] + SubColonNumbers(cs, s[1..])
  }

  function NormalizeLine(rules: Rules, line: string): string {
    SubColonNumbers(rules.chars, NormalizeCommon(rules, SubFrames(rules.chars, line)))
  }

  /** `str.splitlines`. */
  function SplitLines(cs: Chars, s: string): seq<string>
    decreases |s|
  {
    if s == "" then []
    else
      var k := IndexOf(s, cs.isBreak);
      if k == |s| then [s]
      else if s[k] == '\r' && k + 1 < |s| && s[k + 1] == '\n' then [s[..k]] + SplitLines(cs, s[k + 2..])
      else [s[..k]] + SplitLines(cs, s[k + 1..])
  }

  /** What one raw line contributes: nothing when it is blank. */
  function NormalizeRaw(rules: Rules, raw: string): seq<string> {
    var line := Strip(rules.chars, raw);
    if line == "" then [] else [NormalizeLine(rules, line)]
  }

  function NormalizedLines(rules: Rules, lines: seq<string>): seq<string> {
    if lines == [] then [] else NormalizeRaw(rules, lines[0]) + NormalizedLines(rules, lines[1..])
  }

  function Join(separator: char, parts: seq<string>): string {
    if parts == [] then ""
    else if |parts| == 1 then parts[0]
    else parts[0] + [separator] + Join(separator, parts[1..])
  }

  function NormalizeStackTrace(rules: Rules, trace: Option<string>): string {
    match trace
    case None => ""
    case Some(text) => Join('\n', NormalizedLines(rules, SplitLines(rules.chars, text)))
  }

  function FingerprintText(rules: Rules, input: FingerprintInput): string {
    var exceptionType := match input.exceptionType case None => "" case Some(name) => name;
    Join('|', [
      rules.lower(Strip(rules.chars, input.serviceName)),
      input.normalizedMessage,
      rules.lower(Strip(rules.chars, exceptionType)),
      NormalizeStackTrace(rules, input.stackTrace)])
  }

  function GenerateFingerprint(rules: Rules, input: FingerprintInput): Digest {
    Sha256(FingerprintText(rules, input))
  }

  // ----- The source's own form: locals rebound through passes, a loop over the lines -----

  method NormalizeInPasses(rules: Rules, text: string) returns (normalized: string)
    ensures normalized == NormalizeCommon(rules, text)
  {
    normalized := Strip(rules.chars, text);
    normalized := rules.earlier(normalized);
    normalized := SubLongNumbers(rules.chars, normalized, false);
    normalized := Collapse(rules.chars, normalized);
    normalized := Strip(rules.chars, normalized);
  }

  lemma {:induction false} NormalizedLinesAppend(rules: Rules, a: seq<string>, b: seq<string>)
    ensures NormalizedLines(rules, a + b) == NormalizedLines(rules, a) + NormalizedLines(rules, b)
  {
    if a == [] {
      assert a + b == b;
    } else {
      assert (a + b)[1..] == a[1..] + b && (a + b)[0] == a[0];
      NormalizedLinesAppend(rules, a[1..], b);
      ConcatAssociative(NormalizeRaw(rules, a[0]), NormalizedLines(rules, a[1..]), NormalizedLines(rules, b));
    }
  }

  lemma ConcatAssociative<T>(x: seq<T>, y: seq<T>, z: seq<T>)
    ensures x + (y + z) == x + y + z
  {
  }

  method NormalizeTraceByLines(rules: Rules, trace: Option<string>) returns (text: string)
    ensures text == NormalizeStackTrace(rules, trace)
  {
    hide SubFrames, NormalizeCommon, SubColonNumbers, SplitLines, Strip;
    if trace.None? {
      return "";
    }
    var normalizedLines: seq<string> := [];
    var rawLines := SplitLines(rules.chars, trace.value);
    for i := 0 to |rawLines|
      invariant normalizedLines == NormalizedLines(rules, rawLines[..i])
    {
      assert rawLines[..i + 1] == rawLines[..i] + [rawLines[i]];
      NormalizedLinesAppend(rules, rawLines[..i], [rawLines[i]]);
      assert [rawLines[i]][1..] == [];
      var line := Strip(rules.chars, rawLines[i]);
      if line == "" {
        continue;
      }
      line := SubFrames(rules.chars, line);
      line := NormalizeInPasses(rules, line);
      line := SubColonNumbers(rules.chars, line);
      normalizedLines := normalizedLines + [line];
    }
    assert rawLines[..|rawLines|] == rawLines;
    return Join('\n', normalizedLines);
  }
}
