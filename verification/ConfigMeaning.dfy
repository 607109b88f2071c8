/** tests.conf files of bin/test.c: what the lines of such a text say about a test. */
module ConfigMeaning {
  import opened Hiding
  import opened Chars

  const NUL: char := 0 as char
  const NEWLINE: char := 10 as char
  const TAB: char := 9 as char

  /** The defaults, in seconds. */
  const TEST_TIMEOUT: int := 10
  const BENCHMARK_TIMEOUT: int := 60

  predicate IsDelimiter(c: char) { c == ' ' || c == TAB }

  predicate StartsWith(s: string, p: string) { |p| <= |s| && s[..|p|] == p }

  // ---------- settings ----------

  /** A capability that a test asks for, or whose absence it asks for. */
  datatype Wanted = Wanted(name: string, invert: bool)

  /** The part of struct test that a configuration can change. */
  datatype Settings = Settings(disabled: bool, ignored: bool, timeout: int, expectedRc: int, expectedSig: int,
                               caps: seq<Wanted>)

  function Digits(s: string, sofar: int): int {
    if s == "" || !IsDigit(s[0]) then sofar else Digits(s[1..], 10 * sofar + (s[0] as int - '0' as int))
  }

  /** atoi, on numbers that an int can hold. */
  function Atoi(s: string): int {
    if s == "" then 0
    else if IsSpace(s[0]) then Atoi(s[1..])
    else if s[0] == '-' then -Digits(s[1..], 0)
    else if s[0] == '+' then Digits(s[1..], 0)
    else Digits(s, 0)
  }

  /** What one word of a configuration line changes. */
  function Apply(t: Settings, tok: string): Settings {
    if tok == "disabled" then t.(disabled := true)
    else if tok == "ignored" then t.(ignored := true)
    else if StartsWith(tok, "timeout=") then t.(timeout := Atoi(tok[8..]))
    else if StartsWith(tok, "expected_rc=") then t.(expectedRc := Atoi(tok[12..]))
    else if StartsWith(tok, "signal=") then t.(expectedSig := Atoi(tok[7..]))
    else if StartsWith(tok, "cap_") then t.(caps := t.caps + [Wanted(tok[4..], false)])
    else if StartsWith(tok, "!cap_") then t.(caps := t.caps + [Wanted(tok[5..], true)])
    else t
  }

  function ApplyAll(t: Settings, toks: seq<string>): Settings
    decreases |toks|
  {
    if toks == [] then t else ApplyAll(Apply(t, toks[0]), toks[1..])
  }

  lemma {:induction false} ApplyAppend(t: Settings, a: seq<string>, b: seq<string>)
    ensures ApplyAll(t, a + b) == ApplyAll(ApplyAll(t, a), b)
    decreases |a|
  {
    if a == [] {
      assert a + b == b;
    } else {
      assert (a + b)[1..] == a[1..] + b;
      ApplyAppend(Apply(t, a[0]), a[1..], b);
    }
  }

  // ---------- words of a line ----------

  /** The position of the first character from i on that is, or is not, a delimiter. */
  function Skip(s: string, i: nat, delimiters: bool): (j: nat)
    requires i <= |s|
    ensures i <= j <= |s| && forall k :: i <= k < j ==> IsDelimiter(s[k]) == delimiters
    ensures j < |s| ==> IsDelimiter(s[j]) != delimiters
    decreases |s| - i
  {
    if i < |s| && IsDelimiter(s[i]) == delimiters then Skip(s, i + 1, delimiters) else i
  }

  /** The words of s from i on: maximal runs of characters that are no delimiters. */
  function Words(s: string, i: nat): (w: seq<string>)
    requires i <= |s|
    decreases |s| - i
  {
    var a := Skip(s, i, true);
    var b := Skip(s, a, false);
    if a == |s| then [] else [s[a..b]] + Words(s, b)
  }

  // ---------- the meaning of a file ----------

  /** The lines of a text, without their newlines. */
  function Lines(s: string): (l: seq<string>) {
    var n := FirstNewline(s);
    if n == |s| then [s] else [s[..n]] + Lines(s[n + 1..])
  }

  function FirstNewline(s: string): (n: nat)
    ensures n <= |s| && NEWLINE !in s[..n] && (n < |s| ==> s[n] == NEWLINE)
  {
    if s == "" || s[0] == NEWLINE then 0 else FirstNewline(s[1..]) + 1
  }

  function TrimLeft(s: string): string {
    if s != "" && IsSpace(s[0]) then TrimLeft(s[1..]) else s
  }

  /** The words of a line that concern the test: those of a line for its file or for all
      files, if it is no comment. */
  function WordsFor(line: string, file: string): seq<string> {
    var s := TrimLeft(line);
    if StartsWith(s, "#") then []
    else if StartsWith(s, file + ":") then Words(s, |file| + 1)
    else if StartsWith(s, "*:") then Words(s, 2)
    else []
  }

  function ConfigWords(lines: seq<string>, file: string): seq<string> {
    if lines == [] then [] else WordsFor(lines[0], file) + ConfigWords(lines[1..], file)
  }

  /** What a configuration file does to the settings of a test. */
  function Meaning(t: Settings, s: string, file: string): Settings {
    ApplyAll(t, ConfigWords(Lines(s), file))
  }

  // ---------- the meaning from a cursor on ----------

  lemma LastLine(t: Settings, s: string, file: string)
    requires FirstNewline(s) == |s|
    ensures Meaning(t, s, file) == ApplyAll(t, WordsFor(s, file))
  {
    assert Lines(s) == [s];
    assert [s] + [] == [s];
    ConfigWordsFirst(s, [], file);
    assert WordsFor(s, file) + [] == WordsFor(s, file);
  }

  lemma FirstOfLines(t: Settings, s: string, file: string, first: string, rest: string)
    requires Lines(s) == [first] + Lines(rest)
    ensures Meaning(t, s, file) == Meaning(ApplyAll(t, WordsFor(first, file)), rest, file)
  {
    ConfigWordsFirst(first, Lines(rest), file);
    ApplyAppend(t, WordsFor(first, file), ConfigWords(Lines(rest), file));
  }

  lemma {:induction false} NewlineAt(s: string, n: nat)
    requires n <= |s| && (forall i :: 0 <= i < n ==> s[i] != NEWLINE) && (n < |s| ==> s[n] == NEWLINE)
    ensures FirstNewline(s) == n
  {
    if n > 0 { NewlineAt(s[1..], n - 1); }
  }

  lemma MeaningLast(u: Settings, s: string, file: string)
    requires forall i :: 0 <= i < |s| ==> s[i] != NEWLINE
    ensures Meaning(u, s, file) == ApplyAll(u, WordsFor(s, file))
  {
    NewlineAt(s, |s|);
    LastLine(u, s, file);
  }

  lemma MeaningFirst(u: Settings, s: string, n: nat, line: string, rest: string, file: string)
    requires n < |s| && s[n] == NEWLINE && forall i :: 0 <= i < n ==> s[i] != NEWLINE
    requires line == s[..n] && rest == s[n + 1..]
    ensures Meaning(u, s, file) == Meaning(ApplyAll(u, WordsFor(line, file)), rest, file)
  {
    NewlineAt(s, n);
    assert Lines(s) == [line] + Lines(rest);
    FirstOfLines(u, s, file, line, rest);
  }

  /** The first line of what is left, and then the rest. */
  lemma MeaningStep(t: Settings, s: string, file: string)
    ensures var n := FirstNewline(s);
            Meaning(t, s, file) == if n == |s| then ApplyAll(t, WordsFor(s, file))
                                   else Meaning(ApplyAll(t, WordsFor(s[..n], file)), s[n + 1..], file)
  {
    var n := FirstNewline(s);
    if n == |s| {
      LastLine(t, s, file);
    } else {
      BeforeNewline(s);
      MeaningFirst(t, s, n, s[..n], s[n + 1..], file);
    }
  }

  lemma BeforeNewline(s: string)
    ensures forall i :: 0 <= i < FirstNewline(s) ==> s[i] != NEWLINE
  {
    forall i | 0 <= i < FirstNewline(s) ensures s[i] != NEWLINE { assert s[i] in s[..FirstNewline(s)]; }
  }

  lemma ConfigWordsFirst(line: string, rest: seq<string>, file: string)
    ensures ConfigWords([line] + rest, file) == WordsFor(line, file) + ConfigWords(rest, file)
  {
    assert ([line] + rest)[1..] == rest;
  }

  lemma NewlineStep(t: Settings, s: string, file: string)
    requires s != "" && s[0] == NEWLINE
    ensures Meaning(t, s, file) == Meaning(t, s[1..], file)
  {
    MeaningStep(t, s, file);
    assert s[..0] == "" && TrimLeft("") == "" && WordsFor("", file) == [];
    assert s[0 + 1..] == s[1..];
  }

  lemma BlankStep(s: string, file: string)
    requires s != "" && IsSpace(s[0])
    ensures WordsFor(s, file) == WordsFor(s[1..], file)
  {
    assert TrimLeft(s) == TrimLeft(s[1..]);
  }

  /** White space at the cursor does not matter, even where it ends lines. */
  lemma SpaceStep(t: Settings, s: string, file: string)
    requires s != "" && IsSpace(s[0])
    ensures Meaning(t, s, file) == Meaning(t, s[1..], file)
  {
    if s[0] == NEWLINE {
      NewlineStep(t, s, file);
    } else {
      LeadingSpace(t, s, file);
    }
  }

  lemma LeadingSpace(t: Settings, s: string, file: string)
    requires s != "" && IsSpace(s[0]) && s[0] != NEWLINE
    ensures Meaning(t, s, file) == Meaning(t, s[1..], file)
  {
    var n := FirstNewline(s);
    MeaningStep(t, s, file);
    MeaningStep(t, s[1..], file);
    assert FirstNewline(s[1..]) == n - 1;
    if n == |s| {
      BlankStep(s, file);
    } else {
      BlankStep(s[..n], file);
      assert s[..n][1..] == s[1..][..n - 1];
      assert s[1..][n..] == s[n + 1..];
    }
  }

  // ---------- the line at a cursor ----------

  lemma NotAt(s: string, p: string, i: nat)
    requires i < |p| && (i < |s| ==> s[i] != p[i])
    ensures !StartsWith(s, p)
  {
    assert |p| <= |s| ==> s[..|p|][i] != p[i];
  }

  lemma WordsEnd(line: string, a: nat)
    requires a <= |line| && Skip(line, a, true) == |line|
    ensures Words(line, a) == []
  {
  }

  /** The word from b to e, and those behind the delimiter that ends it. */
  lemma WordsNext(line: string, a: nat, b: nat, e: nat, next: nat)
    requires a <= |line| && b == Skip(line, a, true) < |line| && e == Skip(line, b, false)
    requires next == if e < |line| then e + 1 else e
    ensures a < next && Words(line, a) == [line[b..e]] + Words(line, next)
  {
    assert Words(line, a) == [line[b..e]] + Words(line, e);
    if e < |line| { assert Skip(line, e, true) == Skip(line, e + 1, true); }
  }

  lemma ApplyFirst(t: Settings, tok: string, rest: seq<string>)
    ensures ApplyAll(t, [tok] + rest) == ApplyAll(Apply(t, tok), rest)
  {
    assert ([tok] + rest)[1..] == rest;
  }

  /** The line at c ends before end. */
  ghost predicate EndAt(t: string, c: nat, end: nat) {
    && c <= end <= |t| && (end < |t| ==> t[end] == NEWLINE)
    && forall i {:trigger t[i]} :: c <= i < end ==> t[i] != NEWLINE
  }

  /** The words of a line that does not begin with white space. */
  function LineWords(line: string, file: string): seq<string> {
    if line != "" && line[0] == '#' then []
    else if StartsWith(line, file + ":") then Words(line, |file| + 1)
    else if StartsWith(line, "*:") then Words(line, 2)
    else []
  }

  lemma LineMeans(line: string, file: string)
    requires line == "" || !IsSpace(line[0])
    ensures WordsFor(line, file) == LineWords(line, file)
  {
    assert TrimLeft(line) == line;
    assert StartsWith(line, "#") <==> line != "" && line[0] == '#';
  }

  lemma NoWords(t: Settings, file: string)
    ensures ConfigWords(Lines(""), file) == [] && Meaning(t, "", file) == t
  {
    assert TrimLeft("") == "" && WordsFor("", file) == [];
    assert Lines("") == [""] && ConfigWords([""], file) == [];
  }

  /** final is what the text t makes of the settings u from c on.  The details come with
      `Look`. */
  ghost predicate Leads(u: Settings, t: string, c: nat, file: string, final: Settings) {
    forall k: int {:trigger Look(k)} :: Look(k) ==> c <= |t| && final == Meaning(u, t[c..], file)
  }

  lemma LeadsSpace(u: Settings, t: string, c: nat, file: string, final: Settings)
    requires c < |t| && IsSpace(t[c]) && Leads(u, t, c, file, final)
    ensures Leads(u, t, c + 1, file, final)
  {
    assert Look(0);
    SpaceStep(u, t[c..], file);
    assert t[c..][1..] == t[c + 1..];
  }

  /** The line at c makes v of u, and then the lines behind it lead to final. */
  lemma LeadsLine(u: Settings, t: string, c: nat, end: nat, line: string, v: Settings, file: string, final: Settings)
    requires EndAt(t, c, end) && line == t[c..end] && Leads(u, t, c, file, final)
    requires v == ApplyAll(u, WordsFor(line, file))
    ensures if end == |t| then final == v else Leads(v, t, end + 1, file, final)
  {
    assert Look(0);
    var s := t[c..];
    if end == |t| {
      assert s == line;
      MeaningLast(u, s, file);
    } else {
      assert s[..end - c] == line && s[end - c + 1..] == t[end + 1..];
      MeaningFirst(u, s, end - c, line, t[end + 1..], file);
    }
  }

  lemma LeadsEnd(u: Settings, t: string, file: string, final: Settings)
    requires Leads(u, t, |t|, file, final)
    ensures final == u
  {
    assert Look(0);
    assert t[|t|..] == "";
    NoWords(u, file);
  }

  lemma LeadsStart(u: Settings, t: string, file: string)
    ensures Leads(u, t, 0, file, Meaning(u, t, file))
  {
    assert t[0..] == t;
  }

  /** The text in a buffer, up to its first NUL. */
  function CText(s: string): string {
    if s == "" || s[0] == NUL then "" else [s[0]] + CText(s[1..])
  }

  /** It is all that stands before the first character 0. */
  lemma {:induction false} CTextIs(s: string)
    ensures |CText(s)| <= |s| && CText(s) == s[..|CText(s)|]
    ensures 0 as char in s <==> |CText(s)| < |s|
    ensures |CText(s)| < |s| ==> s[|CText(s)|] == 0 as char
    ensures forall i :: 0 <= i < |CText(s)| ==> CText(s)[i] != 0 as char
  {
    if s != "" && s[0] != NUL { CTextIs(s[1..]); }
  }
}
