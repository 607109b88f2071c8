/** What the configuration of bin/test.c becomes when old bytes of the stack stand behind the
    file: read does not end the buffer, and only a NUL ends the text in it. */
module ConfigStale {
  import opened Hiding
  import opened Wrappers
  import opened ConfigMeaning

  // ---------- what a list of words comes to ----------

  /** The value of the last word that begins with p. */
  function LastSet(words: seq<string>, p: string): Option<int> {
    if words == [] then None
    else
      var later := LastSet(words[1..], p);
      if later.Some? then later else if StartsWith(words[0], p) then Some(Atoi(words[0][|p|..])) else None
  }

  function Or(value: Option<int>, default: int): int {
    if value.Some? then value.value else default
  }

  function Wanting(word: string): seq<Wanted> {
    if StartsWith(word, "cap_") then [Wanted(word[4..], false)]
    else if StartsWith(word, "!cap_") then [Wanted(word[5..], true)]
    else []
  }

  function Wants(words: seq<string>): seq<Wanted> {
    if words == [] then [] else Wanting(words[0]) + Wants(words[1..])
  }

  predicate IsCapWord(word: string) { StartsWith(word, "cap_") || StartsWith(word, "!cap_") }

  lemma HeadOf(word: string, p: string)
    requires p != "" && StartsWith(word, p)
    ensures word != "" && word[0] == p[0]
  {
    assert word[..|p|][0] == p[0];
  }

  /** A word is of one kind at most. */
  lemma OneKind(word: string)
    ensures word == "disabled" ==> word[0] == 'd'
    ensures word == "ignored" ==> word[0] == 'i'
    ensures StartsWith(word, "timeout=") ==> word != "" && word[0] == 't'
    ensures StartsWith(word, "expected_rc=") ==> word != "" && word[0] == 'e'
    ensures StartsWith(word, "signal=") ==> word != "" && word[0] == 's'
    ensures StartsWith(word, "cap_") ==> word != "" && word[0] == 'c'
    ensures StartsWith(word, "!cap_") ==> word != "" && word[0] == '!'
  {
    if StartsWith(word, "timeout=") { HeadOf(word, "timeout="); }
    if StartsWith(word, "expected_rc=") { HeadOf(word, "expected_rc="); }
    if StartsWith(word, "signal=") { HeadOf(word, "signal="); }
    if StartsWith(word, "cap_") { HeadOf(word, "cap_"); }
    if StartsWith(word, "!cap_") { HeadOf(word, "!cap_"); }
  }

  lemma OneWord(t: Settings, word: string)
    ensures var u := Apply(t, word);
            && (u.disabled <==> t.disabled || word == "disabled")
            && (u.ignored <==> t.ignored || word == "ignored")
            && u.timeout == (if StartsWith(word, "timeout=") then Atoi(word[8..]) else t.timeout)
            && u.expectedRc == (if StartsWith(word, "expected_rc=") then Atoi(word[12..]) else t.expectedRc)
            && u.expectedSig == (if StartsWith(word, "signal=") then Atoi(word[7..]) else t.expectedSig)
            && u.caps == t.caps + Wanting(word)
  {
    OneKind(word);
  }

  lemma InFirst(words: seq<string>, w: string)
    requires words != []
    ensures w in words <==> words[0] == w || w in words[1..]
  {
    assert words == [words[0]] + words[1..];
  }

  /** A flag is set exactly when its word occurs, a number is that of the last word that sets
      it, and the capabilities are appended in order. */
  lemma {:induction false} ApplyAllMeans(t: Settings, words: seq<string>)
    ensures var u := ApplyAll(t, words);
            && (u.disabled <==> t.disabled || "disabled" in words)
            && (u.ignored <==> t.ignored || "ignored" in words)
            && u.timeout == Or(LastSet(words, "timeout="), t.timeout)
            && u.expectedRc == Or(LastSet(words, "expected_rc="), t.expectedRc)
            && u.expectedSig == Or(LastSet(words, "signal="), t.expectedSig)
            && u.caps == t.caps + Wants(words)
    decreases |words|
  {
    if words != [] {
      OneWord(t, words[0]);
      InFirst(words, "disabled");
      InFirst(words, "ignored");
      ApplyAllStep(t, Apply(t, words[0]), words);
    }
  }

  lemma {:induction false} ApplyAllStep(t: Settings, first: Settings, words: seq<string>)
    requires words != [] && ApplyAll(t, words) == ApplyAll(first, words[1..])
    requires first.timeout == if StartsWith(words[0], "timeout=") then Atoi(words[0][8..]) else t.timeout
    requires first.expectedRc == if StartsWith(words[0], "expected_rc=") then Atoi(words[0][12..]) else t.expectedRc
    requires first.expectedSig == if StartsWith(words[0], "signal=") then Atoi(words[0][7..]) else t.expectedSig
    requires first.caps == t.caps + Wanting(words[0])
    ensures var u := ApplyAll(t, words);
            && (u.disabled <==> first.disabled || "disabled" in words[1..])
            && (u.ignored <==> first.ignored || "ignored" in words[1..])
            && u.timeout == Or(LastSet(words, "timeout="), t.timeout)
            && u.expectedRc == Or(LastSet(words, "expected_rc="), t.expectedRc)
            && u.expectedSig == Or(LastSet(words, "signal="), t.expectedSig)
            && u.caps == t.caps + Wants(words)
    decreases |words|, 0
  {
    ApplyAllMeans(first, words[1..]);
    assert first.caps + Wants(words[1..]) == t.caps + (Wanting(words[0]) + Wants(words[1..]));
  }

  /** Some word asks for a capability exactly when the capabilities are more than they were. */
  lemma {:induction false} WantsIff(words: seq<string>)
    ensures Wants(words) == [] <==> forall i :: 0 <= i < |words| ==> !IsCapWord(words[i])
  {
    if words != [] {
      WantsIff(words[1..]);
      if Wants(words[1..]) == [] && !IsCapWord(words[0]) {
        forall i | 0 <= i < |words| ensures !IsCapWord(words[i]) {
          if i > 0 { assert words[i] == words[1..][i - 1]; }
        }
      }
      if Wants(words[1..]) != [] {
        var i :| 0 <= i < |words[1..]| && IsCapWord(words[1..][i]);
        assert IsCapWord(words[i + 1]);
      }
    }
  }

  /** Two lists of words make the same of the settings u. */
  predicate SameEffect(u: Settings, a: seq<string>, b: seq<string>) {
    && (u.disabled || ("disabled" in a <==> "disabled" in b))
    && (u.ignored || ("ignored" in a <==> "ignored" in b))
    && Or(LastSet(a, "timeout="), u.timeout) == Or(LastSet(b, "timeout="), u.timeout)
    && Or(LastSet(a, "expected_rc="), u.expectedRc) == Or(LastSet(b, "expected_rc="), u.expectedRc)
    && Or(LastSet(a, "signal="), u.expectedSig) == Or(LastSet(b, "signal="), u.expectedSig)
    && Wants(a) == Wants(b)
  }

  lemma SameEffectIff(u: Settings, a: seq<string>, b: seq<string>)
    ensures ApplyAll(u, a) == ApplyAll(u, b) <==> SameEffect(u, a, b)
  {
    ApplyAllMeans(u, a);
    ApplyAllMeans(u, b);
    var x, y := Wants(a), Wants(b);
    assert (u.caps + x)[|u.caps|..] == x && (u.caps + y)[|u.caps|..] == y;
  }

  // ---------- the text of a buffer ----------

  /** What a buffer with these old bytes holds after the read. */
  function AfterRead(contents: string, stack: string): (q: string)
    ensures |q| == |stack|
    ensures forall i {:trigger q[i]} :: 0 <= i < |q| ==> q[i] == if i < |contents| then contents[i] else stack[i]
  {
    var data := if |contents| < |stack| then contents else contents[..|stack|];
    data + stack[|data|..]
  }

  /** The text in a buffer whose first bytes are a and whose others are b. */
  lemma {:induction false} CTextSum(a: string, b: string)
    ensures CText(a + b) == if NUL in a then CText(a) else a + CText(b)
  {
    if a == "" {
      assert a + b == b;
    } else if a[0] != NUL {
      assert (a + b)[1..] == a[1..] + b;
      CTextSum(a[1..], b);
      assert NUL in a <==> NUL in a[1..];
    }
  }

  /** The old bytes behind the file do not matter when it holds a NUL or the first of them is
      one. */
  lemma FileAlone(t: Settings, data: string, behind: string, file: string)
    requires NUL in data || (behind != "" && behind[0] == NUL)
    ensures NUL in data + behind && Meaning(t, CText(data + behind), file) == Meaning(t, CText(data), file)
    ensures NUL !in data ==> CText(data) == data
  {
    assert (data + behind)[|data|..] == behind;
    CTextSum(data, behind);
    CTextSum(data, "");
    assert data + "" == data;
  }

  /** Where the line begins that is not ended before i. */
  function LineStart(s: string, i: nat): (k: nat)
    requires i <= |s|
    ensures k <= i && (k == 0 || s[k - 1] == NEWLINE) && forall j :: k <= j < i ==> s[j] != NEWLINE
  {
    if i == 0 || s[i - 1] == NEWLINE then i else LineStart(s, i - 1)
  }

  /** The last line, which no newline ends. */
  function Unended(s: string): string { s[LineStart(s, |s|)..] }

  /** The lines that a newline ends. */
  function Complete(s: string): (c: string)
    ensures WholeLines(c) && s == c + Unended(s)
  {
    s[..LineStart(s, |s|)]
  }

  predicate WholeLines(s: string) { s == "" || s[|s| - 1] == NEWLINE }

  lemma {:induction false} LeadsOn(t: Settings, s: string, c: nat, more: string, file: string, u: Settings,
      final: Settings)
    requires c <= |s| && WholeLines(s[c..]) && Leads(t, s + more, c, file, final) && Leads(t, s, c, file, u)
    ensures Leads(u, s + more, |s|, file, final)
    decreases |s| - c
  {
    if c == |s| {
      LeadsEnd(t, s, file, u);
    } else {
      var end := EndsAt(s, c);
      var line := s[c..end];
      var v := ApplyAll(t, WordsFor(line, file));
      LeadsLine(t, s, c, end, line, v, file, u);
      assert line == (s + more)[c..end];
      LeadsLine(t, s + more, c, end, line, v, file, final);
      LeadsOn(v, s, end + 1, more, file, u, final);
    }
  }

  lemma EndsAt(s: string, c: nat) returns (end: nat)
    requires c < |s| && WholeLines(s[c..])
    ensures c <= end < |s| && s[end] == NEWLINE
            && (forall i :: c <= i < end ==> s[i] != NEWLINE) && WholeLines(s[end + 1..])
  {
    end := c;
    while s[end] != NEWLINE
      invariant c <= end < |s| && forall i :: c <= i < end ==> s[i] != NEWLINE
      decreases |s| - end
    {
      assert s[c..][|s| - 1 - c] == s[|s| - 1];
      end := end + 1;
    }
    if end + 1 < |s| { assert s[end + 1..][|s| - 2 - end] == s[|s| - 1] == s[c..][|s| - 1 - c]; }
  }

  /** Whole lines come first, and then what follows. */
  lemma MeaningSum(t: Settings, s: string, more: string, file: string)
    requires WholeLines(s)
    ensures Meaning(t, s + more, file) == Meaning(Meaning(t, s, file), more, file)
  {
    LeadsStart(t, s, file);
    LeadsStart(t, s + more, file);
    assert s[0..] == s;
    LeadsOn(t, s, 0, more, file, Meaning(t, s, file), Meaning(t, s + more, file));
    assert Look(0);
    assert (s + more)[|s|..] == more;
  }

  lemma Together(a: string, b: string, c: string)
    ensures (a + b) + c == a + (b + c)
  {
  }

  lemma SameTextIff(u: Settings, a: string, b: string, file: string)
    ensures Meaning(u, a, file) == Meaning(u, b, file)
            <==> SameEffect(u, ConfigWords(Lines(a), file), ConfigWords(Lines(b), file))
  {
    SameEffectIff(u, ConfigWords(Lines(a), file), ConfigWords(Lines(b), file));
  }

  /** For which old bytes a file without a NUL still means what it says: exactly when they
      add nothing to its last line and to the lines behind it. */
  lemma StaleIff(t: Settings, data: string, behind: string, file: string)
    requires NUL !in data
    ensures var u, last := Meaning(t, Complete(data), file), Unended(data);
            Meaning(t, CText(data + behind), file) == Meaning(t, data, file)
            <==> SameEffect(u, ConfigWords(Lines(last + CText(behind)), file), ConfigWords(Lines(last), file))
  {
    var a, last, text := Complete(data), Unended(data), CText(behind);
    CTextSum(data, behind);
    Together(a, last, text);
    MeaningSum(t, a, last + text, file);
    MeaningSum(t, a, last, file);
    SameTextIff(Meaning(t, a, file), last + text, last, file);
  }

  /** For a file of whole lines: exactly when the words for this test among the old bytes
      change nothing of what the file has set. */
  lemma StaleLinesIff(t: Settings, data: string, behind: string, file: string)
    requires NUL !in data && WholeLines(data)
    ensures Meaning(t, CText(data + behind), file) == Meaning(t, data, file)
            <==> SameEffect(Meaning(t, data, file), ConfigWords(Lines(CText(behind)), file), [])
  {
    var u, text := Meaning(t, data, file), CText(behind);
    CTextSum(data, behind);
    MeaningSum(t, data, text, file);
    SameEffectIff(u, ConfigWords(Lines(text), file), []);
  }

  // ---------- two files ----------

  lemma OnlyWord(s: string, i: nat)
    requires i < |s| && forall k :: i <= k < |s| ==> !IsDelimiter(s[k])
    ensures Words(s, i) == [s[i..]]
  {
    assert Skip(s, i, true) == i && Skip(s, i, false) == |s|;
    assert s[i..|s|] == s[i..];
  }

  /** A line for all tests that consists of one word. */
  lemma ForAllTests(s: string, file: string)
    requires |s| >= 3 && s[0] == '*' && s[1] == ':'
    requires forall k :: 2 <= k < |s| ==> s[k] != ':' && s[k] != NEWLINE && !IsDelimiter(s[k])
    ensures FirstNewline(s) == |s| && WordsFor(s, file) == [s[2..]]
  {
    NewlineAt(s, |s|);
    OnlyWord(s, 2);
    assert TrimLeft(s) == s;
    assert s[..2] == "*:" && s[..1][0] == '*';
    var p := file + ":";
    if StartsWith(s, p) { assert s[|file|] == s[..|p|][|file|] == ':'; }
  }

  lemma IgnoredWords(file: string)
    ensures FirstNewline("*:ignored") == 9 && WordsFor("*:ignored", file) == ["ignored"]
  {
    var s := "*:ignored";
    ForAllTests(s, file);
    assert s[2..] == "ignored";
  }

  lemma IgnoredText(t: Settings, file: string)
    ensures Meaning(t, "*:ignored", file) == t.(ignored := true)
  {
    IgnoredWords(file);
    MeaningStep(t, "*:ignored", file);
    ApplyFirst(t, "ignored", []);
    assert ["ignored"] + [] == ["ignored"];
  }

  lemma CommentText(t: Settings, more: string, file: string)
    ensures Meaning(t, ['#', NEWLINE] + more, file) == Meaning(t, more, file)
  {
    var s := ['#', NEWLINE] + more;
    NewlineAt(s, 1);
    MeaningStep(t, s, file);
    assert s[..1] == "#" && s[2..] == more;
    assert TrimLeft("#") == "#" && WordsFor("#", file) == [];
  }

  lemma TextBefore(a: string, b: string)
    requires NUL !in a && NUL !in b
    ensures CText(a + (b + [NUL])) == a + b
  {
    CTextSum(a, b + [NUL]);
    CTextSum(b, [NUL]);
    assert CText([NUL]) == "" && b + "" == b;
  }

  /** A file with a comment only, before bytes that some other call has left. */
  lemma StaleExample(t: Settings, file: string)
    ensures Meaning(t, ['#', NEWLINE], file) == t
    ensures Meaning(t, CText(['#', NEWLINE] + ("*:ignored" + [NUL])), file) == t.(ignored := true)
  {
    TextBefore(['#', NEWLINE], "*:ignored");
    CommentText(t, "*:ignored", file);
    IgnoredText(t, file);
    CommentText(t, "", file);
    NoWords(t, file);
    assert ['#', NEWLINE] + "" == ['#', NEWLINE];
  }
}
