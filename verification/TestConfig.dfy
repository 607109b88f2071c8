/** test_read_config and test_should_run of bin/test.c: a cursor that moves over a buffer on
    the stack, and capabilities that point into it. */
module TestConfig {
  import opened Hiding
  import opened Chars
  import opened Wrappers
  import opened ConfigMeaning
  import opened ConfigStale
  import opened ConfigText

  const BUFFER_SIZE: nat := 4096

  /** The buffer of one call of test_read_config.  It lives until the call returns. */
  class Frame {
    const buf: array<char>
    var live: bool

    constructor (buf: array<char>)
      ensures this.buf == buf && live
    {
      this.buf := buf;
      live := true;
    }
  }

  /** struct required_cap: a pointer into a buffer, and whether the capability is to be missing. */
  datatype Cap = Cap(frame: Frame, at: nat, invert: bool)

  // ---------- strings in a buffer ----------

  /** name stands in the bytes q at `at`, not beyond upto, and a NUL ends it. */
  ghost predicate Spells(q: string, at: nat, name: string, upto: nat) {
    && at + |name| <= upto && at + |name| < |q| && q[at + |name|] == NUL
    && forall k {:trigger name[k]} :: 0 <= k < |name| ==> name[k] != NUL && q[at + k] == name[k]
  }

  /** r is q with NULs written over some bytes from `from` on and before `to`. */
  ghost predicate Cut(q: string, r: string, from: nat, to: nat) {
    |r| == |q| && forall i {:trigger r[i]} :: 0 <= i < |q| ==> r[i] == q[i] || (from <= i < to && r[i] == NUL)
  }

  /** What strtok writes behind a word does not change the word. */
  lemma SpellsStill(q: string, r: string, at: nat, name: string, from: nat, to: nat, upto: nat)
    requires Spells(q, at, name, from) && Cut(q, r, from, to) && from <= upto
    ensures Spells(r, at, name, upto)
  {
    assert r[at + |name|] == NUL;
    forall k | 0 <= k < |name| ensures name[k] != NUL && r[at + k] == name[k] {
      assert q[at + k] == name[k];
      assert r[at + k] == q[at + k];
    }
  }

  lemma CutOn(q: string, r: string, s: string, c: nat, from: nat, end: nat, to: nat)
    requires Cut(q, r, c, to) && Cut(r, s, from, end) && c <= from && end <= to
    ensures Cut(q, s, c, to)
  {
    forall i | 0 <= i < |q| ensures s[i] == q[i] || (c <= i < to && s[i] == NUL) {
      assert r[i] == q[i] || (c <= i < to && r[i] == NUL);
    }
  }

  // ---------- the settings of a test ----------

  /** The capabilities point to the names that are wanted.  The details come with `Look`. */
  ghost predicate Pointing(caps: seq<Cap>, frame: Frame, q: string, wanted: seq<Wanted>, upto: nat) {
    |caps| == |wanted| && forall n: int {:trigger Look(n)} :: Look(n) ==> Spelled(caps, frame, q, wanted, upto)
  }

  ghost predicate Spelled(caps: seq<Cap>, frame: Frame, q: string, wanted: seq<Wanted>, upto: nat)
    requires |caps| == |wanted|
  {
    forall i {:trigger caps[i]} {:trigger wanted[i]} :: 0 <= i < |caps| ==>
      caps[i].frame == frame && caps[i].invert == wanted[i].invert && Spells(q, caps[i].at, wanted[i].name, upto)
  }

  lemma PointingStill(caps: seq<Cap>, frame: Frame, q: string, r: string, wanted: seq<Wanted>, from: nat, to: nat,
      upto: nat)
    requires Pointing(caps, frame, q, wanted, from) && Cut(q, r, from, to) && from <= upto
    ensures Pointing(caps, frame, r, wanted, upto)
  {
    assert Look(0);
    forall i | 0 <= i < |caps| ensures Spells(r, caps[i].at, wanted[i].name, upto) {
      SpellsStill(q, r, caps[i].at, wanted[i].name, from, to, upto);
    }
  }

  /** A test with these fields has the settings u, where the capabilities of u are those
      behind before, and are spelled in q.  The details come with `Look`. */
  ghost predicate Shows(plain: Settings, caps: seq<Cap>, before: seq<Cap>, frame: Frame, q: string, u: Settings,
      upto: nat)
  {
    forall n: int {:trigger Look(n)} :: Look(n) ==>
      && plain == u.(caps := []) && |before| <= |caps| && caps[..|before|] == before
      && Pointing(caps[|before|..], frame, q, u.caps, upto)
  }

  lemma ShowsStill(plain: Settings, caps: seq<Cap>, before: seq<Cap>, frame: Frame, q: string, r: string, u: Settings,
      from: nat, to: nat, upto: nat)
    requires Shows(plain, caps, before, frame, q, u, from) && Cut(q, r, from, to) && from <= upto
    ensures Shows(plain, caps, before, frame, r, u, upto)
  {
    assert Look(0);
    PointingStill(caps[|before|..], frame, q, r, u.caps, from, to, upto);
  }

  lemma ShowsMore(plain: Settings, caps: seq<Cap>, before: seq<Cap>, frame: Frame, q: string, u: Settings, upto: nat,
      at: nat, name: string, invert: bool)
    requires Shows(plain, caps, before, frame, q, u, upto) && Spells(q, at, name, upto)
    ensures Shows(plain, caps + [Cap(frame, at, invert)], before, frame, q,
                  u.(caps := u.caps + [Wanted(name, invert)]), upto)
  {
    assert Look(0);
    var more := caps + [Cap(frame, at, invert)];
    assert more[|before|..] == caps[|before|..] + [Cap(frame, at, invert)];
    assert more[..|before|] == before;
  }

  /** What handle_testconf_token does to the fields of a test with the word tok at `at`. */
  ghost predicate TokenHandled(plain: Settings, caps: seq<Cap>, plain': Settings, caps': seq<Cap>, frame: Frame,
      at: nat, tok: string)
  {
    if StartsWith(tok, "cap_") then plain' == plain && caps' == caps + [Cap(frame, at + 4, false)]
    else if StartsWith(tok, "!cap_") then plain' == plain && caps' == caps + [Cap(frame, at + 5, true)]
    else plain' == Apply(plain, tok) && caps' == caps
  }

  /** The fields change as the settings do. */
  lemma ShowsToken(plain: Settings, caps: seq<Cap>, before: seq<Cap>, frame: Frame, q: string, u: Settings, upto: nat,
      plain': Settings, caps': seq<Cap>, at: nat, tok: string)
    requires Shows(plain, caps, before, frame, q, u, upto) && Spells(q, at, tok, upto)
    requires TokenHandled(plain, caps, plain', caps', frame, at, tok)
    ensures Shows(plain', caps', before, frame, q, Apply(u, tok), upto)
  {
    OneKind(tok);
    if StartsWith(tok, "cap_") {
      SpellsBehind(q, at, tok, upto, 4);
      ShowsMore(plain, caps, before, frame, q, u, upto, at + 4, tok[4..], false);
    } else if StartsWith(tok, "!cap_") {
      SpellsBehind(q, at, tok, upto, 5);
      ShowsMore(plain, caps, before, frame, q, u, upto, at + 5, tok[5..], true);
    } else {
      assert Look(0);
    }
  }

  lemma SpellsBehind(q: string, at: nat, word: string, upto: nat, n: nat)
    requires Spells(q, at, word, upto) && n <= |word|
    ensures Spells(q, at + n, word[n..], upto)
  {
    forall k | 0 <= k < |word| - n ensures word[n..][k] != NUL && q[at + n + k] == word[n..][k] {
      assert word[n + k] == word[n..][k];
    }
  }

  lemma SpellsEnd(q: string, at: nat, name: string, upto: nat, i: nat)
    requires Spells(q, at, name, upto) && at <= i <= at + |name| && q[i] == NUL
    ensures i == at + |name|
  {
    forall j | at <= j < at + |name| ensures q[j] != NUL { assert name[j - at] != NUL; }
  }

  /** struct test, as far as a configuration changes it. */
  class Test {
    var disabled: bool
    var ignored: bool
    var timeout: int
    var expectedRc: int
    var expectedSig: int
    var caps: seq<Cap>

    /** test_create. */
    constructor (benchmark: bool)
      ensures Plain() == Settings(false, false, if benchmark then 60 else 10, 0, 0, [])
      ensures caps == []
    {
      disabled, ignored, expectedRc, expectedSig, caps := false, false, 0, 0, [];
      timeout := if benchmark then BENCHMARK_TIMEOUT else TEST_TIMEOUT;
    }

    /** All settings but the capabilities. */
    function Plain(): Settings
      reads this
    {
      Settings(disabled, ignored, timeout, expectedRc, expectedSig, [])
    }

    /** test_add_required_cap: the pointer is kept, not the name. */
    method AddCap(frame: Frame, at: nat, invert: bool)
      modifies this
      ensures Plain() == old(Plain()) && caps == old(caps) + [Cap(frame, at, invert)]
    {
      caps := caps + [Cap(frame, at, invert)];
    }

    /** handle_testconf_token, for the word at `at`. */
    method HandleToken(frame: Frame, at: nat, ghost tok: string, ghost upto: nat)
      requires frame.live && Spells(frame.buf[..], at, tok, upto)
      modifies this
      ensures TokenHandled(old(Plain()), old(caps), Plain(), caps, frame, at, tok)
      ensures forall n: nat {:trigger Shown(n)} ::
                && (tok == "timeout=" + Shown(n) ==> timeout == n)
                && (tok == "expected_rc=" + Shown(n) ==> expectedRc == n)
                && (tok == "signal=" + Shown(n) ==> expectedSig == n)
    {
      OneKind(tok);
      NumberTokens(Plain(), tok);
      var word := StringAt(frame, at, tok, upto);
      if word == "disabled" {
        disabled := true;
        return;
      }
      if word == "ignored" {
        ignored := true;
        return;
      }
      var val := ParamValue(word, "timeout");
      if val.Some? {
        timeout := Atoi(val.value);
        return;
      }
      val := ParamValue(word, "expected_rc");
      if val.Some? {
        expectedRc := Atoi(val.value);
        return;
      }
      val := ParamValue(word, "signal");
      if val.Some? {
        expectedSig := Atoi(val.value);
        return;
      }
      if StartsWith(word, "cap_") {
        AddCap(frame, at + 4, false);
        return;
      }
      if StartsWith(word, "!cap_") {
        AddCap(frame, at + 5, true);
        return;
      }
    }
  }

  /** The string to which a pointer leads. */
  method StringAt(frame: Frame, at: nat, ghost name: string, ghost upto: nat) returns (s: string)
    requires frame.live && Spells(frame.buf[..], at, name, upto)
    ensures s == name
  {
    var i := at;
    s := "";
    while frame.buf[i] != NUL
      invariant at <= i <= at + |name| && s == name[..i - at]
      decreases at + |name| - i
    {
      assert i < at + |name|;
      assert name[i - at] == frame.buf[..][i];
      s, i := s + [frame.buf[i]], i + 1;
    }
    SpellsEnd(frame.buf[..], at, name, upto, i);
  }

  /** is_param_str: the value of the parameter, if the word sets it. */
  method ParamValue(str: string, param: string) returns (val: Option<string>)
    ensures val == if StartsWith(str, param + "=") then Some(str[|param| + 1..]) else None
  {
    var len := |param|;
    if !StartsWith(str, param) {
      return None;
    }
    if len >= |str| || str[len] != '=' {
      return None;
    }
    assert str[..len + 1] == param + "=";
    val := Some(str[len + 1..]);
  }

  // ---------- the buffer ----------

  /** The buffer holds the text t from c on, up to its first NUL at n, or up to its end. */
  ghost predicate Holds(buf: array<char>, t: string, c: int, n: nat)
    reads buf
  {
    && n <= buf.Length && n == |t| && 0 <= c <= n && (n < buf.Length ==> buf[n] == NUL)
    && (forall i {:trigger t[i]} :: 0 <= i < n ==> t[i] != NUL)
    && forall i {:trigger buf[i]} :: c <= i < n ==> buf[i] == t[i]
  }

  /** strchr for a newline: where the line at c ends, whether a newline ends it, and whether
      the search stays inside the buffer. */
  method LineEnd(buf: array<char>, ghost t: string, c: nat, ghost n: nat) returns (newline: int, inside: bool)
    requires Holds(buf, t, c, n)
    ensures newline == -1 || c <= newline < n
    ensures EndAt(t, c, if newline == -1 then n else newline)
    ensures inside <==> newline != -1 || n < buf.Length
  {
    var i := c;
    while i < buf.Length && buf[i] != NUL
      invariant c <= i <= n && forall j :: c <= j < i ==> t[j] != NEWLINE
      decreases n - i
    {
      assert i < n;
      if buf[i] == NEWLINE {
        return i, true;
      }
      i := i + 1;
    }
    return -1, i < buf.Length;
  }

  /** strncmp with the length of p: whether p is at c.  It does not read beyond the line. */
  method IsAt(buf: array<char>, ghost t: string, c: nat, ghost n: nat, ghost end: nat, p: string) returns (b: bool)
    requires Holds(buf, t, c, n) && NUL !in p && NEWLINE !in p && EndAt(t, c, end) && end < buf.Length
    ensures b == StartsWith(t[c..end], p)
  {
    var i := 0;
    ghost var line := t[c..end];
    while i < |p|
      invariant 0 <= i <= |p| && c + i <= end && line[..i] == p[..i]
    {
      assert p[i] in p;
      if buf[c + i] != p[i] {
        NotAt(line, p, i);
        return false;
      }
      assert c + i < n && t[c + i] == buf[c + i];
      assert line[..i + 1] == line[..i] + [line[i]] && p[..i + 1] == p[..i] + [p[i]];
      i := i + 1;
    }
    assert p[..i] == p;
    return true;
  }

  /** The line stands in the buffer from c on, up to a NUL. */
  ghost predicate HoldsLine(buf: array<char>, line: string, c: nat, from: nat)
    reads buf
  {
    && from <= |line| && c + |line| < buf.Length && buf[c + |line|] == NUL
    && (forall i {:trigger line[i]} :: 0 <= i < |line| ==> line[i] != NUL)
    && forall i {:trigger line[i]} :: from <= i < |line| ==> buf[c + i] == line[i]
  }

  /** strspn and strcspn over the delimiters. */
  method SkipTo(buf: array<char>, ghost line: string, c: nat, from: nat, delimiters: bool) returns (to: nat)
    requires HoldsLine(buf, line, c, from)
    ensures to == Skip(line, from, delimiters)
  {
    to := from;
    while buf[c + to] != NUL && IsDelimiter(buf[c + to]) == delimiters
      invariant from <= to <= |line| && Skip(line, from, delimiters) == Skip(line, to, delimiters)
      decreases |line| - to
    {
      assert to < |line| && buf[c + to] == line[to];
      to := to + 1;
    }
    assert to < |line| ==> buf[c + to] == line[to];
  }

  /** strtok ends a word with a NUL and remembers the place behind it. */
  method EndWord(buf: array<char>, ghost line: string, c: nat, e: nat) returns (next: nat)
    requires HoldsLine(buf, line, c, e)
    modifies buf
    ensures HoldsLine(buf, line, c, next) && next == if e < |line| then e + 1 else e
    ensures buf[c + e] == NUL && Cut(old(buf[..]), buf[..], c + e, c + |line|)
  {
    next := e;
    assert e < |line| ==> line[e] == buf[c + e];
    if buf[c + e] != NUL {
      buf[c + e] := NUL;
      next := e + 1;
    }
  }

  /** The next word of the line behind a is tok, and stands at `at`; more words are to be
      found from next on.  The details come with `Look`. */
  ghost predicate Next(q: string, line: string, c: nat, a: nat, more: bool, at: nat, next: nat, tok: string) {
    forall n: int {:trigger Look(n)} :: Look(n) ==>
      && a <= |line| && next <= |line|
      && if more then a < next && Words(line, a) == [tok] + Words(line, next) && Spells(q, at, tok, c + next)
         else next == a && Words(line, a) == []
  }

  lemma NextMeans(q: string, line: string, c: nat, a: nat, more: bool, at: nat, next: nat, tok: string)
    requires Next(q, line, c, a, more, at, next, tok)
    ensures a <= |line| && next <= |line|
    ensures if more then a < next && Words(line, a) == [tok] + Words(line, next) && Spells(q, at, tok, c + next)
            else next == a && Words(line, a) == []
  {
    assert Look(0);
  }

  lemma NoNext(q: string, line: string, c: nat, a: nat)
    requires a <= |line| && Skip(line, a, true) == |line|
    ensures Next(q, line, c, a, false, 0, a, "")
  {
    WordsEnd(line, a);
  }

  lemma NextIs(q: string, line: string, c: nat, a: nat, b: nat, e: nat, next: nat, tok: string)
    requires a <= |line| && b == Skip(line, a, true) < |line| && e == Skip(line, b, false)
    requires next == (if e < |line| then e + 1 else e) && tok == line[b..e] && Spells(q, c + b, tok, c + e)
    ensures Next(q, line, c, a, true, c + b, next, tok)
  {
    WordsNext(line, a, b, e, next);
  }

  /** One call of strtok: the next word, behind which a NUL is written. */
  method NextWord(buf: array<char>, ghost line: string, c: nat, a: nat) returns (more: bool, at: nat, next: nat,
      ghost tok: string)
    requires HoldsLine(buf, line, c, a)
    modifies buf
    ensures HoldsLine(buf, line, c, next) && a <= next && Cut(old(buf[..]), buf[..], c + a, c + |line|)
    ensures Next(buf[..], line, c, a, more, at, next, tok)
  {
    var b := SkipTo(buf, line, c, a, true);
    assert b < |line| ==> buf[c + b] == line[b];
    if buf[c + b] == NUL {
      NoNext(buf[..], line, c, a);
      return false, 0, a, "";
    }
    var e := SkipTo(buf, line, c, b, false);
    more, at, tok := true, c + b, line[b..e];
    next := CutWord(buf, line, c, b, e);
    NextIs(buf[..], line, c, a, b, e, next, tok);
  }

  /** The second half of strtok. */
  method CutWord(buf: array<char>, ghost line: string, c: nat, ghost b: nat, e: nat) returns (next: nat)
    requires HoldsLine(buf, line, c, b) && b <= e <= |line|
    modifies buf
    ensures HoldsLine(buf, line, c, next) && next == if e < |line| then e + 1 else e
    ensures Cut(old(buf[..]), buf[..], c + e, c + |line|) && Spells(buf[..], c + b, line[b..e], c + e)
  {
    ghost var was := buf[..];
    SameWord(was, line, c, b, e);
    next := EndWord(buf, line, c, e);
    WordSpelled(was, buf[..], c, b, e, c + |line|, line[b..e]);
  }

  lemma SameWord(q: string, line: string, c: nat, b: nat, e: nat)
    requires b <= e <= |line| && c + |line| < |q|
             && forall i {:trigger line[i]} :: b <= i < |line| ==> q[c + i] == line[i]
    requires forall i {:trigger line[i]} :: 0 <= i < |line| ==> line[i] != NUL
    ensures forall k {:trigger line[b..e][k]} :: 0 <= k < e - b ==>
              line[b..e][k] != NUL && q[c + b + k] == line[b..e][k]
  {
    forall k | 0 <= k < e - b ensures line[b..e][k] != NUL && q[c + b + k] == line[b..e][k] {
      assert line[b..e][k] == line[b + k];
    }
  }

  lemma WordSpelled(q: string, r: string, c: nat, b: nat, e: nat, to: nat, tok: string)
    requires b <= e && |tok| == e - b && c + e < |q| && Cut(q, r, c + e, to) && r[c + e] == NUL
    requires forall k {:trigger tok[k]} :: 0 <= k < e - b ==> tok[k] != NUL && q[c + b + k] == tok[k]
    ensures Spells(r, c + b, tok, c + e)
  {
    forall k | 0 <= k < |tok| ensures tok[k] != NUL && r[c + b + k] == tok[k] {
      assert r[c + b + k] == q[c + b + k];
    }
  }

  /** The strtok loop has come to a: the words before are applied, and have been cut off.
      The details come with `Look`. */
  ghost predicate Handled(frame: Frame, line: string, c: nat, start: nat, a: nat, test: Test, before: seq<Cap>,
      u: Settings, q: string)
    reads frame.buf, test
  {
    forall n: int {:trigger Look(n)} :: Look(n) ==>
      && start <= a && HoldsLine(frame.buf, line, c, a) && Cut(q, frame.buf[..], c + start, c + |line|)
      && Shows(test.Plain(), test.caps, before, frame, frame.buf[..], u, c + a)
  }

  /** strtok in the loop. */
  method NextInLine(frame: Frame, ghost line: string, c: nat, ghost start: nat, a: nat, ghost test: Test,
      ghost before: seq<Cap>, ghost u: Settings, ghost q: string)
      returns (more: bool, at: nat, next: nat, ghost tok: string)
    requires frame.live && Handled(frame, line, c, start, a, test, before, u, q)
    modifies frame.buf
    ensures Handled(frame, line, c, start, next, test, before, u, q)
    ensures Next(frame.buf[..], line, c, a, more, at, next, tok)
  {
    ghost var r := frame.buf[..];
    HandledParts(frame, line, c, start, a, test, before, u, q);
    more, at, next, tok := NextWord(frame.buf, line, c, a);
    HandledOn(frame, line, c, start, a, next, test, before, u, q, r);
  }

  lemma HandledParts(frame: Frame, line: string, c: nat, start: nat, a: nat, test: Test, before: seq<Cap>, u: Settings,
      q: string)
    requires Handled(frame, line, c, start, a, test, before, u, q)
    ensures start <= a && HoldsLine(frame.buf, line, c, a) && Cut(q, frame.buf[..], c + start, c + |line|)
    ensures Shows(test.Plain(), test.caps, before, frame, frame.buf[..], u, c + a)
  {
    assert Look(0);
  }

  lemma HandledOn(frame: Frame, line: string, c: nat, start: nat, a: nat, next: nat, test: Test, before: seq<Cap>,
      u: Settings, q: string, r: string)
    requires start <= a <= next && HoldsLine(frame.buf, line, c, next)
    requires Cut(q, r, c + start, c + |line|) && Cut(r, frame.buf[..], c + a, c + |line|)
    requires Shows(test.Plain(), test.caps, before, frame, r, u, c + a)
    ensures Handled(frame, line, c, start, next, test, before, u, q)
  {
    ShowsStill(test.Plain(), test.caps, before, frame, r, frame.buf[..], u, c + a, c + |line|, c + next);
    CutOn(q, r, frame.buf[..], c + start, c + a, c + |line|, c + |line|);
  }

  /** handle_testconf_token in the loop. */
  method TokenInLine(frame: Frame, ghost line: string, c: nat, ghost start: nat, a: nat, at: nat, ghost tok: string,
      test: Test, ghost before: seq<Cap>, ghost u: Settings, ghost q: string)
    requires frame.live && Handled(frame, line, c, start, a, test, before, u, q)
             && Spells(frame.buf[..], at, tok, c + a)
    modifies test
    ensures Handled(frame, line, c, start, a, test, before, Apply(u, tok), q)
  {
    assert Look(0);
    ghost var plain, caps := test.Plain(), test.caps;
    test.HandleToken(frame, at, tok, c + a);
    ShowsToken(plain, caps, before, frame, frame.buf[..], u, c + a, test.Plain(), test.caps, at, tok);
  }

  lemma HandledEnd(frame: Frame, line: string, c: nat, start: nat, a: nat, test: Test, before: seq<Cap>, u: Settings,
      q: string)
    requires Handled(frame, line, c, start, a, test, before, u, q)
    ensures Shows(test.Plain(), test.caps, before, frame, frame.buf[..], u, c + |line|)
    ensures Cut(q, frame.buf[..], c + start, c + |line|)
  {
    assert Look(0);
    ShowsStill(test.Plain(), test.caps, before, frame, frame.buf[..], frame.buf[..], u, c + a, c + a, c + |line|);
  }

  /** The strtok loop over the rest of a line. */
  method HandleLine(frame: Frame, ghost line: string, c: nat, start: nat, test: Test, ghost before: seq<Cap>,
      ghost u: Settings)
    requires frame.live && HoldsLine(frame.buf, line, c, start)
    requires Shows(test.Plain(), test.caps, before, frame, frame.buf[..], u, c + start)
    modifies frame.buf, test
    ensures Shows(test.Plain(), test.caps, before, frame, frame.buf[..], ApplyAll(u, Words(line, start)), c + |line|)
    ensures Cut(old(frame.buf[..]), frame.buf[..], c + start, c + |line|)
  {
    ghost var q, now, left, tok := frame.buf[..], u, Words(line, start), "";
    var more, at, a;
    more, at, a, tok := NextInLine(frame, line, c, start, start, test, before, now, q);
    NextMeans(frame.buf[..], line, c, start, more, at, a, tok);
    while more
      invariant Handled(frame, line, c, start, a, test, before, now, q) && a <= |line|
      invariant ApplyAll(u, left) == ApplyAll(now, if more then [tok] + Words(line, a) else [])
      invariant more ==> Spells(frame.buf[..], at, tok, c + a)
      decreases |line| - a, more
    {
      ApplyFirst(now, tok, Words(line, a));
      TokenInLine(frame, line, c, start, a, at, tok, test, before, now, q);
      now := Apply(now, tok);
      ghost var b := a;
      more, at, a, tok := NextInLine(frame, line, c, start, a, test, before, now, q);
      NextMeans(frame.buf[..], line, c, b, more, at, a, tok);
    }
    HandledEnd(frame, line, c, start, a, test, before, now, q);
  }

  // ---------- test_read_config ----------

  /** Where the words of the line at the cursor begin, if it is one for this test: the
      comparisons of test_read_config. */
  method WordsFrom(buf: array<char>, ghost t: string, c: nat, ghost n: nat, ghost end: nat, file: string)
      returns (from: int)
    requires Holds(buf, t, c, n) && NEWLINE !in file && NUL !in file && EndAt(t, c, end) && end < buf.Length
    ensures var line := t[c..end];
            if from == -1 then LineWords(line, file) == []
            else 0 <= from <= |line| && LineWords(line, file) == Words(line, from)
  {
    assert c < end ==> t[c..end][0] == buf[c];
    assert c == end ==> buf[c] == NUL || buf[c] == NEWLINE;
    if buf[c] == '#' {
      return -1;
    }
    var own := IsAt(buf, t, c, n, end, file + ":");
    if own {
      return |file| + 1;
    }
    var all := IsAt(buf, t, c, n, end, "*:");
    if all {
      return 2;
    }
    return -1;
  }

  lemma LineHeld(buf: array<char>, t: string, c: nat, end: nat, line: string, from: nat)
    requires c + from <= end <= |t| && end < buf.Length && buf[end] == NUL && line == t[c..end]
    requires (forall i :: 0 <= i < |t| ==> t[i] != NUL) && forall i :: c <= i < end ==> buf[i] == t[i]
    ensures HoldsLine(buf, line, c, from)
  {
  }

  /** Behind the line the text is as it was. */
  lemma HeldBehind(q: string, buf: array<char>, t: string, c: nat, n: nat, next: nat)
    requires n <= buf.Length && n == |t| && c <= next <= n && Cut(q, buf[..], c, next) && |q| == buf.Length
    requires forall i {:trigger t[i]} :: 0 <= i < n ==> t[i] != NUL
    requires (n < |q| ==> q[n] == NUL) && forall i {:trigger q[i]} :: next <= i < n ==> q[i] == t[i]
    ensures Holds(buf, t, next, n)
  {
    assert buf[..] == buf[..];
    forall i | next <= i < n ensures buf[i] == t[i] { assert buf[..][i] == q[i]; }
    assert n < buf.Length ==> buf[..][n] == NUL;
  }

  /** The words of the line from `from` on, behind which there is a newline or the end. */
  method MatchedLine(frame: Frame, ghost t: string, c: nat, ghost n: nat, newline: int, ghost end: nat, from: nat,
      test: Test, ghost before: seq<Cap>, ghost u: Settings)
    requires frame.live && Holds(frame.buf, t, c, n) && c + from <= end <= n && end < frame.buf.Length
    requires if newline == -1 then end == n else newline == end && end < n
    requires Shows(test.Plain(), test.caps, before, frame, frame.buf[..], u, c)
    modifies frame.buf, test
    ensures Shows(test.Plain(), test.caps, before, frame, frame.buf[..], ApplyAll(u, Words(t[c..end], from)), end)
    ensures Cut(old(frame.buf[..]), frame.buf[..], c, if newline == -1 then end else end + 1)
  {
    ghost var q, line := frame.buf[..], t[c..end];
    if newline != -1 { frame.buf[newline] := NUL; }
    ghost var r := frame.buf[..];
    LineHeld(frame.buf, t, c, end, line, from);
    ShowsStill(test.Plain(), test.caps, before, frame, q, r, u, c, if newline == -1 then end else end + 1, c + from);
    HandleLine(frame, line, c, from, test, before, u);
    CutOn(q, r, frame.buf[..], c, c + from, end, if newline == -1 then end else end + 1);
  }

  /** What the code does with the line at the cursor once it knows where it ends. */
  method MatchLine(frame: Frame, ghost t: string, c: nat, ghost n: nat, newline: int, ghost end: nat, file: string,
      test: Test, ghost before: seq<Cap>, ghost u: Settings)
    requires frame.live && Holds(frame.buf, t, c, n) && NEWLINE !in file && NUL !in file
    requires EndAt(t, c, end) && end < frame.buf.Length
    requires if newline == -1 then end == n else newline == end && end < n
    requires Shows(test.Plain(), test.caps, before, frame, frame.buf[..], u, c)
    modifies frame.buf, test
    ensures Shows(test.Plain(), test.caps, before, frame, frame.buf[..], ApplyAll(u, LineWords(t[c..end], file)), end)
    ensures Cut(old(frame.buf[..]), frame.buf[..], c, if newline == -1 then end else end + 1)
  {
    var from := WordsFrom(frame.buf, t, c, n, end, file);
    if from != -1 {
      MatchedLine(frame, t, c, n, newline, end, from, test, before, u);
    } else {
      ShowsStill(test.Plain(), test.caps, before, frame, frame.buf[..], frame.buf[..], u, c, c, end);
    }
  }

  /** The line at the cursor, and the cursor behind it. */
  method OneLine(frame: Frame, ghost t: string, c: nat, ghost n: nat, file: string, test: Test, ghost before: seq<Cap>,
      ghost u: Settings) returns (next: int, inside: bool, ghost end: nat)
    requires frame.live && Holds(frame.buf, t, c, n) && NEWLINE !in file && NUL !in file
    requires Shows(test.Plain(), test.caps, before, frame, frame.buf[..], u, c)
    modifies frame.buf, test
    ensures EndAt(t, c, end) && (inside <==> end < n || n < frame.buf.Length)
    ensures inside ==>
              Shows(test.Plain(), test.caps, before, frame, frame.buf[..], ApplyAll(u, LineWords(t[c..end], file)), end)
    ensures inside ==> if end == n then next == -1 else next == end + 1 && Holds(frame.buf, t, next, n)
  {
    ghost var q := frame.buf[..];
    next, inside := LineEnd(frame.buf, t, c, n);
    end := if next == -1 then n else next;
    if !inside {
      return;
    }
    MatchLine(frame, t, c, n, next, end, file, test, before, u);
    if next != -1 {
      next := next + 1;
      HeldBehind(q, frame.buf, t, c, n, next);
    }
  }

  lemma SpaceAt(buf: array<char>, t: string, c: nat, n: nat, file: string, u: Settings, final: Settings)
    requires Holds(buf, t, c, n) && Leads(u, t, c, file, final) && c < buf.Length && IsSpace(buf[c])
    ensures Holds(buf, t, c + 1, n) && Leads(u, t, c + 1, file, final)
  {
    assert !IsSpace(NUL);
    assert c < n && t[c] == buf[c];
    LeadsSpace(u, t, c, file, final);
  }

  /** The loop that moves the cursor over white space. */
  method SkipSpace(buf: array<char>, ghost t: string, from: nat, ghost n: nat, file: string, ghost u: Settings,
      ghost final: Settings) returns (c: nat, inside: bool)
    requires Holds(buf, t, from, n) && Leads(u, t, from, file, final)
    ensures from <= c && Holds(buf, t, c, n) && Leads(u, t, c, file, final) && (c < n ==> !IsSpace(t[c]))
    ensures inside <==> c < buf.Length
  {
    c := from;
    while c < buf.Length && IsSpace(buf[c])
      invariant from <= c <= n && Holds(buf, t, c, n) && Leads(u, t, c, file, final)
      decreases n - c
    {
      SpaceAt(buf, t, c, n, file, u, final);
      c := c + 1;
    }
    inside := c < buf.Length;
  }

  /** Between the rounds of the loop: the settings so far are u, and what is left makes
      final of them. */
  ghost predicate AtCursor(frame: Frame, t: string, c: int, n: nat, file: string, test: Test, before: seq<Cap>,
      u: Settings, final: Settings)
    reads frame.buf, test
  {
    && frame.buf.Length >= n
    && if c == -1 then n < frame.buf.Length && u == final
                       && Shows(test.Plain(), test.caps, before, frame, frame.buf[..], u, n)
       else Holds(frame.buf, t, c, n) && Leads(u, t, c, file, final)
            && Shows(test.Plain(), test.caps, before, frame, frame.buf[..], u, c)
  }

  /** One round of the loop of test_read_config. */
  method Round(frame: Frame, ghost t: string, c: nat, ghost n: nat, file: string, test: Test, ghost before: seq<Cap>,
      ghost u: Settings, ghost final: Settings) returns (next: int, inside: bool, ghost v: Settings)
    requires frame.live && AtCursor(frame, t, c, n, file, test, before, u, final) && NEWLINE !in file && NUL !in file
    modifies frame.buf, test
    ensures inside ==> AtCursor(frame, t, next, n, file, test, before, v, final) && (next == -1 || c < next)
    ensures !inside ==> n == frame.buf.Length
  {
    var d;
    d, inside := SkipSpace(frame.buf, t, c, n, file, u, final);
    v := u;
    if !inside {
      return -1, false, u;
    }
    ShowsStill(test.Plain(), test.caps, before, frame, frame.buf[..], frame.buf[..], u, c, c, d);
    ghost var end;
    next, inside, end := OneLine(frame, t, d, n, file, test, before, u);
    ghost var line := t[d..end];
    v := ApplyAll(u, LineWords(line, file));
    LineMeans(line, file);
    LeadsLine(u, t, d, end, line, v, file, final);
    if inside {
      ghost var upto := if next == -1 then n else next;
      ShowsStill(test.Plain(), test.caps, before, frame, frame.buf[..], frame.buf[..], v, end, end, upto);
    }
  }

  lemma ShowsStart(plain: Settings, caps: seq<Cap>, frame: Frame, q: string)
    requires plain.caps == []
    ensures Shows(plain, caps, caps, frame, q, plain, 0)
  {
    assert caps[|caps|..] == [] && caps[..|caps|] == caps;
  }

  lemma ShowsMeans(plain: Settings, caps: seq<Cap>, before: seq<Cap>, frame: Frame, q: string, u: Settings, upto: nat)
    requires Shows(plain, caps, before, frame, q, u, upto)
    ensures plain == u.(caps := []) && |caps| == |before| + |u.caps| && caps[..|before|] == before
    ensures Spelled(caps[|before|..], frame, q, u.caps, upto)
  {
    assert Look(0);
  }

  lemma Started(frame: Frame, t: string, test: Test, file: string)
    requires t == CText(frame.buf[..])
    ensures AtCursor(frame, t, 0, |t|, file, test, test.caps, test.Plain(), Meaning(test.Plain(), t, file))
    ensures NUL in frame.buf[..] <==> |t| < frame.buf.Length
  {
    var q := frame.buf[..];
    CTextIs(q);
    LeadsStart(test.Plain(), t, file);
    ShowsStart(test.Plain(), test.caps, frame, q);
    forall i | 0 <= i < |t| ensures frame.buf[i] == t[i] { assert q[i] == t[i]; }
    assert |t| < |q| ==> q[|t|] == NUL;
  }

  lemma AtEnd(frame: Frame, t: string, c: int, n: nat, file: string, test: Test, before: seq<Cap>, u: Settings,
      final: Settings)
    requires AtCursor(frame, t, c, n, file, test, before, u, final) && (c == -1 || c == n < frame.buf.Length)
    ensures Shows(test.Plain(), test.caps, before, frame, frame.buf[..], final, n)
  {
    if c != -1 { LeadsEnd(u, t, file, final); }
  }

  /** The loop of test_read_config.  It stays inside the buffer exactly when that holds a NUL,
      and then the settings are what the text up to the first NUL makes of them; every
      capability points to its name, also after all that strtok has written. */
  method ReadConfig(frame: Frame, file: string, test: Test) returns (inside: bool)
    requires frame.live && NEWLINE !in file && NUL !in file
    modifies frame.buf, test
    ensures inside <==> NUL in old(frame.buf[..])
    ensures inside ==>
              var m := Meaning(old(test.Plain()), CText(old(frame.buf[..])), file);
              && test.Plain() == m.(caps := []) && |test.caps| == |old(test.caps)| + |m.caps|
              && test.caps[..|old(test.caps)|] == old(test.caps)
              && Spelled(test.caps[|old(test.caps)|..], frame, frame.buf[..], m.caps, frame.buf.Length)
  {
    ghost var t := CText(frame.buf[..]);
    ghost var n, u, before := |t|, test.Plain(), test.caps;
    ghost var final := Meaning(u, t, file);
    Started(frame, t, test, file);
    var c := 0;
    inside := true;
    while inside && c != -1 && c < frame.buf.Length && frame.buf[c] != NUL
      invariant if inside then AtCursor(frame, t, c, n, file, test, before, u, final) else n == frame.buf.Length
      decreases inside, if c == -1 then 0 else 1 + n - c
    {
      c, inside, u := Round(frame, t, c, n, file, test, before, u, final);
    }
    if inside && c == frame.buf.Length {
      inside := false;
    }
    if inside {
      AtEnd(frame, t, c, n, file, test, before, u, final);
      ShowsStill(test.Plain(), test.caps, before, frame, frame.buf[..], frame.buf[..], final, n, n, frame.buf.Length);
      ShowsMeans(test.Plain(), test.caps, before, frame, frame.buf[..], final, frame.buf.Length);
    }
  }

  // ---------- from the path to the settings ----------

  /** The position of the last slash before n, or -1. */
  function SlashBefore(path: string, n: nat): (i: int)
    requires n <= |path|
    ensures -1 <= i < n && (i >= 0 ==> path[i] == '/') && forall j :: i < j < n ==> path[j] != '/'
  {
    if n == 0 then -1 else if path[n - 1] == '/' then n - 1 else SlashBefore(path, n - 1)
  }

  /** strrchr for a slash. */
  method LastSlash(path: string) returns (i: int)
    ensures i == SlashBefore(path, |path|)
  {
    i := |path| - 1;
    while i >= 0 && path[i] != '/'
      invariant -1 <= i < |path| && SlashBefore(path, i + 1) == SlashBefore(path, |path|)
    {
      i := i - 1;
    }
  }

  /** The file of the test, for a path with a slash. */
  function FileOf(path: string): string { path[SlashBefore(path, |path|) + 1..] }

  /** read: the first bytes of the buffer become those of the file, and the others stay. */
  method Read(buf: array<char>, contents: string) returns (len: nat)
    modifies buf
    ensures buf[..] == AfterRead(contents, old(buf[..]))
    ensures len == if |contents| < buf.Length then |contents| else buf.Length
  {
    len := if |contents| < buf.Length then |contents| else buf.Length;
    forall i | 0 <= i < len { buf[i] := contents[i]; }
  }

  /** The contents of the configuration file beside the test, if there is one. */
  function ConfigOf(path: string, files: string -> Option<string>): Option<string> {
    var i := SlashBefore(path, |path|);
    if i < 0 then None else files(path[..i] + "/tests.conf")
  }

  /** The test has the settings m, and the capabilities behind those of before point into a
      buffer that is gone. */
  ghost predicate Left(test: Test, before: seq<Cap>, m: Settings)
    reads test, set c | c in test.caps :: c.frame
  {
    && test.Plain() == m.(caps := []) && |test.caps| == |before| + |m.caps| && test.caps[..|before|] == before
    && forall i {:trigger test.caps[i]} :: |before| <= i < |test.caps| ==> !test.caps[i].frame.live
  }

  /** test_read_config from the read on. */
  method ReadFile(test: Test, file: string, contents: string, stack: string) returns (inside: bool)
    requires |stack| == 4096 && NUL !in file && NEWLINE !in file
    modifies test
    ensures var q := AfterRead(contents, stack);
            && (inside <==> NUL in q)
            && (inside ==> Left(test, old(test.caps), Meaning(old(test.Plain()), CText(q), file)))
  {
    var buf := new char[BUFFER_SIZE](i requires 0 <= i < |stack| => stack[i]);
    assert buf[..] == stack;
    var len := Read(buf, contents);
    var frame := new Frame(buf);
    ghost var before := test.caps;
    inside := ReadConfig(frame, file, test);
    frame.live := false;
    if inside {
      forall i | |before| <= i < |test.caps| ensures test.caps[i].frame == frame {
        assert test.caps[|before|..][i - |before|] == test.caps[i];
      }
    }
  }

  /** test_read_config, where files maps the names of readable files to their contents and
      stack is what the bytes of its buffer held before.  When it returns the buffer is gone. */
  method TestReadConfig(test: Test, path: string, files: string -> Option<string>, stack: string) returns (inside: bool)
    requires |stack| == 4096 && NUL !in path && NEWLINE !in FileOf(path)
    modifies test
    ensures match ConfigOf(path, files)
            case None => inside && test.Plain() == old(test.Plain()) && test.caps == old(test.caps)
            case Some(contents) =>
              var q := AfterRead(contents, stack);
              && (inside <==> NUL in q)
              && (inside ==>
                    Left(test, old(test.caps), Meaning(old(test.Plain()), CText(q), FileOf(path))))
  {
    var c := LastSlash(path);
    if c < 0 {
      return true;
    }
    var dir, file := path[..c], path[c + 1..];
    var contents := files(dir + "/tests.conf");
    if contents.None? {
      return true;
    }
    inside := ReadFile(test, file, contents.value, stack);
  }

  /** Which file that is. */
  lemma ConfigBeside(dir: string, file: string, files: string -> Option<string>)
    requires '/' !in file
    ensures ConfigOf(dir + "/" + file, files) == files(dir + "/tests.conf") && FileOf(dir + "/" + file) == file
    ensures ConfigOf(file, files) == None
  {
    var path := dir + "/" + file;
    assert forall j :: 0 <= j < |file| ==> file[j] in file;
    SlashAt(path, |dir|, file);
    assert path[..|dir|] == dir;
  }

  // ---------- test_should_run ----------

  /** What test_should_run comes to: it may also go on to read a buffer that is gone. */
  datatype Verdict = Runs | Skipped | ReadsDeadBuffer

  /** The capability can be read, and its name is that of w. */
  ghost predicate Legible(c: Cap, w: Wanted)
    reads c.frame, c.frame.buf
  {
    c.frame.live && c.invert == w.invert && Spells(c.frame.buf[..], c.at, w.name, c.frame.buf.Length)
  }

  /** The first k capabilities can be read, and are granted. */
  ghost predicate AllGranted(caps: seq<Cap>, wanted: seq<Wanted>, available: string -> bool, k: nat)
    requires k <= |caps| == |wanted|
    reads set c | c in caps :: c.frame
  {
    forall i {:trigger caps[i]} :: 0 <= i < k ==> caps[i].frame.live && available(wanted[i].name) != wanted[i].invert
  }

  lemma OneMoreGranted(caps: seq<Cap>, wanted: seq<Wanted>, available: string -> bool, k: nat)
    requires k < |caps| == |wanted| && AllGranted(caps, wanted, available, k)
    requires caps[k].frame.live && available(wanted[k].name) != wanted[k].invert
    ensures AllGranted(caps, wanted, available, k + 1)
  {
  }

  ghost predicate Decided(test: Test, available: string -> bool, wanted: seq<Wanted>, verdict: Verdict)
    requires |wanted| == |test.caps|
    reads test, set c | c in test.caps :: c.frame
  {
    && (verdict == Runs <==> !test.disabled && AllGranted(test.caps, wanted, available, |wanted|))
    && (verdict == ReadsDeadBuffer <==>
          !test.disabled
          && exists k {:trigger test.caps[k]} :: 0 <= k < |wanted| && !test.caps[k].frame.live
                                               && AllGranted(test.caps, wanted, available, k))
  }

  /** A test runs exactly when it is not disabled and every capability it asks for is there,
      or, if it asks for its absence, is not there; all this as long as the buffers live into
      which the capabilities point.  The first that does not, if all before are granted, is
      read all the same. */
  method ShouldRun(test: Test, available: string -> bool, ghost wanted: seq<Wanted>) returns (verdict: Verdict)
    requires |wanted| == |test.caps|
    requires forall i {:trigger test.caps[i]} :: 0 <= i < |wanted| && test.caps[i].frame.live ==>
               Legible(test.caps[i], wanted[i])
    ensures Decided(test, available, wanted, verdict)
  {
    if test.disabled {
      return Skipped;
    }
    var x := 0;
    while x < |test.caps|
      invariant 0 <= x <= |test.caps| && AllGranted(test.caps, wanted, available, x)
    {
      var cap := test.caps[x];
      if !cap.frame.live {
        return ReadsDeadBuffer;
      }
      var name := StringAt(cap.frame, cap.at, wanted[x].name, cap.frame.buf.Length);
      if available(name) == cap.invert {
        assert available(wanted[x].name) == wanted[x].invert;
        return Skipped;
      }
      OneMoreGranted(test.caps, wanted, available, x);
      x := x + 1;
    }
    return Runs;
  }

  // ---------- run_test ----------

  ghost predicate Readable(test: Test)
    reads test, set c | c in test.caps :: c.frame
  {
    forall i {:trigger test.caps[i]} :: 0 <= i < |test.caps| ==> test.caps[i].frame.live
  }

  /** A word that asks for a capability, or for its absence. */
  ghost predicate Asks(words: seq<string>) {
    exists i :: 0 <= i < |words| && IsCapWord(words[i])
  }

  /** The words of the lines for the test, among what the buffer holds. */
  ghost function WordsOf(path: string, files: string -> Option<string>, stack: string): seq<string> {
    match ConfigOf(path, files)
    case None => []
    case Some(contents) => ConfigWords(Lines(CText(AfterRead(contents, stack))), FileOf(path))
  }

  /** The start of run_test, for a test as test_create leaves it: after test_read_config the
      settings can be read exactly when no word of the lines for this test asks for a
      capability; otherwise test_should_run goes on to read the buffer, which is gone, unless
      the test is disabled. */
  method StartTest(test: Test, path: string, files: string -> Option<string>, stack: string, available: string -> bool)
      returns (inside: bool, verdict: Verdict)
    requires |stack| == 4096 && NUL !in path && NEWLINE !in FileOf(path) && test.caps == []
    modifies test
    ensures inside <==> ConfigOf(path, files).None? || NUL in AfterRead(ConfigOf(path, files).value, stack)
    ensures inside ==>
              var words := WordsOf(path, files, stack);
              && (Readable(test) <==> !Asks(words))
              && verdict == if old(test.disabled) || "disabled" in words then Skipped
                            else if Asks(words) then ReadsDeadBuffer else Runs
  {
    ghost var t := test.Plain();
    inside := TestReadConfig(test, path, files, stack);
    if !inside {
      return false, Skipped;
    }
    ghost var words := WordsOf(path, files, stack);
    ghost var wanted := Wants(words);
    ApplyAllMeans(t, words);
    assert [] + wanted == wanted;
    verdict := ShouldRun(test, available, wanted);
    StartDecided(test, available, words, verdict);
  }

  /** When no buffer lives any more. */
  lemma StartDecided(test: Test, available: string -> bool, words: seq<string>, verdict: Verdict)
    requires |test.caps| == |Wants(words)| && Decided(test, available, Wants(words), verdict)
    requires forall i {:trigger test.caps[i]} :: 0 <= i < |test.caps| ==> !test.caps[i].frame.live
    ensures Readable(test) <==> !Asks(words)
    ensures verdict == if test.disabled then Skipped else if Asks(words) then ReadsDeadBuffer else Runs
  {
    WantsIff(words);
    if test.caps != [] {
      assert !test.caps[0].frame.live && AllGranted(test.caps, Wants(words), available, 0);
    }
  }

  // ---------- a test that asks for a capability ----------

  const ROOT_LINE: string := "02-root: cap_root"

  lemma RootLine()
    ensures ROOT_LINE == "02-root" + ":" + " " + "cap_root" && |ROOT_LINE| == 17 && IsCapWord("cap_root")
    ensures forall i :: 0 <= i < 8 ==> !IsDelimiter("cap_root"[i])
  {
  }

  lemma RootClean()
    ensures NUL !in ROOT_LINE + [NEWLINE] && forall i :: 0 <= i < |ROOT_LINE| ==> ROOT_LINE[i] != NEWLINE
  {
  }

  lemma RootWords()
    ensures ConfigWords(Lines(ROOT_LINE + [NEWLINE]), "02-root") == ["cap_root"]
  {
    RootLine();
    RootClean();
    OneWordLine("02-root", "cap_root", ROOT_LINE);
    OneLineFile("02-root", ROOT_LINE, ["cap_root"]);
  }

  lemma SlashAt(path: string, i: nat, file: string)
    requires i < |path| && path[i] == '/' && file == path[i + 1..] && forall j :: 0 <= j < |file| ==> file[j] != '/'
    ensures SlashBefore(path, |path|) == i && FileOf(path) == file
  {
    forall j | i < j < |path| ensures path[j] != '/' { assert path[j] == file[j - i - 1]; }
  }

  lemma ZeroBehind(contents: string, stack: string)
    requires |contents| < |stack| && NUL !in contents && forall i :: 0 <= i < |stack| ==> stack[i] == NUL
    ensures NUL in AfterRead(contents, stack) && CText(AfterRead(contents, stack)) == contents
  {
    var behind := stack[|contents|..];
    assert behind[0] == NUL && AfterRead(contents, stack)[|contents|] == NUL;
    CTextSum(contents, behind);
    assert contents + CText(behind) == contents;
  }

  /** A call for the test path with this file beside it, and zeros in the buffer. */
  lemma ReadWords(path: string, i: nat, file: string, files: string -> Option<string>, contents: string, stack: string)
    requires i < |path| && path[i] == '/' && file == path[i + 1..] && forall j :: 0 <= j < |file| ==> file[j] != '/'
    requires (forall name :: files(name) == Some(contents)) && NUL !in contents && |contents| < |stack|
    requires forall i :: 0 <= i < |stack| ==> stack[i] == NUL
    ensures FileOf(path) == file && ConfigOf(path, files) == Some(contents) && NUL in AfterRead(contents, stack)
    ensures WordsOf(path, files, stack) == ConfigWords(Lines(contents), file)
  {
    SlashAt(path, i, file);
    ZeroBehind(contents, stack);
  }

  const ROOT_PATH: string := "00-testsuite/02-root"

  lemma RootPath()
    ensures |ROOT_PATH| == 20 && ROOT_PATH[12] == '/' && ROOT_PATH[13..] == "02-root"
    ensures NUL !in ROOT_PATH && NEWLINE !in ROOT_PATH[13..] && forall j :: 0 <= j < 7 ==> "02-root"[j] != '/'
  {
  }

  /** A line of tests/00-testsuite/tests.conf: whatever capabilities there are, the code comes
      to read the name of one in a buffer that is gone. */
  method RootTest(available: string -> bool) returns (verdict: Verdict)
    ensures verdict == ReadsDeadBuffer
  {
    var test := new Test(false);
    var contents, stack := ROOT_LINE + [NEWLINE], seq(BUFFER_SIZE, _ => NUL);
    var files := (name: string) => Some(contents);
    RootPath();
    RootLine();
    RootClean();
    RootWords();
    ReadWords(ROOT_PATH, 12, "02-root", files, contents, stack);
    var inside;
    inside, verdict := StartTest(test, ROOT_PATH, files, stack, available);
    assert WordsOf(ROOT_PATH, files, stack)[0] == "cap_root";
  }
}
