/** SGR escape sequences (ECMA-48: CSI is ESC '[' by section 5.4, SELECT
    GRAPHIC RENDITION is section 8.3.117): the templates that wrap a
    message, and the stripper that removes every sequence of the form
    ESC '[' [0-9;?]+ 'm' from a text. */
module Sgr {

  /** The escape character, code 27. */
  const Esc: char := 27 as char

  /** The parameter string of the reset sequence. */
  const ResetCode: string := "0"

  /** ESC[0m: turns every attribute off. */
  const ResetSet: string := [Esc, '[', '0', 'm']

  /** ESC[<code>m: sets the attributes of code and leaves them on. The
      code can be read back from the sequence, and the sequence is a whole
      match of the stripping pattern exactly when the code is a non-empty
      run of [0-9;?]. */
  function SettingTpl(code: string): (r: string)
    ensures |r| == |code| + 3 && r[2..|r| - 1] == code
    ensures IsSequence(r) <==> code != [] && AllParamChars(code)
  {
    var r := [Esc, '['] + code + "m";
    assert r[2..|r| - 1] == code;
    r
  }

  /** ESC[<code>m<message>ESC[0m: the message with the attributes set
      before it and reset after it. The message sits unchanged between the
      setting sequence and a reset sequence that is always a whole match. */
  function FullColor(code: string, message: string): (r: string)
    ensures |r| == |code| + |message| + 7
    ensures r[..|code| + 3] == SettingTpl(code)
    ensures r[|code| + 3..|r| - 4] == message
    ensures r[|r| - 4..] == ResetSet && IsSequence(r[|r| - 4..])
  {
    var r := SettingTpl(code) + message + ResetSet;
    assert r[..|code| + 3] == SettingTpl(code);
    assert r[|code| + 3..|r| - 4] == message;
    assert r[|r| - 4..] == ResetSet;
    assert ResetSet[2..3] == ResetCode;
    r
  }

  /** ESC[0m is the setting template applied to the reset code "0", and it
      is a whole match of the stripping pattern. */
  lemma ResetSequence()
    ensures ResetSet == SettingTpl(ResetCode)
    ensures IsSequence(ResetSet)
  {
    assert ResetSet[2..3] == ResetCode;
  }

  /*************************************************************
   * Recognising one sequence
   *************************************************************/

  /** The character class of the pattern: an ASCII digit, ';' or '?'. */
  predicate IsParamChar(ch: char) {
    '0' <= ch <= '9' || ch == ';' || ch == '?'
  }

  predicate AllParamChars(s: string) {
    forall i :: 0 <= i < |s| ==> IsParamChar(s[i])
  }

  /** A whole match of the pattern: ESC, '[', one or more parameter
      characters, 'm'. */
  predicate IsSequence(t: string) {
    |t| >= 4 && t[0] == Esc && t[1] == '[' && t[|t| - 1] == 'm' && AllParamChars(t[2..|t| - 1])
  }

  /** The length of the run of parameter characters s starts with. */
  function ParamRun(s: string): (n: nat)
    ensures n <= |s|
    ensures AllParamChars(s[..n])
    ensures n < |s| ==> !IsParamChar(s[n])
  {
    if s != [] && IsParamChar(s[0]) then
      var n := 1 + ParamRun(s[1..]);
      assert s[..n] == [s[0]] + s[1..][..n - 1];
      n
    else 0
  }

  /** The length of the sequence s starts with, or 0 when s does not start
      with one. The class excludes 'm', so the run of parameter characters
      ends where the match must end: at most one match starts here. */
  function SequenceAt(s: string): (n: nat)
    ensures n <= |s|
    ensures n == 0 || n >= 4
  {
    if |s| >= 2 && s[0] == Esc && s[1] == '[' then
      var k := ParamRun(s[2..]);
      if k > 0 && 2 + k < |s| && s[2 + k] == 'm' then k + 3 else 0
    else 0
  }

  /** A run that stops at a character outside the class has the length
      of the run. */
  lemma {:induction false} ParamRunExact(t: string, k: nat)
    requires k < |t| && AllParamChars(t[..k]) && !IsParamChar(t[k])
    ensures ParamRun(t) == k
    decreases k
  {
    if k > 0 {
      assert t[..k][0] == t[0];
      assert t[1..][..k - 1] == t[..k][1..];
      ParamRunExact(t[1..], k - 1);
    }
  }

  /** SequenceAt finds exactly the matches of the pattern at the start of
      s, and each has a single length. */
  lemma SequenceAtSpec(s: string, n: nat)
    requires 0 < n <= |s|
    ensures SequenceAt(s) == n <==> IsSequence(s[..n])
  {
    if IsSequence(s[..n]) {
      var t := s[..n];
      assert t[2..n - 1] == s[2..][..n - 3];
      assert s[2..][n - 3] == 'm';
      ParamRunExact(s[2..], n - 3);
    }
    if SequenceAt(s) == n {
      var k := ParamRun(s[2..]);
      assert s[..n][2..n - 1] == s[2..][..k];
    }
  }

  /*************************************************************
   * The stripper
   *************************************************************/

  /** ClearCode: scans left to right; a sequence starting at the current
      position is skipped whole, any other character is kept. */
  function ClearCode(s: string): (r: string)
    ensures |r| <= |s|
    decreases |s|
  {
    if s == [] then []
    else
      var n := SequenceAt(s);
      if n > 0 then ClearCode(s[n..]) else [s[0]] + ClearCode(s[1..])
  }

  /** No sequence starts at any position of s. */
  predicate NoSequence(s: string) {
    forall i :: 0 <= i < |s| ==> SequenceAt(s[i..]) == 0
  }

  /** a is a subsequence of b: a keeps some characters of b, in order. */
  predicate IsSubsequence(a: string, b: string)
    decreases |b|
  {
    a == [] || (b != [] && (IsSubsequence(a, b[1..]) || (a[0] == b[0] && IsSubsequence(a[1..], b[1..]))))
  }

  lemma {:induction false} SubsequenceRefl(a: string)
    ensures IsSubsequence(a, a)
  {
    if a != [] {
      SubsequenceRefl(a[1..]);
    }
  }

  lemma {:induction false} SubsequenceExtend(a: string, c: string, b: string)
    requires IsSubsequence(a, b)
    ensures IsSubsequence(a, c + b)
  {
    if c != [] {
      SubsequenceExtend(a, c[1..], b);
      assert (c + b)[1..] == c[1..] + b;
      assert IsSubsequence(a, (c + b)[1..]);
    } else {
      assert c + b == b;
    }
  }

  /** Stripping only removes characters: what is left keeps its order. */
  lemma {:induction false} ClearSubsequence(s: string)
    ensures IsSubsequence(ClearCode(s), s)
    decreases |s|
  {
    if s != [] {
      var n := SequenceAt(s);
      if n > 0 {
        ClearSubsequence(s[n..]);
        SubsequenceExtend(ClearCode(s[n..]), s[..n], s[n..]);
        assert s[..n] + s[n..] == s;
      } else {
        ClearSubsequence(s[1..]);
        var r := ClearCode(s);
        assert r[0] == s[0] && r[1..] == ClearCode(s[1..]);
      }
    }
  }

  /** Text without an escape character is left as it is. */
  lemma {:induction false} ClearNoEsc(s: string)
    requires Esc !in s
    ensures ClearCode(s) == s
    decreases |s|
  {
    if s != [] {
      ClearNoEsc(s[1..]);
      assert [s[0]] + s[1..] == s;
    }
  }

  /** A sequence anywhere in s makes the result strictly shorter. */
  lemma {:induction false} ClearShrinks(s: string, i: nat)
    requires i < |s| && SequenceAt(s[i..]) > 0
    ensures |ClearCode(s)| < |s|
    decreases i
  {
    if SequenceAt(s) == 0 {
      assert i != 0;
      assert s[1..][i - 1..] == s[i..];
      ClearShrinks(s[1..], i - 1);
    }
  }

  /** Stripping changes s exactly when a sequence occurs in it. */
  lemma {:induction false} ClearIdentity(s: string)
    ensures ClearCode(s) == s <==> NoSequence(s)
    decreases |s|
  {
    if NoSequence(s) {
      if s != [] {
        assert SequenceAt(s[0..]) == 0;
        assert s[0..] == s;
        forall i | 0 <= i < |s[1..]|
          ensures SequenceAt(s[1..][i..]) == 0
        {
          assert s[1..][i..] == s[i + 1..];
        }
        ClearIdentity(s[1..]);
        assert [s[0]] + s[1..] == s;
      }
    } else {
      var i :| 0 <= i < |s| && SequenceAt(s[i..]) != 0;
      ClearShrinks(s, i);
    }
  }

  /*************************************************************
   * Stripping concatenations
   *************************************************************/

  lemma {:induction false} ParamRunExtend(x: string, b: string)
    requires b == [] || !IsParamChar(b[0])
    ensures ParamRun(x + b) == ParamRun(x)
    decreases |x|
  {
    if x != [] {
      ParamRunExtend(x[1..], b);
      assert (x + b)[1..] == x[1..] + b;
    }
  }

  /** No match crosses into a text that starts with an escape character:
      the escape is neither '[' nor a parameter character nor 'm'. */
  lemma SequenceAtExtend(a: string, b: string)
    requires a != []
    requires b == [] || b[0] == Esc
    ensures SequenceAt(a + b) == SequenceAt(a)
  {
    var s := a + b;
    if |a| >= 2 && a[0] == Esc && a[1] == '[' {
      ParamRunExtend(a[2..], b);
      assert s[2..] == a[2..] + b;
    }
  }

  /** Stripping splits at every escape character: a text cut just before
      an escape strips piece by piece. */
  lemma {:induction false} ClearConcat(a: string, b: string)
    requires b == [] || b[0] == Esc
    ensures ClearCode(a + b) == ClearCode(a) + ClearCode(b)
    decreases |a|
  {
    if a == [] {
      assert a + b == b;
    } else {
      SequenceAtExtend(a, b);
      var n := SequenceAt(a);
      if n > 0 {
        assert (a + b)[n..] == a[n..] + b;
        calc {
          ClearCode(a + b);
          ClearCode(a[n..] + b);
          { ClearConcat(a[n..], b); }
          ClearCode(a[n..]) + ClearCode(b);
        }
      } else {
        assert (a + b)[1..] == a[1..] + b;
        calc {
          ClearCode(a + b);
          [a[0]] + ClearCode(a[1..] + b);
          { ClearConcat(a[1..], b); }
          [a[0]] + (ClearCode(a[1..]) + ClearCode(b));
        }
      }
    }
  }

  lemma ParamRunOfCode(code: string, rest: string)
    requires AllParamChars(code)
    ensures ParamRun(code + "m" + rest) == |code|
  {
    var s := code + "m" + rest;
    assert s[..|code|] == code;
    ParamRunExact(s, |code|);
  }

  /** A setting sequence whose code is one or more parameter characters is
      one whole match: stripping removes it and leaves what follows it
      to be stripped on its own. */
  lemma ClearAfterSetting(code: string, rest: string)
    requires code != [] && AllParamChars(code)
    ensures SequenceAt(SettingTpl(code) + rest) == |code| + 3
    ensures ClearCode(SettingTpl(code) + rest) == ClearCode(rest)
  {
    var s := SettingTpl(code) + rest;
    ParamRunOfCode(code, rest);
    assert s[2..] == code + "m" + rest;
    assert s[|code| + 3..] == rest;
  }

  /** Stripping removes the reset sequence, and with it everything that
      wrapping a message adds: a wrapped message strips to what the
      message alone strips to. */
  lemma ClearWrap(code: string, message: string)
    requires code != [] && AllParamChars(code)
    ensures ClearCode(ResetSet) == []
    ensures ClearCode(FullColor(code, message)) == ClearCode(message)
  {
    assert ResetSet == SettingTpl(ResetCode) + [];
    ClearAfterSetting(ResetCode, []);
    assert FullColor(code, message) == SettingTpl(code) + (message + ResetSet);
    ClearAfterSetting(code, message + ResetSet);
    ClearConcat(message, ResetSet);
  }

  /** Round trip: wrapping a message without escapes and stripping the
      result gives the message back. */
  lemma WrapRoundTrip(code: string, message: string)
    requires code != [] && AllParamChars(code)
    requires Esc !in message
    ensures ClearCode(FullColor(code, message)) == message
  {
    ClearWrap(code, message);
    ClearNoEsc(message);
  }

  /** The example in the library's ClearCode comment. */
  lemma ClearDocExample()
    ensures ClearCode("\U{1b}[36;1mText\U{1b}[0m") == "Text"
  {
    assert "\U{1b}[36;1mText\U{1b}[0m" == FullColor("36;1", "Text");
    WrapRoundTrip("36;1", "Text");
  }

  /** A sequence cut short before its 'm' is not a match and stays. */
  lemma CutShortSequence(a: char)
    requires IsParamChar(a)
    ensures ClearCode([Esc, '[', a]) == [Esc, '[', a]
  {
    var head: string := [Esc, '[', a];
    assert SequenceAt(head) == 0;
    ClearNoEsc(head[1..]);
    assert [Esc] + head[1..] == head;
  }

  /** Stripping is not idempotent: removing an inner sequence can bring
      the pieces of an outer one together. For parameter characters a and
      b, ESC[a ESC[b m m strips to ESC[a m, which strips again to nothing
      (with a = '1' and b = '2': ESC[1ESC[2mm, then ESC[1m, then ""). */
  lemma ClearNotIdempotent(a: char, b: char)
    requires IsParamChar(a) && IsParamChar(b)
    ensures ClearCode([Esc, '[', a] + SettingTpl([b]) + "m") == SettingTpl([a])
    ensures ClearCode(ClearCode([Esc, '[', a] + SettingTpl([b]) + "m")) == []
  {
    var head: string := [Esc, '[', a];
    var tail := SettingTpl([b]) + "m";
    CutShortSequence(a);
    ClearAfterSetting([b], "m");
    ClearNoEsc("m");
    ClearConcat(head, tail);
    ClearAfterSetting([a], []);
    assert head + "m" == SettingTpl([a]) == SettingTpl([a]) + [];
    assert head + tail == [Esc, '[', a] + SettingTpl([b]) + "m";
  }
}
