/** Line handling on text, with the meaning Python gives it: "\n".join,
    str.split("\n"), the newline translation of a file read in text mode,
    readlines() on the translated text, and str.strip("\n"). */
module Lines {

  /** The index of the first line feed in s, or |s| when there is none. */
  function LineEnd(s: string): (k: nat)
    ensures k <= |s|
    ensures forall i :: 0 <= i < k ==> s[i] != '\n'
    ensures k < |s| ==> s[k] == '\n'
  {
    if s == [] || s[0] == '\n' then 0 else 1 + LineEnd(s[1..])
  }

  /** The lengths of the parts, added up. */
  function TotalLength(parts: seq<string>): nat {
    if parts == [] then 0 else |parts[0]| + TotalLength(parts[1..])
  }

  /** "\n".join(parts): the parts in order with one line feed between two
      neighbours and none after the last. */
  function JoinLines(parts: seq<string>): string {
    if |parts| == 0 then ""
    else if |parts| == 1 then parts[0]
    else parts[0] + "\n" + JoinLines(parts[1..])
  }

  /** The joined text starts with the first part and is as long as all
      parts plus one line feed per pair of neighbours; no parts join to the
      empty text. */
  lemma {:induction false} JoinLinesLength(parts: seq<string>)
    ensures parts == [] ==> JoinLines(parts) == ""
    ensures parts != [] ==> parts[0] <= JoinLines(parts)
    ensures parts != [] ==> |JoinLines(parts)| == TotalLength(parts) + |parts| - 1
  {
    if |parts| > 1 {
      JoinLinesLength(parts[1..]);
    }
  }

  /** s.split("\n"): the pieces between line feeds; always at least one. */
  function SplitLines(s: string): (r: seq<string>)
    ensures |r| >= 1
    ensures forall i :: 0 <= i < |r| ==> '\n' !in r[i]
    decreases |s|
  {
    var k := LineEnd(s);
    if k == |s| then [s] else [s[..k]] + SplitLines(s[k + 1..])
  }

  /** Splitting a text at its line feeds and joining the pieces again gives
      the text back. */
  lemma {:induction false} JoinSplit(s: string)
    ensures JoinLines(SplitLines(s)) == s
    decreases |s|
  {
    var k := LineEnd(s);
    if k < |s| {
      var rest := s[k + 1..];
      JoinSplit(rest);
      assert SplitLines(s) == [s[..k]] + SplitLines(rest);
      assert s == s[..k] + "\n" + rest;
    }
  }

  /** A line feed right after a piece without one ends that piece. */
  lemma LineEndAfter(p: string, rest: string)
    requires '\n' !in p
    ensures LineEnd(p + "\n" + rest) == |p|
  {
    var s := p + "\n" + rest;
    assert s[|p|] == '\n';
    assert forall i :: 0 <= i < |p| ==> s[i] == p[i];
  }

  /** Joining pieces that hold no line feed and splitting the result gives
      the pieces back, in order. */
  lemma {:induction false} SplitJoin(parts: seq<string>)
    requires |parts| >= 1
    requires forall i :: 0 <= i < |parts| ==> '\n' !in parts[i]
    ensures SplitLines(JoinLines(parts)) == parts
  {
    if |parts| == 1 {
      var p := parts[0];
      assert LineEnd(p) == |p|;
    } else {
      var p, rest := parts[0], JoinLines(parts[1..]);
      SplitJoin(parts[1..]);
      LineEndAfter(p, rest);
      var s := p + "\n" + rest;
      assert s[..|p|] == p;
      assert s[|p| + 1..] == rest;
    }
  }

  /** What a file opened for reading in text mode delivers for the bytes s:
      every "\r\n" and every other "\r" becomes "\n" (universal newlines). */
  function TranslateNewlines(s: string): string
    decreases |s|
  {
    if s == [] then []
    else if s[0] == '\r' then
      if |s| >= 2 && s[1] == '\n' then "\n" + TranslateNewlines(s[2..])
      else "\n" + TranslateNewlines(s[1..])
    else [s[0]] + TranslateNewlines(s[1..])
  }

  /** Lines ended by "\r\n" are delivered ended by "\n". */
  lemma TranslateCrLf()
    ensures TranslateNewlines("x\r\ny\r\n") == "x\ny\n"
  {
    assert TranslateNewlines("\r\n") == "\n";
    assert TranslateNewlines("y\r\n") == "y\n";
    assert TranslateNewlines("\r\ny\r\n") == "\ny\n";
  }

  /** Text without a carriage return is delivered as it is. */
  lemma {:induction false} TranslateFree(s: string)
    requires '\r' !in s
    ensures TranslateNewlines(s) == s
    decreases |s|
  {
    if s != [] {
      assert s[0] in s;
      assert '\r' !in s[1..] by {
        forall i | 0 <= i < |s| - 1 ensures s[1..][i] != '\r' {
          assert s[1..][i] == s[i + 1];
        }
      }
      TranslateFree(s[1..]);
      assert s == [s[0]] + s[1..];
    }
  }

  /** Text that does not end inside a "\r\n" pair translates on its own:
      what follows it does not change how it reads. */
  lemma {:induction false} TranslateAppend(a: string, b: string)
    requires a == [] || a[|a| - 1] != '\r'
    ensures TranslateNewlines(a + b) == TranslateNewlines(a) + TranslateNewlines(b)
    decreases |a|
  {
    if a == [] {
      assert a + b == b;
    } else if a[0] == '\r' && a[1] == '\n' {
      assert (a + b)[..2] == a[..2];
      assert (a + b)[2..] == a[2..] + b;
      TranslateAppend(a[2..], b);
    } else {
      assert (a + b)[0] == a[0];
      assert (a + b)[1..] == a[1..] + b;
      TranslateAppend(a[1..], b);
    }
  }

  /** Text made of whole lines still is after the translation. */
  lemma {:induction false} TranslateEndsWithNewline(s: string)
    requires EndsWithNewline(s)
    ensures EndsWithNewline(TranslateNewlines(s))
    decreases |s|
  {
    if |s| >= 2 {
      if s[0] == '\r' && s[1] == '\n' {
        if |s| > 2 {
          TranslateEndsWithNewline(s[2..]);
        }
      } else {
        TranslateEndsWithNewline(s[1..]);
      }
    }
  }

  /** f.readlines() on text as text mode delivers it, with "\n" its only
      line end: each line keeps its line feed; a last line without one is
      kept as it is. */
  function ReadLines(s: string): seq<string>
    decreases |s|
  {
    if s == [] then []
    else
      var k := LineEnd(s);
      if k == |s| then [s] else [s[..k + 1]] + ReadLines(s[k + 1..])
  }

  /** There are no lines exactly when the text is empty, no line read is
      empty, and every line but the last ends with a line feed. */
  lemma {:induction false} ReadLinesWellFormed(s: string)
    ensures ReadLines(s) == [] <==> s == []
    ensures forall i :: 0 <= i < |ReadLines(s)| ==> ReadLines(s)[i] != []
    ensures forall i :: 0 <= i < |ReadLines(s)| - 1 ==> ReadLines(s)[i][|ReadLines(s)[i]| - 1] == '\n'
    decreases |s|
  {
    if s != [] {
      var k := LineEnd(s);
      if k < |s| {
        var r, rest := ReadLines(s), ReadLines(s[k + 1..]);
        ReadLinesWellFormed(s[k + 1..]);
        assert r == [s[..k + 1]] + rest;
        forall i | 1 <= i < |r|
          ensures r[i] == rest[i - 1]
        { }
      }
    }
  }

  /** The pieces written one after another. */
  function Concat(parts: seq<string>): string {
    if parts == [] then "" else parts[0] + Concat(parts[1..])
  }

  /** Reading a text as lines loses and adds nothing: the lines written
      one after another are the text. */
  lemma {:induction false} ReadLinesConcat(s: string)
    ensures Concat(ReadLines(s)) == s
    decreases |s|
  {
    if s != [] {
      var k := LineEnd(s);
      if k < |s| {
        var rest := s[k + 1..];
        var r := ReadLines(s);
        assert r == [s[..k + 1]] + ReadLines(rest);
        assert r[0] == s[..k + 1] && r[1..] == ReadLines(rest);
        ReadLinesConcat(rest);
        assert Concat(r) == s[..k + 1] + Concat(ReadLines(rest));
        assert s == s[..k + 1] + rest;
      }
    }
  }

  /** The lines of a text end with their line feed and hold no other one. */
  predicate IsLine(l: string) {
    |l| >= 1 && l[|l| - 1] == '\n' && '\n' !in l[..|l| - 1]
  }

  /** Text made only of whole lines: empty or ending with a line feed. */
  predicate EndsWithNewline(s: string) {
    s == [] || s[|s| - 1] == '\n'
  }

  /** A text made of whole lines reads as exactly those lines. */
  lemma {:induction false} ReadLinesShape(s: string)
    requires EndsWithNewline(s)
    ensures forall i :: 0 <= i < |ReadLines(s)| ==> IsLine(ReadLines(s)[i])
    decreases |s|
  {
    if s != [] {
      var k := LineEnd(s);
      assert k < |s|;
      var rest := s[k + 1..];
      assert EndsWithNewline(rest);
      ReadLinesShape(rest);
      var l := s[..k + 1];
      assert l[..|l| - 1] == s[..k];
      assert '\n' !in s[..k] by {
        forall i | 0 <= i < k ensures s[..k][i] != '\n' { }
      }
    }
  }

  /** Text added after whole lines does not change how those lines read. */
  lemma {:induction false} ReadLinesAppend(a: string, b: string)
    requires EndsWithNewline(a)
    ensures ReadLines(a + b) == ReadLines(a) + ReadLines(b)
    decreases |a|
  {
    if a == [] {
      assert a + b == b;
    } else {
      var k := LineEnd(a);
      assert k < |a|;
      var s := a + b;
      assert LineEnd(s) == k by {
        assert s[k] == '\n';
        assert forall i :: 0 <= i < k ==> s[i] == a[i];
      }
      assert s[..k + 1] == a[..k + 1];
      assert s[k + 1..] == a[k + 1..] + b;
      ReadLinesAppend(a[k + 1..], b);
    }
  }

  /** A line with no line feed in it, followed by one, reads as one line. */
  lemma ReadOneLine(u: string)
    requires '\n' !in u
    ensures ReadLines(u + "\n") == [u + "\n"]
  {
    LineEndAfter(u, "");
    assert u + "\n" == u + "\n" + "";
    assert (u + "\n")[|u| + 1..] == [];
  }

  /** s with its leading line feeds removed (s.lstrip("\n")). */
  function TrimStart(s: string): string {
    if s != [] && s[0] == '\n' then TrimStart(s[1..]) else s
  }

  /** s with its trailing line feeds removed (s.rstrip("\n")). */
  function TrimEnd(s: string): string {
    if s != [] && s[|s| - 1] == '\n' then TrimEnd(s[..|s| - 1]) else s
  }

  /** TrimStart removes a run of line feeds at the front and nothing else:
      what is left is a suffix of s that does not start with a line feed. */
  lemma {:induction false} TrimStartSuffix(s: string)
    ensures |TrimStart(s)| <= |s|
    ensures forall i :: 0 <= i < |TrimStart(s)| ==> TrimStart(s)[i] == s[|s| - |TrimStart(s)| + i]
    ensures forall i :: 0 <= i < |s| - |TrimStart(s)| ==> s[i] == '\n'
    ensures TrimStart(s) == [] || TrimStart(s)[0] != '\n'
  {
    if s != [] && s[0] == '\n' {
      var t, r := s[1..], TrimStart(s);
      TrimStartSuffix(t);
      assert r == TrimStart(t);
      forall i | 0 <= i < |r|
        ensures r[i] == s[|s| - |r| + i]
      {
        assert r[i] == t[|t| - |r| + i];
      }
      forall i | 0 <= i < |s| - |r|
        ensures s[i] == '\n'
      {
        if i > 0 {
          assert s[i] == t[i - 1];
        }
      }
    }
  }

  /** TrimEnd removes a run of line feeds at the back and nothing else:
      what is left is a prefix of s that does not end with a line feed. */
  lemma {:induction false} TrimEndPrefix(s: string)
    ensures |TrimEnd(s)| <= |s| && TrimEnd(s) == s[..|TrimEnd(s)|]
    ensures forall i :: |TrimEnd(s)| <= i < |s| ==> s[i] == '\n'
    ensures TrimEnd(s) == [] || TrimEnd(s)[|TrimEnd(s)| - 1] != '\n'
  {
    if s != [] && s[|s| - 1] == '\n' {
      TrimEndPrefix(s[..|s| - 1]);
    }
  }

  /** s.strip("\n"): line feeds removed from both ends, nothing else. The
      result is no longer than s and neither starts nor ends with a line
      feed. */
  function StripNewlines(s: string): (r: string)
    ensures |r| <= |s|
    ensures r == [] || (r[0] != '\n' && r[|r| - 1] != '\n')
  {
    TrimStartSuffix(s);
    TrimEndPrefix(TrimStart(s));
    TrimEnd(TrimStart(s))
  }

  /** Stripping a line written as u followed by its line feed gives u. */
  lemma StripLine(u: string)
    requires '\n' !in u
    ensures StripNewlines(u + "\n") == u
  {
    var s := u + "\n";
    if u == [] {
      assert TrimStart(s) == [];
    } else {
      assert u[0] in u;
      assert TrimStart(s) == s;
      assert s[..|s| - 1] == u;
      assert u[|u| - 1] in u;
      assert TrimEnd(s) == TrimEnd(u) == u;
    }
  }
}
