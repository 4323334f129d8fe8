/** The Python string operations that _bmad/scripts/memlog.py relies on. */
module PyText {
  import opened Prelude

  /** Where `splitlines` breaks. */
  predicate IsLineBreak(c: char) {
    c in "\n\r\U{0B}\U{0C}\U{1C}\U{1D}\U{1E}\U{85}\U{2028}\U{2029}"
  }

  /** What `strip` and `split` treat as white space. */
  predicate IsSpace(c: char) {
    IsLineBreak(c) || c in " \t\U{1F}\U{A0}\U{1680}\U{202F}\U{205F}\U{3000}" || '\U{2000}' <= c <= '\U{200A}'
  }

  predicate NoBreak(s: string) {
    forall i :: 0 <= i < |s| ==> !IsLineBreak(s[i])
  }

  /** No line break but the newline itself. */
  predicate OnlyNewlines(s: string) {
    forall i :: 0 <= i < |s| && IsLineBreak(s[i]) ==> s[i] == '\n'
  }

  /** `splitlines`, with `cur` the line read so far; a carriage return and newline are one break. */
  function Lines(s: string, cur: string): seq<string>
    decreases |s|
  {
    if s == "" then (if cur == "" then [] else [cur])
    else if !IsLineBreak(s[0]) then Lines(s[1..], cur + [s[0]])
    else [cur] + Lines(if "\r\n" <= s then s[2..] else s[1..], "")
  }

  function SplitLines(s: string): seq<string> {
    Lines(s, "")
  }

  function Join(sep: string, parts: seq<string>): string {
    if parts == [] then ""
    else if |parts| == 1 then parts[0]
    else parts[0] + sep + Join(sep, parts[1..])
  }

  function LStrip(s: string): string {
    if s != "" && IsSpace(s[0]) then LStrip(s[1..]) else s
  }

  function RStrip(s: string): string {
    if s != "" && IsSpace(s[|s| - 1]) then RStrip(s[..|s| - 1]) else s
  }

  function Strip(s: string): string {
    RStrip(LStrip(s))
  }

  function LStripNl(s: string): string {
    if s != "" && s[0] == '\n' then LStripNl(s[1..]) else s
  }

  function RStripNl(s: string): string {
    if s != "" && s[|s| - 1] == '\n' then RStripNl(s[..|s| - 1]) else s
  }

  /** Position of the first occurrence of `c`, or the length. */
  function Find(s: string, c: char): (i: nat)
    ensures i <= |s|
    ensures i < |s| ==> s[i] == c
    ensures forall k :: 0 <= k < i ==> s[k] != c
  {
    if s == "" then 0 else if s[0] == c then 0 else 1 + Find(s[1..], c)
  }

  /** `" ".join(s.split())`: `pending` is a gap waiting for the next word. */
  function Collapse(s: string, started: bool, pending: bool): string
    decreases |s|
  {
    if s == "" then ""
    else if IsSpace(s[0]) then Collapse(s[1..], started, started)
    else (if pending then " " else "") + [s[0]] + Collapse(s[1..], true, false)
  }

  function OneLine(s: string): string {
    Join(" ", SplitLines(s))
  }

  // Lines.

  lemma {:induction false} LinesOfPrefix(a: string, t: string, cur: string)
    requires NoBreak(a)
    ensures Lines(a + t, cur) == Lines(t, cur + a)
    decreases |a|
  {
    if a == "" {
      assert a + t == t && cur + a == cur;
    } else {
      assert (a + t)[0] == a[0] && (a + t)[1..] == a[1..] + t;
      LinesOfPrefix(a[1..], t, cur + [a[0]]);
      assert cur + [a[0]] + a[1..] == cur + a;
    }
  }

  /** A line ended by a newline is the first line. */
  lemma FirstLine(a: string, rest: string)
    requires NoBreak(a)
    ensures SplitLines(a + "\n" + rest) == [a] + SplitLines(rest)
  {
    assert a + "\n" + rest == a + ("\n" + rest);
    LinesOfPrefix(a, "\n" + rest, "");
    assert ("\n" + rest)[1..] == rest && "" + a == a;
  }

  lemma OnlyLine(a: string)
    requires NoBreak(a)
    ensures SplitLines(a) == if a == "" then [] else [a]
  {
    LinesOfPrefix(a, "", "");
    assert a + "" == a && "" + a == a;
  }

  predicate AllNoBreak(parts: seq<string>) {
    forall i :: 0 <= i < |parts| ==> NoBreak(parts[i])
  }

  lemma {:induction false} LinesHaveNoBreak(s: string, cur: string)
    requires NoBreak(cur)
    ensures AllNoBreak(Lines(s, cur))
    decreases |s|
  {
    if s != "" {
      if IsLineBreak(s[0]) {
        LinesHaveNoBreak(if "\r\n" <= s then s[2..] else s[1..], "");
      } else {
        LinesHaveNoBreak(s[1..], cur + [s[0]]);
      }
    }
  }

  /** Joined lines, ended by a newline, are read back one by one. */
  lemma {:induction false} LinesOfJoin(parts: seq<string>, rest: string)
    requires AllNoBreak(parts)
    ensures SplitLines(Join("\n", parts) + "\n" + rest) == (if parts == [] then [""] else parts) + SplitLines(rest)
  {
    if |parts| <= 1 {
      FirstLine(Join("\n", parts), rest);
    } else {
      var tail := Join("\n", parts[1..]) + "\n" + rest;
      assert AllNoBreak(parts[1..]);
      LinesOfJoin(parts[1..], rest);
      FirstLine(parts[0], tail);
      assert Join("\n", parts) + "\n" + rest == parts[0] + "\n" + tail;
      assert parts == [parts[0]] + parts[1..];
    }
  }

  lemma {:induction false} JoinNoBreak(sep: string, parts: seq<string>)
    requires NoBreak(sep) && AllNoBreak(parts)
    ensures NoBreak(Join(sep, parts))
  {
    if |parts| > 1 {
      assert AllNoBreak(parts[1..]);
      JoinNoBreak(sep, parts[1..]);
    }
  }

  lemma OneLineNoBreak(s: string)
    ensures NoBreak(OneLine(s))
  {
    LinesHaveNoBreak(s, "");
    JoinNoBreak(" ", SplitLines(s));
  }

  lemma OneLineOfLine(s: string)
    requires NoBreak(s)
    ensures OneLine(s) == s
  {
    OnlyLine(s);
  }

  lemma {:induction false} CollapseNoBreak(s: string, started: bool, pending: bool)
    ensures NoBreak(Collapse(s, started, pending))
    decreases |s|
  {
    if s != "" {
      if IsSpace(s[0]) {
        CollapseNoBreak(s[1..], started, started);
      } else {
        CollapseNoBreak(s[1..], true, false);
      }
    }
  }

  // Splitting at newlines only.

  function NlLines(s: string, cur: string): (r: seq<string>)
    ensures r != []
    decreases |s|
  {
    if s == "" then [cur]
    else if s[0] == '\n' then [cur] + NlLines(s[1..], "")
    else NlLines(s[1..], cur + [s[0]])
  }

  lemma {:induction false} NlLinesConcat(a: string, b: string, cur: string)
    ensures NlLines(a + "\n" + b, cur) == NlLines(a, cur) + NlLines(b, "")
    decreases |a|
  {
    var s := a + "\n" + b;
    if a == "" {
      assert s[0] == '\n' && s[1..] == b;
    } else {
      assert s[0] == a[0] && s[1..] == a[1..] + "\n" + b;
      if a[0] == '\n' {
        NlLinesConcat(a[1..], b, "");
      } else {
        NlLinesConcat(a[1..], b, cur + [a[0]]);
      }
    }
  }

  lemma {:induction false} NlLinesOfLine(s: string, cur: string)
    requires NoBreak(s)
    ensures NlLines(s, cur) == [cur + s]
    decreases |s|
  {
    if s == "" {
      assert cur + s == cur;
    } else {
      assert s[0] != '\n';
      NlLinesOfLine(s[1..], cur + [s[0]]);
      assert cur + [s[0]] + s[1..] == cur + s;
    }
  }

  lemma {:induction false} JoinOfNlLines(s: string, cur: string)
    ensures Join("\n", NlLines(s, cur)) == cur + s
    decreases |s|
  {
    if s != "" {
      if s[0] == '\n' {
        JoinOfNlLines(s[1..], "");
        var rest := NlLines(s[1..], "");
        assert ([cur] + rest)[1..] == rest;
        assert cur + "\n" + s[1..] == cur + s;
      } else {
        JoinOfNlLines(s[1..], cur + [s[0]]);
        assert cur + [s[0]] + s[1..] == cur + s;
      }
    } else {
      assert cur + s == cur;
    }
  }

  /** On text whose only breaks are newlines, ending it with one more makes both splittings agree. */
  lemma {:induction false} LinesAreNlLines(s: string, cur: string)
    requires OnlyNewlines(s)
    ensures Lines(s + "\n", cur) == NlLines(s, cur)
    decreases |s|
  {
    var t := s + "\n";
    if s == "" {
      assert t[0] == '\n' && t[1..] == "";
    } else {
      assert t[0] == s[0] && t[1..] == s[1..] + "\n";
      assert OnlyNewlines(s[1..]) by {
        forall i | 0 <= i < |s[1..]| && IsLineBreak(s[1..][i]) ensures s[1..][i] == '\n' {
          assert s[1..][i] == s[i + 1];
        }
      }
      if IsLineBreak(s[0]) {
        assert s[0] == '\n';
        LinesAreNlLines(s[1..], "");
      } else {
        LinesAreNlLines(s[1..], cur + [s[0]]);
      }
    }
  }

  // Stripping.

  lemma {:induction false} RStripNlEnds(s: string)
    ensures RStripNl(s) == "" || RStripNl(s)[|RStripNl(s)| - 1] != '\n'
    ensures RStripNl(s) <= s && forall i :: |RStripNl(s)| <= i < |s| ==> s[i] == '\n'
  {
    if s != "" && s[|s| - 1] == '\n' {
      RStripNlEnds(s[..|s| - 1]);
    }
  }

  lemma {:induction false} LStripNlStarts(s: string)
    ensures LStripNl(s) == "" || LStripNl(s)[0] != '\n'
    ensures |LStripNl(s)| <= |s| && LStripNl(s) == s[|s| - |LStripNl(s)|..]
    ensures forall i :: 0 <= i < |s| - |LStripNl(s)| ==> s[i] == '\n'
  {
    if s != "" && s[0] == '\n' {
      LStripNlStarts(s[1..]);
    }
  }

  lemma {:induction false} StripNoBreak(s: string)
    requires NoBreak(s)
    ensures NoBreak(LStrip(s)) && NoBreak(RStrip(s))
  {
    if s != "" {
      if IsSpace(s[0]) {
        StripNoBreak(s[1..]);
      }
      if IsSpace(s[|s| - 1]) {
        StripNoBreak(s[..|s| - 1]);
      }
    }
  }

  lemma {:induction false} LStripFacts(s: string)
    ensures LStrip(s) == "" || !IsSpace(LStrip(s)[0])
    ensures forall c :: c in LStrip(s) ==> c in s
  {
    if s != "" && IsSpace(s[0]) {
      LStripFacts(s[1..]);
    }
  }

  lemma {:induction false} RStripFacts(s: string)
    ensures RStrip(s) == "" || !IsSpace(RStrip(s)[|RStrip(s)| - 1])
    ensures RStrip(s) <= s
    ensures forall c :: c in RStrip(s) ==> c in s
  {
    if s != "" && IsSpace(s[|s| - 1]) {
      RStripFacts(s[..|s| - 1]);
      assert forall c :: c in s[..|s| - 1] ==> c in s;
    }
  }

  predicate Trimmed(s: string) {
    s == "" || (!IsSpace(s[0]) && !IsSpace(s[|s| - 1]))
  }

  lemma StripTrims(s: string)
    ensures Trimmed(Strip(s)) && forall c :: c in Strip(s) ==> c in s
  {
    LStripFacts(s);
    RStripFacts(LStrip(s));
  }

  lemma StripOfTrimmed(s: string)
    requires Trimmed(s)
    ensures Strip(s) == s && Strip(" " + s) == s
  {
    assert (" " + s)[1..] == s;
  }

  lemma StripAfterSpace(s: string)
    ensures Strip(" " + s) == Strip(s)
  {
    assert (" " + s)[1..] == s;
  }
}
