/** What every command of _bmad/scripts/memlog.py does to the log, whatever its arguments contain: entries
    may be forged in front or at the end, and none is ever lost, changed or moved. */
module MemlogHistory {
  import opened Prelude
  import opened OrderedDict
  import opened PyText
  import opened Memlog

  predicate IsEntry(line: string) {
    "- " <= line
  }

  function Entries(lines: seq<string>): seq<string> {
    if lines == [] then []
    else Entries(lines[..|lines| - 1]) + if IsEntry(lines[|lines| - 1]) then [lines[|lines| - 1]] else []
  }

  /** The entries of a body; `entry_count` is their number. */
  function Log(body: string): seq<string> {
    Entries(SplitLines(body))
  }

  lemma {:induction false} EntriesConcat(a: seq<string>, b: seq<string>)
    ensures Entries(a + b) == Entries(a) + Entries(b)
  {
    if b == [] {
      assert a + b == a;
    } else {
      assert (a + b)[..|a + b| - 1] == a + b[..|b| - 1];
      EntriesConcat(a, b[..|b| - 1]);
    }
  }

  lemma EntriesOfOne(line: string)
    ensures Entries([line]) == if IsEntry(line) then [line] else []
  {
    assert [line][..0] == [];
  }

  /** Entries can be read off the newline-separated lines. */
  lemma LogOfNlLines(body: string)
    requires OnlyNewlines(body)
    ensures Log(body) == Entries(NlLines(body, ""))
  {
    LogIgnoresLastNewline(body, "");
    LinesAreNlLines(body, "");
  }

  /** A final newline adds at most an empty line, which is no entry. */
  lemma {:induction false} LogIgnoresLastNewline(s: string, cur: string)
    requires OnlyNewlines(s)
    ensures Entries(Lines(s + "\n", cur)) == Entries(Lines(s, cur))
    decreases |s|
  {
    var t := s + "\n";
    if s == "" {
      assert t[0] == '\n' && t[1..] == "";
      assert Lines(t, cur) == [cur];
      EntriesOfOne(cur);
    } else {
      assert t[0] == s[0] && t[1..] == s[1..] + "\n";
      assert OnlyNewlines(s[1..]) by {
        forall i | 0 <= i < |s[1..]| && IsLineBreak(s[1..][i]) ensures s[1..][i] == '\n' {
          assert s[1..][i] == s[i + 1];
        }
      }
      if IsLineBreak(s[0]) {
        assert s[0] == '\n';
        LogIgnoresLastNewline(s[1..], "");
        EntriesConcat([cur], Lines(t[1..], ""));
        EntriesConcat([cur], Lines(s[1..], ""));
      } else {
        LogIgnoresLastNewline(s[1..], cur + [s[0]]);
      }
    }
  }

  // Lines of joined text.

  lemma LinesRead(s: string, cur: string)
    requires s != "" && !IsLineBreak(s[0])
    ensures Lines(s, cur) == Lines(s[1..], cur + [s[0]])
  {
  }

  function NextLine(s: string): string
    requires s != ""
  {
    if "\r\n" <= s then s[2..] else s[1..]
  }

  lemma LinesBreak(s: string, cur: string)
    requires s != "" && IsLineBreak(s[0])
    ensures Lines(s, cur) == [cur] + SplitLines(NextLine(s))
  {
  }

  lemma NextLineConcat(a: string, rest: string)
    requires a != "" && IsLineBreak(a[0]) && !IsLineBreak(a[|a| - 1])
    ensures NextLine(a) != "" && |NextLine(a)| < |a| && NextLine(a)[|NextLine(a)| - 1] == a[|a| - 1]
    ensures NextLine(a + "\n" + rest) == NextLine(a) + "\n" + rest
  {
    var t := a + "\n" + rest;
    assert |a| >= 2 && t[0] == a[0] && t[1] == a[1];
    assert IsLineBreak('\n');
    assert t[1..] == a[1..] + "\n" + rest && t[2..] == a[2..] + "\n" + rest;
  }

  /** The line breaks of the first part stay its own, because it does not end with one. */
  lemma {:induction false} LinesConcat(a: string, rest: string, cur: string)
    requires if a == "" then cur != "" else !IsLineBreak(a[|a| - 1])
    ensures Lines(a + "\n" + rest, cur) == Lines(a, cur) + SplitLines(rest)
    decreases |a|
  {
    hide Lines, IsLineBreak, NextLine;
    var t := a + "\n" + rest;
    if a == "" {
      assert t == "\n" + rest;
      LinesOfLast(rest, cur);
    } else if !IsLineBreak(a[0]) {
      assert t[0] == a[0] && t[1..] == a[1..] + "\n" + rest;
      LinesRead(a, cur);
      LinesRead(t, cur);
      LinesConcat(a[1..], rest, cur + [a[0]]);
    } else {
      assert t[0] == a[0];
      LinesBreak(a, cur);
      LinesBreak(t, cur);
      NextLineConcat(a, rest);
      LinesConcat(NextLine(a), rest, "");
      assert [cur] + SplitLines(NextLine(a)) + SplitLines(rest) == [cur] + (SplitLines(NextLine(a)) + SplitLines(rest));
    }
  }

  lemma LinesOfLast(rest: string, cur: string)
    requires cur != ""
    ensures Lines("\n" + rest, cur) == Lines("", cur) + SplitLines(rest)
  {
    assert ("\n" + rest)[0] == '\n' && ("\n" + rest)[1..] == rest;
  }

  lemma {:induction false} JoinAppend(front: seq<string>, x: string)
    requires front != []
    ensures Join("\n", front + [x]) == Join("\n", front) + "\n" + x
  {
    var all := front + [x];
    assert all[0] == front[0] && all[1..] == front[1..] + [x];
    if |front| > 1 {
      JoinAppend(front[1..], x);
    }
  }

  lemma {:induction false} NlLinesOfJoin(parts: seq<string>)
    requires AllNoBreak(parts) && parts != []
    ensures NlLines(Join("\n", parts), "") == parts
  {
    var first := parts[0];
    NlLinesOfLine(first, "");
    assert "" + first == first;
    if |parts| > 1 {
      NlLinesOfJoin(parts[1..]);
      NlLinesConcat(first, Join("\n", parts[1..]), "");
      assert parts == [first] + parts[1..];
    }
  }

  lemma {:induction false} LogWithoutLeading(body: string)
    ensures Log(LStripNl(body)) == Log(body)
  {
    if body != "" && body[0] == '\n' {
      LogWithoutLeading(body[1..]);
      assert SplitLines(body) == [""] + SplitLines(body[1..]);
      EntriesConcat([""], SplitLines(body[1..]));
      EntriesOfOne("");
    }
  }

  /** The body is written and read line by line. */
  lemma LogOfJoined(parts: seq<string>)
    requires AllNoBreak(parts)
    ensures Log(LStripNl(Join("\n", parts))) == Entries(parts)
  {
    var joined := Join("\n", parts);
    LogWithoutLeading(joined);
    JoinOnlyNewlines(parts);
    if parts != [] {
      LogOfNlLines(joined);
      NlLinesOfJoin(parts);
    }
  }

  lemma {:induction false} LogWithoutNewlines(body: string)
    requires OnlyNewlines(body)
    ensures Log(RStripNl(body)) == Log(body)
  {
    if body != "" && body[|body| - 1] == '\n' {
      var front := body[..|body| - 1];
      assert body == front + "\n";
      OnlyNewlinesPrefix(body, front);
      LogIgnoresLastNewline(front, "");
      LogWithoutNewlines(front);
    }
  }

  /** The lines of a body as they are written hold the body's log. */
  lemma LogOfWritten(body: string)
    requires CanonicalBody(body)
    ensures Entries(SplitLines(RStripNl(body) + "\n")) == Log(body)
  {
    RStripNlEnds(body);
    OnlyNewlinesPrefix(body, RStripNl(body));
    LogIgnoresLastNewline(RStripNl(body), "");
    LogWithoutNewlines(body);
  }

  lemma LinesOfTextHaveNoBreak(s: string)
    ensures AllNoBreak(SplitLines(s))
  {
    LinesHaveNoBreak(s, "");
  }

  // Blank bodies.

  predicate AllSpace(s: string) {
    forall i :: 0 <= i < |s| ==> IsSpace(s[i])
  }

  lemma {:induction false} RStripEmpty(s: string)
    requires RStrip(s) == ""
    ensures AllSpace(s)
  {
    if s != "" {
      RStripEmpty(s[..|s| - 1]);
    }
  }

  lemma {:induction false} StripEmpty(s: string)
    requires Strip(s) == ""
    ensures AllSpace(s)
  {
    if s != "" && IsSpace(s[0]) {
      StripEmpty(s[1..]);
      assert forall i :: 1 <= i < |s| ==> s[i] == s[1..][i - 1];
    } else {
      RStripEmpty(s);
    }
  }

  lemma DashIsNoSpace()
    ensures !IsSpace('-')
  {
  }

  lemma BlankIsNoEntry(line: string)
    requires AllSpace(line)
    ensures Entries([line]) == []
  {
    hide IsSpace, Entries;
    EntriesOfOne(line);
    DashIsNoSpace();
    if line != "" {
      assert IsSpace(line[0]);
      assert "- "[0] == '-';
    }
  }

  lemma EntriesOfNone()
    ensures Entries([]) == []
  {
  }

  lemma {:induction false} BlankHasNoEntries(s: string, cur: string)
    requires AllSpace(s) && AllSpace(cur)
    ensures Entries(Lines(s, cur)) == []
    decreases |s|
  {
    hide Entries, IsSpace, IsLineBreak;
    if s == "" {
      BlankIsNoEntry(cur);
      BlankIsNoEntry("");
      EntriesOfNone();
    } else if !IsLineBreak(s[0]) {
      BlankHasNoEntries(s[1..], cur + [s[0]]);
    } else {
      var rest := if "\r\n" <= s then s[2..] else s[1..];
      BlankHasNoEntries(rest, "");
      BlankIsNoEntry(cur);
      EntriesConcat([cur], Lines(rest, ""));
    }
  }

  lemma NonBlankKept(body: string)
    requires Strip(body) != "" && (body == "" || body[0] != '\n')
    ensures RStripNl(body) != "" && RStripNl(body)[0] == body[0]
  {
    RStripNlEnds(body);
    assert body != "" && body[0] != '\n';
  }

  // Appending.

  /** The entries the file holds. */
  function LogOf(text: string): seq<string> {
    match SplitText(text)
    case Ok(doc) => Log(doc.body)
    case Err(_) => []
  }

  lemma SplitReadsAppend(text: string, t: string, kind: Option<string>, author: Option<string>, now: string)
    requires SplitText(text).Ok?
    ensures var r := Execute(text, Append(t, kind, author, now));
            r.Ok? && SplitText(r.value).Ok?
            && SplitText(r.value).value.body
               == BodyBack(AppendEntry(SplitText(text).value.body, EntryOf(t, kind, author)))
  {
    hide SplitText, Render, EntryOf, AppendEntry, BodyBack, Touch, SingleLineKeys;
    var doc := SplitText(text).value;
    ReadIsCanonical(text);
    CanonicalKeysRead(doc.meta);
    SingleLineTouch(doc.meta, now);
    RoundTrip(Touch(doc.meta, now), AppendEntry(doc.body, EntryOf(t, kind, author)));
  }

  lemma ExecuteAppend(text: string, t: string, kind: Option<string>, author: Option<string>, now: string)
    requires SplitText(text).Ok?
    ensures Execute(text, Append(t, kind, author, now)).Ok?
    ensures SplitText(Execute(text, Append(t, kind, author, now)).value).Ok?
    ensures LogOf(Execute(text, Append(t, kind, author, now)).value)
         == Log(BodyBack(AppendEntry(SplitText(text).value.body, EntryOf(t, kind, author))))
  {
    hide SplitText, Render, EntryOf, AppendEntry, BodyBack;
    SplitReadsAppend(text, t, kind, author, now);
  }

  lemma {:induction false} LinesEnded(s: string)
    requires s != "" && !IsLineBreak(s[|s| - 1])
    ensures RStripNl(s) == s && SplitLines(s + "\n") == SplitLines(s)
  {
    LinesConcat(s, "", "");
    assert s + "\n" + "" == s + "\n" && SplitLines("") == [];
    assert !IsLineBreak(s[|s| - 1]) && IsLineBreak('\n');
  }

  lemma EntryEnds(t: string, kind: Option<string>, author: Option<string>)
    ensures var entry := EntryOf(t, kind, author);
            |entry| >= 2 && entry[..2] == "- " && !IsLineBreak(entry[|entry| - 1])
  {
    var words, entry := Collapse(t, false, false), EntryOf(t, kind, author);
    CollapseNoBreak(t, false, false);
    SpaceIsNoBreak();
    assert entry[..2] == "- ";
    if words == "" {
      assert entry[|entry| - 1] == ' ';
    } else {
      assert entry[|entry| - 1] == words[|words| - 1];
    }
  }

  lemma SpaceIsNoBreak()
    ensures !IsLineBreak(' ')
  {
  }

  /** The lines of the entry follow the log of the body. */
  lemma AppendedLog(body: string, entry: string)
    requires CanonicalBody(body) && entry != "" && !IsLineBreak(entry[|entry| - 1])
    ensures Entries(SplitLines(RStripNl(AppendEntry(body, entry)) + "\n")) == Log(body) + Entries(SplitLines(entry))
  {
    hide Entries, IsLineBreak;
    LinesEnded(AppendEntry(body, entry));
    if Strip(body) == "" {
      StripEmpty(body);
      BlankHasNoEntries(body, "");
    } else {
      var b := RStripNl(body);
      NonBlankKept(body);
      StrippedEndsOpen(body);
      LinesConcat(b, entry, "");
      EntriesConcat(SplitLines(b), SplitLines(entry));
      LogWithoutNewlines(body);
    }
  }

  lemma StrippedEndsOpen(body: string)
    requires OnlyNewlines(body) && RStripNl(body) != ""
    ensures !IsLineBreak(RStripNl(body)[|RStripNl(body)| - 1])
  {
    RStripNlEnds(body);
    var b := RStripNl(body);
    assert b[|b| - 1] == body[|b| - 1];
  }

  // Setting.

  /** What follows the first line that is exactly the fence. */
  function AfterFence(lines: seq<string>): seq<string> {
    var f := FenceAt(lines, 0);
    if f == |lines| then [] else lines[f + 1..]
  }

  lemma SetKeys(meta: Meta, k: string, v: string, now: string)
    requires meta.Valid() && k !in meta.vals && k != "updated"
    ensures Touch(meta.Put(k, v), now).keys == Without(meta.keys, "updated") + [k, "updated"]
    ensures Touch(meta.Put(k, v), now).Get(k, "") == v && Touch(meta.Put(k, v), now).Get("updated", "") == now
  {
    var put := meta.Put(k, v);
    assert put.keys == meta.keys + [k] && put.keys[..|meta.keys|] == meta.keys;
    assert Without(put.keys, "updated") == Without(meta.keys, "updated") + [k];
  }

  lemma FieldLinesTwo(meta: Meta, front: seq<string>, k: string, l: string)
    ensures FieldLines(meta, front + [k, l])
         == FieldLines(meta, front) + [FieldLine(k, meta.Get(k, "")), FieldLine(l, meta.Get(l, ""))]
  {
    var all := front + [k, l];
    assert all[..|all| - 1] == front + [k] && (front + [k])[..|front|] == front;
  }

  lemma LinesOfFields(front: seq<string>, line: string, stamp: string, rest: string)
    requires AllNoBreak(front) && NoBreak(stamp) && line != "" && !IsLineBreak(line[|line| - 1])
    ensures SplitLines(Join("\n", front + [line, stamp]) + "\n" + rest)
         == front + SplitLines(line) + [stamp] + SplitLines(rest)
  {
    hide SplitLines, IsLineBreak;
    var all := front + [line, stamp];
    var tail := stamp + "\n" + rest;
    assert all == front + [line] + [stamp];
    JoinAppend(front + [line], stamp);
    FirstLine(stamp, rest);
    LinesOfBroken(line, tail);
    if front == [] {
      assert front + [line] == [line] && Join("\n", [line]) == line;
      assert Join("\n", all) + "\n" + rest == line + "\n" + tail;
    } else {
      JoinAppend(front, line);
      LinesOfJoin(front, line + "\n" + tail);
      assert Join("\n", all) + "\n" + rest == Join("\n", front) + "\n" + (line + "\n" + tail);
    }
  }

  lemma LinesOfBroken(line: string, rest: string)
    requires line != "" && !IsLineBreak(line[|line| - 1])
    ensures SplitLines(line + "\n" + rest) == SplitLines(line) + SplitLines(rest)
  {
    LinesConcat(line, rest, "");
  }

  lemma FieldLineEnds(k: string, v: string)
    ensures FieldLine(k, v) != "" && !IsLineBreak(FieldLine(k, v)[|FieldLine(k, v)| - 1])
  {
    var line, value := FieldLine(k, v), OneLine(v);
    OneLineNoBreak(v);
    SpaceIsNoBreak();
    if value == "" {
      assert line[|line| - 1] == ' ';
    } else {
      assert line[|line| - 1] == value[|value| - 1];
    }
  }

  lemma BrokenIsNewKey(meta: Meta, k: string)
    requires CanonicalMeta(meta) && !NoBreak(k)
    ensures k !in meta.vals && k != "updated"
  {
    UpdatedIsKey();
  }

  lemma OtherKeys(meta: Meta)
    requires CanonicalMeta(meta)
    ensures SingleLineKeys(Without(meta.keys, "updated"))
  {
    WithoutFacts(meta.keys, "updated");
    var keys := Without(meta.keys, "updated");
    forall i | 0 <= i < |keys| ensures NoBreak(keys[i]) {
      assert keys[i] in meta.vals;
    }
  }

  /** A field line with no line break of its own. */
  lemma OneFieldLine(k: string, v: string)
    requires NoBreak(k)
    ensures NoBreak(FieldLine(k, v)) && FieldLine(k, v) != FENCE
  {
    OneLineNoBreak(v);
    var line := FieldLine(k, v);
    assert line[|k|] == ':';
    assert forall i :: 0 <= i < |FENCE| ==> FENCE[i] == '-';
  }

  /** The written text, when the new key has line breaks. */
  lemma SetLines(meta: Meta, body: string, k: string, v: string, now: string)
    requires CanonicalMeta(meta) && !NoBreak(k)
    ensures var m := Touch(meta.Put(k, v), now);
            SplitLines(Render(m, body))
            == [FENCE] + (FieldLines(m, Without(meta.keys, "updated")) + SplitLines(FieldLine(k, v))
               + [FieldLine("updated", now)] + ([FENCE] + ([""] + SplitLines(RStripNl(body) + "\n"))))
  {
    hide Render, SplitLines, FieldLines, FieldLine, Without, Touch, CanonicalMeta, NoBreak, RStripNl;
    var m := Touch(meta.Put(k, v), now);
    var fs, line, stamp := FieldLines(m, Without(meta.keys, "updated")), FieldLine(k, v), FieldLine("updated", now);
    CanonicalValid(meta);
    BrokenIsNewKey(meta, k);
    SetKeys(meta, k, v, now);
    FieldLinesTwo(m, Without(meta.keys, "updated"), k, "updated");
    OtherKeys(meta);
    FieldLinesAreFields(m, Without(meta.keys, "updated"));
    UpdatedIsKey();
    OneFieldLine("updated", now);
    FieldLineEnds(k, v);
    var b := RStripNl(body) + "\n";
    var t1 := "" + "\n" + b;
    var t2 := FENCE + "\n" + t1;
    RenderText(m, body);
    FenceNoBreak();
    FirstLine(FENCE, Join("\n", fs + [line, stamp]) + "\n" + t2);
    LinesOfFields(fs, line, stamp, t2);
    FirstLine(FENCE, t1);
    FirstLine("", b);
  }

  lemma CanonicalValid(meta: Meta)
    requires CanonicalMeta(meta)
    ensures meta.Valid()
  {
  }

  lemma FenceNoBreak()
    ensures NoBreak(FENCE) && NoBreak("") && CanonicalKey("updated") && NoBreak("updated")
  {
    UpdatedIsKey();
    assert forall i :: 0 <= i < |FENCE| ==> FENCE[i] == '-';
  }

  lemma FenceInside(before: seq<string>, middle: seq<string>, after: seq<string>)
    requires forall i :: 0 <= i < |before| ==> before[i] != FENCE
    ensures var f, all := FenceAt(middle, 0), [FENCE] + (before + middle + after);
            && (f < |middle| ==> FenceAt(all, 1) == 1 + |before| + f)
            && (f == |middle| && after != [] && after[0] == FENCE ==> FenceAt(all, 1) == 1 + |before| + f)
  {
    var f, all := FenceAt(middle, 0), [FENCE] + (before + middle + after);
    forall j | 1 <= j < 1 + |before| + f ensures all[j] != FENCE {
      if j <= |before| {
        assert all[j] == before[j - 1];
      } else {
        assert all[j] == middle[j - 1 - |before|];
      }
    }
    assert f < |middle| ==> all[1 + |before| + f] == middle[f];
    assert f == |middle| && after != [] ==> all[1 + |before| + f] == after[0];
  }

  /** The first fence among the key's lines, if there is one, ends the frontmatter. */
  lemma SplitAtKey(text: string, fields: seq<string>, key: seq<string>, stamp: string, rest: seq<string>)
    requires SplitLines(text) == [FENCE] + (fields + key + [stamp] + ([FENCE] + rest))
    requires (forall i :: 0 <= i < |fields| ==> fields[i] != FENCE) && stamp != FENCE
    ensures SplitText(text).Ok?
    ensures var f := FenceAt(key, 0);
            SplitText(text).value.body
            == LStripNl(Join("\n", if f == |key| then rest else key[f + 1..] + [stamp, FENCE] + rest))
  {
    hide SplitLines, LStripNl, Join, ParseFields;
    var f := FenceAt(key, 0);
    var lines := [FENCE] + (fields + key + [stamp] + ([FENCE] + rest));
    assert lines[0] == FENCE;
    if f < |key| {
      FenceInside(fields, key, [stamp] + ([FENCE] + rest));
      assert lines == [FENCE] + (fields + key + ([stamp] + ([FENCE] + rest)));
      var at := 1 + |fields| + f;
      assert lines[at + 1..] == key[f + 1..] + [stamp, FENCE] + rest;
    } else {
      FenceInside(fields + key, [stamp], [FENCE] + rest);
      var at := 2 + |fields| + |key|;
      assert FenceAt([stamp], 0) == 1;
      assert lines[at + 1..] == rest;
    }
  }

  // One command.

  /** What a command writes before the old entries: the entries among the lines of a key that follow a line
      which is exactly the fence. */
  function Front(c: Command): seq<string> {
    match c
    case Append(_, _, _, _) => []
    case Set(k, v, _) => Entries(AfterFence(SplitLines(FieldLine(k, v))))
  }

  /** What it writes after them: the entries among the lines of the new entry. */
  function Back(c: Command): seq<string> {
    match c
    case Append(t, kind, author, _) => Entries(SplitLines(EntryOf(t, kind, author)))
    case Set(_, _, _) => []
  }

  lemma SingleLineFront(k: string, v: string, now: string)
    requires NoBreak(k)
    ensures Front(Set(k, v, now)) == []
  {
    OneFieldLine(k, v);
    OnlyLine(FieldLine(k, v));
    FieldLineEnds(k, v);
  }

  lemma SetOneLine(text: string, k: string, v: string, now: string)
    requires SplitText(text).Ok? && NoBreak(k)
    ensures var r := Execute(text, Set(k, v, now));
            r.Ok? && SplitText(r.value).Ok? && LogOf(r.value) == LogOf(text)
  {
    hide SplitText, Render, BodyBack, Touch, NoBreak, Lines, Entries, LStripNl;
    var doc := SplitText(text).value;
    ReadIsCanonical(text);
    SingleLinePut(doc.meta, k, v, now);
    RoundTrip(Touch(doc.meta.Put(k, v), now), doc.body);
    LinesOfTextHaveNoBreak(RStripNl(doc.body) + "\n");
    LogOfJoined(SplitLines(RStripNl(doc.body) + "\n"));
    LogOfWritten(doc.body);
    BodyBackIs(doc.body);
  }

  lemma BodyBackIs(body: string)
    ensures BodyBack(body) == LStripNl(Join("\n", SplitLines(RStripNl(body) + "\n")))
  {
  }

  lemma SingleLinePut(meta: Meta, k: string, v: string, now: string)
    requires CanonicalMeta(meta) && NoBreak(k)
    ensures SingleLineKeys(Touch(meta.Put(k, v), now).keys)
  {
    meta.PutValid(k, v);
    CanonicalKeysRead(meta);
    SingleLineTouch(meta.Put(k, v), now);
  }

  /** The entries read back around the key's lines. */
  lemma EntriesAroundKey(key: seq<string>, now: string, tail: seq<string>)
    ensures var f, stamp := FenceAt(key, 0), FieldLine("updated", now);
            Entries(if f == |key| then [""] + tail else key[f + 1..] + [stamp, FENCE] + ([""] + tail))
            == Entries(AfterFence(key)) + Entries(tail)
  {
    hide Entries;
    var f, stamp := FenceAt(key, 0), FieldLine("updated", now);
    EntriesOfNone();
    EntriesOfOne("");
    EntriesConcat([""], tail);
    if f < |key| {
      assert stamp[0] == 'u' && FENCE[1] == '-';
      EntriesOfOne(stamp);
      EntriesOfOne(FENCE);
      EntriesConcat([stamp], [FENCE]);
      assert [stamp] + [FENCE] == [stamp, FENCE];
      EntriesConcat(key[f + 1..], [stamp, FENCE]);
      EntriesConcat(key[f + 1..] + [stamp, FENCE], [""] + tail);
    }
  }

  lemma SetBroken(text: string, k: string, v: string, now: string)
    requires SplitText(text).Ok? && !NoBreak(k)
    ensures var r := Execute(text, Set(k, v, now));
            r.Ok? && SplitText(r.value).Ok? && LogOf(r.value) == Front(Set(k, v, now)) + LogOf(text)
  {
    hide SplitText, Render, Touch, Lines, Entries, LStripNl, FieldLine, FieldLines, AfterFence, CanonicalMeta, NoBreak,
         Join, RStripNl, Without;
    var doc := SplitText(text).value;
    var m := Touch(doc.meta.Put(k, v), now);
    var key, stamp := SplitLines(FieldLine(k, v)), FieldLine("updated", now);
    var tail := SplitLines(RStripNl(doc.body) + "\n");
    ReadIsCanonical(text);
    SetLines(doc.meta, doc.body, k, v, now);
    OtherKeys(doc.meta);
    FieldLinesAreFields(m, Without(doc.meta.keys, "updated"));
    FenceNoBreak();
    OneFieldLine("updated", now);
    SplitAtKey(Render(m, doc.body), FieldLines(m, Without(doc.meta.keys, "updated")), key, stamp, [""] + tail);
    LinesOfTextHaveNoBreak(FieldLine(k, v));
    LinesOfTextHaveNoBreak(RStripNl(doc.body) + "\n");
    var f := FenceAt(key, 0);
    LogOfJoined(if f == |key| then [""] + tail else key[f + 1..] + [stamp, FENCE] + ([""] + tail));
    EntriesAroundKey(key, now, tail);
    LogOfWritten(doc.body);
  }

  lemma AppendEffect(text: string, t: string, kind: Option<string>, author: Option<string>, now: string)
    requires SplitText(text).Ok?
    ensures var c := Append(t, kind, author, now);
            LogOf(Execute(text, c).value) == LogOf(text) + Back(c)
  {
    hide SplitText, Execute, EntryOf, AppendEntry, BodyBack, Lines, Entries, LStripNl, Join, RStripNl;
    var body, entry := SplitText(text).value.body, EntryOf(t, kind, author);
    var lines := SplitLines(RStripNl(AppendEntry(body, entry)) + "\n");
    ReadIsCanonical(text);
    ExecuteAppend(text, t, kind, author, now);
    BodyBackIs(AppendEntry(body, entry));
    LinesOfTextHaveNoBreak(RStripNl(AppendEntry(body, entry)) + "\n");
    LogOfJoined(lines);
    EntryEnds(t, kind, author);
    AppendedLog(body, entry);
  }

  /** On a readable file no command fails, the file stays readable, and the old entries stay where they
      were, unchanged, between what the command puts in front of them and what it puts behind. */
  lemma CommandEffect(text: string, c: Command)
    requires SplitText(text).Ok?
    ensures Execute(text, c).Ok? && SplitText(Execute(text, c).value).Ok?
    ensures LogOf(Execute(text, c).value) == Front(c) + LogOf(text) + Back(c)
  {
    hide SplitText, Execute, LogOf, Entries, NoBreak;
    match c
    case Append(t, kind, author, now) =>
      ExecuteAppend(text, t, kind, author, now);
      AppendEffect(text, t, kind, author, now);
    case Set(k, v, now) =>
      if NoBreak(k) {
        SingleLineFront(k, v, now);
        SetOneLine(text, k, v, now);
      } else {
        SetBroken(text, k, v, now);
      }
  }

  function Added(c: Command): seq<string> {
    match c
    case Append(t, kind, author, _) => [EntryOf(t, kind, author)]
    case Set(_, _, _) => []
  }

  /** The label that is printed holds no line break; no line of the key that follows a fence is an entry. */
  predicate Clean(c: Command) {
    match c
    case Append(_, kind, author, _) => NoBreak(Label(kind, author))
    case Set(_, _, _) => Front(c) == []
  }

  lemma NoBreakConcat(a: string, b: string)
    requires NoBreak(a) && NoBreak(b)
    ensures NoBreak(a + b)
  {
  }

  lemma TagNoBreak(tag: string, words: string)
    requires NoBreak(tag) && NoBreak(words)
    ensures NoBreak("- " + (if tag == "" then "" else "(" + tag + ") ") + words)
    ensures IsEntry("- " + (if tag == "" then "" else "(" + tag + ") ") + words)
  {
    NoBreakConcat("(", tag);
    NoBreakConcat("(" + tag, ") ");
    var middle := if tag == "" then "" else "(" + tag + ") ";
    NoBreakConcat("- ", middle);
    NoBreakConcat("- " + middle, words);
  }

  lemma EntryNoBreak(text: string, kind: Option<string>, author: Option<string>)
    requires NoBreak(Label(kind, author))
    ensures NoBreak(EntryOf(text, kind, author)) && IsEntry(EntryOf(text, kind, author))
  {
    CollapseNoBreak(text, false, false);
    TagNoBreak(Label(kind, author), Collapse(text, false, false));
  }

  lemma {:induction false} EntriesHaveNoBreak(lines: seq<string>, entry: string)
    requires AllNoBreak(lines) && entry in Entries(lines)
    ensures NoBreak(entry)
  {
    var front, last := lines[..|lines| - 1], lines[|lines| - 1];
    if entry in Entries(front) {
      EntriesHaveNoBreak(front, entry);
    }
  }

  lemma LabelIsInEntry(text: string, kind: Option<string>, author: Option<string>)
    requires NoBreak(EntryOf(text, kind, author))
    ensures NoBreak(Label(kind, author))
  {
    var tag, entry := Label(kind, author), EntryOf(text, kind, author);
    if tag != "" {
      forall i | 0 <= i < |tag| ensures !IsLineBreak(tag[i]) {
        assert entry == "- (" + tag + (") " + Collapse(text, false, false));
        assert entry[3 + i] == tag[i];
      }
    }
  }

  lemma {:induction false} FirstOfLines(s: string, cur: string)
    requires cur != ""
    ensures Lines(s, cur) != [] && cur <= Lines(s, cur)[0]
    decreases |s|
  {
    if s != "" && !IsLineBreak(s[0]) {
      FirstOfLines(s[1..], cur + [s[0]]);
    }
  }

  lemma DashNoBreak()
    ensures NoBreak("- ")
  {
    SpaceIsNoBreak();
    assert !IsLineBreak('-');
  }

  lemma BackIsNotEmpty(entry: string)
    requires |entry| >= 2 && entry[..2] == "- "
    ensures Entries(SplitLines(entry)) != []
  {
    hide Entries, IsLineBreak;
    DashNoBreak();
    assert entry == "- " + entry[2..] && "" + "- " == "- ";
    LinesOfPrefix("- ", entry[2..], "");
    FirstOfLines(entry[2..], "- ");
    var lines := SplitLines(entry);
    assert lines == [lines[0]] + lines[1..];
    EntriesConcat([lines[0]], lines[1..]);
    EntriesOfOne(lines[0]);
  }

  /** An append always puts entries at the end, and just its own exactly if the label has no line break. */
  lemma BackOfAppend(t: string, kind: Option<string>, author: Option<string>, now: string)
    ensures var c := Append(t, kind, author, now);
            Back(c) != [] && (Back(c) == Added(c) <==> Clean(c))
  {
    hide Entries, NoBreak, Lines, Label, EntryOf;
    var entry := EntryOf(t, kind, author);
    EntryEnds(t, kind, author);
    BackIsNotEmpty(entry);
    if NoBreak(Label(kind, author)) {
      EntryNoBreak(t, kind, author);
      OnlyLine(entry);
      EntriesOfOne(entry);
    } else if Entries(SplitLines(entry)) == [entry] {
      LinesOfTextHaveNoBreak(entry);
      assert entry in [entry];
      EntriesHaveNoBreak(SplitLines(entry), entry);
      LabelIsInEntry(t, kind, author);
    }
  }

  /** A command adds exactly its entry at the end, or nothing for `set`, if and only if it is clean. */
  lemma CommandOnlyAppendsIff(text: string, c: Command)
    requires SplitText(text).Ok?
    ensures Execute(text, c).Ok?
    ensures LogOf(Execute(text, c).value) == LogOf(text) + Added(c) <==> Clean(c)
  {
    hide SplitText, Execute, LogOf, Entries, Label, EntryOf;
    CommandEffect(text, c);
    match c
    case Append(t, kind, author, now) =>
      BackOfAppend(t, kind, author, now);
      SameTail(LogOf(text), Back(c), Added(c));
    case Set(k, v, now) =>
      SameFront(Front(c), LogOf(text));
  }

  lemma SameTail<T>(a: seq<T>, b: seq<T>, c: seq<T>)
    ensures [] + a + b == a + c <==> b == c
  {
    if [] + a + b == a + c {
      assert (a + b)[|a|..] == b && (a + c)[|a|..] == c;
    }
  }

  lemma SameFront<T>(a: seq<T>, b: seq<T>)
    ensures a + b + [] == b + [] <==> a == []
  {
    if a + b + [] == b + [] {
      assert |a| + |b| == |b|;
    }
  }

  // Every run.

  function RunAll(text: string, commands: seq<Command>): Result<string, MemlogError> {
    if commands == [] then Ok(text)
    else
      match RunAll(text, commands[..|commands| - 1])
      case Ok(t) => Execute(t, commands[|commands| - 1])
      case Err(e) => Err(e)
  }

  function AllAdded(commands: seq<Command>): seq<string> {
    if commands == [] then []
    else AllAdded(commands[..|commands| - 1]) + Added(commands[|commands| - 1])
  }

  /** What a run puts in front of the old entries, the latest command first. */
  function Fronts(commands: seq<Command>): seq<string> {
    if commands == [] then [] else Front(commands[|commands| - 1]) + Fronts(commands[..|commands| - 1])
  }

  function Backs(commands: seq<Command>): seq<string> {
    if commands == [] then [] else Backs(commands[..|commands| - 1]) + Back(commands[|commands| - 1])
  }

  lemma RunStep(text: string, commands: seq<Command>)
    requires commands != [] && RunAll(text, commands[..|commands| - 1]).Ok?
    ensures RunAll(text, commands) == Execute(RunAll(text, commands[..|commands| - 1]).value, commands[|commands| - 1])
  {
  }

  /** Over every run, whatever its arguments: no command fails, and the entries of the start are all still
      there, unchanged, in order and next to each other. */
  lemma {:induction false} HistoryIsKept(text: string, commands: seq<Command>)
    requires SplitText(text).Ok?
    ensures RunAll(text, commands).Ok? && SplitText(RunAll(text, commands).value).Ok?
    ensures LogOf(RunAll(text, commands).value) == Fronts(commands) + LogOf(text) + Backs(commands)
  {
    hide SplitText, Execute, LogOf, Front, Back;
    if commands == [] {
      assert [] + LogOf(text) + [] == LogOf(text);
    } else {
      var front, last := commands[..|commands| - 1], commands[|commands| - 1];
      HistoryIsKept(text, front);
      RunStep(text, commands);
      CommandEffect(RunAll(text, front).value, last);
      assert Front(last) + (Fronts(front) + LogOf(text) + Backs(front)) + Back(last)
          == (Front(last) + Fronts(front)) + LogOf(text) + (Backs(front) + Back(last));
    }
  }

  predicate AllClean(commands: seq<Command>) {
    forall i :: 0 <= i < |commands| ==> Clean(commands[i])
  }

  lemma BackAtLeast(c: Command)
    ensures |Back(c)| >= |Added(c)|
    ensures Clean(c) <==> Front(c) == [] && Back(c) == Added(c)
  {
    hide Entries, Label, EntryOf;
    if c.Append? {
      BackOfAppend(c.text, c.kind, c.author, c.now);
    }
  }

  lemma {:induction false} BacksAtLeast(commands: seq<Command>)
    ensures |Backs(commands)| >= |AllAdded(commands)|
  {
    hide Back, Added;
    if commands != [] {
      BacksAtLeast(commands[..|commands| - 1]);
      BackAtLeast(commands[|commands| - 1]);
    }
  }

  lemma {:induction false} RunIsCleanIff(commands: seq<Command>)
    ensures Fronts(commands) == [] && Backs(commands) == AllAdded(commands) <==> AllClean(commands)
  {
    hide Front, Back, Added, Clean;
    if commands != [] {
      var front, last := commands[..|commands| - 1], commands[|commands| - 1];
      RunIsCleanIff(front);
      BacksAtLeast(front);
      BackAtLeast(last);
      CleanStep(front, last);
      assert commands == front + [last];
      if Backs(commands) == AllAdded(commands) {
        SameLengths(Backs(front), Back(last), AllAdded(front), Added(last));
      }
    }
  }

  lemma CleanStep(front: seq<Command>, last: Command)
    ensures AllClean(front + [last]) <==> AllClean(front) && Clean(last)
  {
    hide Clean;
    var all := front + [last];
    assert all[|front|] == last;
    assert forall i :: 0 <= i < |front| ==> all[i] == front[i];
  }

  lemma SameLengths<T>(a: seq<T>, b: seq<T>, c: seq<T>, d: seq<T>)
    requires a + b == c + d && |a| >= |c| && |b| >= |d|
    ensures a == c && b == d
  {
    assert |a| == |c| && (a + b)[..|a|] == a && (c + d)[..|c|] == c;
    assert (a + b)[|a|..] == b && (c + d)[|c|..] == d;
  }

  /** A run only appends, each command exactly its own entry, if and only if every command is clean: forged
      entries never make up for each other. */
  lemma HistoryIsAppendOnlyIff(text: string, commands: seq<Command>)
    requires SplitText(text).Ok?
    ensures RunAll(text, commands).Ok?
    ensures LogOf(RunAll(text, commands).value) == LogOf(text) + AllAdded(commands) <==> AllClean(commands)
  {
    hide SplitText, RunAll, LogOf, Fronts, Backs, AllAdded, AllClean;
    HistoryIsKept(text, commands);
    RunIsCleanIff(commands);
    BacksAtLeast(commands);
    var log, a, b, c := LogOf(text), Fronts(commands), Backs(commands), AllAdded(commands);
    if a + log + b == log + c {
      assert |a| + |log| + |b| == |log| + |c|;
      assert a == [] && [] + log + b == log + b;
      SameTail(log, b, c);
    } else if a == [] && b == c {
      SameTail(log, b, c);
    }
  }

  /** A label with a line break can forge an entry: one append puts two entries into the file. */
  lemma BrokenLabelForgesEntry(text: string, t: string, a: string, b: string, now: string)
    requires SplitText(text).Ok? && NoBreak(a) && NoBreak(b)
    ensures LogOf(Execute(text, Append(t, Some(a + "\n- " + b), None, now)).value)
         == LogOf(text) + ["- (" + a, "- " + b + ") " + Collapse(t, false, false)]
  {
    hide SplitText, Execute, LogOf, Collapse, Entries, NoBreak;
    var words, kind := Collapse(t, false, false), Some(a + "\n- " + b);
    var first, second := "- (" + a, "- " + b + ") " + words;
    CollapseNoBreak(t, false, false);
    PlainTexts();
    NoBreakConcat("- (", a);
    NoBreakConcat("- ", b);
    NoBreakConcat("- " + b, ") ");
    NoBreakConcat("- " + b + ") ", words);
    assert EntryOf(t, kind, None) == first + "\n" + second by {
      assert "- " + ("(" + (a + "\n- " + b) + ") ") + words == ("- (" + a) + "\n" + ("- " + b + ") " + words);
    }
    CommandEffect(text, Append(t, kind, None, now));
    TwoEntries(first, second);
    assert [] + LogOf(text) + [first, second] == LogOf(text) + [first, second];
  }

  lemma PlainTexts()
    ensures NoBreak("- (") && NoBreak("- ") && NoBreak(") ") && NoBreak("---") && NoBreak(": ")
  {
  }

  lemma TwoEntries(first: string, second: string)
    requires NoBreak(first) && NoBreak(second) && IsEntry(first) && IsEntry(second)
    ensures Entries(SplitLines(first + "\n" + second)) == [first, second]
  {
    hide Entries;
    FirstLine(first, second);
    OnlyLine(second);
    EntriesConcat([first], [second]);
    EntriesOfOne(first);
    EntriesOfOne(second);
  }

  /** A key with a fence in it can forge an entry in front of all others. */
  lemma BrokenKeyForgesEntry(text: string, a: string, b: string, v: string, now: string)
    requires SplitText(text).Ok? && NoBreak(a) && a != "---" && NoBreak(b)
    ensures LogOf(Execute(text, Set(a + "\n---\n- " + b, v, now)).value) == ["- " + b + ": " + OneLine(v)] + LogOf(text)
  {
    hide SplitText, Execute, LogOf, Entries, NoBreak, OneLine;
    var k, line := a + "\n---\n- " + b, FieldLine(a + "\n---\n- " + b, v);
    var last := "- " + b + ": " + OneLine(v);
    PlainTexts();
    OneLineNoBreak(v);
    NoBreakConcat("- ", b);
    NoBreakConcat("- " + b, ": ");
    NoBreakConcat("- " + b + ": ", OneLine(v));
    assert line == a + "\n" + ("---" + "\n" + last);
    FirstLine(a, "---" + "\n" + last);
    FirstLine("---", last);
    OnlyLine(last);
    var lines := SplitLines(line);
    assert lines == [a, "---", last];
    assert FenceAt(lines, 0) == 1;
    assert AfterFence(lines) == [last];
    EntriesOfOne(last);
    CommandEffect(text, Set(k, v, now));
    assert [last] + LogOf(text) + [] == [last] + LogOf(text);
  }
}
