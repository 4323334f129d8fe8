/** The append-only memory log of _bmad/scripts/memlog.py, on the text of its file. The clock is a
    parameter of each command. */
module Memlog {
  import opened Prelude
  import opened OrderedDict
  import opened PyText

  type Meta = Dict<string, string>

  datatype Doc = Doc(meta: Meta, body: string)

  datatype MemlogError = NoFrontmatter | NotTerminated

  const FENCE: string := "---"

  // split and render.

  function AddField(meta: Meta, line: string): Meta {
    var i := Find(line, ':');
    if i == |line| then meta else meta.Put(Strip(line[..i]), Strip(line[i + 1..]))
  }

  function ParseFields(lines: seq<string>): Meta {
    if lines == [] then Empty() else AddField(ParseFields(lines[..|lines| - 1]), lines[|lines| - 1])
  }

  /** The first line at or after `from` that is exactly the fence, or the number of lines. */
  function FenceAt(lines: seq<string>, from: nat): (i: nat)
    requires from <= |lines|
    ensures from <= i <= |lines| && (i < |lines| ==> lines[i] == FENCE)
    ensures forall k :: from <= k < i ==> lines[k] != FENCE
    decreases |lines| - from
  {
    if from == |lines| || lines[from] == FENCE then from else FenceAt(lines, from + 1)
  }

  function SplitText(text: string): Result<Doc, MemlogError> {
    var lines := SplitLines(text);
    if lines == [] || lines[0] != FENCE then Err(NoFrontmatter)
    else
      var end := FenceAt(lines, 1);
      if end == |lines| then Err(NotTerminated)
      else Ok(Doc(ParseFields(lines[1..end]), LStripNl(Join("\n", lines[end + 1..]))))
  }

  lemma NoFields()
    ensures ParseFields([]) == Empty()
  {
  }

  lemma FieldStep(fields: seq<string>, i: nat)
    requires i < |fields|
    ensures ParseFields(fields[..i + 1]) == AddField(ParseFields(fields[..i]), fields[i])
  {
    assert fields[..i + 1][..i] == fields[..i];
  }

  method Split(text: string) returns (r: Result<Doc, MemlogError>)
    ensures r == SplitText(text)
  {
    hide SplitLines, FenceAt, ParseFields, LStripNl, Join, Strip, Find;
    var lines := SplitLines(text);
    if lines == [] || lines[0] != FENCE {
      return Err(NoFrontmatter);
    }
    var end := FenceAt(lines, 1);
    if end == |lines| {
      return Err(NotTerminated);
    }
    var fields := lines[1..end];
    var meta: Meta := Empty();
    NoFields();
    for i := 0 to |fields|
      invariant meta == ParseFields(fields[..i])
    {
      FieldStep(fields, i);
      var at := Find(fields[i], ':');
      if at < |fields[i]| {
        meta := meta.Put(Strip(fields[i][..at]), Strip(fields[i][at + 1..]));
      }
    }
    assert fields[..|fields|] == fields;
    r := Ok(Doc(meta, LStripNl(Join("\n", lines[end + 1..]))));
  }

  function FieldLine(key: string, value: string): string {
    key + ": " + OneLine(value)
  }

  function FieldLines(meta: Meta, keys: seq<string>): seq<string> {
    if keys == [] then []
    else FieldLines(meta, keys[..|keys| - 1]) + [FieldLine(keys[|keys| - 1], meta.Get(keys[|keys| - 1], ""))]
  }

  function Render(meta: Meta, body: string): string {
    "---\n" + Join("\n", FieldLines(meta, meta.keys)) + "\n---\n\n" + RStripNl(body) + "\n"
  }

  // Reading back what was rendered.

  predicate SingleLineKeys(keys: seq<string>) {
    forall i :: 0 <= i < |keys| ==> NoBreak(keys[i])
  }

  lemma {:induction false} FieldLinesAreFields(meta: Meta, keys: seq<string>)
    requires SingleLineKeys(keys)
    ensures |FieldLines(meta, keys)| == |keys| && AllNoBreak(FieldLines(meta, keys))
    ensures forall i :: 0 <= i < |keys| ==> FieldLines(meta, keys)[i] != FENCE
  {
    if keys != [] {
      var front, k := keys[..|keys| - 1], keys[|keys| - 1];
      FieldLinesAreFields(meta, front);
      OneLineNoBreak(meta.Get(k, ""));
      var line := FieldLine(k, meta.Get(k, ""));
      assert line[|k|] == ':';
      assert NoBreak(line);
    }
  }

  /** The body as it comes back. */
  function BodyBack(body: string): string {
    LStripNl(Join("\n", SplitLines(RStripNl(body) + "\n")))
  }

  lemma JoinWithBlank(parts: seq<string>)
    ensures LStripNl(Join("\n", [""] + parts)) == LStripNl(Join("\n", parts))
  {
    if parts != [] {
      var all := [""] + parts;
      assert all[1..] == parts;
      var s := Join("\n", all);
      assert s == "" + "\n" + Join("\n", parts);
      assert s[0] == '\n' && s[1..] == Join("\n", parts);
    }
  }

  lemma RenderText(meta: Meta, body: string)
    ensures Render(meta, body)
         == FENCE + "\n" + (Join("\n", FieldLines(meta, meta.keys)) + "\n" + (FENCE + "\n"
              + ("" + "\n" + (RStripNl(body) + "\n"))))
  {
    hide Join, FieldLines, RStripNl;
  }

  /** Whatever the values and the body contain, the closing fence is found where it was written. */
  lemma RenderLines(meta: Meta, body: string)
    requires SingleLineKeys(meta.keys)
    ensures var fields := if meta.keys == [] then [""] else FieldLines(meta, meta.keys);
            SplitLines(Render(meta, body)) == [FENCE] + fields + [FENCE] + [""] + SplitLines(RStripNl(body) + "\n")
  {
    hide Render, SplitLines, Join, FieldLines, RStripNl;
    var fs, b := FieldLines(meta, meta.keys), RStripNl(body) + "\n";
    var fields := if meta.keys == [] then [""] else fs;
    FieldLinesAreFields(meta, meta.keys);
    var t1 := "" + "\n" + b;
    var t2 := FENCE + "\n" + t1;
    var t3 := Join("\n", fs) + "\n" + t2;
    RenderText(meta, body);
    FirstLine(FENCE, t3);
    LinesOfJoin(fs, t2);
    FirstLine(FENCE, t1);
    FirstLine("", b);
    assert [FENCE] + (fields + ([FENCE] + ([""] + SplitLines(b)))) == [FENCE] + fields + [FENCE] + [""] + SplitLines(b);
  }

  lemma FenceFound(fields: seq<string>, rest: seq<string>)
    requires forall i :: 0 <= i < |fields| ==> fields[i] != FENCE
    ensures FenceAt([FENCE] + fields + [FENCE] + rest, 1) == 1 + |fields|
  {
    var all := [FENCE] + fields + [FENCE] + rest;
    assert all[1 + |fields|] == FENCE;
    forall k | 1 <= k < 1 + |fields| ensures all[k] != FENCE {
      assert all[k] == fields[k - 1];
    }
  }

  /** A text of these lines is split at the second fence. */
  lemma SplitOfLines(text: string, fields: seq<string>, rest: seq<string>)
    requires SplitLines(text) == [FENCE] + fields + [FENCE] + rest
    requires forall i :: 0 <= i < |fields| ==> fields[i] != FENCE
    ensures SplitText(text) == Ok(Doc(ParseFields(fields), LStripNl(Join("\n", rest))))
  {
    hide SplitLines, FenceAt, ParseFields, LStripNl, Join;
    var lines := [FENCE] + fields + [FENCE] + rest;
    FenceFound(fields, rest);
    assert lines[0] == FENCE;
    assert lines[1..1 + |fields|] == fields && lines[2 + |fields|..] == rest;
  }

  lemma BlankFieldIgnored()
    ensures ParseFields([""]) == ParseFields([])
  {
    assert [""][..0] == [];
  }

  /** The text round trip. */
  lemma RoundTrip(meta: Meta, body: string)
    requires SingleLineKeys(meta.keys)
    ensures SplitText(Render(meta, body)) == Ok(Doc(ParseFields(FieldLines(meta, meta.keys)), BodyBack(body)))
  {
    hide SplitText, SplitLines, Render, FieldLines, ParseFields, LStripNl, RStripNl, Join, NoBreak;
    var fs := FieldLines(meta, meta.keys);
    var fields := if meta.keys == [] then [""] else fs;
    var tail := SplitLines(RStripNl(body) + "\n");
    FieldLinesAreFields(meta, meta.keys);
    BlankFieldIgnored();
    RenderLines(meta, body);
    assert [FENCE] + fields + [FENCE] + [""] + tail == [FENCE] + fields + [FENCE] + ([""] + tail);
    SplitOfLines(Render(meta, body), fields, [""] + tail);
    JoinWithBlank(tail);
  }

  /** The normal form of the frontmatter: keys and values trimmed, values on one line, a key that recurs
      after trimming kept once with its last value. */
  function NormalMeta(meta: Meta, keys: seq<string>): Meta {
    if keys == [] then Empty()
    else
      NormalMeta(meta, keys[..|keys| - 1])
      .Put(Strip(keys[|keys| - 1]), Strip(OneLine(meta.Get(keys[|keys| - 1], ""))))
  }

  predicate ColonFree(keys: seq<string>) {
    forall i :: 0 <= i < |keys| ==> ':' !in keys[i]
  }

  lemma FieldReadBack(meta: Meta, key: string, value: string)
    requires ':' !in key
    ensures AddField(meta, FieldLine(key, value)) == meta.Put(Strip(key), Strip(OneLine(value)))
  {
    var line := FieldLine(key, value);
    var i := Find(line, ':');
    assert line[|key|] == ':';
    forall k | 0 <= k < |key| ensures line[k] != ':' {
      assert line[k] == key[k] && key[k] in key;
    }
    assert i == |key| && line[..i] == key && line[i + 1..] == " " + OneLine(value);
    StripAfterSpace(OneLine(value));
  }

  /** Colons in keys aside, the frontmatter comes back in normal form, whatever its values contain. */
  lemma {:induction false} MetaReadBack(meta: Meta, keys: seq<string>)
    requires ColonFree(keys)
    ensures ParseFields(FieldLines(meta, keys)) == NormalMeta(meta, keys)
  {
    if keys != [] {
      var front, k := keys[..|keys| - 1], keys[|keys| - 1];
      MetaReadBack(meta, front);
      var lines := FieldLines(meta, keys);
      assert lines[..|lines| - 1] == FieldLines(meta, front);
      FieldReadBack(NormalMeta(meta, front), k, meta.Get(k, ""));
    }
  }

  // The body.

  lemma OnlyNewlinesPrefix(s: string, t: string)
    requires OnlyNewlines(s) && t <= s
    ensures OnlyNewlines(t)
  {
    assert forall i :: 0 <= i < |t| ==> t[i] == s[i];
  }

  /** A body whose only line breaks are newlines comes back stripped of its outer newlines. */
  lemma BodyStripped(body: string)
    requires OnlyNewlines(body)
    ensures BodyBack(body) == LStripNl(RStripNl(body))
  {
    var b := RStripNl(body);
    RStripNlEnds(body);
    OnlyNewlinesPrefix(body, b);
    LinesAreNlLines(b, "");
    JoinOfNlLines(b, "");
    assert "" + b == b;
  }

  lemma {:induction false} JoinOnlyNewlines(parts: seq<string>)
    requires AllNoBreak(parts)
    ensures OnlyNewlines(Join("\n", parts))
  {
    if |parts| > 1 {
      assert AllNoBreak(parts[1..]);
      JoinOnlyNewlines(parts[1..]);
    }
  }

  lemma BodyBackOnlyNewlines(body: string)
    ensures OnlyNewlines(BodyBack(body))
  {
    var joined := Join("\n", SplitLines(RStripNl(body) + "\n"));
    LinesHaveNoBreak(RStripNl(body) + "\n", "");
    JoinOnlyNewlines(SplitLines(RStripNl(body) + "\n"));
    LStripNlStarts(joined);
  }

  /** Outer newlines aside, stripping keeps every character. */
  lemma OtherBreakKept(body: string, i: nat)
    requires i < |body| && IsLineBreak(body[i]) && body[i] != '\n'
    ensures !OnlyNewlines(LStripNl(RStripNl(body)))
  {
    var b := RStripNl(body);
    RStripNlEnds(body);
    assert i < |b| && b[i] == body[i];
    LStripNlStarts(b);
    var s := LStripNl(b);
    var at := i - (|b| - |s|);
    assert at >= 0 && s[at] == b[i];
  }

  /** Only those bodies do: any other line break is rewritten. */
  lemma BodySurvivesIff(body: string)
    ensures BodyBack(body) == LStripNl(RStripNl(body)) <==> OnlyNewlines(body)
  {
    if OnlyNewlines(body) {
      BodyStripped(body);
    } else {
      var i :| 0 <= i < |body| && IsLineBreak(body[i]) && body[i] != '\n';
      OtherBreakKept(body, i);
      BodyBackOnlyNewlines(body);
    }
  }

  // Commands.

  datatype Command =
    | Append(text: string, kind: Option<string>, author: Option<string>, now: string)
    | Set(key: string, value: string, now: string)

  function Without(keys: seq<string>, k: string): seq<string> {
    if keys == [] then []
    else Without(keys[..|keys| - 1], k) + if keys[|keys| - 1] == k then [] else [keys[|keys| - 1]]
  }

  /** `touch`: `updated` is stamped and moved to the end. */
  function Touch(meta: Meta, now: string): Meta {
    Dict(Without(meta.keys, "updated"), meta.vals - {"updated"}).Put("updated", now)
  }

  function Label(kind: Option<string>, author: Option<string>): string {
    var k := if kind.Some? then kind.value else "";
    if author.Some? && author.value != "" then Strip(k + " by " + author.value) else k
  }

  function EntryOf(text: string, kind: Option<string>, author: Option<string>): string {
    var tag := Label(kind, author);
    "- " + (if tag == "" then "" else "(" + tag + ") ") + Collapse(text, false, false)
  }

  function AppendEntry(body: string, entry: string): string {
    if Strip(body) != "" then RStripNl(body) + "\n" + entry else entry
  }

  /** One command on the file's text; errors leave the file alone. */
  function Execute(text: string, c: Command): Result<string, MemlogError> {
    match SplitText(text)
    case Err(e) => Err(e)
    case Ok(doc) =>
      match c
      case Append(t, kind, author, now) =>
        Ok(Render(Touch(doc.meta, now), AppendEntry(doc.body, EntryOf(t, kind, author))))
      case Set(k, v, now) => Ok(Render(Touch(doc.meta.Put(k, v), now), doc.body))
  }

  // What a file that was read looks like.

  ghost predicate CanonicalKey(k: string) {
    NoBreak(k) && ':' !in k && Trimmed(k)
  }

  ghost predicate CanonicalMeta(meta: Meta) {
    meta.Valid() && forall k :: k in meta.vals ==>
      CanonicalKey(k) && NoBreak(meta.vals[k]) && Trimmed(meta.vals[k])
  }

  ghost predicate CanonicalBody(body: string) {
    OnlyNewlines(body) && (body == "" || body[0] != '\n')
  }

  lemma StripOfLine(s: string)
    requires NoBreak(s)
    ensures NoBreak(Strip(s)) && Trimmed(Strip(s))
  {
    StripNoBreak(s);
    StripNoBreak(LStrip(s));
    StripTrims(s);
  }

  lemma PutCanonical(meta: Meta, k: string, v: string)
    requires CanonicalMeta(meta) && CanonicalKey(k) && NoBreak(v) && Trimmed(v)
    ensures CanonicalMeta(meta.Put(k, v))
  {
    hide CanonicalKey, NoBreak, Trimmed;
    meta.PutValid(k, v);
  }

  lemma AddFieldCanonical(meta: Meta, line: string)
    requires CanonicalMeta(meta) && NoBreak(line)
    ensures CanonicalMeta(AddField(meta, line))
  {
    hide CanonicalMeta, Trimmed, Strip;
    var i := Find(line, ':');
    if i < |line| {
      var k, v := line[..i], line[i + 1..];
      assert NoBreak(k) && NoBreak(v);
      StripOfLine(k);
      StripOfLine(v);
      StripTrims(k);
      PutCanonical(meta, Strip(k), Strip(v));
    }
  }

  lemma {:induction false} ParsedCanonical(lines: seq<string>)
    requires AllNoBreak(lines)
    ensures CanonicalMeta(ParseFields(lines))
  {
    if lines != [] {
      ParsedCanonical(lines[..|lines| - 1]);
      AddFieldCanonical(ParseFields(lines[..|lines| - 1]), lines[|lines| - 1]);
    }
  }

  /** Whatever the file contained, the document read from it is canonical. */
  lemma ReadIsCanonical(text: string)
    requires SplitText(text).Ok?
    ensures CanonicalMeta(SplitText(text).value.meta) && CanonicalBody(SplitText(text).value.body)
  {
    var lines := SplitLines(text);
    var end := FenceAt(lines, 1);
    LinesHaveNoBreak(text, "");
    assert AllNoBreak(lines[1..end]) && AllNoBreak(lines[end + 1..]);
    ParsedCanonical(lines[1..end]);
    var joined := Join("\n", lines[end + 1..]);
    JoinOnlyNewlines(lines[end + 1..]);
    LStripNlStarts(joined);
  }

  // The frontmatter across a command.

  lemma {:induction false} WithoutFacts(keys: seq<string>, k: string)
    requires forall i, j :: 0 <= i < j < |keys| ==> keys[i] != keys[j]
    ensures forall x :: x in Without(keys, k) <==> x in keys && x != k
    ensures forall i, j :: 0 <= i < j < |Without(keys, k)| ==> Without(keys, k)[i] != Without(keys, k)[j]
  {
    if keys != [] {
      var front, last := keys[..|keys| - 1], keys[|keys| - 1];
      WithoutFacts(front, k);
      assert keys == front + [last];
      assert last !in front;
    }
  }

  lemma TouchValid(meta: Meta, now: string)
    requires meta.Valid()
    ensures Touch(meta, now).Valid()
    ensures forall k :: k in Touch(meta, now).vals <==> k in meta.vals || k == "updated"
    ensures forall k :: k in meta.vals && k != "updated" ==> Touch(meta, now).vals[k] == meta.vals[k]
    ensures Touch(meta, now).vals["updated"] == now
  {
    var d := Dict(Without(meta.keys, "updated"), meta.vals - {"updated"});
    WithoutFacts(meta.keys, "updated");
    assert d.Valid();
    d.PutValid("updated", now);
  }

  /** With distinct trimmed keys the normal form keeps the keys, in order, and trims each value. */
  ghost predicate NormalUpTo(meta: Meta, n: nat)
    requires n <= |meta.keys|
  {
    var normal := NormalMeta(meta, meta.keys[..n]);
    && normal.keys == meta.keys[..n] && (forall k :: k in normal.vals <==> k in meta.keys[..n])
    && forall k :: k in meta.keys[..n] ==> normal.vals[k] == Strip(OneLine(meta.Get(k, "")))
  }

  lemma NormalStep(meta: Meta, keys: seq<string>, k: string)
    ensures NormalMeta(meta, keys + [k]) == NormalMeta(meta, keys).Put(Strip(k), Strip(OneLine(meta.Get(k, ""))))
  {
    assert (keys + [k])[..|keys|] == keys;
  }

  lemma NormalUpToStep(meta: Meta, n: nat, front: seq<string>, k: string)
    requires meta.Valid() && n < |meta.keys| && k == meta.keys[n] && front == meta.keys[..n] && Strip(k) == k
    requires NormalUpTo(meta, n)
    ensures NormalUpTo(meta, n + 1)
  {
    hide NormalMeta, Strip, OneLine;
    NormalStep(meta, front, k);
    assert meta.keys[..n + 1] == front + [k];
    assert k !in front;
  }

  lemma {:induction false} NormalOfTrimmed(meta: Meta, n: nat)
    requires meta.Valid() && n <= |meta.keys| && forall i :: 0 <= i < |meta.keys| ==> Trimmed(meta.keys[i])
    ensures NormalUpTo(meta, n)
  {
    hide Strip, OneLine, Trimmed;
    if n > 0 {
      NormalOfTrimmed(meta, n - 1);
      StripOfTrimmed(meta.keys[n - 1]);
      NormalUpToStep(meta, n - 1, meta.keys[..n - 1], meta.keys[n - 1]);
    }
  }

  lemma LineIsNormal(v: string)
    requires NoBreak(v) && Trimmed(v)
    ensures Strip(OneLine(v)) == v
  {
    OneLineOfLine(v);
    StripOfTrimmed(v);
  }

  lemma NormalValues(meta: Meta)
    requires meta.Valid() && forall x :: x in meta.vals ==> Trimmed(x)
    ensures NormalMeta(meta, meta.keys) == Dict(meta.keys, map x | x in meta.vals :: Strip(OneLine(meta.vals[x])))
  {
    hide NormalMeta, Strip, OneLine, Trimmed;
    forall i | 0 <= i < |meta.keys| ensures Trimmed(meta.keys[i]) {
      assert meta.keys[i] in meta.vals;
    }
    NormalOfTrimmed(meta, |meta.keys|);
    assert meta.keys[..|meta.keys|] == meta.keys;
    assert NormalMeta(meta, meta.keys).vals == map x | x in meta.vals :: Strip(OneLine(meta.vals[x]));
  }

  lemma CanonicalIsNormal(meta: Meta)
    requires CanonicalMeta(meta)
    ensures NormalMeta(meta, meta.keys) == meta
  {
    hide NormalMeta, Strip, OneLine, NoBreak, Trimmed;
    NormalValues(meta);
    forall k | k in meta.vals ensures Strip(OneLine(meta.vals[k])) == meta.vals[k] {
      LineIsNormal(meta.vals[k]);
    }
  }

  lemma CanonicalKeysRead(meta: Meta)
    requires meta.Valid() && forall k :: k in meta.vals ==> CanonicalKey(k)
    ensures SingleLineKeys(meta.keys) && ColonFree(meta.keys)
  {
    forall i | 0 <= i < |meta.keys| ensures CanonicalKey(meta.keys[i]) {
      assert meta.keys[i] in meta.vals;
    }
  }

  lemma UpdatedIsKey()
    ensures CanonicalKey("updated")
  {
    assert "updated"[0] == 'u' && "updated"[6] == 'd';
    assert forall c :: c in "updated" ==> c in ['u', 'p', 'd', 'a', 't', 'e'];
  }

  lemma SingleLineTouch(meta: Meta, now: string)
    requires meta.Valid() && SingleLineKeys(meta.keys)
    ensures SingleLineKeys(Touch(meta, now).keys)
  {
    TouchValid(meta, now);
    UpdatedIsKey();
    var keys := Touch(meta, now).keys;
    forall i | 0 <= i < |keys| ensures NoBreak(keys[i]) {
      assert keys[i] in Touch(meta, now).vals;
      if keys[i] != "updated" {
        assert keys[i] in meta.keys;
      }
    }
  }

  /** The frontmatter survives an append unchanged but for the stamp, which moves to the end. */
  lemma AppendKeepsMeta(text: string, t: string, kind: Option<string>, author: Option<string>, now: string)
    requires SplitText(text).Ok? && NoBreak(now) && Trimmed(now)
    ensures var r := Execute(text, Append(t, kind, author, now));
            r.Ok? && SplitText(r.value).Ok?
            && SplitText(r.value).value.meta == Touch(SplitText(text).value.meta, now)
  {
    var doc := SplitText(text).value;
    ReadIsCanonical(text);
    var meta := Touch(doc.meta, now);
    TouchValid(doc.meta, now);
    UpdatedIsKey();
    assert CanonicalMeta(meta);
    CanonicalKeysRead(meta);
    RoundTrip(meta, AppendEntry(doc.body, EntryOf(t, kind, author)));
    MetaReadBack(meta, meta.keys);
    CanonicalIsNormal(meta);
  }

  /** `set` with a trimmed single-line key without a colon writes the value, trimmed and on one line, and
      changes nothing else but the stamp. */
  lemma SetWritesMeta(text: string, k: string, v: string, now: string)
    requires SplitText(text).Ok? && NoBreak(now) && Trimmed(now) && CanonicalKey(k) && k != "updated"
    ensures var r := Execute(text, Set(k, v, now));
            r.Ok? && SplitText(r.value).Ok?
            && SplitText(r.value).value.meta == Touch(SplitText(text).value.meta.Put(k, Strip(OneLine(v))), now)
  {
    var doc := SplitText(text).value;
    ReadIsCanonical(text);
    var put := doc.meta.Put(k, v);
    doc.meta.PutValid(k, v);
    TouchValid(put, now);
    UpdatedIsKey();
    CanonicalKeysRead(Touch(put, now));
    RoundTrip(Touch(put, now), doc.body);
    MetaReadBack(Touch(put, now), Touch(put, now).keys);
    TouchedNormal(doc.meta, k, v, now);
  }

  lemma TouchedPut(meta: Meta, k: string, v: string, w: string, now: string)
    requires k != "updated"
    ensures Touch(meta.Put(k, v), now).keys == Touch(meta.Put(k, w), now).keys
    ensures Touch(meta.Put(k, v), now).vals == meta.vals[k := v]["updated" := now]
  {
    hide Without;
  }

  lemma TouchedNormal(meta: Meta, k: string, v: string, now: string)
    requires CanonicalMeta(meta) && CanonicalKey(k) && k != "updated" && NoBreak(now) && Trimmed(now)
    ensures var m := Touch(meta.Put(k, v), now);
            NormalMeta(m, m.keys) == Touch(meta.Put(k, Strip(OneLine(v))), now)
  {
    hide NormalMeta, Strip, OneLine, NoBreak, Trimmed, Touch;
    var w := Strip(OneLine(v));
    var m, clean := Touch(meta.Put(k, v), now), Touch(meta.Put(k, w), now);
    meta.PutValid(k, v);
    TouchValid(meta.Put(k, v), now);
    UpdatedIsKey();
    TouchedPut(meta, k, v, w, now);
    TouchedPut(meta, k, w, v, now);
    NormalValues(m);
    LineIsNormal(now);
    forall x | x in m.vals ensures Strip(OneLine(m.vals[x])) == clean.vals[x] {
      if x != k && x != "updated" {
        LineIsNormal(meta.vals[x]);
      }
    }
    assert NormalMeta(m, m.keys).vals == clean.vals;
  }
}
