/**
 The Oracle configuration on its way to a server: one region's section is parsed out of the
 operator's file, printed as the `[DEFAULT]` section of a new one, and on the server rewritten
 line by line so that `key_file` names the key stored there.
 */
module OciConfig {
  import opened Wrappers

  type Section = map<string, string>

  // ---------------------------------------------------------------- strings

  /** White space and line terminators, sections 12.2 and 12.3 of ECMA-262. */
  predicate IsSpace(c: char) {
    var n := c as int;
    9 <= n <= 13 || n == 32 || n == 0xA0 || n == 0x1680 || 0x2000 <= n <= 0x200A || n == 0x2028 || n == 0x2029
    || n == 0x202F || n == 0x205F || n == 0x3000 || n == 0xFEFF
  }

  function TrimStart(s: string): string {
    if s != "" && IsSpace(s[0]) then TrimStart(s[1..]) else s
  }

  function TrimEnd(s: string): string {
    if s != "" && IsSpace(s[|s| - 1]) then TrimEnd(s[..|s| - 1]) else s
  }

  function Trim(s: string): string {
    TrimEnd(TrimStart(s))
  }

  predicate Trimmed(s: string) {
    s != "" ==> !IsSpace(s[0]) && !IsSpace(s[|s| - 1])
  }

  function IndexOf(s: string, c: char): (i: nat)
    requires c in s
    ensures i < |s| && s[i] == c && c !in s[..i]
  {
    if s[0] == c then 0 else
      var i := 1 + IndexOf(s[1..], c);
      assert s[..i] == [s[0]] + s[1..][..i - 1];
      i
  }

  lemma IndexOfIs(s: string, c: char, k: nat)
    requires k < |s| && s[k] == c && c !in s[..k]
    ensures IndexOf(s, c) == k
  {
    var i := IndexOf(s, c);
    assert s[k] !in s[..i] && s[i] !in s[..k];
  }

  function Split(s: string, c: char): (parts: seq<string>)
    ensures |parts| >= if c in s then 2 else 1
    ensures forall part | part in parts :: c !in part
  {
    if c in s then
      var i := IndexOf(s, c);
      [s[..i]] + Split(s[i + 1..], c)
    else [s]
  }

  function Join(lines: seq<string>): string {
    if lines == [] then "" else if |lines| == 1 then lines[0] else lines[0] + "\n" + Join(lines[1..])
  }

  lemma {:induction false} TrimStartLeaves(s: string)
    ensures |TrimStart(s)| <= |s| && TrimStart(s) == s[|s| - |TrimStart(s)|..]
    ensures TrimStart(s) != "" ==> !IsSpace(TrimStart(s)[0])
  {
    if s != "" && IsSpace(s[0]) {
      TrimStartLeaves(s[1..]);
    }
  }

  lemma {:induction false} TrimEndLeaves(s: string)
    ensures TrimEnd(s) <= s
    ensures TrimEnd(s) != "" ==> !IsSpace(TrimEnd(s)[|TrimEnd(s)| - 1])
  {
    if s != "" && IsSpace(s[|s| - 1]) {
      TrimEndLeaves(s[..|s| - 1]);
    }
  }

  /** What is left is trimmed and holds no new character; what was trimmed stays as it is. */
  lemma TrimLeaves(s: string)
    ensures Trimmed(Trim(s))
    ensures forall c | c in Trim(s) :: c in s
    ensures Trimmed(s) <==> Trim(s) == s
  {
    TrimStartLeaves(s);
    TrimEndLeaves(TrimStart(s));
  }

  lemma SplitFirst(a: string, c: char, rest: string)
    requires c !in a
    ensures Split(a + [c] + rest, c) == [a] + Split(rest, c)
  {
    var s := a + [c] + rest;
    assert s[|a|] == c && s[..|a|] == a && s[|a| + 1..] == rest;
    IndexOfIs(s, c, |a|);
  }

  predicate OneLine(line: string) {
    '\n' !in line
  }

  /** Splitting undoes joining. */
  lemma {:induction false} SplitJoin(lines: seq<string>)
    requires lines != [] && forall line | line in lines :: OneLine(line)
    ensures Split(Join(lines), '\n') == lines
  {
    assert OneLine(lines[0]);
    if |lines| > 1 {
      SplitJoin(lines[1..]);
      SplitFirst(lines[0], '\n', Join(lines[1..]));
      assert lines[0] + "\n" + Join(lines[1..]) == lines[0] + ['\n'] + Join(lines[1..]);
    } else {
      assert lines == [lines[0]];
    }
  }

  // ---------------------------------------------------------------- parsing

  /** `current` is empty as long as there is no section, and after a header without a name. */
  datatype Parser = Parser(sections: map<string, Section>, current: string) {
    predicate Valid() {
      current != "" ==> current in sections
    }
  }

  const START := Parser(map[], "")

  predicate IsHeader(line: string) {
    |line| > 1 && line[0] == '[' && line[|line| - 1] == ']'
  }

  /** The trimmed parts on both sides of the first `=`, up to a second one. */
  function Pair(line: string): (string, string)
    requires '=' in line
  {
    var parts := Split(line, '=');
    (Trim(parts[0]), Trim(parts[1]))
  }

  function ParseLine(p: Parser, line: string): (r: Parser)
    requires p.Valid()
    ensures r.Valid()
  {
    var trimmed := Trim(line);
    if IsHeader(trimmed) then
      var name := trimmed[1..|trimmed| - 1];
      Parser(p.sections[name := map[]], name)
    else if p.current != "" && '=' in trimmed then
      var (key, value) := Pair(trimmed);
      p.(sections := p.sections[p.current := p.sections[p.current][key := value]])
    else p
  }

  function ParseLines(p: Parser, lines: seq<string>): (r: Parser)
    requires p.Valid()
    ensures r.Valid()
    decreases |lines|
  {
    if lines == [] then p else ParseLines(ParseLine(p, lines[0]), lines[1..])
  }

  function Parse(content: string): map<string, Section> {
    ParseLines(START, Split(content, '\n')).sections
  }

  /** The parser's loop over the lines. */
  method ParseConfigFile(content: string) returns (sections: map<string, Section>)
    ensures sections == Parse(content)
  {
    sections := map[];
    var lines := Split(content, '\n');
    var current := "";
    for i := 0 to |lines|
      invariant Parser(sections, current).Valid()
      invariant ParseLines(START, lines) == ParseLines(Parser(sections, current), lines[i..])
    {
      hide Trim;
      hide Split;
      assert lines[i..][0] == lines[i] && lines[i..][1..] == lines[i + 1..];
      var trimmed := Trim(lines[i]);
      if IsHeader(trimmed) {
        current := trimmed[1..|trimmed| - 1];
        sections := sections[current := map[]];
      } else if current != "" && '=' in trimmed {
        var parts := Split(trimmed, '=');
        sections := sections[current := sections[current][Trim(parts[0]) := Trim(parts[1])]];
      }
    }
    assert lines[|lines|..] == [];
  }

  predicate Clean(s: string) {
    Trim(s) == s && '=' !in s && '\n' !in s
  }

  ghost predicate CleanSection(section: Section) {
    forall key | key in section :: Clean(key) && Clean(section[key])
  }

  ghost predicate AllClean(sections: map<string, Section>) {
    forall name | name in sections :: CleanSection(sections[name])
  }

  lemma PairIsClean(line: string)
    requires '=' in line && OneLine(line)
    ensures Clean(Pair(line).0) && Clean(Pair(line).1)
  {
    var parts := Split(line, '=');
    SplitParts(line, '=');
    TrimLeaves(parts[0]);
    TrimLeaves(parts[1]);
    TrimLeaves(Trim(parts[0]));
    TrimLeaves(Trim(parts[1]));
    assert '=' !in parts[0] && '=' !in parts[1];
  }

  lemma {:induction false} SplitParts(s: string, c: char)
    ensures forall part, d | part in Split(s, c) && d in part :: d in s
  {
    if c in s {
      SplitParts(s[IndexOf(s, c) + 1..], c);
    }
  }

  lemma ParseLineClean(p: Parser, line: string)
    requires p.Valid() && OneLine(line) && AllClean(p.sections)
    ensures AllClean(ParseLine(p, line).sections)
  {
    var trimmed := Trim(line);
    TrimLeaves(line);
    hide Trim;
    hide Pair;
    hide IsHeader;
    if !IsHeader(trimmed) && p.current != "" && '=' in trimmed {
      PairIsClean(trimmed);
      assert CleanSection(p.sections[p.current]);
    }
  }

  lemma {:induction false} ParseLinesClean(p: Parser, lines: seq<string>)
    requires p.Valid() && AllClean(p.sections)
    requires forall line | line in lines :: OneLine(line)
    ensures AllClean(ParseLines(p, lines).sections)
    decreases |lines|
  {
    hide AllClean;
    hide ParseLine;
    if lines != [] {
      assert OneLine(lines[0]);
      ParseLineClean(p, lines[0]);
      ParseLinesClean(ParseLine(p, lines[0]), lines[1..]);
    }
  }

  /** Whatever the file, the parsed keys and values are trimmed and free of `=` and line feeds. */
  lemma ParsedIsClean(content: string)
    ensures AllClean(Parse(content))
  {
    var lines := Split(content, '\n');
    forall line | line in lines
      ensures OneLine(line)
    {
    }
    ParseLinesClean(START, lines);
  }

  // ---------------------------------------------------------------- what a line means

  lemma HeaderIs(line: string)
    ensures IsHeader(line) <==> exists name: string :: line == "[" + name + "]"
  {
    if IsHeader(line) {
      assert line == "[" + line[1..|line| - 1] + "]";
    }
  }

  lemma {:induction false} TrimStartStops(a: string, rest: string)
    ensures TrimStart(a + "=" + rest) == TrimStart(a) + "=" + rest
  {
    if a != "" && IsSpace(a[0]) {
      TrimStartStops(a[1..], rest);
      assert (a + "=" + rest)[1..] == a[1..] + "=" + rest;
    }
  }

  lemma {:induction false} TrimEndStops(rest: string, b: string)
    ensures TrimEnd(rest + "=" + b) == rest + "=" + TrimEnd(b)
  {
    var s := rest + "=" + b;
    if b == "" {
      assert s == rest + "=";
    } else if IsSpace(b[|b| - 1]) {
      TrimEndStops(rest, b[..|b| - 1]);
      assert s[..|s| - 1] == rest + "=" + b[..|b| - 1];
    }
  }

  lemma {:induction false} TrimTwice(s: string)
    ensures Trim(TrimStart(s)) == Trim(s) && Trim(TrimEnd(s)) == Trim(s)
  {
    TrimStartLeaves(s);
    TrimEndFirst(s);
  }

  lemma {:induction false} TrimEndFirst(s: string)
    ensures Trim(TrimEnd(s)) == Trim(s)
  {
    if s != "" && IsSpace(s[|s| - 1]) {
      TrimEndFirst(s[..|s| - 1]);
      DropsLast(s[..|s| - 1], s[|s| - 1]);
      assert s == s[..|s| - 1] + [s[|s| - 1]];
    }
  }

  /** A space at the end makes no difference. */
  lemma {:induction false} DropsLast(s: string, c: char)
    requires IsSpace(c)
    ensures Trim(s + [c]) == Trim(s)
  {
    if s == "" {
      assert s + [c] == [c] && [c][1..] == "";
    } else if IsSpace(s[0]) {
      DropsLast(s[1..], c);
      assert (s + [c])[1..] == s[1..] + [c];
    } else {
      assert (s + [c])[..|s|] == s;
    }
  }

  /** Nor does one at the start. */
  lemma DropsFirst(s: string, c: char)
    requires IsSpace(c)
    ensures Trim([c] + s) == Trim(s)
  {
    assert ([c] + s)[1..] == s;
  }

  /** Spaces, tabs, vertical tabs, form feeds and carriage returns. */
  predicate IsBlank(c: char) {
    c == ' ' || c == '\t' || c == '\r' || c as int == 11 || c as int == 12
  }

  predicate Blank(s: string) {
    forall c | c in s :: IsBlank(c)
  }

  lemma {:induction false} TrimIgnoresBlanks(before: string, s: string, after: string)
    requires Blank(before) && Blank(after)
    ensures Trim(before + s + after) == Trim(s)
    decreases |before| + |after|
  {
    if before != "" {
      assert IsBlank(before[0]) && Blank(before[1..]);
      TrimIgnoresBlanks(before[1..], s, after);
      DropsFirst(before[1..] + s + after, before[0]);
      assert before + s + after == [before[0]] + (before[1..] + s + after);
    } else if after != "" {
      var n := |after| - 1;
      assert IsBlank(after[n]) && Blank(after[..n]);
      TrimIgnoresBlanks(before, s, after[..n]);
      DropsLast(before + s + after[..n], after[n]);
      assert before + s + after == (before + s + after[..n]) + [after[n]];
    } else {
      assert before + s + after == s;
    }
  }

  /** Indentation, trailing blanks and a carriage return before the line feed make no difference. */
  lemma ParsesIndented(p: Parser, before: string, line: string, after: string)
    requires p.Valid() && Blank(before) && Blank(after)
    ensures ParseLine(p, before + line + after) == ParseLine(p, line)
  {
    TrimIgnoresBlanks(before, line, after);
  }

  /** A name in brackets opens an empty section of that name. */
  lemma ParsesSectionHeader(p: Parser, name: string)
    requires p.Valid()
    ensures ParseLine(p, "[" + name + "]") == Parser(p.sections[name := map[]], name)
  {
    var line := "[" + name + "]";
    TrimLeaves(line);
    assert line[1..|line| - 1] == name;
  }

  /**
   An assignment in a section, any section, sets the trimmed text before the first `=` to the
   trimmed text after it; what comes from a second `=` on is dropped.
   */
  lemma ParsesAssignment(p: Parser, a: string, b: string, rest: string)
    requires p.Valid() && p.current != "" && '=' !in a && '=' !in b && (rest != "" ==> rest[0] == '=')
    requires !exists name: string :: Trim(a + "=" + b + rest) == "[" + name + "]"
    ensures ParseLine(p, a + "=" + b + rest)
            == p.(sections := p.sections[p.current := p.sections[p.current][Trim(a) := Trim(b)]])
  {
    var line := a + "=" + b + rest;
    HeaderIs(Trim(line));
    AssignmentParts(a, b, rest);
    hide Trim;
    hide Split;
  }

  lemma AssignmentParts(a: string, b: string, rest: string)
    requires '=' !in a && '=' !in b && (rest != "" ==> rest[0] == '=')
    ensures var line := a + "=" + b + rest;
            '=' in Trim(line) && Pair(Trim(line)) == (Trim(a), Trim(b))
  {
    TrimStartLeaves(a);
    TrimEndLeaves(b);
    TrimTwice(a);
    TrimTwice(b);
    TrimStartStops(a, b + rest);
    assert a + "=" + b + rest == a + "=" + (b + rest);
    if rest == "" {
      assert b + rest == b;
      TwoParts(TrimStart(a), b);
    } else {
      assert rest == "=" + rest[1..];
      ThreeParts(TrimStart(a), b, rest[1..]);
    }
    hide Pair;
    hide TrimStart;
    hide TrimEnd;
  }

  lemma TwoParts(start: string, b: string)
    requires '=' !in start && '=' !in b
    ensures var line := TrimEnd(start + "=" + b);
            '=' in line && Pair(line) == (Trim(start), Trim(TrimEnd(b)))
  {
    TrimEndLeaves(b);
    TrimEndStops(start, b);
    SplitFirst(start, '=', TrimEnd(b));
    hide Trim;
    hide TrimEnd;
    assert start + "=" + TrimEnd(b) == start + ['='] + TrimEnd(b);
    assert (start + ['='] + TrimEnd(b))[|start|] == '=';
  }

  lemma ThreeParts(start: string, b: string, c: string)
    requires '=' !in start && '=' !in b
    ensures var line := TrimEnd(start + "=" + (b + ("=" + c)));
            '=' in line && Pair(line) == (Trim(start), Trim(b))
  {
    TrimEndStops(start + "=" + b, c);
    PairOfThree(start, b, TrimEnd(c));
    Regroup(start, b, c);
    Regroup(start, b, TrimEnd(c));
    hide *;
  }

  lemma Regroup(x: string, y: string, z: string)
    ensures x + "=" + (y + ("=" + z)) == (x + "=" + y) + "=" + z
    ensures (x + "=" + y) + "=" + z == x + ['='] + (y + ['='] + z)
  {
  }

  lemma PairOfThree(start: string, b: string, c: string)
    requires '=' !in start && '=' !in b
    ensures var line := start + ['='] + (b + ['='] + c);
            '=' in line && Pair(line) == (Trim(start), Trim(b))
  {
    SplitFirst(start, '=', b + ['='] + c);
    SplitFirst(b, '=', c);
    hide Trim;
    assert (start + ['='] + (b + ['='] + c))[|start|] == '=';
  }

  /** Every other line is skipped: one without `=`, and an assignment outside all sections. */
  lemma SkipsLine(p: Parser, line: string)
    requires p.Valid() && ('=' !in line || p.current == "")
    requires !exists name: string :: Trim(line) == "[" + name + "]"
    ensures ParseLine(p, line) == p
  {
    HeaderIs(Trim(line));
    TrimLeaves(line);
  }

  // ---------------------------------------------------------------- printing

  type Entry = (string, string)

  /** The entries of a section in some order. */
  ghost predicate Lists(entries: seq<Entry>, section: Section) {
    && (forall e | e in entries :: e.0 in section && section[e.0] == e.1)
    && (forall key | key in section :: (key, section[key]) in entries)
  }

  function EntryLine(e: Entry): string {
    e.0 + "=" + e.1
  }

  function EntryLines(entries: seq<Entry>): seq<string> {
    if entries == [] then [] else [EntryLine(entries[0])] + EntryLines(entries[1..])
  }

  const HEADER := "[DEFAULT]"

  function Print(entries: seq<Entry>): string {
    HEADER + "\n" + Join(EntryLines(entries))
  }

  datatype ExportError = RegionNotFound | KeyFileNotFound

  /** The `[DEFAULT]` text for one region, in whatever order the runtime lists the entries. */
  method DefaultConfig(content: string, region: string)
    returns (r: Result<string, ExportError>, ghost entries: seq<Entry>)
    ensures r.Failure? ==> r.error == if region in Parse(content) then KeyFileNotFound else RegionNotFound
    ensures r.Success? <==> region in Parse(content) && "key_file" in Parse(content)[region]
                            && Parse(content)[region]["key_file"] != ""
    ensures r.Success? ==> Lists(entries, Parse(content)[region]) && r.value == Print(entries)
  {
    entries := [];
    var sections := ParseConfigFile(content);
    if region !in sections {
      return Failure(RegionNotFound), [];
    }
    var section := sections[region];
    if "key_file" !in section || section["key_file"] == "" {
      return Failure(KeyFileNotFound), [];
    }
    var lines: seq<string> := [];
    var keys := section.Keys;
    while keys != {}
      invariant keys <= section.Keys && lines == EntryLines(entries)
      invariant forall e | e in entries :: e.0 in section && section[e.0] == e.1
      invariant forall key | key in section && key !in keys :: (key, section[key]) in entries
      decreases keys
    {
      var key :| key in keys;
      var e := (key, section[key]);
      EntryLinesAppend(entries, e);
      lines, entries, keys := lines + [EntryLine(e)], entries + [e], keys - {key};
    }
    r := Success(HEADER + "\n" + Join(lines));
  }

  lemma {:induction false} EntryLinesAppend(entries: seq<Entry>, e: Entry)
    ensures EntryLines(entries + [e]) == EntryLines(entries) + [EntryLine(e)]
  {
    if entries != [] {
      EntryLinesAppend(entries[1..], e);
      assert (entries + [e])[1..] == entries[1..] + [e];
    } else {
      assert entries + [e] == [e];
    }
  }

  // ---------------------------------------------------------------- the rewrite on the server

  function StripCr(line: string): string {
    if line != "" && line[|line| - 1] == '\r' then line[..|line| - 1] else line
  }

  /** The lines ended by a line feed without their carriage return, then what is left if not empty. */
  function GoLines(s: string): seq<string> {
    if '\n' in s then
      var i := IndexOf(s, '\n');
      [StripCr(s[..i])] + GoLines(s[i + 1..])
    else if s == "" then [] else [s]
  }

  method SplitLines(s: string) returns (lines: seq<string>)
    ensures lines == GoLines(s)
  {
    hide GoLines;
    lines := [];
    var start := 0;
    for i := 0 to |s|
      invariant start <= i && '\n' !in s[start..i]
      invariant GoLines(s) == lines + GoLines(s[start..])
    {
      if s[i] == '\n' {
        assert s[start..][..i - start] == s[start..i] && s[start..][i - start + 1..] == s[i + 1..];
        GoLinesFirst(s[start..], i - start);
        var line := s[start..i];
        if |line| > 0 && line[|line| - 1] == '\r' {
          line := line[..|line| - 1];
        }
        lines := lines + [line];
        start := i + 1;
      }
    }
    GoLinesLast(s[start..]);
    if start < |s| {
      lines := lines + [s[start..]];
    }
  }

  lemma GoLinesLast(s: string)
    requires '\n' !in s
    ensures GoLines(s) == if s == "" then [] else [s]
  {
  }

  lemma GoLinesFirst(s: string, k: nat)
    requires k < |s| && s[k] == '\n' && '\n' !in s[..k]
    ensures GoLines(s) == [StripCr(s[..k])] + GoLines(s[k + 1..])
  {
    hide StripCr;
    IndexOfIs(s, '\n', k);
  }

  method JoinLines(lines: seq<string>) returns (result: string)
    ensures result == Join(lines)
  {
    if |lines| == 0 {
      return "";
    }
    result := lines[0];
    for i := 1 to |lines|
      invariant result == Join(lines[..i])
    {
      JoinAppend(lines[..i], lines[i]);
      assert lines[..i] + [lines[i]] == lines[..i + 1];
      result := result + "\n" + lines[i];
    }
    assert lines[..|lines|] == lines;
  }

  lemma {:induction false} JoinAppend(lines: seq<string>, line: string)
    requires lines != []
    ensures Join(lines + [line]) == Join(lines) + "\n" + line
  {
    if |lines| > 1 {
      JoinAppend(lines[1..], line);
      assert (lines + [line])[1..] == lines[1..] + [line];
      assert lines[0] + "\n" + (Join(lines[1..]) + "\n" + line) == (lines[0] + "\n" + Join(lines[1..])) + "\n" + line;
    } else {
      assert (lines + [line])[1..] == [line];
    }
  }

  const KEY_FILE := "key_file"

  function KeyFileLine(path: string): string {
    "key_file = " + path
  }

  function WithKeyFile(lines: seq<string>, path: string): seq<string> {
    if lines == [] then []
    else [if KEY_FILE <= lines[0] then KeyFileLine(path) else lines[0]] + WithKeyFile(lines[1..], path)
  }

  predicate HasKeyFile(lines: seq<string>) {
    lines != [] && (KEY_FILE <= lines[0] || HasKeyFile(lines[1..]))
  }

  function Rewrite(lines: seq<string>, path: string): seq<string> {
    WithKeyFile(lines, path) + if HasKeyFile(lines) then [] else [KeyFileLine(path)]
  }

  function SetUp(content: string, path: string): string {
    Join(Rewrite(GoLines(content), path))
  }

  lemma RewriteLine(lines: seq<string>, i: nat, path: string)
    requires i < |lines|
    ensures WithKeyFile(lines[i..], path)
            == [if KEY_FILE <= lines[i] then KeyFileLine(path) else lines[i]] + WithKeyFile(lines[i + 1..], path)
    ensures HasKeyFile(lines[i..]) <==> KEY_FILE <= lines[i] || HasKeyFile(lines[i + 1..])
    ensures KEY_FILE <= lines[i] <==> |lines[i]| >= 8 && lines[i][..8] == "key_file"
  {
    hide KeyFileLine;
    assert lines[i..][0] == lines[i] && lines[i..][1..] == lines[i + 1..];
  }

  lemma NothingToRewrite(lines: seq<string>, path: string)
    requires lines == []
    ensures WithKeyFile(lines, path) == [] && !HasKeyFile(lines)
  {
  }

  method SetupOciCredentials(content: string, path: string) returns (finalConfig: string)
    ensures finalConfig == SetUp(content, path)
  {
    hide WithKeyFile;
    hide HasKeyFile;
    hide KeyFileLine;
    var keyFileLine := KeyFileLine(path);
    var foundKeyFile := false;
    var newConfigLines: seq<string> := [];
    var lines := SplitLines(content);
    assert lines[0..] == lines;
    for i := 0 to |lines|
      invariant WithKeyFile(lines, path) == newConfigLines + WithKeyFile(lines[i..], path)
      invariant HasKeyFile(lines) <==> (foundKeyFile || HasKeyFile(lines[i..]))
    {
      RewriteLine(lines, i, path);
      if |lines[i]| >= 8 && lines[i][..8] == "key_file" {
        newConfigLines := newConfigLines + [keyFileLine];
        foundKeyFile := true;
      } else {
        newConfigLines := newConfigLines + [lines[i]];
      }
    }
    NothingToRewrite(lines[|lines|..], path);
    if !foundKeyFile {
      newConfigLines := newConfigLines + [keyFileLine];
    }
    assert newConfigLines == Rewrite(lines, path);
    finalConfig := JoinLines(newConfigLines);
  }

  // ---------------------------------------------------------------- reading the result back

  /** An entry whose line reads as a section header. */
  predicate HeaderLike(e: Entry) {
    e.0 != "" && e.0[0] == '[' && e.1 != "" && e.1[|e.1| - 1] == ']'
  }

  lemma EntryLineShape(e: Entry)
    requires Clean(e.0) && Clean(e.1)
    ensures var line := EntryLine(e);
            && OneLine(line) && '=' in line && Trim(line) == line && StripCr(line) == line
            && Pair(line) == e
            && (KEY_FILE <= line <==> KEY_FILE <= e.0)
            && (IsHeader(line) <==> HeaderLike(e))
  {
    var line := EntryLine(e);
    TrimLeaves(e.0);
    TrimLeaves(e.1);
    TrimLeaves(line);
    hide Trim;
    SplitFirst(e.0, '=', e.1);
    assert e.0 + ['='] + e.1 == line;
    assert line[|e.0|] == '=';
  }

  lemma KeyFileLineShape(path: string)
    requires Clean(path)
    ensures var line := KeyFileLine(path);
            OneLine(line) && '=' in Trim(line) && !IsHeader(Trim(line)) && Pair(Trim(line)) == (KEY_FILE, path)
  {
    if path == "" {
      EmptyPathShape();
    } else {
      PathLineTrims(path);
      KeyTrims();
      SpaceTrims(path);
      hide Trim;
      assert '=' !in "key_file ";
      SplitFirst("key_file ", '=', " " + path);
    }
  }

  lemma PathLineTrims(path: string)
    requires Clean(path) && path != ""
    ensures var line := KeyFileLine(path);
            && Trim(line) == line == "key_file " + ['='] + (" " + path)
            && OneLine(line) && !IsHeader(line) && '=' !in " " + path
  {
    var line := KeyFileLine(path);
    TrimLeaves(path);
    TrimLeaves(line);
    hide Trim;
    assert line[|line| - 1] == path[|path| - 1];
  }

  lemma SpaceTrims(s: string)
    requires Trim(s) == s
    ensures Trim(" " + s) == s
  {
    TrimLeaves(s);
    assert (" " + s)[1..] == s;
  }

  lemma KeyTrims()
    ensures Trim("key_file ") == KEY_FILE
  {
    assert "key_file "[..8] == KEY_FILE;
  }

  lemma EmptyLineTrims()
    ensures Trim(KeyFileLine("")) == "key_file ="
  {
    var line := KeyFileLine("");
    assert line[..|line| - 1] == "key_file =";
  }

  lemma EmptyPathShape()
    ensures var line := KeyFileLine("");
            OneLine(line) && '=' in Trim(line) && !IsHeader(Trim(line)) && Pair(Trim(line)) == (KEY_FILE, "")
  {
    KeyTrims();
    EmptyLineTrims();
    TrimLeaves("");
    hide Trim;
    hide Split;
    var line := "key_file =";
    assert line[|line| - 1] == '=';
    SplitFirst("key_file ", '=', "");
    SplitNothing('=');
    assert "key_file " + ['='] + "" == line;
  }

  lemma SplitNothing(c: char)
    ensures Split("", c) == [""]
  {
  }

  predicate CleanEntries(entries: seq<Entry>) {
    forall e | e in entries :: Clean(e.0) && Clean(e.1)
  }

  predicate HasLookalike(entries: seq<Entry>) {
    entries != [] && (KEY_FILE <= entries[0].0 || HasLookalike(entries[1..]))
  }

  /** The printed lines with every line that starts like `key_file` replaced. */
  function NewLines(entries: seq<Entry>, path: string): seq<string> {
    if entries == [] then [] else [NewLine(entries[0], path)] + NewLines(entries[1..], path)
  }

  function NewLine(e: Entry, path: string): string {
    if KEY_FILE <= e.0 then KeyFileLine(path) else EntryLine(e)
  }

  lemma {:induction false} EntryLinesSurviveGo(entries: seq<Entry>)
    requires CleanEntries(entries)
    ensures GoLines(Join(EntryLines(entries))) == EntryLines(entries)
  {
    if entries != [] {
      var line := EntryLine(entries[0]);
      EntryLineShape(entries[0]);
      EntryLinesSurviveGo(entries[1..]);
      hide EntryLine;
      hide Clean;
      hide Pair;
      hide Trim;
      if entries[1..] == [] {
        GoLinesLast(line);
      } else {
        var s := Join(EntryLines(entries));
        assert s == line + "\n" + Join(EntryLines(entries[1..]));
        assert s[..|line|] == line && s[|line| + 1..] == Join(EntryLines(entries[1..]));
        GoLinesFirst(s, |line|);
      }
    }
  }

  lemma {:induction false} EntryLinesRewritten(entries: seq<Entry>, path: string)
    requires CleanEntries(entries)
    ensures WithKeyFile(EntryLines(entries), path) == NewLines(entries, path)
    ensures HasKeyFile(EntryLines(entries)) <==> HasLookalike(entries)
  {
    if entries != [] {
      EntryLineShape(entries[0]);
      EntryLinesRewritten(entries[1..], path);
      hide EntryLine;
      hide KeyFileLine;
      assert EntryLines(entries)[1..] == EntryLines(entries[1..]);
    }
  }

  /** The rewritten lines of a printed section. */
  function FinalLines(entries: seq<Entry>, path: string): seq<string> {
    NewLines(entries, path) + if HasLookalike(entries) then [] else [KeyFileLine(path)]
  }

  lemma PrintedThenSplit(entries: seq<Entry>)
    requires CleanEntries(entries)
    ensures GoLines(Print(entries)) == [HEADER] + EntryLines(entries)
  {
    var lines := EntryLines(entries);
    var s := Print(entries);
    EntryLinesSurviveGo(entries);
    assert StripCr(HEADER) == HEADER;
    assert s[..|HEADER|] == HEADER && s[|HEADER| + 1..] == Join(lines) && s[|HEADER|] == '\n';
    hide EntryLines;
    hide Join;
    hide StripCr;
    GoLinesFirst(s, |HEADER|);
  }

  lemma PrintedThenRewritten(entries: seq<Entry>, path: string)
    requires CleanEntries(entries)
    ensures Rewrite(GoLines(Print(entries)), path) == [HEADER] + FinalLines(entries, path)
  {
    var lines := EntryLines(entries);
    PrintedThenSplit(entries);
    EntryLinesRewritten(entries, path);
    hide KeyFileLine;
    hide Print;
    hide GoLines;
    hide EntryLines;
    hide NewLines;
    assert !(KEY_FILE <= HEADER);
    assert ([HEADER] + lines)[1..] == lines;
    assert WithKeyFile([HEADER] + lines, path) == [HEADER] + WithKeyFile(lines, path);
  }

  lemma {:induction false} NewLinesAreLines(entries: seq<Entry>, path: string)
    requires CleanEntries(entries) && OneLine(KeyFileLine(path))
    ensures forall line | line in NewLines(entries, path) :: OneLine(line)
  {
    if entries != [] {
      EntryLineShape(entries[0]);
      NewLinesAreLines(entries[1..], path);
    }
  }

  lemma SplitOfResult(entries: seq<Entry>, path: string)
    requires CleanEntries(entries) && OneLine(KeyFileLine(path))
    ensures Split(SetUp(Print(entries), path), '\n') == [HEADER] + FinalLines(entries, path)
  {
    NewLinesAreLines(entries, path);
    PrintedThenRewritten(entries, path);
    assert OneLine(HEADER);
    hide KeyFileLine;
    hide Join;
    hide Print;
    SplitJoin([HEADER] + FinalLines(entries, path));
  }

  // ---------------------------------------------------------------- what the parser makes of it

  function Put(section: Section, entries: seq<Entry>): Section
    decreases |entries|
  {
    if entries == [] then section else Put(section[entries[0].0 := entries[0].1], entries[1..])
  }

  /** The entries the final lines stand for. */
  function Replaced(entries: seq<Entry>, path: string): seq<Entry> {
    if entries == [] then [] else [NewEntry(entries[0], path)] + Replaced(entries[1..], path)
  }

  function NewEntry(e: Entry, path: string): Entry {
    if KEY_FILE <= e.0 then (KEY_FILE, path) else e
  }

  function InDefault(section: Section): Parser {
    Parser(map["DEFAULT" := section], "DEFAULT")
  }

  lemma ParsesKeyFileLine(section: Section, path: string)
    requires Clean(path)
    ensures ParseLine(InDefault(section), KeyFileLine(path)) == InDefault(section[KEY_FILE := path])
  {
    KeyFileLineShape(path);
    hide KeyFileLine;
    hide Trim;
    hide Pair;
  }

  lemma ParsesEntryLine(section: Section, e: Entry)
    requires Clean(e.0) && Clean(e.1) && !HeaderLike(e)
    ensures ParseLine(InDefault(section), EntryLine(e)) == InDefault(section[e.0 := e.1])
  {
    ParsesEntry(InDefault(section), e);
    hide ParseLine;
    hide EntryLine;
    assert map["DEFAULT" := section]["DEFAULT" := section[e.0 := e.1]] == map["DEFAULT" := section[e.0 := e.1]];
  }

  lemma ParsesNewLine(section: Section, e: Entry, path: string)
    requires Clean(e.0) && Clean(e.1) && Clean(path) && !HeaderLike(e)
    ensures ParseLine(InDefault(section), NewLine(e, path))
            == InDefault(section[NewEntry(e, path).0 := NewEntry(e, path).1])
  {
    ParsesKeyFileLine(section, path);
    ParsesEntryLine(section, e);
  }

  lemma {:induction false} ParsesNewLines(section: Section, entries: seq<Entry>, path: string, rest: seq<string>)
    requires CleanEntries(entries) && Clean(path)
    requires forall e | e in entries :: !HeaderLike(e)
    ensures ParseLines(InDefault(section), NewLines(entries, path) + rest)
            == ParseLines(InDefault(Put(section, Replaced(entries, path))), rest)
    decreases |entries|
  {
    hide ParseLine;
    hide NewLine;
    hide NewEntry;
    hide HeaderLike;
    hide Clean;
    if entries == [] {
      assert NewLines(entries, path) + rest == rest;
    } else {
      var e := entries[0];
      var lines := NewLines(entries, path) + rest;
      assert e in entries && lines[0] == NewLine(e, path) && lines[1..] == NewLines(entries[1..], path) + rest;
      var put := NewEntry(e, path);
      ParsesNewLine(section, e, path);
      ParsesNewLines(section[put.0 := put.1], entries[1..], path, rest);
      assert Replaced(entries, path)[1..] == Replaced(entries[1..], path);
    }
  }

  lemma ParsesHeader()
    ensures ParseLine(START, HEADER) == InDefault(map[])
  {
    TrimLeaves(HEADER);
    assert HEADER[1..|HEADER| - 1] == "DEFAULT";
  }

  /** Without header-like entries everything lands in `[DEFAULT]`, `key_file` with the new path. */
  lemma ParseOfResult(entries: seq<Entry>, path: string)
    requires CleanEntries(entries) && Clean(path)
    requires forall e | e in entries :: !HeaderLike(e)
    ensures var section := Put(map[], Replaced(entries, path));
            Parse(SetUp(Print(entries), path))
            == map["DEFAULT" := if HasLookalike(entries) then section else section[KEY_FILE := path]]
  {
    KeyFileLineShape(path);
    SplitOfResult(entries, path);
    ParsesHeader();
    var section := Put(map[], Replaced(entries, path));
    ParsesKeyFileLine(section, path);
    var lines := FinalLines(entries, path);
    var rest := if HasLookalike(entries) then [] else [KeyFileLine(path)];
    ParsesNewLines(map[], entries, path, rest);
    hide KeyFileLine;
    hide ParseLine;
    hide HasLookalike;
    hide SetUp;
    hide HeaderLike;
    assert ([HEADER] + lines)[1..] == lines;
    assert ParseLines(InDefault(section), rest)
        == InDefault(if HasLookalike(entries) then section else section[KEY_FILE := path]) by {
      if !HasLookalike(entries) {
        assert rest[1..] == [];
      }
    }
  }

  lemma {:induction false} PutHolds(section: Section, entries: seq<Entry>, whole: Section)
    requires forall key | key in section :: key in whole && section[key] == whole[key]
    requires forall e | e in entries :: e.0 in whole && e.1 == whole[e.0]
    ensures var r := Put(section, entries);
            && (forall key | key in r :: key in whole && r[key] == whole[key])
            && (forall key | key in section :: key in r)
            && (forall e | e in entries :: e.0 in r)
    decreases |entries|
  {
    if entries != [] {
      PutHolds(section[entries[0].0 := entries[0].1], entries[1..], whole);
      assert forall e | e in entries :: e == entries[0] || e in entries[1..];
    }
  }

  lemma {:induction false} PutKeys(section: Section, entries: seq<Entry>, key: string)
    requires key in Put(section, entries)
    ensures key in section || exists e | e in entries :: e.0 == key
    decreases |entries|
  {
    if entries != [] {
      PutKeys(section[entries[0].0 := entries[0].1], entries[1..], key);
    }
  }

  lemma {:induction false} ReplacedEntries(entries: seq<Entry>, path: string)
    ensures forall e | e in entries ::
              NewEntry(e, path) in Replaced(entries, path)
    ensures forall r | r in Replaced(entries, path) ::
              if KEY_FILE <= r.0 then r == (KEY_FILE, path) && HasLookalike(entries) else r in entries
    ensures HasLookalike(entries) <==> exists e | e in entries :: KEY_FILE <= e.0
  {
    if entries != [] {
      ReplacedEntries(entries[1..], path);
      assert forall e | e in entries :: e == entries[0] || e in entries[1..];
    }
  }

  // ---------------------------------------------------------------- the round trip

  /** No other key starts like `key_file`, and no entry's line reads as a section header. */
  ghost predicate Survives(section: Section) {
    && (forall key | key in section :: "key_file" <= key ==> key == "key_file")
    && (forall key | key in section :: !HeaderLike((key, section[key])))
  }

  /** All that is put agrees with the section and its new path, and misses no key but perhaps `key_file`. */
  lemma PutAgrees(section: Section, entries: seq<Entry>, path: string)
    requires Lists(entries, section)
    requires forall key | key in section :: KEY_FILE <= key ==> key == KEY_FILE
    ensures var put, whole := Put(map[], Replaced(entries, path)), section[KEY_FILE := path];
            && (forall key | key in put :: key in whole && put[key] == whole[key])
            && (forall key | key in section && key != KEY_FILE :: key in put)
            && (HasLookalike(entries) ==> KEY_FILE in put)
  {
    ReplacedHold(section, entries, path);
    PutHolds(map[], Replaced(entries, path), section[KEY_FILE := path]);
    hide HasLookalike;
    hide Replaced;
    hide Put;
    hide Lists;
    forall key | key in section && key != KEY_FILE
      ensures key in Put(map[], Replaced(entries, path))
    {
      assert (key, section[key]) in Replaced(entries, path);
    }
    assert HasLookalike(entries) ==> (KEY_FILE, path) in Replaced(entries, path);
  }

  lemma SurvivorIsPut(section: Section, entries: seq<Entry>, path: string)
    requires Lists(entries, section)
    requires forall key | key in section :: KEY_FILE <= key ==> key == KEY_FILE
    ensures var put := Put(map[], Replaced(entries, path));
            section[KEY_FILE := path] == if HasLookalike(entries) then put else put[KEY_FILE := path]
  {
    PutAgrees(section, entries, path);
    hide *;
  }

  lemma ReplacedHold(section: Section, entries: seq<Entry>, path: string)
    requires Lists(entries, section)
    requires forall key | key in section :: KEY_FILE <= key ==> key == KEY_FILE
    ensures forall e | e in Replaced(entries, path) ::
              e.0 in section[KEY_FILE := path] && e.1 == section[KEY_FILE := path][e.0]
    ensures forall key | key in section && key != KEY_FILE :: (key, section[key]) in Replaced(entries, path)
    ensures HasLookalike(entries) ==> (KEY_FILE, path) in Replaced(entries, path)
    ensures !HasLookalike(entries) ==> KEY_FILE !in section
  {
    ReplacedEntries(entries, path);
    hide HasLookalike;
    hide Replaced;
  }

  lemma SurvivorReadsBack(section: Section, entries: seq<Entry>, path: string)
    requires CleanSection(section) && Lists(entries, section) && Clean(path) && Survives(section)
    ensures Parse(SetUp(Print(entries), path)) == map["DEFAULT" := section[KEY_FILE := path]]
  {
    SurvivorIsPut(section, entries, path);
    EntriesAreClean(section, entries);
    hide Clean;
    hide HeaderLike;
    hide Put;
    hide SetUp;
    hide HasLookalike;
    ParseOfResult(entries, path);
  }

  lemma LookalikeIsLost(section: Section, entries: seq<Entry>, path: string, key: string)
    requires CleanSection(section) && Lists(entries, section) && Clean(path)
    requires forall e | e in entries :: !HeaderLike(e)
    requires key in section && KEY_FILE <= key && key != KEY_FILE
    ensures Parse(SetUp(Print(entries), path)) != map["DEFAULT" := section[KEY_FILE := path]]
  {
    ParseOfResult(entries, path);
    ReplacedEntries(entries, path);
    var put := Put(map[], Replaced(entries, path));
    if key in put {
      PutKeys(map[], Replaced(entries, path), key);
    }
    hide SetUp;
    hide Put;
    var parsed := Parse(SetUp(Print(entries), path));
    assert key !in parsed["DEFAULT"] && key in section[KEY_FILE := path];
  }

  lemma {:induction false} HeaderStays(p: Parser, lines: seq<string>, line: string)
    requires p.Valid() && IsHeader(Trim(line))
    requires line in lines || Trim(line)[1..|Trim(line)| - 1] in p.sections
    ensures Trim(line)[1..|Trim(line)| - 1] in ParseLines(p, lines).sections
    decreases |lines|
  {
    if lines != [] {
      HeaderStays(ParseLine(p, lines[0]), lines[1..], line);
    }
  }

  lemma HeaderLikeIsLost(section: Section, entries: seq<Entry>, path: string, e: Entry)
    requires CleanSection(section) && Lists(entries, section) && Clean(path)
    requires e in entries && HeaderLike(e)
    ensures Parse(SetUp(Print(entries), path)) != map["DEFAULT" := section[KEY_FILE := path]]
  {
    EntriesAreClean(section, entries);
    EntryLineShape(e);
    KeyFileLineShape(path);
    HeaderLikeName(e);
    LineIsKept(entries, path, e);
    hide *;
    SplitOfResult(entries, path);
    var lines := [HEADER] + FinalLines(entries, path);
    HeaderLineIsRead(SetUp(Print(entries), path), lines, entries, path, e);
  }

  lemma HeaderLineIsRead(content: string, lines: seq<string>, entries: seq<Entry>, path: string, e: Entry)
    requires Split(content, '\n') == lines == [HEADER] + FinalLines(entries, path)
    requires EntryLine(e) in NewLines(entries, path)
    requires Trim(EntryLine(e)) == EntryLine(e) && IsHeader(EntryLine(e)) && '=' in EntryLine(e)[1..|EntryLine(e)| - 1]
    ensures exists name | name in Parse(content) :: name != "DEFAULT"
  {
    var line := EntryLine(e);
    hide EntryLine;
    hide Trim;
    hide Split;
    hide ParseLines;
    hide NewLines;
    assert line in lines;
    HeaderStays(START, lines, line);
    var name := line[1..|line| - 1];
    assert '=' !in "DEFAULT" && name in Parse(content);
  }

  lemma HeaderLikeName(e: Entry)
    requires HeaderLike(e)
    ensures '=' in EntryLine(e)[1..|EntryLine(e)| - 1]
  {
    var line := EntryLine(e);
    assert line[1..|line| - 1][|e.0| - 1] == '=';
  }

  lemma {:induction false} LineIsKept(entries: seq<Entry>, path: string, e: Entry)
    requires e in entries && HeaderLike(e)
    ensures EntryLine(e) in NewLines(entries, path)
  {
    hide EntryLine;
    if entries[0] != e {
      LineIsKept(entries[1..], path, e);
    }
  }

  lemma UncleanPathIsLost(section: Section, entries: seq<Entry>, path: string)
    requires !Clean(path)
    ensures Parse(SetUp(Print(entries), path)) != map["DEFAULT" := section[KEY_FILE := path]]
  {
    ParsedIsClean(SetUp(Print(entries), path));
    hide SetUp;
    hide Parse;
    hide Clean;
    var expected := map["DEFAULT" := section[KEY_FILE := path]];
    assert !CleanSection(expected["DEFAULT"]) by {
      assert KEY_FILE in expected["DEFAULT"];
    }
    assert "DEFAULT" in expected;
  }

  lemma EntriesAreClean(section: Section, entries: seq<Entry>)
    requires CleanSection(section) && Lists(entries, section)
    ensures CleanEntries(entries)
  {
  }

  /**
   A section as the parser leaves it, printed in any order, rewritten and read again, is the
   same section with the new `key_file` and nothing else, exactly when it survives and the path
   is one the parser leaves alone.
   */
  lemma RoundTrip(section: Section, entries: seq<Entry>, path: string)
    requires CleanSection(section) && Lists(entries, section)
    ensures Parse(SetUp(Print(entries), path)) == map["DEFAULT" := section["key_file" := path]]
            <==> Clean(path) && Survives(section)
  {
    hide Clean;
    hide SetUp;
    hide Parse;
    hide HeaderLike;
    if !Clean(path) {
      UncleanPathIsLost(section, entries, path);
    } else if Survives(section) {
      SurvivorReadsBack(section, entries, path);
    } else if e :| e in entries && HeaderLike(e) {
      assert HeaderLike((e.0, section[e.0]));
      HeaderLikeIsLost(section, entries, path, e);
    } else {
      forall key | key in section
        ensures !HeaderLike((key, section[key]))
      {
        assert (key, section[key]) in entries;
      }
      var key :| key in section && KEY_FILE <= key && key != KEY_FILE;
      LookalikeIsLost(section, entries, path, key);
    }
  }

  /** The whole way from the operator's file to what the server reads. */
  lemma RegionReadsBack(content: string, region: string, entries: seq<Entry>, path: string)
    requires region in Parse(content) && Lists(entries, Parse(content)[region])
    ensures Parse(SetUp(Print(entries), path)) == map["DEFAULT" := Parse(content)[region]["key_file" := path]]
            <==> Clean(path) && Survives(Parse(content)[region])
  {
    ParsedIsClean(content);
    hide Clean;
    hide SetUp;
    hide Parse;
    assert CleanSection(Parse(content)[region]);
    RoundTrip(Parse(content)[region], entries, path);
  }

  // ---------------------------------------------------------------- a whole file

  type Named = (string, seq<Entry>)

  /** The operator's file: each section's header, then its entries. */
  function FileLines(order: seq<Named>): seq<string> {
    if order == [] then [] else ["[" + order[0].0 + "]"] + (EntryLines(order[0].1) + FileLines(order[1..]))
  }

  /** The sections of a file in some order, with their entries in some order. */
  ghost predicate ListsFile(order: seq<Named>, file: map<string, Section>) {
    && (forall n | n in order :: n.0 in file && Lists(n.1, file[n.0]))
    && (forall name | name in file :: exists n :: n in order && n.0 == name)
  }

  /** Sections with names that can be selected, and entries as the parser leaves them that are no headers. */
  ghost predicate Readable(name: string, section: Section) {
    && name != "" && OneLine(name) && CleanSection(section)
    && forall key | key in section :: !HeaderLike((key, section[key]))
  }

  function Put1(p: Parser, e: Entry): Parser
    requires p.Valid() && p.current != ""
  {
    p.(sections := p.sections[p.current := p.sections[p.current][e.0 := e.1]])
  }

  lemma ParsesEntry(p: Parser, e: Entry)
    requires p.Valid() && p.current != "" && Clean(e.0) && Clean(e.1) && !HeaderLike(e)
    ensures ParseLine(p, EntryLine(e)) == Put1(p, e)
  {
    EntryLineShape(e);
    hide EntryLine;
    hide Trim;
    hide Pair;
  }

  lemma {:induction false} ParsesEntries(p: Parser, entries: seq<Entry>, rest: seq<string>)
    requires p.Valid() && p.current != "" && CleanEntries(entries)
    requires forall e | e in entries :: !HeaderLike(e)
    ensures ParseLines(p, EntryLines(entries) + rest) ==
            ParseLines(p.(sections := p.sections[p.current := Put(p.sections[p.current], entries)]), rest)
    decreases |entries|
  {
    hide HeaderLike;
    hide Clean;
    hide EntryLine;
    hide ParseLine;
    if entries == [] {
      assert EntryLines(entries) + rest == rest;
      assert p.(sections := p.sections[p.current := p.sections[p.current]]) == p;
    } else {
      var e := entries[0];
      var lines := EntryLines(entries) + rest;
      assert e in entries && lines[0] == EntryLine(e) && lines[1..] == EntryLines(entries[1..]) + rest;
      ParsesEntry(p, e);
      ParsesEntries(Put1(p, e), entries[1..], rest);
      var put := Put(p.sections[p.current], entries);
      assert Put1(p, e).sections[p.current := put] == p.sections[p.current := put];
    }
  }

  /** What has been read so far is part of the file. */
  ghost predicate PartOf(sections: map<string, Section>, file: map<string, Section>) {
    forall name | name in sections :: name in file && sections[name] == file[name]
  }

  lemma ListedIsPut(entries: seq<Entry>, section: Section)
    requires Lists(entries, section)
    ensures Put(map[], entries) == section
  {
    PutHolds(map[], entries, section);
    hide Put;
    forall key | key in section
      ensures key in Put(map[], entries)
    {
      assert (key, section[key]) in entries;
    }
  }

  lemma ReadableEntries(name: string, section: Section, entries: seq<Entry>)
    requires Readable(name, section) && Lists(entries, section)
    ensures CleanEntries(entries) && forall e | e in entries :: !HeaderLike(e)
  {
    hide Clean;
    hide HeaderLike;
    forall e | e in entries
      ensures Clean(e.0) && Clean(e.1) && !HeaderLike(e)
    {
      assert !HeaderLike((e.0, section[e.0]));
    }
  }

  lemma ParsesSection(p: Parser, n: Named, section: Section, rest: seq<string>)
    requires p.Valid() && Readable(n.0, section) && Lists(n.1, section)
    ensures ParseLines(p, ["[" + n.0 + "]"] + (EntryLines(n.1) + rest))
            == ParseLines(Parser(p.sections[n.0 := section], n.0), rest)
  {
    var lines := ["[" + n.0 + "]"] + (EntryLines(n.1) + rest);
    ParsesSectionHeader(p, n.0);
    ReadableEntries(n.0, section, n.1);
    ListedIsPut(n.1, section);
    var entered := Parser(p.sections[n.0 := map[]], n.0);
    ParsesEntries(entered, n.1, rest);
    hide ParseLine;
    hide Put;
    hide EntryLines;
    hide Readable;
    hide Lists;
    assert lines[0] == "[" + n.0 + "]" && lines[1..] == EntryLines(n.1) + rest;
    assert entered.sections[n.0 := section] == p.sections[n.0 := section];
  }

  lemma {:induction false} ParsesFile(p: Parser, order: seq<Named>, file: map<string, Section>)
    requires p.Valid() && PartOf(p.sections, file)
    requires forall n | n in order :: n.0 in file && Readable(n.0, file[n.0]) && Lists(n.1, file[n.0])
    ensures var r := ParseLines(p, FileLines(order)).sections;
            && PartOf(r, file) && p.sections.Keys <= r.Keys
            && forall n | n in order :: n.0 in r
    decreases |order|
  {
    if order != [] {
      var n := order[0];
      assert n in order;
      ParsesSection(p, n, file[n.0], FileLines(order[1..]));
      var p' := Parser(p.sections[n.0 := file[n.0]], n.0);
      hide Readable;
      hide Lists;
      hide ParseLines;
      ParsesFile(p', order[1..], file);
      assert forall m | m in order :: m == n || m in order[1..];
    }
  }

  lemma {:induction false} FileLinesAreLines(order: seq<Named>, file: map<string, Section>)
    requires forall n | n in order :: n.0 in file && Readable(n.0, file[n.0]) && Lists(n.1, file[n.0])
    ensures forall line | line in FileLines(order) :: OneLine(line)
  {
    if order != [] {
      var n := order[0];
      assert n in order;
      ReadableEntries(n.0, file[n.0], n.1);
      EntryLinesAreLines(n.1);
      FileLinesAreLines(order[1..], file);
      assert OneLine("[" + n.0 + "]");
    }
  }

  lemma {:induction false} EntryLinesAreLines(entries: seq<Entry>)
    requires CleanEntries(entries)
    ensures forall line | line in EntryLines(entries) :: OneLine(line)
  {
    if entries != [] {
      EntryLineShape(entries[0]);
      EntryLinesAreLines(entries[1..]);
    }
  }

  /** A file of any sections, printed in any order, is read back as those sections. */
  lemma FileReadsBack(file: map<string, Section>, order: seq<Named>)
    requires order != [] && ListsFile(order, file) && forall name | name in file :: Readable(name, file[name])
    ensures Parse(Join(FileLines(order))) == file
  {
    hide Readable;
    hide Lists;
    FileLinesAreLines(order, file);
    SplitJoin(FileLines(order));
    ParsesFile(START, order, file);
    hide ParseLines;
    hide FileLines;
    hide Join;
    var r := Parse(Join(FileLines(order)));
    forall name | name in file
      ensures name in r
    {
      var n :| n in order && n.0 == name;
    }
  }

  // ---------------------------------------------------------------- lines on the server

  function JoinCrLf(lines: seq<string>): string {
    if lines == [] then "" else if |lines| == 1 then lines[0] else lines[0] + "\r\n" + JoinCrLf(lines[1..])
  }

  /** Lines ended by a carriage return and a line feed are split apart without either, the last one as it is. */
  lemma {:induction false} SplitsCrLf(lines: seq<string>)
    requires lines != [] && lines[|lines| - 1] != "" && forall line | line in lines :: OneLine(line)
    ensures GoLines(JoinCrLf(lines)) == lines
  {
    assert OneLine(lines[0]);
    if |lines| == 1 {
      GoLinesLast(lines[0]);
      assert lines == [lines[0]];
    } else {
      SplitsCrLf(lines[1..]);
      var rest := JoinCrLf(lines[1..]);
      assert JoinCrLf(lines) == lines[0] + "\r\n" + rest;
      FirstCrLf(lines[0], rest);
      hide JoinCrLf;
      hide GoLines;
      assert lines == [lines[0]] + lines[1..];
    }
  }

  lemma FirstCrLf(line: string, rest: string)
    requires OneLine(line)
    ensures GoLines(line + "\r\n" + rest) == [line] + GoLines(rest)
  {
    var first := line + "\r";
    var s := line + "\r\n" + rest;
    assert s[|first|] == '\n' && s[..|first|] == first && s[|first| + 1..] == rest;
    GoLinesFirst(s, |first|);
    hide GoLines;
    assert StripCr(first) == line;
  }

  /** A line feed at the very end adds no line. */
  lemma DropsLastLineFeed(line: string)
    requires OneLine(line) && (line != "" ==> line[|line| - 1] != '\r')
    ensures GoLines(line + "\n") == [line]
  {
    var s := line + "\n";
    assert s[..|line|] == line && s[|line| + 1..] == "";
    GoLinesFirst(s, |line|);
  }
}
