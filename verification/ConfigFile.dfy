/**
  The per-device settings file (src/InputDeviceDBus.cpp): its parser, its printer and the read-modify-write that
  saves one device. Strings are sequences of characters; isspace is that of the C locale.
*/
module ConfigFile {
  import opened Options

  type Section = map<string, string>

  type Config = map<string, Section>

  // ----- Characters and lines -----

  predicate IsSpace(c: char) {
    c == ' ' || '\t' <= c <= '\r'
  }

  function TrimLeft(s: string): string {
    if s != "" && IsSpace(s[0]) then TrimLeft(s[1..]) else s
  }

  function TrimRight(s: string): string {
    if s != "" && IsSpace(s[|s| - 1]) then TrimRight(s[..|s| - 1]) else s
  }

  function Trim(s: string): string {
    TrimRight(TrimLeft(s))
  }

  /** The first place of c in s, or |s|. */
  function Find(s: string, c: char): (k: nat)
    ensures k <= |s| && c !in s[..k]
    ensures k < |s| ==> s[k] == c
  {
    if s == "" || s[0] == c then 0
    else
      var k := 1 + Find(s[1..], c);
      assert s[..k] == [s[0]] + s[1..][..k - 1];
      k
  }

  /** What repeated getline calls return. */
  function Lines(text: string): seq<string>
    decreases |text|
  {
    if text == "" then []
    else
      var n := Find(text, '\n');
      if n == |text| then [text] else [text[..n]] + Lines(text[n + 1..])
  }

  function Unlines(lines: seq<string>): string {
    if lines == [] then "" else lines[0] + "\n" + Unlines(lines[1..])
  }

  // ----- The parser -----

  datatype State = State(section: string, cfg: Config)

  function Put(cfg: Config, section: string, key: string, value: string): Config {
    cfg[section := (if section in cfg then cfg[section] else map[])[key := value]]
  }

  /** The body of the loop of ReadConfigFile on one line. */
  function Step(st: State, raw: string): State {
    var line := Trim(raw);
    if line == "" || line[0] == '#' then st
    else if line[0] == '[' && line[|line| - 1] == ']' then st.(section := line[1..|line| - 1])
    else
      var eq := Find(line, '=');
      if eq == |line| || st.section == "" then st
      else st.(cfg := Put(st.cfg, st.section, line[..eq], line[eq + 1..]))
  }

  function Run(st: State, lines: seq<string>): State
    decreases |lines|
  {
    if lines == [] then st else Run(Step(st, lines[0]), lines[1..])
  }

  function Parse(text: string): Config {
    Run(State("", map[]), Lines(text)).cfg
  }

  lemma RunFirst(st: State, text: string, line: string, rest: string)
    requires Lines(text) == [line] + Lines(rest)
    ensures Run(st, Lines(text)) == Run(Step(st, line), Lines(rest))
  {
    assert ([line] + Lines(rest))[1..] == Lines(rest);
  }

  lemma RunNothing(st: State)
    ensures Run(st, Lines("")) == st
  {}

  /** ReadConfigFile; None stands for a file that cannot be opened. */
  method ReadConfigFile(file: Option<string>) returns (cfg: Config)
    ensures cfg == if file.Some? then Parse(file.value) else map[]
  {
    cfg := map[];
    if file.None? { return; }
    hide Run, Lines, Trim;
    var rest := file.value;
    var section := "";
    while rest != ""
      invariant Run(State(section, cfg), Lines(rest)).cfg == Parse(file.value)
      decreases |rest|
    {
      var line, next := GetLine(rest);
      RunFirst(State(section, cfg), rest, line, next);
      rest := next;
      line := TrimLine(line);
      if line == "" || line[0] == '#' {
        continue;
      }
      if line[0] == '[' && line[|line| - 1] == ']' {
        section := line[1..|line| - 1];
        continue;
      }
      var eq := Find(line, '=');
      if eq == |line| || section == "" {
        continue;
      }
      cfg := Put(cfg, section, line[..eq], line[eq + 1..]);
    }
    RunNothing(State(section, cfg));
  }

  /** The two trimming loops at the top of the body. */
  method TrimLine(raw: string) returns (line: string)
    ensures line == Trim(raw)
  {
    line := raw;
    while line != "" && IsSpace(line[0])
      invariant TrimLeft(line) == TrimLeft(raw)
      decreases |line|
    {
      line := line[1..];
    }
    while line != "" && IsSpace(line[|line| - 1])
      invariant TrimRight(line) == Trim(raw)
      decreases |line|
    {
      line := line[..|line| - 1];
    }
  }

  method GetLine(text: string) returns (line: string, rest: string)
    requires text != ""
    ensures |rest| < |text| && Lines(text) == [line] + Lines(rest)
  {
    hide Find;
    var n := Find(text, '\n');
    line := text[..n];
    assert n == |text| ==> line == text;
    rest := if n == |text| then "" else text[n + 1..];
  }

  // ----- The printer -----

  datatype Entry = Entry(key: string, value: string)

  datatype Block = Block(name: string, entries: seq<Entry>)

  const HEADER := "# Gamescope Cloud " + "Mouse settings — " + "auto-generated"

  function EntryLines(entries: seq<Entry>): seq<string> {
    if entries == [] then [] else [entries[0].key + "=" + entries[0].value] + EntryLines(entries[1..])
  }

  function BlockLines(b: Block): seq<string> {
    ["", "[" + b.name + "]"] + EntryLines(b.entries)
  }

  function AllLines(blocks: seq<Block>): seq<string> {
    if blocks == [] then [] else BlockLines(blocks[0]) + AllLines(blocks[1..])
  }

  /** The file WriteConfigFile leaves when the maps are walked in the order of `blocks`. */
  function Print(blocks: seq<Block>): string {
    Unlines([HEADER] + AllLines(blocks))
  }

  ghost predicate HasKey(entries: seq<Entry>, k: string) {
    exists i :: 0 <= i < |entries| && entries[i].key == k
  }

  ghost predicate HasName(blocks: seq<Block>, s: string) {
    exists i :: 0 <= i < |blocks| && blocks[i].name == s
  }

  /** The entries list a section, each key once. std::map goes through the keys in rising order. */
  ghost predicate ListsSection(entries: seq<Entry>, m: Section) {
    && (forall i, j :: 0 <= i < j < |entries| ==> entries[i].key != entries[j].key)
    && (forall i :: 0 <= i < |entries| ==> entries[i].key in m && m[entries[i].key] == entries[i].value)
    && (forall k :: k in m ==> HasKey(entries, k))
  }

  ghost predicate Lists(blocks: seq<Block>, cfg: Config) {
    && (forall i, j :: 0 <= i < j < |blocks| ==> blocks[i].name != blocks[j].name)
    && (forall i :: 0 <= i < |blocks| ==>
          blocks[i].name in cfg && ListsSection(blocks[i].entries, cfg[blocks[i].name]))
    && (forall s :: s in cfg ==> HasName(blocks, s))
  }

  lemma UnlinesOfAppend(a: seq<string>, b: seq<string>)
    ensures Unlines(a + b) == Unlines(a) + Unlines(b)
  {
    if a == [] {
      assert a + b == b;
    } else {
      UnlinesOfAppend(a[1..], b);
      assert (a + b)[1..] == a[1..] + b;
      Assoc(a[0] + "\n", Unlines(a[1..]), Unlines(b));
    }
  }

  lemma EntryLinesOfAppend(entries: seq<Entry>, e: Entry)
    ensures EntryLines(entries + [e]) == EntryLines(entries) + [e.key + "=" + e.value]
  {
    if entries == [] {
      assert [e][1..] == [];
    } else {
      EntryLinesOfAppend(entries[1..], e);
      assert (entries + [e])[1..] == entries[1..] + [e];
    }
  }

  lemma Assoc<T>(a: seq<T>, b: seq<T>, c: seq<T>)
    ensures a + (b + c) == (a + b) + c
  {}

  lemma AllLinesOfAppend(blocks: seq<Block>, b: Block)
    ensures AllLines(blocks + [b]) == AllLines(blocks) + BlockLines(b)
  {
    hide BlockLines;
    if blocks == [] {
      assert [b][1..] == [];
      assert BlockLines(b) + [] == BlockLines(b);
    } else {
      AllLinesOfAppend(blocks[1..], b);
      assert (blocks + [b])[1..] == blocks[1..] + [b];
      Assoc(BlockLines(blocks[0]), AllLines(blocks[1..]), BlockLines(b));
    }
  }

  lemma TextOfAppend(entries: seq<Entry>, e: Entry)
    ensures Unlines(EntryLines(entries + [e])) == Unlines(EntryLines(entries)) + (e.key + "=" + e.value + "\n")
  {
    EntryLinesOfAppend(entries, e);
    var line := e.key + "=" + e.value;
    UnlinesOfAppend(EntryLines(entries), [line]);
    assert Unlines([line]) == line + "\n" + Unlines([]);
  }

  lemma PrintOfAppend(blocks: seq<Block>, b: Block)
    ensures Print(blocks + [b]) == Print(blocks) + ("\n[" + b.name + "]\n") + Unlines(EntryLines(b.entries))
  {
    AllLinesOfAppend(blocks, b);
    Assoc([HEADER], AllLines(blocks), BlockLines(b));
    UnlinesOfAppend([HEADER] + AllLines(blocks), BlockLines(b));
    UnlinesOfBlock(b);
    hide Unlines, BlockLines, AllLines;
    Assoc(Print(blocks), "\n[" + b.name + "]\n", Unlines(EntryLines(b.entries)));
  }

  lemma UnlinesOfBlock(b: Block)
    ensures Unlines(BlockLines(b)) == ("\n[" + b.name + "]\n") + Unlines(EntryLines(b.entries))
  {
    var front := ["", "[" + b.name + "]"];
    UnlinesOfAppend(front, EntryLines(b.entries));
    assert front[1..] == ["[" + b.name + "]"] && front[1..][1..] == [];
    assert Unlines(front) == "" + "\n" + ("[" + b.name + "]" + "\n" + Unlines([]));
  }

  lemma SectionGrows(entries: seq<Entry>, m: Section, e: Entry)
    requires ListsSection(entries, m) && e.key !in m
    ensures ListsSection(entries + [e], m[e.key := e.value])
  {
    var all := entries + [e];
    assert all[|entries|] == e;
    forall k | k in m[e.key := e.value] ensures HasKey(all, k) {
      if k in m {
        var i :| 0 <= i < |entries| && entries[i].key == k;
        assert all[i].key == k;
      }
    }
  }

  lemma ConfigGrows(blocks: seq<Block>, cfg: Config, b: Block, m: Section)
    requires Lists(blocks, cfg) && b.name !in cfg && ListsSection(b.entries, m)
    ensures Lists(blocks + [b], cfg[b.name := m])
  {
    hide ListsSection;
    var all := blocks + [b];
    assert all[|blocks|] == b;
    forall s | s in cfg[b.name := m] ensures HasName(all, s) {
      if s in cfg {
        var i :| 0 <= i < |blocks| && blocks[i].name == s;
        assert all[i].name == s;
      }
    }
  }

  /** The part of m whose keys have been dealt with. */
  ghost predicate Covers<T(!new)>(done: map<string, T>, m: map<string, T>, left: set<string>) {
    done.Keys == m.Keys - left && left <= m.Keys && forall k :: k in done ==> done[k] == m[k]
  }

  lemma CoversAll<T(!new)>(done: map<string, T>, m: map<string, T>)
    requires Covers(done, m, {})
    ensures done == m
  {}

  lemma CoversOneMore<T(!new)>(done: map<string, T>, m: map<string, T>, left: set<string>, k: string)
    requires Covers(done, m, left) && k in left
    ensures k !in done && k in m && Covers(done[k := m[k]], m, left - {k})
  {}

  ghost predicate PrintsSection(text: string, m: Section) {
    exists entries: seq<Entry> :: ListsSection(entries, m) && text == Unlines(EntryLines(entries))
  }

  /** The text is a print of the whole map, in some order of its keys. */
  ghost predicate Prints(text: string, cfg: Config) {
    exists blocks: seq<Block> :: Lists(blocks, cfg) && text == Print(blocks)
  }

  /** The inner loop of WriteConfigFile. */
  method WriteSection(m: Section) returns (text: string)
    ensures PrintsSection(text, m)
  {
    hide Covers, ListsSection, Unlines, EntryLines;
    text := "";
    ghost var entries := [];
    ghost var done: Section := map[];
    var keys := m.Keys;
    NothingListed(m);
    while keys != {}
      invariant Covers(done, m, keys) && ListsSection(entries, done)
      invariant text == Unlines(EntryLines(entries))
      decreases |keys|
    {
      var key :| key in keys;
      CoversOneMore(done, m, keys, key);
      SectionGrows(entries, done, Entry(key, m[key]));
      TextOfAppend(entries, Entry(key, m[key]));
      text := text + (key + "=" + m[key] + "\n");
      entries, done, keys := entries + [Entry(key, m[key])], done[key := m[key]], keys - {key};
    }
    CoversAll(done, m);
  }

  lemma NothingListed(m: Section)
    ensures Covers(map[], m, m.Keys) && ListsSection([], map[]) && Unlines(EntryLines([])) == ""
  {}

  lemma NothingPrinted(cfg: Config)
    ensures Covers(map[], cfg, cfg.Keys) && Lists([], map[]) && Print([]) == HEADER + "\n"
  {
    assert [HEADER] + AllLines([]) == [HEADER];
    assert Unlines([HEADER]) == HEADER + "\n" + Unlines([]);
  }

  /** WriteConfigFile, taking the keys of the maps in some order. */
  method WriteConfigFile(cfg: Config) returns (text: string)
    ensures Prints(text, cfg)
  {
    hide Covers, ListsSection, Lists, Unlines, EntryLines, Print;
    text := HEADER + "\n";
    ghost var blocks := [];
    ghost var done: Config := map[];
    var names := cfg.Keys;
    NothingPrinted(cfg);
    while names != {}
      invariant Covers(done, cfg, names) && Lists(blocks, done)
      invariant text == Print(blocks)
      decreases |names|
    {
      var name :| name in names;
      CoversOneMore(done, cfg, names, name);
      var body := WriteSection(cfg[name]);
      ghost var entries: seq<Entry> :| ListsSection(entries, cfg[name]) && body == Unlines(EntryLines(entries));
      ConfigGrows(blocks, done, Block(name, entries), cfg[name]);
      PrintOfAppend(blocks, Block(name, entries));
      text := text + ("\n[" + name + "]\n") + body;
      blocks, done, names := blocks + [Block(name, entries)], done[name := cfg[name]], names - {name};
    }
    CoversAll(done, cfg);
  }

  // ----- What survives a round trip -----

  predicate GoodName(s: string) {
    s != "" && '\n' !in s
  }

  predicate GoodEntry(k: string, v: string) {
    && '\n' !in k && '\n' !in v && '=' !in k
    && (k != "" ==> !IsSpace(k[0]) && k[0] != '#')
    && (v != "" ==> !IsSpace(v[|v| - 1]))
    && !(k != "" && v != "" && k[0] == '[' && v[|v| - 1] == ']')
  }

  ghost predicate GoodSection(m: Section) {
    m != map[] && forall k :: k in m ==> GoodEntry(k, m[k])
  }

  ghost predicate WellFormed(cfg: Config) {
    forall s :: s in cfg ==> GoodName(s) && GoodSection(cfg[s])
  }

  lemma TrimLeftIs(s: string)
    ensures TrimLeft(s) != "" ==> !IsSpace(TrimLeft(s)[0])
    ensures '\n' !in s ==> '\n' !in TrimLeft(s)
  {}

  lemma TrimRightIs(s: string)
    ensures TrimRight(s) != "" ==> s != "" && TrimRight(s)[0] == s[0]
    ensures TrimRight(s) != "" ==> !IsSpace(TrimRight(s)[|TrimRight(s)| - 1])
    ensures '\n' !in s ==> '\n' !in TrimRight(s)
  {}

  lemma TrimIs(s: string)
    ensures Trim(s) != "" ==> !IsSpace(Trim(s)[0]) && !IsSpace(Trim(s)[|Trim(s)| - 1])
    ensures '\n' !in s ==> '\n' !in Trim(s)
  {
    TrimLeftIs(s);
    TrimRightIs(TrimLeft(s));
  }

  lemma TrimKeeps(s: string)
    requires s != "" ==> !IsSpace(s[0]) && !IsSpace(s[|s| - 1])
    ensures Trim(s) == s
  {}

  // ----- What the parser makes of any line -----

  /** The blank and the control characters from the tabulator to the carriage return, by their codes. */
  ghost predicate OneOfSix(c: char) {
    c as int == 32 || 9 <= c as int <= 13
  }

  ghost predicate AllSpaces(s: string) {
    forall c :: c in s ==> OneOfSix(c)
  }

  /** Trimming takes spaces away at both ends, and nothing else: what is left starts and ends with something else. */
  lemma {:induction false} TrimIsTheMiddle(s: string)
    ensures exists left, right :: AllSpaces(left) && AllSpaces(right) && s == left + Trim(s) + right
  {
    var left := TrimLeftRest(s);
    var right := TrimRightRest(TrimLeft(s));
    assert s == left + (Trim(s) + right) == left + Trim(s) + right;
  }

  lemma {:induction false} TrimLeftRest(s: string) returns (left: string)
    ensures AllSpaces(left) && s == left + TrimLeft(s)
  {
    left := "";
    if s != "" && IsSpace(s[0]) {
      var rest := TrimLeftRest(s[1..]);
      left := [s[0]] + rest;
    }
  }

  lemma {:induction false} TrimRightRest(s: string) returns (right: string)
    ensures AllSpaces(right) && s == TrimRight(s) + right
  {
    right := "";
    if s != "" && IsSpace(s[|s| - 1]) {
      var rest := TrimRightRest(s[..|s| - 1]);
      right := rest + [s[|s| - 1]];
    }
  }

  /** Spaces around a text that has none at its own ends go, whatever they are. */
  lemma {:induction false} TrimOfPadded(left: string, s: string, right: string)
    requires AllSpaces(left) && AllSpaces(right) && (s != "" ==> !IsSpace(s[0]) && !IsSpace(s[|s| - 1]))
    ensures Trim(left + s + right) == s
    decreases |left|, |right|
  {
    if left != "" {
      assert left[0] in left;
      assert (left + s + right)[1..] == left[1..] + s + right;
      TrimOfPadded(left[1..], s, right);
    } else {
      TrimRightOfPadded(s, right);
      assert left + s + right == s + right;
      TrimLeftOfPadded(s, right);
    }
  }

  lemma {:induction false} TrimRightOfPadded(s: string, right: string)
    requires AllSpaces(right) && (s != "" ==> !IsSpace(s[|s| - 1]))
    ensures TrimRight(s + right) == s
    decreases |right|
  {
    if right != "" {
      assert right[|right| - 1] in right;
      assert (s + right)[..|s + right| - 1] == s + right[..|right| - 1];
      TrimRightOfPadded(s, right[..|right| - 1]);
    } else {
      assert s + right == s;
    }
  }

  lemma {:induction false} TrimLeftOfPadded(s: string, right: string)
    requires AllSpaces(right) && (s != "" ==> !IsSpace(s[0]))
    ensures TrimRight(TrimLeft(s + right)) == TrimRight(s + right)
    decreases |right|
  {
    if s == "" && right != "" {
      assert right[0] in right;
      assert s + right == right && TrimLeft(right) == TrimLeft(right[1..]);
      TrimLeftOfPadded("", right[1..]);
      assert "" + right[1..] == right[1..];
      TrimRightOfPadded("", right);
      TrimRightOfPadded("", right[1..]);
      assert "" + right == right;
    }
  }

  /** An assignment may have spaces around it; the first `=` ends its key. Outside of a section it is ignored. */
  lemma StepOnAssignment(st: State, left: string, k: string, v: string, right: string)
    requires AllSpaces(left) && AllSpaces(right) && GoodEntry(k, v)
    ensures Step(st, left + (k + "=" + v) + right) ==
            if st.section == "" then st else st.(cfg := Put(st.cfg, st.section, k, v))
  {
    var line := k + "=" + v;
    assert line[0] == (if k != "" then k[0] else '=') && line[|line| - 1] == (if v != "" then v[|v| - 1] else '=');
    TrimOfPadded(left, line, right);
    hide Trim, Put;
    FindAfter(k, '=', v);
    assert line == k + (['='] + v);
  }

  /** A name in brackets starts its section, with or without spaces around it. */
  lemma StepOnSection(st: State, left: string, name: string, right: string)
    requires AllSpaces(left) && AllSpaces(right)
    ensures Step(st, left + ("[" + name + "]") + right) == st.(section := name)
  {
    TrimOfPadded(left, "[" + name + "]", right);
  }

  /** Comments and empty lines are skipped, and so is what is neither a section nor an assignment. */
  lemma StepOnOther(st: State, left: string, s: string, right: string)
    requires AllSpaces(left) && AllSpaces(right) && (s != "" ==> !IsSpace(s[0]) && !IsSpace(s[|s| - 1]))
    requires s == "" || s[0] == '#' || ('=' !in s && !(s[0] == '[' && s[|s| - 1] == ']'))
    ensures Step(st, left + s + right) == st
  {
    TrimOfPadded(left, s, right);
    hide Trim;
    FindNothing(s, '=');
  }

  lemma FindNothing(s: string, c: char)
    ensures c !in s ==> Find(s, c) == |s|
  {
    hide Find;
  }

  // ----- Everything the parser returns is well formed -----

  ghost predicate GoodState(st: State) {
    (st.section == "" || GoodName(st.section)) && WellFormed(st.cfg)
  }

  lemma PutKeepsWellFormed(cfg: Config, section: string, k: string, v: string)
    requires WellFormed(cfg) && GoodName(section) && GoodEntry(k, v)
    ensures WellFormed(Put(cfg, section, k, v))
  {
    hide GoodName, GoodEntry;
    var m := (if section in cfg then cfg[section] else map[])[k := v];
    assert k in m;
    assert GoodSection(m);
    hide GoodSection;
  }

  lemma LineGivesGoodEntry(line: string)
    requires line != "" && !IsSpace(line[0]) && !IsSpace(line[|line| - 1]) && '\n' !in line && line[0] != '#'
    requires !(line[0] == '[' && line[|line| - 1] == ']') && Find(line, '=') < |line|
    ensures GoodEntry(line[..Find(line, '=')], line[Find(line, '=') + 1..])
  {
    var eq := Find(line, '=');
    var k, v := line[..eq], line[eq + 1..];
    assert k != "" ==> k[0] == line[0];
    assert v != "" ==> v[|v| - 1] == line[|line| - 1];
  }

  lemma StepKeepsGoodState(st: State, raw: string)
    requires GoodState(st) && '\n' !in raw
    ensures GoodState(Step(st, raw))
  {
    TrimIs(raw);
    var line := Trim(raw);
    hide Trim, Put, WellFormed, GoodEntry, IsSpace;
    if line == "" || line[0] == '#' {
    } else if line[0] == '[' && line[|line| - 1] == ']' {
    } else if Find(line, '=') < |line| && st.section != "" {
      LineGivesGoodEntry(line);
      var eq := Find(line, '=');
      PutKeepsWellFormed(st.cfg, st.section, line[..eq], line[eq + 1..]);
    }
  }

  lemma {:induction false} LinesHaveNoNewline(text: string)
    ensures forall i :: 0 <= i < |Lines(text)| ==> '\n' !in Lines(text)[i]
    decreases |text|
  {
    if text != "" {
      var n := Find(text, '\n');
      if n == |text| {
        assert text[..n] == text;
      } else {
        LinesHaveNoNewline(text[n + 1..]);
      }
    }
  }

  lemma {:induction false} RunKeepsGoodState(st: State, lines: seq<string>)
    requires GoodState(st) && forall i :: 0 <= i < |lines| ==> '\n' !in lines[i]
    ensures GoodState(Run(st, lines))
    decreases |lines|
  {
    hide GoodState, Step;
    if lines != [] {
      StepKeepsGoodState(st, lines[0]);
      RunKeepsGoodState(Step(st, lines[0]), lines[1..]);
    }
  }

  /** Whatever the file holds, the parser returns a well-formed map. */
  lemma ParseIsWellFormed(text: string)
    ensures WellFormed(Parse(text))
  {
    LinesHaveNoNewline(text);
    RunKeepsGoodState(State("", map[]), Lines(text));
  }

  // ----- The parser on printed lines -----

  lemma {:induction false} LinesOfUnlines(lines: seq<string>)
    requires forall i :: 0 <= i < |lines| ==> '\n' !in lines[i]
    ensures Lines(Unlines(lines)) == lines
  {
    hide Find;
    if lines != [] {
      LinesOfUnlines(lines[1..]);
      var text := Unlines(lines);
      var rest := Unlines(lines[1..]);
      assert text == lines[0] + ("\n" + rest);
      FirstNewline(lines[0], rest);
      assert text[|lines[0]| + 1..] == rest;
      assert lines == [lines[0]] + lines[1..];
    }
  }

  lemma FindAfter(s: string, c: char, rest: string)
    requires c !in s
    ensures Find(s + ([c] + rest), c) == |s|
  {
    var text := s + ([c] + rest);
    var k := Find(text, c);
    assert forall i :: 0 <= i < |s| ==> text[i] == s[i];
    assert forall i :: 0 <= i < k ==> text[..k][i] == text[i];
    assert text[|s|] == c;
  }

  lemma FirstNewline(line: string, rest: string)
    requires '\n' !in line
    ensures var text := line + ("\n" + rest);
            text != "" && Find(text, '\n') == |line| && text[..|line|] == line && text[|line| + 1..] == rest
  {
    FindAfter(line, '\n', rest);
  }

  lemma {:induction false} RunOfAppend(st: State, a: seq<string>, b: seq<string>)
    ensures Run(st, a + b) == Run(Run(st, a), b)
    decreases |a|
  {
    hide Step;
    if a == [] {
      assert a + b == b;
    } else {
      RunOfAppend(Step(st, a[0]), a[1..], b);
      assert (a + b)[1..] == a[1..] + b;
    }
  }

  lemma StepOnName(st: State, name: string)
    ensures Step(st, "[" + name + "]") == st.(section := name)
  {
    var line := "[" + name + "]";
    TrimKeeps(line);
    assert line[1..|line| - 1] == name;
  }

  lemma StepOnEntry(st: State, k: string, v: string)
    requires GoodEntry(k, v) && st.section != ""
    ensures Step(st, k + "=" + v) == st.(cfg := Put(st.cfg, st.section, k, v))
  {
    var line := k + "=" + v;
    assert line == k + (['='] + v);
    assert line[0] == if k == "" then '=' else k[0];
    assert line[|line| - 1] == if v == "" then '=' else v[|v| - 1];
    TrimKeeps(line);
    FindAfter(k, '=', v);
    assert line[..|k|] == k && line[|k| + 1..] == v;
  }

  function PutAll(cfg: Config, section: string, entries: seq<Entry>): Config
    decreases |entries|
  {
    if entries == [] then cfg
    else PutAll(Put(cfg, section, entries[0].key, entries[0].value), section, entries[1..])
  }

  lemma {:induction false} RunOnEntries(st: State, entries: seq<Entry>)
    requires st.section != "" && forall i :: 0 <= i < |entries| ==> GoodEntry(entries[i].key, entries[i].value)
    ensures Run(st, EntryLines(entries)) == st.(cfg := PutAll(st.cfg, st.section, entries))
    decreases |entries|
  {
    hide Step, GoodEntry, Put;
    if entries != [] {
      var e := entries[0];
      StepOnEntry(st, e.key, e.value);
      var st' := st.(cfg := Put(st.cfg, st.section, e.key, e.value));
      RunOnEntries(st', entries[1..]);
      assert EntryLines(entries)[1..] == EntryLines(entries[1..]);
    }
  }

  function AddAll(m: Section, entries: seq<Entry>): Section
    decreases |entries|
  {
    if entries == [] then m else AddAll(m[entries[0].key := entries[0].value], entries[1..])
  }

  lemma {:induction false} PutAllIsAddAll(cfg: Config, section: string, entries: seq<Entry>)
    requires section in cfg
    ensures PutAll(cfg, section, entries) == cfg[section := AddAll(cfg[section], entries)]
    decreases |entries|
  {
    if entries == [] {
      assert cfg == cfg[section := cfg[section]];
    } else {
      var next := Put(cfg, section, entries[0].key, entries[0].value);
      PutAllIsAddAll(next, section, entries[1..]);
    }
  }

  lemma {:induction false} AddAllListed(m: Section, entries: seq<Entry>, k: string)
    requires forall i, j :: 0 <= i < j < |entries| ==> entries[i].key != entries[j].key
    ensures !HasKey(entries, k) ==> (k in AddAll(m, entries) <==> k in m)
    ensures !HasKey(entries, k) && k in m ==> AddAll(m, entries)[k] == m[k]
    ensures forall i :: 0 <= i < |entries| && entries[i].key == k ==>
              k in AddAll(m, entries) && AddAll(m, entries)[k] == entries[i].value
    decreases |entries|
  {
    if entries != [] {
      var rest := entries[1..];
      assert forall i :: 0 <= i < |rest| ==> rest[i] == entries[i + 1];
      AddAllListed(m[entries[0].key := entries[0].value], rest, k);
      if entries[0].key == k {
        assert !HasKey(rest, k);
        assert HasKey(entries, k);
      } else if HasKey(rest, k) {
        var i :| 0 <= i < |rest| && rest[i].key == k;
        assert entries[i + 1].key == k;
      }
    }
  }

  lemma AddAllIs(entries: seq<Entry>, m: Section)
    requires ListsSection(entries, m)
    ensures AddAll(map[], entries) == m
  {
    forall k
      ensures k in AddAll(map[], entries) <==> k in m
      ensures k in m ==> AddAll(map[], entries)[k] == m[k]
    {
      AddAllListed(map[], entries, k);
      if HasKey(entries, k) {
        var i :| 0 <= i < |entries| && entries[i].key == k;
      }
    }
  }

  /** A block with entries adds its section as a whole. */
  lemma RunOnBlock(st: State, b: Block, m: Section)
    requires GoodName(b.name) && GoodSection(m) && ListsSection(b.entries, m) && b.name !in st.cfg
    ensures Run(st, BlockLines(b)) == State(b.name, st.cfg[b.name := m])
  {
    var front := ["", "[" + b.name + "]"];
    var named := State(b.name, st.cfg);
    assert b.entries != [] by {
      var k :| k in m;
      assert HasKey(b.entries, k);
    }
    AddAllIs(b.entries, m);
    assert forall i :: 0 <= i < |b.entries| ==> GoodEntry(b.entries[i].key, b.entries[i].value);
    hide GoodSection, ListsSection, GoodEntry, Step;
    RunOfAppend(st, front, EntryLines(b.entries));
    RunOnFront(st, b.name);
    RunOnEntries(named, b.entries);
    var e := b.entries[0];
    PutAllIsAddAll(Put(st.cfg, b.name, e.key, e.value), b.name, b.entries[1..]);
  }

  lemma RunOnFront(st: State, name: string)
    ensures Run(st, ["", "[" + name + "]"]) == st.(section := name)
  {
    StepOnName(st, name);
    TrimKeeps("");
    var front := ["", "[" + name + "]"];
    assert Step(st, "") == st;
    hide Step;
    assert Run(st, front) == Run(Step(st, front[0]), front[1..]);
    assert Run(st, front[1..]) == Run(Step(st, front[1]), []);
  }

  /** The blocks list part of a well-formed map. */
  ghost predicate GoodBlocks(blocks: seq<Block>, cfg: Config) {
    && (forall i, j :: 0 <= i < j < |blocks| ==> blocks[i].name != blocks[j].name)
    && (forall i :: 0 <= i < |blocks| ==>
          blocks[i].name in cfg && ListsSection(blocks[i].entries, cfg[blocks[i].name]))
  }

  lemma {:induction false} RunOnBlocks(st: State, blocks: seq<Block>, cfg: Config, s: string)
    requires WellFormed(cfg) && GoodBlocks(blocks, cfg) && forall i :: 0 <= i < |blocks| ==> blocks[i].name !in st.cfg
    ensures var r := Run(st, AllLines(blocks)).cfg;
            && (s in r <==> s in st.cfg || HasName(blocks, s))
            && (s in st.cfg ==> r[s] == st.cfg[s])
            && (HasName(blocks, s) && s in cfg ==> r[s] == cfg[s])
    decreases |blocks|
  {
    hide Run, GoodName, GoodSection, ListsSection, BlockLines;
    if blocks == [] {
      RunNone(st);
    } else {
      var b, rest := blocks[0], blocks[1..];
      RunOnBlock(st, b, cfg[b.name]);
      var st' := State(b.name, st.cfg[b.name := cfg[b.name]]);
      RunOfAppend(st, BlockLines(b), AllLines(rest));
      assert forall i :: 0 <= i < |rest| ==> rest[i] == blocks[i + 1];
      RunOnBlocks(st', rest, cfg, s);
      NamesOf(blocks, s);
    }
  }

  lemma RunNone(st: State)
    ensures Run(st, AllLines([])) == st
  {
    assert AllLines([]) == [];
  }

  lemma NamesOf(blocks: seq<Block>, s: string)
    requires blocks != []
    ensures HasName(blocks, s) <==> blocks[0].name == s || HasName(blocks[1..], s)
  {
    var rest := blocks[1..];
    assert forall i :: 0 <= i < |rest| ==> rest[i] == blocks[i + 1];
    if HasName(blocks, s) && blocks[0].name != s {
      var i :| 0 <= i < |blocks| && blocks[i].name == s;
      assert rest[i - 1].name == s;
    }
  }

  ghost predicate NoNewlines(lines: seq<string>) {
    forall i :: 0 <= i < |lines| ==> '\n' !in lines[i]
  }

  lemma {:induction false} EntriesHaveNoNewline(entries: seq<Entry>)
    requires forall i :: 0 <= i < |entries| ==> GoodEntry(entries[i].key, entries[i].value)
    ensures NoNewlines(EntryLines(entries))
  {
    if entries != [] {
      EntriesHaveNoNewline(entries[1..]);
    }
  }

  lemma NoNewlinesAppend(a: seq<string>, b: seq<string>)
    requires NoNewlines(a) && NoNewlines(b)
    ensures NoNewlines(a + b)
  {}

  lemma BlockHasNoNewline(b: Block, m: Section)
    requires GoodName(b.name) && GoodSection(m) && ListsSection(b.entries, m)
    ensures NoNewlines(BlockLines(b))
  {
    assert forall i :: 0 <= i < |b.entries| ==> GoodEntry(b.entries[i].key, b.entries[i].value);
    hide GoodEntry, GoodSection, ListsSection;
    EntriesHaveNoNewline(b.entries);
    NoNewlinesAppend(["", "[" + b.name + "]"], EntryLines(b.entries));
  }

  lemma {:induction false} BlocksHaveNoNewline(blocks: seq<Block>, cfg: Config)
    requires WellFormed(cfg) && GoodBlocks(blocks, cfg)
    ensures NoNewlines(AllLines(blocks))
  {
    hide GoodName, GoodSection, ListsSection, BlockLines;
    if blocks != [] {
      BlockHasNoNewline(blocks[0], cfg[blocks[0].name]);
      BlocksHaveNoNewline(blocks[1..], cfg);
      NoNewlinesAppend(BlockLines(blocks[0]), AllLines(blocks[1..]));
    }
  }

  lemma CommentIsSkipped(st: State, line: string, lines: seq<string>)
    requires line != "" && line[0] == '#' && !IsSpace(line[|line| - 1])
    ensures Run(st, [line] + lines) == Run(st, lines)
  {
    TrimKeeps(line);
    assert ([line] + lines)[1..] == lines;
  }

  lemma HeaderIsComment()
    ensures HEADER[0] == '#' && HEADER[|HEADER| - 1] == 'd' && '\n' !in HEADER
  {
    assert '\n' !in "# Gamescope Cloud ";
    assert '\n' !in "Mouse settings — ";
    assert '\n' !in "auto-generated";
  }

  lemma ParseOfPrint(cfg: Config, blocks: seq<Block>)
    requires WellFormed(cfg) && Lists(blocks, cfg)
    ensures Parse(Print(blocks)) == cfg
  {
    hide Run, ListsSection, GoodName, GoodSection;
    BlocksHaveNoNewline(blocks, cfg);
    var start := State("", map[]);
    HeaderIsComment();
    CommentIsSkipped(start, HEADER, AllLines(blocks));
    LinesOfUnlines([HEADER] + AllLines(blocks));
    forall s
      ensures s in Parse(Print(blocks)) <==> s in cfg
      ensures s in cfg ==> Parse(Print(blocks))[s] == cfg[s]
    {
      RunOnBlocks(start, blocks, cfg, s);
    }
  }

  /**
    In whatever order the printer goes through a map, reading the file back gives the same map exactly when the
    map is well formed.
  */
  lemma RoundTripIff(cfg: Config, text: string)
    requires Prints(text, cfg)
    ensures Parse(text) == cfg <==> WellFormed(cfg)
  {
    ParseIsWellFormed(text);
    if WellFormed(cfg) {
      var blocks :| Lists(blocks, cfg) && text == Print(blocks);
      ParseOfPrint(cfg, blocks);
    }
  }

  // ----- Saving one device -----

  /** The six settings of a device, as texts of numbers and of the two profile names. */
  datatype Settings = Settings(
    pointerAcceleration: string, flat: bool, naturalScroll: bool, leftHanded: bool, middleEmulation: bool,
    scrollFactor: string)

  /** What std::to_string of a double is made of, NaN and the infinities included. */
  predicate NumberText(s: string) {
    forall c :: c in s ==> '0' <= c <= '9' || c == '.' || c == '-' || 'a' <= c <= 'z'
  }

  function Bit(b: bool): string {
    if b then "1" else "0"
  }

  /** The assignments to the section, in their order. */
  function SettingEntries(d: Settings): seq<Entry> {
    [ Entry("pointerAcceleration", d.pointerAcceleration),
      Entry("accelProfile", if d.flat then "flat" else "adaptive"),
      Entry("naturalScroll", Bit(d.naturalScroll)),
      Entry("leftHanded", Bit(d.leftHanded)),
      Entry("middleEmulation", Bit(d.middleEmulation)),
      Entry("scrollFactor", d.scrollFactor) ]
  }

  function Updated(cfg: Config, name: string, d: Settings): Config {
    cfg[name := AddAll(if name in cfg then cfg[name] else map[], SettingEntries(d))]
  }

  lemma OthersStay(cfg: Config, name: string, d: Settings)
    ensures forall s :: s != name ==> (s in Updated(cfg, name, d) <==> s in cfg)
    ensures forall s :: s != name && s in cfg ==> Updated(cfg, name, d)[s] == cfg[s]
  {
    hide AddAll, SettingEntries;
  }

  /** Under which key a setting is looked up. */
  ghost function SettingOf(d: Settings, key: string): Option<string> {
    if key == "pointerAcceleration" then Some(d.pointerAcceleration)
    else if key == "accelProfile" then Some(if d.flat then "flat" else "adaptive")
    else if key == "naturalScroll" then Some(if d.naturalScroll then "1" else "0")
    else if key == "leftHanded" then Some(if d.leftHanded then "1" else "0")
    else if key == "middleEmulation" then Some(if d.middleEmulation then "1" else "0")
    else if key == "scrollFactor" then Some(d.scrollFactor)
    else None
  }

  /** Each setting can be read back under its own key, and the section keeps what else it has. */
  lemma SettingsAreReadBack(cfg: Config, name: string, d: Settings, key: string)
    ensures name in Updated(cfg, name, d)
    ensures var before, after := if name in cfg then cfg[name] else map[], Updated(cfg, name, d)[name];
            match SettingOf(d, key)
            case Some(value) => key in after && after[key] == value
            case None => (key in after <==> key in before) && (key in before ==> after[key] == before[key])
  {
    hide AddAll;
    KeysDiffer();
    var entries := SettingEntries(d);
    AddAllListed(if name in cfg then cfg[name] else map[], entries, key);
    assert HasKey(entries, key) ==> SettingOf(d, key).Some?;
    assert forall i :: 0 <= i < |entries| && entries[i].key == key ==> SettingOf(d, key) == Some(entries[i].value);
    KeyOfSetting(d, key);
  }

  lemma KeyOfSetting(d: Settings, key: string)
    ensures SettingOf(d, key).Some? ==>
              exists i :: 0 <= i < |SettingEntries(d)| && SettingEntries(d)[i].key == key
  {
    var e := SettingEntries(d);
    assert SettingOf(d, key).Some? ==>
             || e[0].key == key || e[1].key == key || e[2].key == key || e[3].key == key || e[4].key == key
             || e[5].key == key;
  }

  lemma KeysDiffer()
    ensures |"pointerAcceleration"| == 19 && |"accelProfile"| == 12 && |"naturalScroll"| == 13
    ensures |"leftHanded"| == 10 && |"middleEmulation"| == 15 && |"scrollFactor"| == 12
    ensures "accelProfile"[0] == 'a' && "scrollFactor"[0] == 's'
  {}

  /** SaveDeviceConfig: read the file, set the settings of one section, write the file. */
  method SaveDeviceConfig(file: Option<string>, name: string, d: Settings) returns (text: string)
    requires NumberText(d.pointerAcceleration) && NumberText(d.scrollFactor)
    ensures var before := if file.Some? then Parse(file.value) else map[];
            Parse(text) == Updated(before, name, d) <==> GoodName(name)
    ensures GoodName(name) ==>
              var before := if file.Some? then Parse(file.value) else map[];
              && (forall s :: s != name ==> (s in Parse(text) <==> s in before))
              && (forall s :: s != name && s in before ==> Parse(text)[s] == before[s])
  {
    var cfg := ReadConfigFile(file);
    if file.Some? {
      ParseIsWellFormed(file.value);
    }
    UpdatedIsWellFormedIff(cfg, name, d);
    hide Parse, Prints, WellFormed, GoodName, Updated;
    text := WriteConfigFile(Updated(cfg, name, d));
    RoundTripIff(Updated(cfg, name, d), text);
    OthersStay(cfg, name, d);
  }

  /** Letters only, as in the names of the settings. */
  predicate Plain(s: string) {
    s != "" && forall c :: c in s ==> 'A' <= c <= 'Z' || 'a' <= c <= 'z'
  }

  lemma PlainNames()
    ensures Plain("pointerAcceleration") && Plain("accelProfile") && Plain("naturalScroll")
    ensures Plain("leftHanded") && Plain("middleEmulation") && Plain("scrollFactor")
    ensures Plain("flat") && Plain("adaptive")
  {}

  lemma GoodSetting(k: string, v: string)
    requires Plain(k) && (Plain(v) || NumberText(v))
    ensures GoodEntry(k, v)
  {
    assert k[0] in k;
    assert v != "" ==> v[|v| - 1] in v;
  }

  lemma {:induction false} GoodEntriesGiveGoodSection(m: Section, entries: seq<Entry>)
    requires GoodSection(m) || (m == map[] && entries != [])
    requires forall i :: 0 <= i < |entries| ==> GoodEntry(entries[i].key, entries[i].value)
    ensures GoodSection(AddAll(m, entries))
    decreases |entries|
  {
    hide GoodEntry;
    if entries != [] {
      var next := m[entries[0].key := entries[0].value];
      assert entries[0].key in next;
      GoodEntriesGiveGoodSection(next, entries[1..]);
    }
  }

  lemma SettingsAreGood(m: Section, d: Settings)
    requires NumberText(d.pointerAcceleration) && NumberText(d.scrollFactor)
    requires m == map[] || GoodSection(m)
    ensures GoodSection(AddAll(m, SettingEntries(d)))
  {
    hide Plain, GoodEntry, GoodSection, AddAll;
    PlainNames();
    GoodSetting("pointerAcceleration", d.pointerAcceleration);
    GoodSetting("accelProfile", if d.flat then "flat" else "adaptive");
    GoodSetting("naturalScroll", Bit(d.naturalScroll));
    GoodSetting("leftHanded", Bit(d.leftHanded));
    GoodSetting("middleEmulation", Bit(d.middleEmulation));
    GoodSetting("scrollFactor", d.scrollFactor);
    GoodEntriesGiveGoodSection(m, SettingEntries(d));
  }

  lemma UpdatedIsWellFormedIff(cfg: Config, name: string, d: Settings)
    requires WellFormed(cfg) && NumberText(d.pointerAcceleration) && NumberText(d.scrollFactor)
    ensures WellFormed(Updated(cfg, name, d)) <==> GoodName(name)
  {
    SettingsAreGood(if name in cfg then cfg[name] else map[], d);
    hide AddAll, SettingEntries, GoodSection, GoodName;
    assert name in Updated(cfg, name, d);
  }
}
