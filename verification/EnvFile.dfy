/** `compose.env`: parsing, printing, filling in what is missing, and the file that is read and
    replaced. */
module EnvFile {
  import opened Wrappers
  import opened Text

  type Values = map<string, string>

  // ---------------------------------------------------------------------------
  // Parsing
  // ---------------------------------------------------------------------------

  /** `str.splitlines`: a carriage return and the line feed after it are one break. */
  function Lines(s: string): seq<string> {
    if s == "" then []
    else if s[0] == '\r' && |s| > 1 && s[1] == '\n' then [""] + Lines(s[2..])
    else if IsLineBreak(s[0]) then [""] + Lines(s[1..])
    else
      var rest := Lines(s[1..]);
      if rest == [] then [[s[0]]] else [[s[0]] + rest[0]] + rest[1..]
  }

  /** What `read_text` makes of the line ends in the file. */
  function UniversalNewlines(s: string): string {
    if s == "" then ""
    else if s[0] == '\r' then "\n" + UniversalNewlines(if |s| > 1 && s[1] == '\n' then s[2..] else s[1..])
    else [s[0]] + UniversalNewlines(s[1..])
  }

  /** Where the first `=` is, or the length. */
  function FindEquals(s: string): (n: nat)
    ensures n <= |s| && (n < |s| ==> s[n] == '=') && forall i :: 0 <= i < n ==> s[i] != '='
  {
    if s == "" || s[0] == '=' then 0 else 1 + FindEquals(s[1..])
  }

  /** One line: blank ones, comments and those without `=` say nothing. */
  function Entry(raw: string): Option<(string, string)> {
    var line := Strip(raw);
    var n := FindEquals(line);
    if line == "" || line[0] == '#' || n == |line| then None else Some((line[..n], line[n + 1..]))
  }

  /** Later lines win. */
  function Entries(lines: seq<string>): Values {
    if lines == [] then map[]
    else
      var before := Entries(lines[..|lines| - 1]);
      match Entry(lines[|lines| - 1])
      case None => before
      case Some(e) => before[e.0 := e.1]
  }

  function Parse(text: string): Values {
    Entries(Lines(UniversalNewlines(text)))
  }

  /** No file reads as no values. */
  method ParseEnvFile(file: Option<string>) returns (values: Values)
    ensures values == ParseFile(file)
  {
    values := map[];
    if file.None? {
      return;
    }
    var lines := Lines(UniversalNewlines(file.value));
    for i := 0 to |lines|
      invariant values == Entries(lines[..i])
    {
      hide Entries, FindEquals, Strip;
      EntriesNext(lines, i);
      var line := Strip(lines[i]);
      if line == "" || line[0] == '#' || '=' !in line {
        assert FindEquals(line) == |line| || line == "" || line[0] == '#';
        continue;
      }
      var n := FindEquals(line);
      assert n < |line|;
      values := values[line[..n] := line[n + 1..]];
    }
    assert lines[..|lines|] == lines;
  }

  lemma EntriesNext(lines: seq<string>, i: nat)
    requires i < |lines|
    ensures Entries(lines[..i + 1])
            == match Entry(lines[i])
               case None => Entries(lines[..i])
               case Some(e) => Entries(lines[..i])[e.0 := e.1]
  {
    assert lines[..i + 1][..i] == lines[..i];
  }

  function ParseFile(file: Option<string>): Values {
    if file.None? then map[] else Parse(file.value)
  }

  // ---------------------------------------------------------------------------
  // Printing
  // ---------------------------------------------------------------------------

  function EntryLines(keys: seq<string>, values: Values): (lines: seq<string>)
    requires forall i :: 0 <= i < |keys| ==> keys[i] in values
    ensures |lines| == |keys| && forall i :: 0 <= i < |keys| ==> lines[i] == keys[i] + "=" + values[keys[i]]
  {
    seq(|keys|, i requires 0 <= i < |keys| => keys[i] + "=" + values[keys[i]])
  }

  function JoinLines(lines: seq<string>): string {
    if lines == [] then ""
    else if |lines| == 1 then lines[0]
    else lines[0] + "\n" + JoinLines(lines[1..])
  }

  function Render(values: Values): string {
    var keys := Sorted(values.Keys);
    assert forall i :: 0 <= i < |keys| ==> keys[i] in keys;
    JoinLines(EntryLines(keys, values)) + "\n"
  }

  // ---------------------------------------------------------------------------
  // Reading the line ends either way
  // ---------------------------------------------------------------------------

  predicate NoBreaks(s: string) {
    forall i :: 0 <= i < |s| ==> !IsLineBreak(s[i])
  }

  /** The newline translation of `read_text` does not show after `splitlines`. */
  lemma {:induction false} TranslationIsInvisible(s: string)
    ensures Lines(UniversalNewlines(s)) == Lines(s)
  {
    if s == "" {
    } else if s[0] == '\r' {
      var rest := if |s| > 1 && s[1] == '\n' then s[2..] else s[1..];
      TranslationIsInvisible(rest);
      assert UniversalNewlines(s)[1..] == UniversalNewlines(rest);
    } else {
      TranslationIsInvisible(s[1..]);
      assert UniversalNewlines(s)[1..] == UniversalNewlines(s[1..]);
    }
  }

  lemma {:induction false} LinesHaveNoBreaks(s: string)
    ensures forall i :: 0 <= i < |Lines(s)| ==> NoBreaks(Lines(s)[i])
  {
    if s == "" {
    } else if s[0] == '\r' && |s| > 1 && s[1] == '\n' {
      LinesHaveNoBreaks(s[2..]);
    } else {
      LinesHaveNoBreaks(s[1..]);
    }
  }

  lemma {:induction false} FirstLine(line: string, rest: string)
    requires NoBreaks(line)
    ensures Lines(line + "\n" + rest) == [line] + Lines(rest)
  {
    var s := line + "\n" + rest;
    if line == "" {
      assert s[1..] == rest;
    } else {
      assert s[1..] == line[1..] + "\n" + rest;
      assert s[0] == line[0];
      FirstLine(line[1..], rest);
      assert [line[0]] + line[1..] == line;
    }
  }

  lemma {:induction false} LinesOfJoined(lines: seq<string>)
    requires lines != [] && forall i :: 0 <= i < |lines| ==> NoBreaks(lines[i])
    ensures Lines(JoinLines(lines) + "\n") == lines
  {
    hide Lines, NoBreaks;
    if |lines| == 1 {
      OneLine(lines[0]);
    } else {
      var tail := JoinLines(lines[1..]) + "\n";
      LinesOfJoined(lines[1..]);
      FirstLine(lines[0], tail);
      assert lines[0] + "\n" + tail == JoinLines(lines) + "\n";
    }
  }

  // ---------------------------------------------------------------------------
  // Which values survive
  // ---------------------------------------------------------------------------

  predicate KeyOk(key: string) {
    NoBreaks(key) && '=' !in key && (key != "" ==> !IsSpace(key[0]) && key[0] != '#')
  }

  predicate ValueOk(value: string) {
    NoBreaks(value) && (value != "" ==> !IsSpace(value[|value| - 1]))
  }

  predicate Normal(values: Values) {
    forall k :: k in values ==> KeyOk(k) && ValueOk(values[k])
  }

  lemma EntryIsNormal(raw: string)
    requires NoBreaks(raw) && Entry(raw).Some?
    ensures KeyOk(Entry(raw).value.0) && ValueOk(Entry(raw).value.1)
  {
    var i, j := StripIsInfix(raw);
    var line := Strip(raw);
    assert NoBreaks(line);
    var n := FindEquals(line);
    var value := line[n + 1..];
    assert value != "" ==> value[|value| - 1] == line[|line| - 1];
  }

  lemma {:induction false} EntriesAreNormal(lines: seq<string>)
    requires forall i :: 0 <= i < |lines| ==> NoBreaks(lines[i])
    ensures Normal(Entries(lines))
  {
    if lines != [] {
      EntriesAreNormal(lines[..|lines| - 1]);
      if Entry(lines[|lines| - 1]).Some? {
        EntryIsNormal(lines[|lines| - 1]);
      }
    }
  }

  lemma ParseIsNormal(text: string)
    ensures Normal(Parse(text))
  {
    LinesHaveNoBreaks(UniversalNewlines(text));
    EntriesAreNormal(Lines(UniversalNewlines(text)));
  }

  lemma EntryOfLine(key: string, value: string)
    requires KeyOk(key) && ValueOk(value)
    ensures NoBreaks(key + "=" + value) && Entry(key + "=" + value) == Some((key, value))
  {
    var line := key + "=" + value;
    LineEnds(key, value);
    FirstEquals(key, value);
    hide Strip, FindEquals, KeyOk, ValueOk;
    assert line[..|key|] == key && line[|key| + 1..] == value;
  }

  lemma LineEnds(key: string, value: string)
    requires KeyOk(key) && ValueOk(value)
    ensures var line := key + "=" + value; NoBreaks(line) && Strip(line) == line && line[0] != '#'
  {
    var line := key + "=" + value;
    assert line[0] == if key == "" then '=' else key[0];
    assert line[|line| - 1] == if value == "" then '=' else value[|value| - 1];
  }

  lemma FirstEquals(key: string, value: string)
    requires '=' !in key
    ensures FindEquals(key + "=" + value) == |key|
  {
    hide FindEquals;
    var line := key + "=" + value;
    assert line[|key|] == '=';
    assert forall i :: 0 <= i < |key| ==> line[i] == key[i] && key[i] in key;
  }

  /** The values read are those of the listed keys. */
  ghost predicate ReadAs(read: Values, keys: seq<string>, values: Values) {
    && (forall k :: k in read <==> k in keys)
    && (forall k :: k in read && k in values ==> read[k] == values[k])
  }

  lemma {:induction false} EntriesOfLines(keys: seq<string>, values: Values)
    requires forall i :: 0 <= i < |keys| ==> keys[i] in values && KeyOk(keys[i]) && ValueOk(values[keys[i]])
    ensures ReadAs(Entries(EntryLines(keys, values)), keys, values)
  {
    if keys == [] {
      assert EntryLines(keys, values) == [];
    } else {
      EntriesOfLines(keys[..|keys| - 1], values);
      EntriesSnoc(keys, values);
      ReadOneMore(Entries(EntryLines(keys[..|keys| - 1], values)), keys, values);
    }
  }

  lemma ReadOneMore(read: Values, keys: seq<string>, values: Values)
    requires keys != [] && keys[|keys| - 1] in values && ReadAs(read, keys[..|keys| - 1], values)
    ensures ReadAs(read[keys[|keys| - 1] := values[keys[|keys| - 1]]], keys, values)
  {
    assert keys == keys[..|keys| - 1] + [keys[|keys| - 1]];
  }

  lemma EntriesSnoc(keys: seq<string>, values: Values)
    requires keys != [] && forall i :: 0 <= i < |keys| ==> keys[i] in values
    requires KeyOk(keys[|keys| - 1]) && ValueOk(values[keys[|keys| - 1]])
    ensures var key := keys[|keys| - 1];
            Entries(EntryLines(keys, values)) == Entries(EntryLines(keys[..|keys| - 1], values))[key := values[key]]
  {
    hide Entry, KeyOk, ValueOk;
    var init, key := keys[..|keys| - 1], keys[|keys| - 1];
    assert EntryLines(keys, values)[..|keys| - 1] == EntryLines(init, values);
    EntryOfLine(key, values[key]);
  }

  lemma KeysSurvive(keys: seq<string>, values: Values)
    requires keys != [] && forall i :: 0 <= i < |keys| ==>
        keys[i] in values && KeyOk(keys[i]) && ValueOk(values[keys[i]])
    requires forall k :: k in values ==> k in keys
    ensures Parse(JoinLines(EntryLines(keys, values)) + "\n") == values
  {
    hide *;
    PrintedIsRead(keys, values);
    EntriesOfLines(keys, values);
    ReadAll(Entries(EntryLines(keys, values)), keys, values);
  }

  lemma PrintedIsRead(keys: seq<string>, values: Values)
    requires keys != [] && forall i :: 0 <= i < |keys| ==>
        keys[i] in values && KeyOk(keys[i]) && ValueOk(values[keys[i]])
    ensures Parse(JoinLines(EntryLines(keys, values)) + "\n") == Entries(EntryLines(keys, values))
  {
    hide Entries, Lines, UniversalNewlines, JoinLines, KeyOk, ValueOk, NoBreaks;
    var lines := EntryLines(keys, values);
    forall i | 0 <= i < |lines| ensures NoBreaks(lines[i]) {
      EntryOfLine(keys[i], values[keys[i]]);
    }
    TranslationIsInvisible(JoinLines(lines) + "\n");
    LinesOfJoined(lines);
  }

  lemma ReadAll(read: Values, keys: seq<string>, values: Values)
    requires ReadAs(read, keys, values)
    requires forall i :: 0 <= i < |keys| ==> keys[i] in values
    requires forall k :: k in values ==> k in keys
    ensures read == values
  {
  }

  lemma NormalSurvives(values: Values)
    requires Normal(values)
    ensures Parse(Render(values)) == values
  {
    var keys := Sorted(values.Keys);
    assert forall i :: 0 <= i < |keys| ==> keys[i] in keys;
    if keys == [] {
      assert values == map[];
      assert EntryLines(keys, values) == [] && Render(values) == "\n";
      OnlyBreak();
      TranslationIsInvisible("\n");
    } else {
      KeysSurvive(keys, values);
    }
  }

  lemma OnlyBreak()
    ensures Entries(Lines("\n")) == map[]
  {
    assert Lines("\n") == [""];
    assert Entry("") == None;
    assert [""][..0] == [];
  }

  /** Printing and reading back gives the same values exactly when every key and value is one
      that a line can carry. */
  lemma RoundTripExactly(values: Values)
    ensures Parse(Render(values)) == values <==> Normal(values)
  {
    ParseIsNormal(Render(values));
    if Normal(values) {
      NormalSurvives(values);
    }
  }

  /** Whatever the file holds, one pass puts it in normal form. */
  lemma ParseRenderParse(text: string)
    ensures Parse(Render(Parse(text))) == Parse(text)
  {
    ParseIsNormal(text);
    NormalSurvives(Parse(text));
  }

  // ---------------------------------------------------------------------------
  // Single lines, in a file of many
  // ---------------------------------------------------------------------------

  /** One character before the rest, when the two are no carriage return and line feed. */
  lemma LinesCons(c: char, s: string)
    requires c != '\r' || s == "" || s[0] != '\n'
    ensures IsLineBreak(c) ==> Lines([c] + s) == [""] + Lines(s)
    ensures !IsLineBreak(c) ==>
              Lines([c] + s) == if Lines(s) == [] then [[c]] else [[c] + Lines(s)[0]] + Lines(s)[1..]
  {
    assert ([c] + s)[1..] == s;
  }

  lemma LinesCrLf(s: string)
    ensures Lines("\r\n" + s) == [""] + Lines(s)
  {
    assert ("\r\n" + s)[2..] == s;
  }

  lemma LinesOfSome(s: string)
    requires s != ""
    ensures Lines(s) != []
  {
  }

  lemma {:induction false} LinesOfEnded(text: string, more: string)
    requires text == "" || text[|text| - 1] == '\n'
    ensures Lines(text + more) == Lines(text) + Lines(more)
  {
    hide Lines;
    if text == "" {
      NoLines();
      assert text + more == more;
      assert [] + Lines(more) == Lines(more);
    } else if |text| > 1 && text[0] == '\r' && text[1] == '\n' {
      LinesOfEnded(text[2..], more);
      CrLfBefore(text[2..], more);
      assert text == "\r\n" + text[2..];
    } else {
      LinesOfEnded(text[1..], more);
      CharacterBefore(text[0], text[1..], more);
      assert text == [text[0]] + text[1..];
    }
  }

  lemma NoLines()
    ensures Lines("") == []
  {
  }

  lemma CrLfBefore(s: string, more: string)
    requires Lines(s + more) == Lines(s) + Lines(more)
    ensures Lines("\r\n" + s + more) == Lines("\r\n" + s) + Lines(more)
  {
    hide Lines;
    LinesCrLf(s);
    LinesCrLf(s + more);
    assert "\r\n" + s + more == "\r\n" + (s + more);
  }

  lemma CharacterBefore(c: char, s: string, more: string)
    requires Lines(s + more) == Lines(s) + Lines(more)
    requires if s == "" then c == '\n' else c != '\r' || s[0] != '\n'
    ensures Lines([c] + s + more) == Lines([c] + s) + Lines(more)
  {
    hide Lines;
    LinesCons(c, s);
    LinesCons(c, s + more);
    assert [c] + s + more == [c] + (s + more);
    if s != "" {
      LinesOfSome(s);
    }
  }

  lemma ParseOfEnded(text: string, line: string)
    requires text == "" || text[|text| - 1] == '\n'
    requires NoBreaks(line)
    ensures Parse(text + line + "\n") == Entries(Lines(text) + [line])
    ensures Parse(text) == Entries(Lines(text))
  {
    hide Lines, UniversalNewlines, Entries, NoBreaks;
    TranslationIsInvisible(text);
    TranslationIsInvisible(text + line + "\n");
    assert text + line + "\n" == text + (line + "\n");
    LinesOfEnded(text, line + "\n");
    OneLine(line);
  }

  lemma OneLine(line: string)
    requires NoBreaks(line)
    ensures Lines(line + "\n") == [line]
  {
    FirstLine(line, "");
    assert line + "\n" + "" == line + "\n";
    assert [line] + [] == [line];
  }

  /** A line `key=value` after the others, with whitespace around it: it gives the key the value,
      also when an earlier line gave it another, and touches no other key. */
  lemma LaterLineWins(text: string, before: string, key: string, value: string, after: string)
    requires text == "" || text[|text| - 1] == '\n'
    requires KeyOk(key) && ValueOk(value)
    requires AllSpace(before) && AllSpace(after) && NoBreaks(before) && NoBreaks(after)
    ensures Parse(text + (before + (key + "=" + value) + after) + "\n") == Parse(text)[key := value]
  {
    var line := before + (key + "=" + value) + after;
    EntryOfLine(key, value);
    PaddedEntry(before, key, value, after);
    hide Entry, KeyOk, ValueOk, Parse, Lines;
    ParseOfEnded(text, line);
    assert (Lines(text) + [line])[..|Lines(text)|] == Lines(text);
  }

  lemma PaddedEntry(before: string, key: string, value: string, after: string)
    requires KeyOk(key) && ValueOk(value) && AllSpace(before) && AllSpace(after)
    ensures Entry(before + (key + "=" + value) + after) == Some((key, value))
  {
    var line := key + "=" + value;
    assert line[0] == if key == "" then '=' else key[0];
    assert line[|line| - 1] == if value == "" then '=' else value[|value| - 1];
    StripOfPadded(before, line, after);
    LineEnds(key, value);
    EntryOfLine(key, value);
  }

  /** A line that says nothing: whitespace only, a comment behind whitespace, or no `=` in it. */
  lemma OtherLinesSayNothing(text: string, line: string)
    requires text == "" || text[|text| - 1] == '\n'
    requires NoBreaks(line)
    requires || AllSpace(line) || '=' !in line
             || exists i :: 0 <= i < |line| && AllSpace(line[..i]) && line[i] == '#'
    ensures Parse(text + line + "\n") == Parse(text)
  {
    SilentEntry(line);
    hide Entry, Parse, Lines;
    ParseOfEnded(text, line);
    assert (Lines(text) + [line])[..|Lines(text)|] == Lines(text);
  }

  lemma SilentEntry(line: string)
    requires || AllSpace(line) || '=' !in line
             || exists i :: 0 <= i < |line| && AllSpace(line[..i]) && line[i] == '#'
    ensures Entry(line).None?
  {
    var i, j := StripIsInfix(line);
    var stripped := Strip(line);
    if k :| 0 <= k < |line| && AllSpace(line[..k]) && line[k] == '#' {
      assert forall n :: 0 <= n < k ==> line[n] == line[..k][n];
      assert i <= k < j && stripped[0] == line[i];
      assert i == k;
    } else if '=' !in line {
      assert forall n :: 0 <= n < |stripped| ==> stripped[n] == line[i + n];
    } else {
      BlankExactly(line);
    }
  }

  /** What is written: one line a key, in the order of the keys' characters. */
  lemma RenderIsOrdered(values: Values) returns (keys: seq<string>)
    requires Normal(values) && values != map[]
    ensures forall k :: k in keys <==> k in values
    ensures forall i, j :: 0 <= i < j < |keys| ==> CharacterOrder(keys[i], keys[j])
    ensures |Lines(Render(values))| == |keys|
    ensures forall i :: 0 <= i < |keys| ==> Lines(Render(values))[i] == keys[i] + "=" + values[keys[i]]
  {
    keys := Sorted(values.Keys);
    assert forall i :: 0 <= i < |keys| ==> keys[i] in keys;
    var lines := EntryLines(keys, values);
    forall i | 0 <= i < |lines| ensures NoBreaks(lines[i]) {
      EntryOfLine(keys[i], values[keys[i]]);
    }
    var k :| k in values;
    assert k in keys;
    LinesOfJoined(lines);
    IncreasingIsCharacterOrder(keys);
  }

  // ---------------------------------------------------------------------------
  // Filling in
  // ---------------------------------------------------------------------------

  /** The random part of each generated value, in the order they are drawn. */
  datatype Tokens = Tokens(postgres: string, weaviate: string, ingestion: string, inherent: string, workspace: string,
      user: string)

  predicate UrlSafe(c: char) {
    'a' <= c <= 'z' || 'A' <= c <= 'Z' || '0' <= c <= '9' || c == '-' || c == '_'
  }

  /** `secrets.token_urlsafe` and `token_hex` return such text. */
  predicate IsToken(s: string) { s != "" && forall i :: 0 <= i < |s| ==> UrlSafe(s[i]) }

  predicate Drawn(t: Tokens) {
    IsToken(t.postgres) && IsToken(t.weaviate) && IsToken(t.ingestion) && IsToken(t.inherent)
    && IsToken(t.workspace) && IsToken(t.user)
  }

  /** One statement of `generate_missing`: `if not values.get(key)` replaces an empty value
      too, `setdefault` (`keepEmpty`) does not. */
  datatype Step = Step(key: string, filler: string, keepEmpty: bool)

  predicate Has(values: Values, step: Step) {
    step.key in values && (step.keepEmpty || values[step.key] != "")
  }

  function Fill(values: Values, step: Step): Values {
    if Has(values, step) then values else values[step.key := step.filler]
  }

  function FillAll(values: Values, steps: seq<Step>): Values {
    if steps == [] then values else Fill(FillAll(values, steps[..|steps| - 1]), steps[|steps| - 1])
  }

  function Steps(t: Tokens): seq<Step> {
    [Step("POSTGRES_PASSWORD", t.postgres, false),
     Step("WEAVIATE_API_KEY", t.weaviate, false),
     Step("INGESTION_API_KEY", t.ingestion, false),
     Step("INHERENT_API_KEY", "ink_" + t.inherent, false),
     Step("INHERENT_WORKSPACE_ID", "ws_" + t.workspace, false),
     Step("INHERENT_USER_ID", "usr_" + t.user, false),
     Step("ADMIN_API_ENABLED", "true", true),
     Step("INHERENT_KEY_NAME", "Local CLI Key", true),
     Step("INHERENT_WORKSPACE_NAME", "Default Workspace", true)]
  }

  function Filled(existing: Values, t: Tokens): Values {
    FillAll(existing, Steps(t))
  }

  lemma NextStep(existing: Values, steps: seq<Step>, i: nat)
    requires i < |steps|
    ensures FillAll(existing, steps[..i + 1]) == Fill(FillAll(existing, steps[..i]), steps[i])
  {
    assert steps[..i + 1][..i] == steps[..i];
  }

  /** The statements of `generate_missing`, in their order. */
  method GenerateMissing(existing: Values, t: Tokens) returns (values: Values)
    ensures values == Filled(existing, t)
  {
    var steps := Steps(t);
    values := existing;
    for i := 0 to |steps|
      invariant values == FillAll(existing, steps[..i])
    {
      NextStep(existing, steps, i);
      if steps[i].key !in values || (!steps[i].keepEmpty && values[steps[i].key] == "") {
        values := values[steps[i].key := steps[i].filler];
      }
    }
    assert steps[..|steps|] == steps;
  }

  predicate Distinct(steps: seq<Step>) {
    forall i, j :: 0 <= i < j < |steps| ==> steps[i].key != steps[j].key
  }

  lemma {:induction false} OtherKeysStay(values: Values, steps: seq<Step>, key: string)
    requires forall i :: 0 <= i < |steps| ==> steps[i].key != key
    ensures key in FillAll(values, steps) <==> key in values
    ensures key in values ==> FillAll(values, steps)[key] == values[key]
  {
    if steps != [] {
      OtherKeysStay(values, steps[..|steps| - 1], key);
    }
  }

  /** What filling in does to the key of one statement: a value stays, and where there is none
      the statement's own one is put in. With `OtherKeysStay` that is every key. */
  lemma {:induction false} EachKeyIsFilled(values: Values, steps: seq<Step>, i: nat)
    requires Distinct(steps) && i < |steps|
    ensures steps[i].key in FillAll(values, steps)
    ensures FillAll(values, steps)[steps[i].key]
            == if Has(values, steps[i]) then values[steps[i].key] else steps[i].filler
  {
    var init := steps[..|steps| - 1];
    if i < |steps| - 1 {
      EachKeyIsFilled(values, init, i);
    } else {
      OtherKeysStay(values, init, steps[i].key);
    }
  }

  predicate Gives(values: Values, key: string, value: string) {
    key in values && values[key] == value
  }

  /** The value of a key, or something else when there is none or an empty one. */
  function OrElse(values: Values, key: string, other: string): string {
    if key in values && values[key] != "" then values[key] else other
  }

  /** The value of a key, or something else when there is none. */
  function OrDefault(values: Values, key: string, other: string): string {
    if key in values then values[key] else other
  }

  function OrFilled(values: Values, step: Step): string {
    if step.keepEmpty then OrDefault(values, step.key, step.filler) else OrElse(values, step.key, step.filler)
  }

  /** Filling in, key by key, for whatever was there: the nine keys of which six also replace an
      empty value, and no other key. */
  lemma FilledExactly(existing: Values, t: Tokens)
    ensures var filled := Filled(existing, t);
            && filled.Keys == existing.Keys
                              + {"POSTGRES_PASSWORD", "WEAVIATE_API_KEY", "INGESTION_API_KEY", "INHERENT_API_KEY",
                                 "INHERENT_WORKSPACE_ID", "INHERENT_USER_ID", "ADMIN_API_ENABLED",
                                 "INHERENT_KEY_NAME", "INHERENT_WORKSPACE_NAME"}
            && Gives(filled, "POSTGRES_PASSWORD", OrElse(existing, "POSTGRES_PASSWORD", t.postgres))
            && Gives(filled, "WEAVIATE_API_KEY", OrElse(existing, "WEAVIATE_API_KEY", t.weaviate))
            && Gives(filled, "INGESTION_API_KEY", OrElse(existing, "INGESTION_API_KEY", t.ingestion))
            && Gives(filled, "INHERENT_API_KEY", OrElse(existing, "INHERENT_API_KEY", "ink_" + t.inherent))
            && Gives(filled, "INHERENT_WORKSPACE_ID", OrElse(existing, "INHERENT_WORKSPACE_ID", "ws_" + t.workspace))
            && Gives(filled, "INHERENT_USER_ID", OrElse(existing, "INHERENT_USER_ID", "usr_" + t.user))
            && Gives(filled, "ADMIN_API_ENABLED", OrDefault(existing, "ADMIN_API_ENABLED", "true"))
            && Gives(filled, "INHERENT_KEY_NAME", OrDefault(existing, "INHERENT_KEY_NAME", "Local CLI Key"))
            && Gives(filled, "INHERENT_WORKSPACE_NAME",
                     OrDefault(existing, "INHERENT_WORKSPACE_NAME", "Default Workspace"))
  {
    FilledKeys(existing, t);
    hide Gives, Filled, OrElse, OrDefault;
    var steps, filled := Steps(t), Filled(existing, t);
    forall i | 0 <= i < |steps| ensures Gives(filled, steps[i].key, OrFilled(existing, steps[i])) {
      FilledStep(existing, t, i);
    }
    assert Gives(filled, steps[0].key, OrFilled(existing, steps[0]));
    assert Gives(filled, steps[1].key, OrFilled(existing, steps[1]));
    assert Gives(filled, steps[2].key, OrFilled(existing, steps[2]));
    assert Gives(filled, steps[3].key, OrFilled(existing, steps[3]));
    assert Gives(filled, steps[4].key, OrFilled(existing, steps[4]));
    assert Gives(filled, steps[5].key, OrFilled(existing, steps[5]));
    assert Gives(filled, steps[6].key, OrFilled(existing, steps[6]));
    assert Gives(filled, steps[7].key, OrFilled(existing, steps[7]));
    assert Gives(filled, steps[8].key, OrFilled(existing, steps[8]));
  }

  lemma FilledStep(existing: Values, t: Tokens, i: nat)
    requires i < |Steps(t)|
    ensures Gives(Filled(existing, t), Steps(t)[i].key, OrFilled(existing, Steps(t)[i]))
  {
    hide FillAll, Steps;
    StepsAreDistinct(t);
    EachKeyIsFilled(existing, Steps(t), i);
  }

  lemma FilledKeys(existing: Values, t: Tokens)
    ensures Filled(existing, t).Keys
            == existing.Keys
               + {"POSTGRES_PASSWORD", "WEAVIATE_API_KEY", "INGESTION_API_KEY", "INHERENT_API_KEY",
                  "INHERENT_WORKSPACE_ID", "INHERENT_USER_ID", "ADMIN_API_ENABLED", "INHERENT_KEY_NAME",
                  "INHERENT_WORKSPACE_NAME"}
  {
    hide FillAll, Steps;
    OnlyStepKeys(existing, Steps(t));
    StepKeys(t);
  }

  lemma StepKeys(t: Tokens)
    ensures (set i | 0 <= i < |Steps(t)| :: Steps(t)[i].key)
            == {"POSTGRES_PASSWORD", "WEAVIATE_API_KEY", "INGESTION_API_KEY", "INHERENT_API_KEY",
                "INHERENT_WORKSPACE_ID", "INHERENT_USER_ID", "ADMIN_API_ENABLED", "INHERENT_KEY_NAME",
                "INHERENT_WORKSPACE_NAME"}
  {
    var steps := Steps(t);
    assert |steps| == 9;
    assert (set i | 0 <= i < |steps| :: steps[i].key)
        == {steps[0].key, steps[1].key, steps[2].key, steps[3].key, steps[4].key, steps[5].key, steps[6].key,
            steps[7].key, steps[8].key};
  }

  lemma {:induction false} OnlyStepKeys(values: Values, steps: seq<Step>)
    ensures FillAll(values, steps).Keys == values.Keys + set i | 0 <= i < |steps| :: steps[i].key
  {
    if steps != [] {
      OnlyStepKeys(values, steps[..|steps| - 1]);
    }
  }

  lemma StepsAreDistinct(t: Tokens)
    ensures Distinct(Steps(t))
  {
    var steps := Steps(t);
    forall i, j | 0 <= i < j < |steps| ensures steps[i].key != steps[j].key {
      KeyMarks(t, i);
      KeyMarks(t, j);
    }
  }

  /** Three things in which the generated keys differ. */
  function Mark(i: nat): (char, char, nat) {
    match i
    case 0 => ('G', 'P', 17)
    case 1 => ('I', 'A', 16)
    case 2 => ('S', '_', 17)
    case 3 => ('R', 'A', 16)
    case 4 => ('R', 'W', 21)
    case 5 => ('R', 'U', 16)
    case 6 => ('N', '_', 17)
    case 7 => ('R', 'K', 17)
    case _ => ('R', 'W', 23)
  }

  lemma KeyMarks(t: Tokens, i: nat)
    requires i < |Steps(t)|
    ensures var key := Steps(t)[i].key; |key| > 9 && (key[4], key[9], |key|) == Mark(i)
  {
    match i
    case 0 =>
    case 1 =>
    case 2 =>
    case 3 =>
    case 4 =>
    case 5 =>
    case 6 =>
    case 7 =>
    case _ =>
  }

  /** A statement that found its key filled finds it filled ever after. */
  lemma {:induction false} StaysFilled(values: Values, steps: seq<Step>, step: Step)
    requires Has(values, step)
    requires forall i :: 0 <= i < |steps| ==> steps[i].keepEmpty || steps[i].filler != ""
    ensures Has(FillAll(values, steps), step)
    ensures values[step.key] != "" ==> FillAll(values, steps)[step.key] == values[step.key]
  {
    if steps != [] {
      StaysFilled(values, steps[..|steps| - 1], step);
    }
  }

  lemma {:induction false} NothingToFill(values: Values, steps: seq<Step>)
    requires forall i :: 0 <= i < |steps| ==> Has(values, steps[i])
    ensures FillAll(values, steps) == values
  {
    if steps != [] {
      NothingToFill(values, steps[..|steps| - 1]);
    }
  }

  /** The same statements, with other random parts. */
  lemma SameKeys(t: Tokens, later: Tokens, values: Values, i: nat)
    requires i < |Steps(t)|
    ensures i < |Steps(later)| && (Has(values, Steps(later)[i]) <==> Has(values, Steps(t)[i]))
  {
  }

  lemma StepsAreFresh(t: Tokens)
    requires Drawn(t)
    ensures forall i :: 0 <= i < |Steps(t)| ==> Steps(t)[i].filler != ""
  {
  }

  /** Non-empty values stay byte-identical, every generated key has a value afterwards, and a
      second pass has nothing left to fill in, whatever it would draw. */
  lemma FilledIsStable(existing: Values, t: Tokens, later: Tokens)
    requires Drawn(t)
    ensures forall k :: k in existing && existing[k] != "" ==>
        k in Filled(existing, t) && Filled(existing, t)[k] == existing[k]
    ensures forall i :: 0 <= i < |Steps(t)| ==> Has(Filled(existing, t), Steps(t)[i])
    ensures Filled(Filled(existing, t), later) == Filled(existing, t)
  {
    var filled, steps := Filled(existing, t), Steps(t);
    StepsAreFresh(t);
    StepsAreDistinct(t);
    forall k | k in existing && existing[k] != "" ensures k in filled && filled[k] == existing[k] {
      StaysFilled(existing, steps, Step(k, "", false));
    }
    forall i | 0 <= i < |steps| ensures Has(filled, steps[i]) && Has(filled, Steps(later)[i]) {
      EachKeyIsFilled(existing, steps, i);
      SameKeys(t, later, filled, i);
    }
    NothingToFill(filled, Steps(later));
  }

  lemma TokenIsNormal(prefix: string, s: string)
    requires IsToken(s) && forall i :: 0 <= i < |prefix| ==> UrlSafe(prefix[i])
    ensures ValueOk(prefix + s)
  {
    forall i | 0 <= i < |prefix + s| ensures UrlSafe((prefix + s)[i]) {
    }
  }

  predicate Upper(c: char) { 'A' <= c <= 'Z' || c == '_' }

  lemma UpperIsNormal(key: string)
    requires key != "" && AllUpper(key)
    ensures KeyOk(key)
  {
  }

  predicate AllUpper(key: string) {
    forall j :: 0 <= j < |key| ==> Upper(key[j])
  }

  lemma FirstKeysAreUpper(t: Tokens, i: nat)
    requires i < 3
    ensures AllUpper(Steps(t)[i].key)
  {
    match i
    case 0 =>
    case 1 =>
    case 2 =>
  }

  lemma MiddleKeysAreUpper(t: Tokens, i: nat)
    requires 3 <= i < 6
    ensures AllUpper(Steps(t)[i].key)
  {
    match i
    case 3 =>
    case 4 =>
    case 5 =>
  }

  lemma LastKeysAreUpper(t: Tokens, i: nat)
    requires 6 <= i < 9
    ensures AllUpper(Steps(t)[i].key)
  {
    match i
    case 6 =>
    case 7 =>
    case 8 =>
  }

  lemma DefaultIsNormal(t: Tokens, i: nat)
    requires 6 <= i < |Steps(t)|
    ensures ValueOk(Steps(t)[i].filler)
  {
    if i == 6 {
    } else if i == 7 {
    } else {
    }
  }

  lemma StepIsNormal(t: Tokens, i: nat)
    requires Drawn(t) && i < |Steps(t)|
    ensures KeyOk(Steps(t)[i].key) && ValueOk(Steps(t)[i].filler)
  {
    KeyMarks(t, i);
    if i < 3 {
      FirstKeysAreUpper(t, i);
    } else if i < 6 {
      MiddleKeysAreUpper(t, i);
    } else {
      LastKeysAreUpper(t, i);
    }
    UpperIsNormal(Steps(t)[i].key);
    if i < 6 {
      SecretIsNormal(t, i);
    } else {
      DefaultIsNormal(t, i);
    }
  }

  lemma SecretIsNormal(t: Tokens, i: nat)
    requires Drawn(t) && i < 6
    ensures ValueOk(Steps(t)[i].filler)
  {
    if i < 3 {
      TokenIsNormal("", [t.postgres, t.weaviate, t.ingestion][i]);
      assert "" + [t.postgres, t.weaviate, t.ingestion][i] == Steps(t)[i].filler;
    } else {
      TokenIsNormal(["ink_", "ws_", "usr_"][i - 3], [t.inherent, t.workspace, t.user][i - 3]);
    }
  }

  lemma {:induction false} FillAllIsNormal(existing: Values, steps: seq<Step>)
    requires Normal(existing) && forall i :: 0 <= i < |steps| ==> KeyOk(steps[i].key) && ValueOk(steps[i].filler)
    ensures Normal(FillAll(existing, steps))
  {
    if steps != [] {
      FillAllIsNormal(existing, steps[..|steps| - 1]);
    }
  }

  lemma FilledIsNormal(existing: Values, t: Tokens)
    requires Drawn(t) && Normal(existing)
    ensures Normal(Filled(existing, t))
  {
    forall i | 0 <= i < |Steps(t)| ensures KeyOk(Steps(t)[i].key) && ValueOk(Steps(t)[i].filler) {
      StepIsNormal(t, i);
    }
    FillAllIsNormal(existing, Steps(t));
  }

  // ---------------------------------------------------------------------------
  // The file
  // ---------------------------------------------------------------------------

  class ComposeEnv {
    var file: Option<string>

    constructor (file: Option<string>)
      ensures this.file == file
    {
      this.file := file;
    }

    /** Reads, fills in, and replaces the file as a whole. */
    method LoadOrCreate(t: Tokens) returns (values: Values)
      modifies this
      ensures values == Filled(ParseFile(old(file)), t)
      ensures file == Some(Render(values))
    {
      var existing := ParseEnvFile(file);
      values := GenerateMissing(existing, t);
      file := Some(Render(values));
    }
  }

  /** Two loads in a row, whatever the file held and whatever is drawn: the second returns the
      same values and writes the same bytes. */
  method LoadTwice(env: ComposeEnv, first: Tokens, second: Tokens) returns (a: Values, b: Values, once: Option<string>)
    requires Drawn(first)
    modifies env
    ensures a == b && once == env.file == Some(Render(a))
    ensures forall k :: k in ParseFile(old(env.file)) && ParseFile(old(env.file))[k] != "" ==>
              k in a && a[k] == ParseFile(old(env.file))[k]
  {
    ghost var existing := ParseFile(env.file);
    a := env.LoadOrCreate(first);
    once := env.file;
    b := env.LoadOrCreate(second);
    SecondLoad(existing, first, second);
    FilledIsStable(existing, first, second);
  }

  lemma SecondLoad(existing: Values, first: Tokens, second: Tokens)
    requires Drawn(first) && (Normal(existing) || exists file :: existing == ParseFile(file))
    ensures Parse(Render(Filled(existing, first))) == Filled(existing, first)
    ensures Filled(Parse(Render(Filled(existing, first))), second) == Filled(existing, first)
  {
    if !Normal(existing) {
      var file :| existing == ParseFile(file);
      ParseIsNormal(file.value);
    }
    FilledIsNormal(existing, first);
    NormalSurvives(Filled(existing, first));
    FilledIsStable(existing, first, second);
  }
}
