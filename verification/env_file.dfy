/** The `.env` loader: line splitting, the parse of one `KEY=VALUE` line, and the
    insert-if-absent fold that the loader's loop computes. */
module EnvFile {
  import opened Wrappers
  import opened Text
  import opened Environment

  /** One parsed `KEY=VALUE` line. */
  datatype Binding = Binding(key: string, value: string)

  /** What reading `<cwd>/.env` gave: no file, a read error, or its contents. */
  datatype EnvFileRead = Absent | Unreadable | Read(contents: string)

  /** A line with one '\r' taken off its end, if it has one. */
  function DropCarriageReturn(line: string): (r: string)
    ensures |line| > 0 && line[|line| - 1] == '\r' ==> line == r + "\r"
    ensures !(|line| > 0 && line[|line| - 1] == '\r') ==> r == line
  {
    if |line| > 0 && line[|line| - 1] == '\r' then line[..|line| - 1] else line
  }

  /** `contents.split(/\r?\n/)`: split at every '\n', a '\r' just before it going with it. */
  function Lines(contents: string): (lines: seq<string>)
    ensures |lines| == |Split(contents, '\n')|
    ensures forall i :: 0 <= i < |lines| ==> '\n' !in lines[i]
    ensures forall i :: 0 <= i < |lines| - 1 ==> lines[i] == DropCarriageReturn(Split(contents, '\n')[i])
    ensures lines[|lines| - 1] == Split(contents, '\n')[|lines| - 1]
  {
    var parts := Split(contents, '\n');
    seq(|parts|, i requires 0 <= i < |parts| =>
      if i < |parts| - 1 then DropCarriageReturn(parts[i]) else parts[i])
  }

  /** Without '\r' in the file, the lines joined with '\n' give back the file. */
  lemma LinesJoin(contents: string)
    requires '\r' !in contents
    ensures Join(Lines(contents), '\n') == contents
  {
    var parts := Split(contents, '\n');
    forall i | 0 <= i < |parts|
      ensures Lines(contents)[i] == parts[i]
    {
      if |parts[i]| > 0 {
        SplitKeepsCharacters(contents, '\n', i, parts[i][|parts[i]| - 1]);
      }
    }
    assert Lines(contents) == parts;
    JoinOfSplit(contents, '\n');
  }

  /** The body of the loader's loop up to the environment check: trim the line; skip it
      when blank, a `#` comment, or when the text before its first '=' is empty; otherwise
      the key is the trimmed text before the first '=' and the value the trimmed text after
      it. The source takes these two pieces as the head of `line.split("=")` and the tail
      rejoined with "="; `SplitAtFirst` proves that these are the same strings. */
  function ParseLine(rawLine: string): Option<Binding>
  {
    ParseTrimmed(Trim(rawLine))
  }

  /** `ParseLine` after the line has been trimmed. */
  function ParseTrimmed(line: string): Option<Binding>
  {
    if line == [] || line[0] == '#' then None
    else
      var rawKey := line[..IndexOf(line, '=')];
      if rawKey == [] then None
      else
        var key := Trim(rawKey);
        var value := Trim(AfterFirst(line, '='));
        if key == [] then None else Some(Binding(key, value))
  }

  /** The parse read through the source's own `split`/`join`: the key is the trimmed head of
      `line.split("=")`, the value the trimmed rest rejoined with "=". */
  lemma ParseLineSplitsAtFirstSeparator(rawLine: string)
    requires ParseLine(rawLine).Some?
    ensures var parts := Split(Trim(rawLine), '=');
      ParseLine(rawLine).value == Binding(Trim(parts[0]), Trim(Join(parts[1..], '=')))
  {
    SplitAtFirst(Trim(rawLine), '=');
  }

  /** Which lines bind a key: exactly those that, once trimmed, are neither blank nor a
      `#` comment nor start with '='; the key they bind is non-empty and has no '='. */
  lemma {:induction false} ParseLineMeaning(rawLine: string)
    ensures var line := Trim(rawLine);
      ParseLine(rawLine).None? <==> (line == [] || line[0] == '#' || line[0] == '=')
    ensures ParseLine(rawLine).Some? ==> ParseLine(rawLine).value.key != [] && '=' !in ParseLine(rawLine).value.key
  {
    var line := Trim(rawLine);
    if line != [] && line[0] != '#' && line[0] != '=' {
      var rawKey := line[..IndexOf(line, '=')];
      assert rawKey[0] == line[0];
      TrimKeepsFirst(rawKey);
      if '=' in Trim(rawKey) {
        TrimKeepsCharacters(rawKey, '=');
      }
    }
  }

  /** A '\r' left at the end of a line does not change its parse: `trim` removes it. */
  lemma ParseIgnoresCarriageReturn(line: string)
    ensures ParseLine(line + "\r") == ParseLine(line)
  {
    TrimAppendSpace(line, '\r');
  }

  /** Parsing the lines of a file gives what parsing its plain '\n'-pieces gives: the `\r?`
      of the line split only matters to the text, not to the bindings. */
  lemma LinesParseAsPieces(contents: string)
    ensures ParseLines(Lines(contents)) == ParseLines(Split(contents, '\n'))
  {
    var parts := Split(contents, '\n');
    var lines := Lines(contents);
    forall i | 0 <= i < |parts|
      ensures ParseLine(lines[i]) == ParseLine(parts[i])
    {
      if i < |parts| - 1 && |parts[i]| > 0 && parts[i][|parts[i]| - 1] == '\r' {
        ParseIgnoresCarriageReturn(lines[i]);
      }
    }
  }

  /** A line without '=' binds its key to the empty string. */
  lemma NoEqualsBindsEmpty(rawLine: string)
    requires '=' !in Trim(rawLine) && ParseLine(rawLine).Some?
    ensures ParseLine(rawLine).value == Binding(Trim(rawLine), "")
  {
    var line := Trim(rawLine);
    assert IndexOf(line, '=') == |line|;
    assert line[..|line|] == line;
    TrimUnchanged(line);
  }

  /** Writing `key=value` and parsing it back gives the binding, with any '=' in the value
      kept: the parse is the inverse of the file format for a key that is non-empty, has
      no '=', does not start a comment, and neither key nor value has white space at its
      ends. */
  lemma ParseFormattedLine(key: string, value: string)
    requires key != [] && '=' !in key && key[0] != '#' && Trimmed(key) && Trimmed(value)
    ensures ParseLine(key + "=" + value) == Some(Binding(key, value))
  {
    var line := key + "=" + value;
    FirstSeparatorAfterKey(key, value);
    TrimUnchanged(key);
    TrimUnchanged(value);
    FormattedLineIsTrimmed(key, value);
    ParseTrimmedLine(line, key, value);
  }

  /** The parse of a trimmed line, given where its first '=' is. */
  lemma ParseTrimmedLine(line: string, key: string, value: string)
    requires line != [] && line[0] != '#'
    requires IndexOf(line, '=') == |key| && line[..|key|] == key && key != []
    requires AfterFirst(line, '=') == value && Trim(key) == key && Trim(value) == value
    ensures ParseTrimmed(line) == Some(Binding(key, value))
  {
  }

  lemma FormattedLineIsTrimmed(key: string, value: string)
    requires key != [] && Trimmed(key) && Trimmed(value)
    ensures Trim(key + "=" + value) == key + "=" + value
  {
    var line := key + "=" + value;
    assert line[0] == key[0];
    if value == [] {
      assert line[|line| - 1] == '=';
    } else {
      assert line[|line| - 1] == value[|value| - 1];
    }
    TrimUnchanged(line);
  }

  lemma FirstSeparatorAfterKey(key: string, value: string)
    requires '=' !in key
    ensures IndexOf(key + "=" + value, '=') == |key|
    ensures (key + "=" + value)[..|key|] == key
    ensures AfterFirst(key + "=" + value, '=') == value
  {
    var line := key + "=" + value;
    assert line[|key|] == '=';
    assert forall j :: 0 <= j < |key| ==> line[j] == key[j];
    assert line[..|key|] == key;
    assert line[|key| + 1..] == value;
  }

  /** The parse of every line, in order. */
  function ParseLines(lines: seq<string>): (parsed: seq<Option<Binding>>)
    ensures |parsed| == |lines|
    ensures forall i :: 0 <= i < |lines| ==> parsed[i] == ParseLine(lines[i])
  {
    seq(|lines|, i requires 0 <= i < |lines| => ParseLine(lines[i]))
  }

  /** The keys the parsed lines bind. */
  function KeysOf(parsed: seq<Option<Binding>>): set<string>
  {
    set i | 0 <= i < |parsed| && parsed[i].Some? :: parsed[i].value.key
  }

  /** The rest of one iteration of the loader's loop: bind the parsed key unless the
      environment already has it. */
  function Insert(env: Env, parsed: Option<Binding>): (r: Env)
    ensures forall k :: k in env ==> k in r && r[k] == env[k]
    ensures r.Keys == env.Keys + (if parsed.Some? then {parsed.value.key} else {})
    ensures parsed.Some? && parsed.value.key !in env ==> r[parsed.value.key] == parsed.value.value
  {
    match parsed
    case None => env
    case Some(b) => if b.key in env then env else env[b.key := b.value]
  }

  /** The environment after the loader's loop has run over the parsed lines: nothing
      already set changes, the keys it gains are exactly the keys the lines bind, and every
      value it gains is the value of some line binding that key. */
  function InsertAll(env: Env, parsed: seq<Option<Binding>>): (r: Env)
    ensures forall k :: k in env ==> k in r && r[k] == env[k]
    ensures r.Keys == env.Keys + KeysOf(parsed)
    ensures forall k :: k in r && k !in env ==>
      exists i :: 0 <= i < |parsed| && parsed[i] == Some(Binding(k, r[k]))
  {
    if |parsed| == 0 then env
    else
      var prefix := parsed[..|parsed| - 1];
      var r := Insert(InsertAll(env, prefix), parsed[|parsed| - 1]);
      assert forall i :: 0 <= i < |prefix| ==> prefix[i] == parsed[i];
      assert KeysOf(parsed) == KeysOf(prefix)
        + (if parsed[|parsed| - 1].Some? then {parsed[|parsed| - 1].value.key} else {});
      r
  }

  /** One more parsed line is one more insertion. */
  lemma InsertAllSnoc(env: Env, parsed: seq<Option<Binding>>, i: nat)
    requires i < |parsed|
    ensures InsertAll(env, parsed[..i + 1]) == Insert(InsertAll(env, parsed[..i]), parsed[i])
  {
    assert parsed[..i + 1][..i] == parsed[..i];
  }

  /** Among lines that bind the same key the environment lacks, the first one decides
      its value. */
  lemma {:induction false} FirstBindingWins(env: Env, parsed: seq<Option<Binding>>, i: nat)
    requires i < |parsed| && parsed[i].Some? && parsed[i].value.key !in env
    requires forall j :: 0 <= j < i ==> parsed[j].None? || parsed[j].value.key != parsed[i].value.key
    ensures var b := parsed[i].value;
      b.key in InsertAll(env, parsed) && InsertAll(env, parsed)[b.key] == b.value
  {
    var b := parsed[i].value;
    var prefix := parsed[..|parsed| - 1];
    assert forall j :: 0 <= j < |prefix| ==> prefix[j] == parsed[j];
    if i == |parsed| - 1 {
      assert b.key !in KeysOf(prefix);
    } else {
      FirstBindingWins(env, prefix, i);
    }
  }

  /** What the loader leaves in the environment for each outcome of the read. */
  function LoadEnvFile(env: Env, file: EnvFileRead): (r: Env)
    ensures forall k :: k in env ==> k in r && r[k] == env[k]
    ensures !file.Read? ==> r == env
    ensures file.Read? ==> r == InsertAll(env, ParseLines(Lines(file.contents)))
  {
    match file
    case Read(contents) => InsertAll(env, ParseLines(Lines(contents)))
    case _ => env
  }
}
