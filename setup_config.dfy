/**
 * The project `.env` file of the setup wizard: `read_config` parses
 * `KEY=value` lines into a map, `write_key` rewrites or appends one key,
 * `get_key` falls back from the file to the environment.
 */
module SetupConfig {
  import opened Wrappers
  import opened Strings

  predicate IsKeyHead(c: char) {
    'A' <= c <= 'Z' || c == '_'
  }

  predicate IsKeyChar(c: char) {
    IsKeyHead(c) || '0' <= c <= '9'
  }

  /** `[A-Z_][A-Z0-9_]*`. */
  predicate ValidKey(k: string) {
    k != [] && IsKeyHead(k[0]) && forall i | 1 <= i < |k| :: IsKeyChar(k[i])
  }

  /**
   * `read_config` on one line once it is stripped: blank and "#" lines are
   * skipped, otherwise `^([A-Z_][A-Z0-9_]*)=(.*)$` with the value's
   * surrounding quotes removed.
   */
  function ParseStripped(l: string): (kv: Option<(string, string)>)
    ensures kv.Some? ==> ValidKey(kv.value.0)
  {
    if l == "" || StartsWith(l, "#") then None
    else match IndexOf(l, '=')
      case Some(i) => if ValidKey(l[..i]) then Some((l[..i], StripQuotes(l[i + 1..]))) else None
      case None => None
  }

  /** `read_config` on one raw line: a key it reads is valid, and the stripped line starts with `KEY=`. */
  function ParseLine(line: string): (kv: Option<(string, string)>)
    ensures kv.Some? ==> ValidKey(kv.value.0) && StartsWith(Strip(line), kv.value.0 + "=")
    ensures kv.Some? ==> var v := kv.value.1; v == [] || (!IsQuote(v[0]) && !IsQuote(v[|v| - 1]))
  {
    var l := Strip(line);
    if ParseStripped(l).Some? then
      StrippedParseMatches(l, ParseStripped(l).value.0);
      ParseStripped(l)
    else None
  }

  /** Some line parses to `k` and `v`. */
  predicate ReadFrom(lines: seq<string>, parse: string -> Option<(string, string)>, k: string, v: string) {
    exists i | 0 <= i < |lines| :: parse(lines[i]) == Some((k, v))
  }

  /** The map a parser reads from the lines, a later line winning over an earlier one with the same key. */
  function Entries(lines: seq<string>, parse: string -> Option<(string, string)>): (m: map<string, string>)
    ensures forall k | k in m :: ReadFrom(lines, parse, k, m[k])
  {
    if lines == [] then map[]
    else
      var m := Entries(lines[..|lines| - 1], parse);
      match parse(lines[|lines| - 1])
      case Some((k, v)) => m[k := v]
      case None => m
  }

  lemma EntriesStep(lines: seq<string>, parse: string -> Option<(string, string)>, i: nat)
    requires i < |lines|
    ensures Entries(lines[..i + 1], parse) ==
      if parse(lines[i]).Some? then Entries(lines[..i], parse)[parse(lines[i]).value.0 := parse(lines[i]).value.1]
      else Entries(lines[..i], parse)
  {
    assert lines[..i + 1][..i] == lines[..i];
  }

  lemma EntriesSnoc(init: seq<string>, line: string, parse: string -> Option<(string, string)>)
    ensures Entries(init + [line], parse) ==
      if parse(line).Some? then Entries(init, parse)[parse(line).value.0 := parse(line).value.1]
      else Entries(init, parse)
  {
    assert (init + [line])[..|init|] == init;
  }

  /** The map `read_config` reads from the lines; every key in it is valid. */
  function ConfigOf(lines: seq<string>): (m: map<string, string>)
    ensures forall k | k in m :: ValidKey(k)
  {
    EntriesKeysValid(lines);
    Entries(lines, ParseLine)
  }

  lemma {:induction false} EntriesKeysValid(lines: seq<string>)
    ensures forall k | k in Entries(lines, ParseLine) :: ValidKey(k)
    decreases |lines|
  {
    if lines != [] {
      EntriesKeysValid(lines[..|lines| - 1]);
    }
  }

  /** `read_config` on the file's text, None standing for a missing file, which reads as empty. */
  function ReadSpec(file: Option<string>): (m: map<string, string>)
    ensures file.None? ==> m == map[]
    ensures forall k | k in m :: ValidKey(k)
  {
    if file.None? then map[] else ConfigOf(SplitLines(file.value))
  }

  predicate ParsesTo(parse: string -> Option<(string, string)>, line: string, k: string) {
    parse(line).Some? && parse(line).value.0 == k
  }

  /** A key is in the map exactly when some line parses to it. */
  lemma {:induction false} KeyInEntries(lines: seq<string>, parse: string -> Option<(string, string)>, k: string)
    ensures k in Entries(lines, parse) <==> exists i | 0 <= i < |lines| :: ParsesTo(parse, lines[i], k)
    decreases |lines|
  {
    if lines != [] {
      var init := lines[..|lines| - 1];
      KeyInEntries(init, parse, k);
      assert forall i | 0 <= i < |init| :: init[i] == lines[i];
    }
  }

  /** The value of a key is the one on the last line that parses to it. */
  lemma {:induction false} LastLineWins(lines: seq<string>, parse: string -> Option<(string, string)>, j: nat)
    requires j < |lines| && parse(lines[j]).Some?
    requires forall i | j < i < |lines| :: !ParsesTo(parse, lines[i], parse(lines[j]).value.0)
    ensures parse(lines[j]).value.0 in Entries(lines, parse)
    ensures Entries(lines, parse)[parse(lines[j]).value.0] == parse(lines[j]).value.1
    decreases |lines|
  {
    if j < |lines| - 1 {
      var init := lines[..|lines| - 1];
      assert init[j] == lines[j];
      assert forall i | j < i < |init| :: init[i] == lines[i];
      LastLineWins(init, parse, j);
    }
  }

  // ----- write_key -----

  /** A value `read_config` reads back unchanged from `KEY=value`. */
  predicate Storable(v: string) {
    NoLineBreak(v) && (v == [] || (!IsQuote(v[0]) && !IsQuote(v[|v| - 1]) && !IsSpace(v[|v| - 1])))
  }

  function Assignment(k: string, v: string): string {
    k + "=" + v
  }

  lemma KeyHasNoEquals(k: string)
    requires ValidKey(k)
    ensures '=' !in k
  {
    forall i | 0 <= i < |k| ensures k[i] != '=' {
      if i > 0 { assert IsKeyChar(k[i]); }
    }
  }

  /** The pieces of `KEY=value`. */
  lemma AssignmentParts(k: string, v: string)
    requires '=' !in k
    ensures var l := Assignment(k, v);
      && l[..|k|] == k && l[|k| + 1..] == v && IndexOf(l, '=') == Some(|k|)
  {
    var l := Assignment(k, v);
    assert l == k + ("=" + v);
    IndexOfAfter(k, '=', "=" + v);
    assert l[..|k|] == k;
    assert l[|k| + 1..] == v;
  }

  /** `KEY=value` is already stripped. */
  lemma AssignmentStripped(k: string, v: string)
    requires ValidKey(k) && Storable(v)
    ensures Strip(Assignment(k, v)) == Assignment(k, v)
  {
    var l := Assignment(k, v);
    assert l[0] == k[0];
    assert l[|l| - 1] == if v == [] then '=' else v[|v| - 1];
    StripKeeps(l);
  }

  lemma AssignmentIsOneLine(k: string, v: string)
    requires ValidKey(k) && Storable(v)
    ensures NoLineBreak(Assignment(k, v))
  {
    var l := Assignment(k, v);
    forall i | 0 <= i < |l| ensures !IsLineBreak(l[i]) {
      if i < |k| {
        assert l[i] == k[i];
        if i > 0 { assert IsKeyChar(k[i]); }
      } else if i > |k| {
        assert l[i] == v[i - |k| - 1];
      }
    }
  }

  /** `KEY=value` parses back to the key and the value. */
  lemma ParseAssignment(k: string, v: string)
    requires ValidKey(k) && Storable(v)
    ensures ParseLine(Assignment(k, v)) == Some((k, v))
  {
    var l := Assignment(k, v);
    AssignmentStripped(k, v);
    KeyHasNoEquals(k);
    AssignmentParts(k, v);
    assert !StartsWith(l, "#") by { assert l[0] == k[0]; }
    StripQuotesKeeps(v);
  }

  /**
   * The corrected test of `write_key`: the line, once stripped as
   * `read_config` strips it, starts with "KEY=". For a valid key it holds
   * exactly when `read_config` reads that key from the line.
   */
  function Matches(line: string, k: string): (b: bool)
    ensures ValidKey(k) ==> (b <==> ParsesTo(ParseLine, line, k))
  {
    StrippedMatchIffParses(Strip(line), k);
    StartsWith(Strip(line), k + "=")
  }

  lemma StrippedMatchIffParses(l: string, k: string)
    ensures ValidKey(k) ==> (StartsWith(l, k + "=") <==> ParseStripped(l).Some? && ParseStripped(l).value.0 == k)
  {
    if ValidKey(k) && StartsWith(l, k + "=") { StrippedMatchParses(l, k); }
    if ParseStripped(l).Some? && ParseStripped(l).value.0 == k { StrippedParseMatches(l, k); }
  }

  lemma StrippedMatchParses(l: string, k: string)
    requires ValidKey(k) && StartsWith(l, k + "=")
    ensures ParseStripped(l).Some? && ParseStripped(l).value.0 == k
  {
    KeyHasNoEquals(k);
    assert l[..|k| + 1] == k + "=";
    assert l[..|k|] == k && l[|k|] == '=';
    assert l == k + l[|k|..];
    IndexOfAfter(k, '=', l[|k|..]);
    assert l[0] == k[0];
  }

  lemma StrippedParseMatches(l: string, k: string)
    requires ParseStripped(l).Some? && ParseStripped(l).value.0 == k
    ensures StartsWith(l, k + "=")
  {
    ParsedKeyBeforeEquals(l);
    var i := IndexOf(l, '=').value;
    PrefixThenChar(l, i, k, '=');
  }

  lemma ParsedKeyBeforeEquals(l: string)
    requires ParseStripped(l).Some?
    ensures IndexOf(l, '=').Some? && l[..IndexOf(l, '=').value] == ParseStripped(l).value.0
  {
  }

  lemma PrefixThenChar(l: string, i: nat, k: string, c: char)
    requires i < |l| && l[..i] == k && l[i] == c
    ensures StartsWith(l, k + [c])
  {
    assert l[..i + 1] == l[..i] + [l[i]];
  }

  /** Each line that passes `hit` replaced by `KEY=value`, every other line kept, in order. */
  function RewriteAll(lines: seq<string>, k: string, v: string, hit: (string, string) -> bool): (r: seq<string>)
    ensures |r| == |lines|
    ensures forall i | 0 <= i < |lines| :: r[i] == if hit(lines[i], k) then Assignment(k, v) else lines[i]
  {
    if lines == [] then []
    else
      var last := lines[|lines| - 1];
      RewriteAll(lines[..|lines| - 1], k, v, hit) + [if hit(last, k) then Assignment(k, v) else last]
  }

  lemma RewriteAllStep(lines: seq<string>, k: string, v: string, hit: (string, string) -> bool, i: nat)
    requires i < |lines|
    ensures RewriteAll(lines[..i + 1], k, v, hit) ==
      RewriteAll(lines[..i], k, v, hit) + [if hit(lines[i], k) then Assignment(k, v) else lines[i]]
    ensures AnyHit(lines[..i + 1], k, hit) <==> AnyHit(lines[..i], k, hit) || hit(lines[i], k)
  {
    assert lines[..i + 1][..i] == lines[..i];
    assert forall j | 0 <= j < i :: lines[..i + 1][j] == lines[..i][j];
    assert lines[..i + 1][i] == lines[i];
  }

  predicate AnyHit(lines: seq<string>, k: string, hit: (string, string) -> bool) {
    exists i | 0 <= i < |lines| :: hit(lines[i], k)
  }

  /** The lines `write_key` writes with a given line test: the rewritten lines, plus `KEY=value` at the end when none passed. */
  function WriteWith(lines: seq<string>, k: string, v: string, hit: (string, string) -> bool): (r: seq<string>)
    ensures r != [] && |lines| <= |r| <= |lines| + 1
    ensures |r| == |lines| <==> AnyHit(lines, k, hit)
    ensures forall i | 0 <= i < |lines| :: r[i] == if hit(lines[i], k) then Assignment(k, v) else lines[i]
    ensures |r| > |lines| ==> r[|lines|] == Assignment(k, v)
  {
    if AnyHit(lines, k, hit) then RewriteAll(lines, k, v, hit) else RewriteAll(lines, k, v, hit) + [Assignment(k, v)]
  }

  /**
   * The corrected `write_key` on lines: for a valid key, exactly the lines
   * `read_config` reads the key from are replaced, and a line is appended
   * exactly when the key was not read at all.
   */
  function WriteLines(lines: seq<string>, k: string, v: string): (r: seq<string>)
    ensures |lines| <= |r|
    ensures ValidKey(k) ==> forall i | 0 <= i < |lines| ::
      r[i] == if ParsesTo(ParseLine, lines[i], k) then Assignment(k, v) else lines[i]
    ensures ValidKey(k) ==> (|r| == |lines| <==> k in ConfigOf(lines))
  {
    KeyInEntries(lines, ParseLine, k);
    WriteWith(lines, k, v, Matches)
  }

  /** The text `write_key` leaves in the file: always newline-terminated, a lone `KEY=value` line for a missing file. */
  function WriteText(file: Option<string>, k: string, v: string): (t: string)
    ensures EndsWith(t, "\n")
    ensures file.None? ==> t == Assignment(k, v) + "\n"
  {
    var lines := if file.None? then [] else SplitLines(file.value);
    var body := Join(WriteLines(lines, k, v), "\n");
    assert (body + "\n")[|body|..] == "\n";
    body + "\n"
  }

  /**
   * Rewriting the lines a parser reads `k` from sets `k` where it was
   * present and changes nothing else.
   */
  lemma {:induction false} RewriteAllEntries(lines: seq<string>, k: string, v: string,
                                            hit: (string, string) -> bool, parse: string -> Option<(string, string)>)
    requires parse(Assignment(k, v)) == Some((k, v))
    requires forall i | 0 <= i < |lines| :: hit(lines[i], k) <==> ParsesTo(parse, lines[i], k)
    ensures Entries(RewriteAll(lines, k, v, hit), parse) ==
      if k in Entries(lines, parse) then Entries(lines, parse)[k := v] else Entries(lines, parse)
    decreases |lines|
  {
    if lines != [] {
      var init := lines[..|lines| - 1];
      var last := lines[|lines| - 1];
      var r := RewriteAll(lines, k, v, hit);
      assert lines == init + [last];
      assert r == RewriteAll(init, k, v, hit) + [r[|r| - 1]];
      assert forall i | 0 <= i < |init| :: init[i] == lines[i];
      RewriteAllEntries(init, k, v, hit, parse);
      EntriesSnoc(init, last, parse);
      EntriesSnoc(RewriteAll(init, k, v, hit), r[|r| - 1], parse);
      var m := Entries(init, parse);
      if hit(last, k) {
        assert r[|r| - 1] == Assignment(k, v);
        SetTwice(m, k, v, parse(last).value.1);
      } else {
        assert r[|r| - 1] == last;
        assert !ParsesTo(parse, last, k);
        SetOther(m, k, v, parse(last));
      }
    }
  }

  /** Setting `k` to `v` wins over any earlier value of `k`. */
  lemma SetTwice(m: map<string, string>, k: string, v: string, w: string)
    ensures (if k in m then m[k := v] else m)[k := v] == m[k := w][k := v]
  {
  }

  /** Setting `k` where present commutes with an entry for another key. */
  lemma SetOther(m: map<string, string>, k: string, v: string, p: Option<(string, string)>)
    requires p.Some? ==> p.value.0 != k
    ensures var m1 := if k in m then m[k := v] else m;
      var m2 := if p.Some? then m[p.value.0 := p.value.1] else m;
      (if p.Some? then m1[p.value.0 := p.value.1] else m1) == (if k in m2 then m2[k := v] else m2)
  {
  }

  /** Every line of the written file is a single line. */
  lemma WriteLinesAreLines(lines: seq<string>, k: string, v: string)
    requires ValidKey(k) && Storable(v) && forall i | 0 <= i < |lines| :: NoLineBreak(lines[i])
    ensures forall i | 0 <= i < |WriteLines(lines, k, v)| :: NoLineBreak(WriteLines(lines, k, v)[i])
  {
    AssignmentIsOneLine(k, v);
  }

  lemma RewriteConfig(lines: seq<string>, k: string, v: string)
    requires ValidKey(k) && Storable(v)
    ensures ConfigOf(RewriteAll(lines, k, v, Matches)) ==
      if k in ConfigOf(lines) then ConfigOf(lines)[k := v] else ConfigOf(lines)
    ensures k in ConfigOf(lines) <==> AnyHit(lines, k, Matches)
  {
    ParseAssignment(k, v);
    assert forall i | 0 <= i < |lines| :: Matches(lines[i], k) <==> ParsesTo(ParseLine, lines[i], k);
    RewriteAllEntries(lines, k, v, Matches, ParseLine);
    KeyInEntries(lines, ParseLine, k);
  }

  /** On lines, `write_key` sets the key and leaves every other key as it was. */
  lemma WriteLinesConfig(lines: seq<string>, k: string, v: string)
    requires ValidKey(k) && Storable(v)
    ensures ConfigOf(WriteLines(lines, k, v)) == ConfigOf(lines)[k := v]
  {
    RewriteConfig(lines, k, v);
    if !AnyHit(lines, k, Matches) {
      ParseAssignment(k, v);
      EntriesSnoc(RewriteAll(lines, k, v, Matches), Assignment(k, v), ParseLine);
    }
  }

  /** The text written is read back as the lines written. */
  lemma WriteTextLines(file: Option<string>, k: string, v: string)
    requires ValidKey(k) && Storable(v)
    ensures var lines := if file.None? then [] else SplitLines(file.value);
      SplitLines(WriteText(file, k, v)) == WriteLines(lines, k, v)
  {
    var lines := if file.None? then [] else SplitLines(file.value);
    var out := WriteLines(lines, k, v);
    assert forall i | 0 <= i < |lines| :: lines[i] in lines;
    WriteLinesAreLines(lines, k, v);
    JoinNewlineTerminated(out);
    SplitLinesTerminated(out);
  }

  /**
   * Round trip: after `write_key(k, v)` the file reads as before with `k`
   * mapped to `v`, for a valid key and a value `read_config` keeps as it is.
   */
  lemma WriteThenRead(file: Option<string>, k: string, v: string)
    requires ValidKey(k) && Storable(v)
    ensures ReadSpec(Some(WriteText(file, k, v))) == ReadSpec(file)[k := v]
  {
    var lines := if file.None? then [] else SplitLines(file.value);
    WriteTextLines(file, k, v);
    WriteLinesConfig(lines, k, v);
  }

  // ----- write_key as written -----

  /**
   * The test `write_key` applies: the raw, unstripped line starts with
   * "KEY=". For a valid key it is stricter than the corrected test.
   */
  function MatchesAsWritten(line: string, k: string): (b: bool)
    ensures ValidKey(k) && b ==> Matches(line, k)
  {
    RawMatchIsStrippedMatch(line, k);
    StartsWith(line, k + "=")
  }

  /** A line starting with `KEY=` keeps that start when stripped, since neither end of `KEY=` is whitespace. */
  lemma RawMatchIsStrippedMatch(line: string, k: string)
    ensures ValidKey(k) && StartsWith(line, k + "=") ==> StartsWith(Strip(line), k + "=")
  {
    if ValidKey(k) && StartsWith(line, k + "=") {
      var p := k + "=";
      assert line[0] == p[0] == k[0] && !IsSpace(line[0]);
      var t := TrimStart(line, IsSpace);
      assert t == line;
      var r := TrimEnd(t, IsSpace);
      assert line[|k|] == p[|k|] == '=';
      assert |r| > |k|;
      assert r[..|p|] == line[..|p|];
    }
  }

  /**
   * `write_key` as written, on lines: for a valid key, every line the
   * corrected test leaves alone is left alone here too.
   */
  function WriteLinesAsWritten(lines: seq<string>, k: string, v: string): (r: seq<string>)
    ensures |lines| <= |r|
    ensures ValidKey(k) ==> forall i | 0 <= i < |lines| :: !Matches(lines[i], k) ==> r[i] == lines[i]
  {
    WriteWith(lines, k, v, MatchesAsWritten)
  }

  /**
   * An indented duplicate defeats the round trip: `read_config` strips the
   * line " CAS_PORT=3" and reads it, `write_key` does not strip it and
   * leaves it, so after writing "2" the key still reads "3".
   */
  lemma IndentedDuplicateSurvives()
    ensures var out := WriteLinesAsWritten(["CAS_PORT=1", " CAS_PORT=3"], "CAS_PORT", "2");
      && out == ["CAS_PORT=2", " CAS_PORT=3"]
      && "CAS_PORT" in ConfigOf(out) && ConfigOf(out)["CAS_PORT"] == "3"
  {
    IndentedLineIsKept();
    IndentedLineIsRead();
    LastLineWins(["CAS_PORT=2", " CAS_PORT=3"], ParseLine, 1);
  }

  lemma IndentedLineIsKept()
    ensures WriteLinesAsWritten(["CAS_PORT=1", " CAS_PORT=3"], "CAS_PORT", "2") == ["CAS_PORT=2", " CAS_PORT=3"]
  {
    var k := "CAS_PORT";
    var lines := ["CAS_PORT=1", " CAS_PORT=3"];
    assert MatchesAsWritten(lines[0], k) by { assert lines[0][..|k| + 1] == k + "="; }
    assert AnyHit(lines, k, MatchesAsWritten);
    assert !MatchesAsWritten(lines[1], k) by { assert lines[1][0] != (k + "=")[0]; }
    var r := RewriteAll(lines, k, "2", MatchesAsWritten);
    assert r[0] == Assignment(k, "2") == "CAS_PORT=2";
    assert r[1] == lines[1];
    assert r == [r[0], r[1]];
  }

  lemma IndentedLineIsRead()
    ensures ParseLine(" CAS_PORT=3") == Some(("CAS_PORT", "3"))
  {
    var k := "CAS_PORT";
    assert ValidKey(k);
    assert Storable("3");
    ParseAssignment(k, "3");
    StripSpaceCons(' ', Assignment(k, "3"));
    IndentedLiteral();
  }

  lemma IndentedLiteral()
    ensures [' '] + Assignment("CAS_PORT", "3") == " CAS_PORT=3"
  {
  }

  // ----- the file -----

  /** The `.env` file; `text` is None while the file does not exist. */
  class EnvFile {
    var text: Option<string>

    constructor(text: Option<string>)
      ensures this.text == text
    {
      this.text := text;
    }

    /** `read_config`: the loop over the file's lines. */
    method ReadConfig() returns (config: map<string, string>)
      ensures config == ReadSpec(text)
    {
      config := map[];
      if text.None? {
        return;
      }
      var lines := SplitLines(text.value);
      for i := 0 to |lines|
        invariant config == ConfigOf(lines[..i])
      {
        var kv := ParseLine(lines[i]);
        EntriesStep(lines, ParseLine, i);
        if kv.Some? {
          config := config[kv.value.0 := kv.value.1];
        }
      }
      assert lines[..|lines|] == lines;
    }

    /** `write_key`, with the corrected line test: the loop that rewrites matching lines, then the write. */
    method WriteKey(key: string, value: string)
      modifies this
      ensures text == Some(WriteText(old(text), key, value))
    {
      var src := if text.None? then [] else SplitLines(text.value);
      var lines: seq<string> := [];
      var found := false;
      for i := 0 to |src|
        invariant lines == RewriteAll(src[..i], key, value, Matches)
        invariant found <==> AnyHit(src[..i], key, Matches)
      {
        RewriteAllStep(src, key, value, Matches, i);
        if Matches(src[i], key) {
          lines := lines + [Assignment(key, value)];
          found := true;
        } else {
          lines := lines + [src[i]];
        }
      }
      assert src[..|src|] == src;
      if !found {
        lines := lines + [Assignment(key, value)];
      }
      text := Some(Join(lines, "\n") + "\n");
    }
  }

  /** `get_key`: the file's value if non-empty, else the environment's if non-empty, else None. */
  function GetKey(config: map<string, string>, key: string, env: Option<string>): (r: Option<string>)
    ensures r.Some? ==> r.value != ""
    ensures key in config && config[key] != "" ==> r == Some(config[key])
    ensures !(key in config && config[key] != "") && env.Some? && env.value != "" ==> r == env
    ensures r.None? <==> (key !in config || config[key] == "") && (env.None? || env.value == "")
  {
    if key in config && config[key] != "" then Some(config[key])
    else if env.Some? && env.value != "" then env
    else None
  }
}
