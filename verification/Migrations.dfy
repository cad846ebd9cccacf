/**
 The config migrators: rewriting deprecated keys of .env and YAML files line by line, against a
 registry of renamed and removed keys.
 */
module Migrations {
  import opened Text

  datatype Option<T> = None | Some(value: T)

  /** An empty new name means that the key was removed without replacement. */
  datatype Deprecation = Deprecation(oldEnv: string, newEnv: string, oldYaml: string, newYaml: string,
                                     removedIn: string)

  type Registry = seq<Deprecation>

  function Commented(d: Deprecation, line: string): string { "# REMOVED (" + d.removedIn + "): " + line }

  /* YAML */

  function FindDeprecationByYamlKey(reg: Registry, key: string): Option<Deprecation> {
    if reg == [] then None
    else if reg[0].oldYaml == key then Some(reg[0])
    else FindDeprecationByYamlKey(reg[1..], key)
  }

  /** What a line of YAML says to the flat schema: a top-level key with the text from its colon on, or
      something a migration must not touch. */
  datatype YamlItem = Top(key: string, rest: string) | Verbatim(line: string)

  predicate SkippedYaml(line: string) { line == "" || line[0] == ' ' || line[0] == '\t' || line[0] == '#' }

  function YamlItemOf(line: string): YamlItem {
    if SkippedYaml(line) then Verbatim(line)
    else
      var colon := IndexByte(line, ':');
      if colon == 0 || colon == |line| then Verbatim(line) else Top(TrimSpace(line[..colon]), line[colon..])
  }

  /** The rule for a line, if any. */
  function MatchYamlLine(reg: Registry, line: string): Option<Deprecation> {
    var item := YamlItemOf(line);
    if item.Top? then FindDeprecationByYamlKey(reg, item.key) else None
  }

  function MigrateYamlLine(reg: Registry, line: string): string {
    var d := MatchYamlLine(reg, line);
    if d.None? then line
    else if d.value.newYaml == "" then Commented(d.value, line)
    else d.value.newYaml + line[IndexByte(line, ':')..]
  }

  /* .env */

  /** The text after the optional blanks and the optional `export `. */
  function BareStart(line: string): (n: nat)
    ensures n <= |line|
  {
    var n := Blanks(line);
    if HasPrefix(line[n..], EXPORT) then n + 7 else n
  }

  function FindEnv(reg: Registry, bare: string): (d: Option<Deprecation>)
    ensures d.Some? ==> d.value in reg && d.value.oldEnv != "" && HasPrefix(bare, d.value.oldEnv + "=")
  {
    if reg == [] then None
    else if reg[0].oldEnv != "" && HasPrefix(bare, reg[0].oldEnv + "=") then Some(reg[0])
    else FindEnv(reg[1..], bare)
  }

  function MatchEnvLine(reg: Registry, line: string): Option<Deprecation> { FindEnv(reg, line[BareStart(line)..]) }

  lemma KeyOccurs(line: string, key: string)
    requires HasPrefix(line[BareStart(line)..], key + "=")
    ensures OccursAt(line, key, BareStart(line)) && Index(line, key) >= 0
  {
    var b := BareStart(line);
    assert line[b..b + |key|] == line[b..][..|key|] == key;
    IndexFinds(line, key, b);
  }

  /** The first occurrence of `key`, exchanged. */
  function ReplaceFirst(line: string, key: string, replacement: string): string
    requires Index(line, key) >= 0
  {
    line[..Index(line, key)] + replacement + line[Index(line, key) + |key|..]
  }

  function MigrateEnvLine(reg: Registry, line: string): string {
    var d := MatchEnvLine(reg, line);
    if d.None? then line
    else if d.value.newEnv == "" then Commented(d.value, line)
    else
      KeyOccurs(line, d.value.oldEnv);
      ReplaceFirst(line, d.value.oldEnv, d.value.newEnv)
  }

  /* Whole files */

  datatype Format = Env | Yaml

  function MatchLine(fmt: Format, reg: Registry, line: string): Option<Deprecation> {
    if fmt.Env? then MatchEnvLine(reg, line) else MatchYamlLine(reg, line)
  }

  function MigrateLine(fmt: Format, reg: Registry, line: string): string {
    if fmt.Env? then MigrateEnvLine(reg, line) else MigrateYamlLine(reg, line)
  }

  function MigrateLines(fmt: Format, reg: Registry, lines: seq<string>): (out: seq<string>)
    ensures |out| == |lines| && forall i :: 0 <= i < |lines| ==> out[i] == MigrateLine(fmt, reg, lines[i])
  {
    seq(|lines|, i requires 0 <= i < |lines| => MigrateLine(fmt, reg, lines[i]))
  }

  function CountMatches(fmt: Format, reg: Registry, lines: seq<string>): nat {
    if lines == [] then 0
    else CountMatches(fmt, reg, lines[..|lines| - 1]) + if MatchLine(fmt, reg, lines[|lines| - 1]).Some? then 1 else 0
  }

  lemma UnmatchedLineIsKept(fmt: Format, reg: Registry, line: string)
    ensures MatchLine(fmt, reg, line).None? ==> MigrateLine(fmt, reg, line) == line
  {
  }

  /** The loop over the lines: matching ones are rewritten in place and counted. */
  method RewriteLines(fmt: Format, reg: Registry, was: seq<string>) returns (lines: seq<string>, count: nat)
    ensures lines == MigrateLines(fmt, reg, was) && count == CountMatches(fmt, reg, was)
  {
    lines := was;
    count := 0;
    for i := 0 to |was|
      invariant |lines| == |was|
      invariant forall k :: 0 <= k < i ==> lines[k] == MigrateLine(fmt, reg, was[k])
      invariant forall k :: i <= k < |was| ==> lines[k] == was[k]
      invariant count == CountMatches(fmt, reg, was[..i])
    {
      assert was[..i + 1][..i] == was[..i];
      UnmatchedLineIsKept(fmt, reg, was[i]);
      var d := MatchLine(fmt, reg, lines[i]);
      if d.Some? {
        lines := lines[i := MigrateLine(fmt, reg, lines[i])];
        count := count + 1;
      }
    }
    assert was[..|was|] == was;
  }

  /** Both migrators: split, rewrite, join. */
  method MigrateContent(fmt: Format, reg: Registry, content: string) returns (out: string, count: nat)
    ensures out == Join(MigrateLines(fmt, reg, Split(content)))
    ensures count == CountMatches(fmt, reg, Split(content))
    ensures count == 0 ==> out == content
  {
    var lines;
    lines, count := RewriteLines(fmt, reg, Split(content));
    out := Join(lines);
    UnmatchedTextIsKept(fmt, reg, content);
  }

  lemma {:induction false} NothingCounted(fmt: Format, reg: Registry, lines: seq<string>)
    ensures CountMatches(fmt, reg, lines) == 0 ==> MigrateLines(fmt, reg, lines) == lines
  {
    if lines != [] {
      var front := lines[..|lines| - 1];
      NothingCounted(fmt, reg, front);
      if CountMatches(fmt, reg, lines) == 0 {
        assert MigrateLine(fmt, reg, lines[|lines| - 1]) == lines[|lines| - 1];
        forall i | 0 <= i < |lines|
          ensures MigrateLines(fmt, reg, lines)[i] == lines[i]
        {
          assert i < |front| ==> MigrateLines(fmt, reg, front)[i] == front[i];
        }
      }
    }
  }

  /** A text in which no line matches comes back as it was, to the last character. */
  lemma UnmatchedTextIsKept(fmt: Format, reg: Registry, content: string)
    ensures CountMatches(fmt, reg, Split(content)) == 0 ==> Join(MigrateLines(fmt, reg, Split(content))) == content
  {
    NothingCounted(fmt, reg, Split(content));
    JoinOfSplit(content);
  }

  /* What a line of a .env file says */

  /** An assignment after optional blanks and an optional `export `, or something else. */
  datatype EnvItem = Assign(lead: string, key: string, value: string) | Other(line: string)

  function EnvItemOf(line: string): EnvItem {
    var bare := line[BareStart(line)..];
    var eq := IndexByte(bare, '=');
    if bare == "" || bare[0] == '#' || eq == |bare| then Other(line)
    else Assign(line[..BareStart(line)], bare[..eq], bare[eq + 1..])
  }

  /** The first rule for a variable. */
  function FindEnvKey(reg: Registry, key: string): Option<Deprecation> {
    if reg == [] then None
    else if reg[0].oldEnv != "" && reg[0].oldEnv == key then Some(reg[0])
    else FindEnvKey(reg[1..], key)
  }

  /* Registries the migrators are meant for */

  predicate EnvKeyOk(k: string) { k != "" && k[0] != '#' && ' ' !in k && '\t' !in k && '\n' !in k && '=' !in k }

  /** A key that reads back as itself when it is written in front of a colon. */
  predicate YamlKeyOk(k: string) { k != "" && k[0] != '#' && ':' !in k && '\n' !in k && TrimSpace(k) == k }

  /** Variables look like variables, an old name is not part of the word `export` (so no name that
      starts with NEXUS_ is), and a replacement is not deprecated itself. */
  ghost predicate EnvRuleOk(reg: Registry, d: Deprecation) {
    && '\n' !in d.removedIn
    && (d.oldEnv != "" ==>
          && EnvKeyOk(d.oldEnv)
          && (forall k: nat :: !OccursAt("export", d.oldEnv, k))
          && (d.newEnv != "" ==> EnvKeyOk(d.newEnv) && FindEnvKey(reg, d.newEnv).None?))
  }

  /** A replacement is a key and is not deprecated itself. */
  ghost predicate YamlRuleOk(reg: Registry, d: Deprecation) {
    && '\n' !in d.removedIn
    && (d.newYaml != "" ==> YamlKeyOk(d.newYaml) && FindDeprecationByYamlKey(reg, d.newYaml).None?)
  }

  ghost predicate RegistryOk(fmt: Format, reg: Registry) {
    && (fmt.Env? ==> forall d {:trigger EnvRuleOk(reg, d)} :: d in reg ==> EnvRuleOk(reg, d))
    && (fmt.Yaml? ==> forall d {:trigger YamlRuleOk(reg, d)} :: d in reg ==> YamlRuleOk(reg, d))
  }

  /* YAML lines */

  lemma {:induction false} FoundYamlRule(reg: Registry, key: string)
    ensures FindDeprecationByYamlKey(reg, key).Some? ==>
              FindDeprecationByYamlKey(reg, key).value in reg && FindDeprecationByYamlKey(reg, key).value.oldYaml == key
  {
    if reg != [] { FoundYamlRule(reg[1..], key); }
  }

  /** A renamed key keeps everything from its colon on; a removed one becomes a comment; all other
      lines say what they said. */
  function RenamedYaml(reg: Registry, line: string): YamlItem {
    var item := YamlItemOf(line);
    if item.Verbatim? then item
    else
      match FindDeprecationByYamlKey(reg, item.key)
      case None => item
      case Some(d) => if d.newYaml == "" then Verbatim(Commented(d, line)) else Top(d.newYaml, item.rest)
  }

  lemma YamlReadsBack(key: string, rest: string)
    requires YamlKeyOk(key) && rest != "" && rest[0] == ':'
    ensures YamlItemOf(key + rest) == Top(key, rest)
  {
    var line := key + rest;
    var left, right := TrimSpaceParts(key);
    assert line[..|key|] == key && line[|key|..] == rest;
    IndexByteAt(line, ':', |key|);
  }

  lemma YamlLineMeaning(reg: Registry, line: string)
    requires RegistryOk(Yaml, reg) && '\n' !in line
    ensures YamlItemOf(MigrateYamlLine(reg, line)) == RenamedYaml(reg, line)
    ensures '\n' !in MigrateYamlLine(reg, line)
    ensures MatchYamlLine(reg, MigrateYamlLine(reg, line)).None?
  {
    var d := MatchYamlLine(reg, line);
    if d.Some? {
      FoundYamlRule(reg, YamlItemOf(line).key);
      assert YamlRuleOk(reg, d.value);
      if d.value.newYaml == "" {
        assert Commented(d.value, line)[0] == '#';
      } else {
        YamlReadsBack(d.value.newYaml, line[IndexByte(line, ':')..]);
      }
    }
  }

  /** Indented lines, comments, empty lines, and lines without a key are never matched and never touched: keys
      inside nested maps are safe. */
  lemma NestedLinesAreKept(reg: Registry, content: string, i: nat)
    requires i < |Split(content)|
    requires var line := Split(content)[i];
             line == "" || line[0] in {' ', '\t', '#', ':'} || ':' !in line
    ensures MatchYamlLine(reg, Split(content)[i]).None?
    ensures MigrateLines(Yaml, reg, Split(content))[i] == Split(content)[i]
  {
  }

  /** A line with a deprecated key at the top level keeps everything from its colon on; with a removed key it is
      kept whole behind a remark. */
  lemma TopLevelKeyIsRenamed(reg: Registry, key: string, pad: string, rest: string)
    requires YamlKeyOk(key) && AllSpace(pad)
    ensures var line := key + pad + ":" + rest;
            && MatchYamlLine(reg, line) == FindDeprecationByYamlKey(reg, key)
            && MigrateYamlLine(reg, line)
               == match FindDeprecationByYamlKey(reg, key)
                  case None => line
                  case Some(d) =>
                    if d.newYaml == "" then "# REMOVED (" + d.removedIn + "): " + line else d.newYaml + ":" + rest
  {
    var line := key + pad + ":" + rest;
    var left, right := TrimSpaceParts(key);
    var colon := |key| + |pad|;
    assert !IsSpace(':');
    assert line[0] == key[0] && line[..colon] == key + pad && line[colon] == ':' && line[colon..] == ":" + rest;
    IndexByteAt(line, ':', colon);
    TrimOfPadded(key, pad);
  }

  /** The first rule with the key decides. */
  lemma {:induction false} FirstYamlRule(reg: Registry, key: string) returns (i: nat)
    ensures i <= |reg| && forall j :: 0 <= j < i ==> reg[j].oldYaml != key
    ensures i < |reg| ==> reg[i].oldYaml == key && FindDeprecationByYamlKey(reg, key) == Some(reg[i])
    ensures i == |reg| ==> FindDeprecationByYamlKey(reg, key).None?
  {
    if reg == [] || reg[0].oldYaml == key {
      i := 0;
    } else {
      i := FirstYamlRule(reg[1..], key);
      i := i + 1;
    }
  }

  /* .env lines */

  lemma {:induction false} EnvPrefixIsKey(reg: Registry, bare: string)
    requires forall d :: d in reg && d.oldEnv != "" ==> EnvKeyOk(d.oldEnv)
    ensures var eq := IndexByte(bare, '=');
            FindEnv(reg, bare)
            == if bare == "" || bare[0] == '#' || eq == |bare| then None else FindEnvKey(reg, bare[..eq])
  {
    if reg != [] {
      var key := reg[0].oldEnv;
      EnvPrefixIsKey(reg[1..], bare);
      if key != "" {
        assert reg[0] in reg;
        var eq := IndexByte(bare, '=');
        assert eq < |bare| ==> bare[..eq + 1] == bare[..eq] + "=";
        if HasPrefix(bare, key + "=") {
          assert bare[..|key|] == key && bare[|key|] == '=';
          IndexByteAt(bare, '=', |key|);
        }
      }
    }
  }

  const EXPORT := "export "

  lemma ExportWord()
    ensures |EXPORT| == 7 && EXPORT[..6] == "export" && EXPORT[0] == 'e' && EXPORT[6] == ' ' && '=' !in EXPORT
  {
  }

  /** A name does not start inside the blanks or the `export ` in front of it. */
  lemma NoEarlierOccurrence(line: string, key: string, i: nat)
    requires EnvKeyOk(key) && (forall k: nat :: !OccursAt("export", key, k)) && i < BareStart(line)
    ensures !OccursAt(line, key, i)
  {
    var n := Blanks(line);
    if OccursAt(line, key, i) {
      assert forall k :: 0 <= k < |key| ==> key[k] in key && line[i + k] == line[i..i + |key|][k] == key[k];
      assert line[i + 0] == key[0];
      assert i >= n;
      InsideExport(line, n, key, i);
    }
  }

  /** A name that starts inside a leading `export ` lies within the word. */
  lemma InsideExport(line: string, n: nat, key: string, i: nat)
    requires n <= |line| && HasPrefix(line[n..], EXPORT) && n <= i < n + 7
    requires key != "" && ' ' !in key && OccursAt(line, key, i)
    ensures OccursAt("export", key, i - n)
  {
    ExportWord();
    assert EXPORT == line[n..][..7] && EXPORT[6] == ' ' && line[n + 6] == line[n..][6];
    assert forall j :: i <= j < i + |key| ==> line[j] == key[j - i] && key[j - i] in key;
    assert i + |key| <= n + 6;
    assert EXPORT[..6][i - n..i - n + |key|] == line[i..i + |key|];
  }

  /** With the old name not inside `export`, its first occurrence in a matching line is the key. */
  lemma KeyIsFirstOccurrence(line: string, key: string)
    requires EnvKeyOk(key) && (forall k: nat :: !OccursAt("export", key, k))
    requires HasPrefix(line[BareStart(line)..], key + "=")
    ensures Index(line, key) == BareStart(line)
  {
    KeyOccurs(line, key);
    forall i: nat | i < BareStart(line)
      ensures !OccursAt(line, key, i)
    {
      NoEarlierOccurrence(line, key, i);
    }
    IndexIsFirst(line, key, BareStart(line));
  }

  lemma {:induction false} FoundEnvRule(reg: Registry, key: string)
    ensures FindEnvKey(reg, key).Some? ==>
              var d := FindEnvKey(reg, key).value; d in reg && d.oldEnv == key && d.oldEnv != ""
  {
    if reg != [] { FoundEnvRule(reg[1..], key); }
  }

  /** A renamed variable keeps its lead and value; a removed one becomes a comment; all other lines say
      what they said. */
  function RenamedEnv(reg: Registry, line: string): EnvItem {
    var item := EnvItemOf(line);
    if item.Other? then item
    else
      match FindEnvKey(reg, item.key)
      case None => item
      case Some(d) => if d.newEnv == "" then Other(Commented(d, line)) else item.(key := d.newEnv)
  }

  lemma {:induction false} BlanksAre(s: string, n: nat)
    requires n <= |s| && (forall i :: 0 <= i < n ==> s[i] == ' ' || s[i] == '\t')
    requires n < |s| ==> s[n] != ' ' && s[n] != '\t'
    ensures Blanks(s) == n
  {
    if n > 0 { BlanksAre(s[1..], n - 1); }
  }

  lemma KeyIsNotExport(key: string, rest: string)
    requires EnvKeyOk(key)
    ensures !HasPrefix(key + "=" + rest, EXPORT)
  {
    var s, word := key + "=" + rest, EXPORT;
    ExportWord();
    assert forall i :: 0 <= i < |key| ==> s[i] == key[i] && key[i] in key;
    assert s[|key|] == '=';
    assert |key| < 7 ==> word[|key|] in word;
  }

  /** Exchanging the text behind the lead leaves the lead alone, when the new text starts with a
      key. */
  lemma LeadIsKept(line: string, key: string, rest: string)
    requires EnvKeyOk(key) && BareStart(line) < |line|
    ensures BareStart(line[..BareStart(line)] + key + "=" + rest) == BareStart(line)
  {
    var b, n := BareStart(line), Blanks(line);
    var line' := line[..b] + key + "=" + rest;
    assert key[0] in key;
    if b == n {
      BlanksAre(line', n);
      assert line'[n..] == key + "=" + rest;
      KeyIsNotExport(key, rest);
    } else {
      ExportWord();
      assert line[n..][..7] == EXPORT && line[n] == line[n..][0] == EXPORT[0];
      BlanksAre(line', n);
      assert line'[n..][..7] == line[n..][..7];
    }
  }

  lemma EnvReadsBack(line: string, key: string, rest: string)
    requires EnvKeyOk(key) && BareStart(line) < |line|
    ensures EnvItemOf(line[..BareStart(line)] + key + "=" + rest) == Assign(line[..BareStart(line)], key, rest)
  {
    var b := BareStart(line);
    var line' := line[..b] + key + "=" + rest;
    LeadIsKept(line, key, rest);
    assert line'[b..] == key + "=" + rest;
    IndexByteAt(line'[b..], '=', |key|);
    assert line'[b..][|key| + 1..] == rest;
  }

  lemma OldKeysOk(reg: Registry)
    requires RegistryOk(Env, reg)
    ensures forall d :: d in reg && d.oldEnv != "" ==> EnvKeyOk(d.oldEnv)
  {
    assert forall d :: d in reg ==> EnvRuleOk(reg, d);
  }

  /** A matching line is an assignment to the rule's old variable. */
  lemma MatchIsLookup(reg: Registry, line: string)
    requires RegistryOk(Env, reg)
    ensures MatchEnvLine(reg, line)
            == if EnvItemOf(line).Assign? then FindEnvKey(reg, EnvItemOf(line).key) else None
  {
    OldKeysOk(reg);
    EnvPrefixIsKey(reg, line[BareStart(line)..]);
  }

  lemma EnvLineMeaning(reg: Registry, line: string)
    requires RegistryOk(Env, reg) && '\n' !in line
    ensures EnvItemOf(MigrateEnvLine(reg, line)) == RenamedEnv(reg, line)
    ensures '\n' !in MigrateEnvLine(reg, line)
    ensures MatchEnvLine(reg, MigrateEnvLine(reg, line)).None?
  {
    MatchIsLookup(reg, line);
    var d := MatchEnvLine(reg, line);
    if d.Some? {
      MatchedRule(reg, line);
      if d.value.newEnv == "" {
        assert MigrateEnvLine(reg, line) == Commented(d.value, line);
        RemovedLine(reg, d.value, line);
      } else {
        RenamedLine(reg, d.value, line);
        RenamedLineHasNoNewline(reg, d.value, line);
      }
    }
  }

  lemma MatchedRule(reg: Registry, line: string)
    requires RegistryOk(Env, reg) && MatchEnvLine(reg, line).Some?
    ensures EnvRuleOk(reg, MatchEnvLine(reg, line).value)
    ensures EnvItemOf(line).Assign? && EnvItemOf(line).key == MatchEnvLine(reg, line).value.oldEnv != ""
  {
    MatchIsLookup(reg, line);
    FoundEnvRule(reg, EnvItemOf(line).key);
    assert EnvRuleOk(reg, MatchEnvLine(reg, line).value);
  }

  lemma RenamedLineHasNoNewline(reg: Registry, d: Deprecation, line: string)
    requires MatchEnvLine(reg, line) == Some(d) && '\n' !in line && '\n' !in d.newEnv && d.newEnv != ""
    ensures '\n' !in MigrateEnvLine(reg, line)
  {
  }

  lemma RemovedLine(reg: Registry, d: Deprecation, line: string)
    requires RegistryOk(Env, reg) && '\n' !in line && '\n' !in d.removedIn
    ensures '\n' !in Commented(d, line)
    ensures EnvItemOf(Commented(d, line)) == Other(Commented(d, line))
    ensures MatchEnvLine(reg, Commented(d, line)).None?
  {
    var out := Commented(d, line);
    assert out[0] == '#' && out[..1] == "#";
    assert Blanks(out) == 0 && out[0..] == out && BareStart(out) == 0;
    assert out[BareStart(out)..] == out;
    MatchIsLookup(reg, out);
  }

  lemma AfterTheKey(line: string)
    requires EnvItemOf(line).Assign?
    ensures var b, item := BareStart(line), EnvItemOf(line);
            b + |item.key| < |line| && line[b + |item.key|..] == "=" + item.value
  {
    var b, item := BareStart(line), EnvItemOf(line);
    assert line[b + |item.key|..] == line[b..][|item.key|..];
  }

  lemma MatchedText(reg: Registry, bare: string)
    ensures FindEnv(reg, bare).Some? ==> HasPrefix(bare, FindEnv(reg, bare).value.oldEnv + "=")
  {
  }

  /** Only the key token is exchanged. */
  lemma RenamedText(reg: Registry, d: Deprecation, line: string)
    requires EnvKeyOk(d.oldEnv) && (forall k: nat :: !OccursAt("export", d.oldEnv, k)) && d.newEnv != ""
    requires MatchEnvLine(reg, line) == Some(d) && EnvItemOf(line).Assign? && EnvItemOf(line).key == d.oldEnv
    ensures BareStart(line) < |line|
    ensures MigrateEnvLine(reg, line) == line[..BareStart(line)] + d.newEnv + "=" + EnvItemOf(line).value
  {
    var b, key, value := BareStart(line), d.oldEnv, EnvItemOf(line).value;
    AfterTheKey(line);
    assert Index(line, key) == b by {
      MatchedText(reg, line[b..]);
      KeyIsFirstOccurrence(line, key);
    }
    MigratedText(reg, d, line);
    ReplaceAt(line, key, d.newEnv, b, "=" + value);
    Regroup(line[..b], d.newEnv, "=", value);
  }

  lemma ReplaceAt(line: string, key: string, replacement: string, b: nat, tail: string)
    requires Index(line, key) == b && line[b + |key|..] == tail
    ensures ReplaceFirst(line, key, replacement) == line[..b] + replacement + tail
  {
  }

  lemma Regroup(a: string, b: string, c: string, d: string)
    ensures a + b + (c + d) == a + b + c + d
  {
  }

  lemma MigratedText(reg: Registry, d: Deprecation, line: string)
    requires MatchEnvLine(reg, line) == Some(d) && d.newEnv != ""
    ensures Index(line, d.oldEnv) >= 0 && MigrateEnvLine(reg, line) == ReplaceFirst(line, d.oldEnv, d.newEnv)
  {
    KeyOccurs(line, d.oldEnv);
  }

  lemma RenamedLine(reg: Registry, d: Deprecation, line: string)
    requires RegistryOk(Env, reg) && EnvRuleOk(reg, d) && d.oldEnv != "" && d.newEnv != ""
    requires MatchEnvLine(reg, line) == Some(d) && EnvItemOf(line).Assign? && EnvItemOf(line).key == d.oldEnv
    ensures EnvItemOf(MigrateEnvLine(reg, line)) == EnvItemOf(line).(key := d.newEnv)
    ensures MatchEnvLine(reg, MigrateEnvLine(reg, line)).None?
  {
    RenamedText(reg, d, line);
    EnvReadsBack(line, d.newEnv, EnvItemOf(line).value);
    MatchIsLookup(reg, MigrateEnvLine(reg, line));
  }

  /** The first rule for the variable decides. */
  lemma {:induction false} FirstEnvRule(reg: Registry, key: string) returns (i: nat)
    requires key != ""
    ensures i <= |reg| && forall j :: 0 <= j < i ==> reg[j].oldEnv != key
    ensures i < |reg| ==> reg[i].oldEnv == key && FindEnvKey(reg, key) == Some(reg[i])
    ensures i == |reg| ==> FindEnvKey(reg, key).None?
  {
    if reg == [] || reg[0].oldEnv == key {
      i := 0;
    } else {
      i := FirstEnvRule(reg[1..], key);
      i := i + 1;
    }
  }

  predicate AreBlanks(s: string) { forall i :: 0 <= i < |s| ==> s[i] == ' ' || s[i] == '\t' }

  function Lead(blanks: string, exported: bool): string { blanks + if exported then "export " else "" }

  lemma LeadOfLine(blanks: string, exported: bool, key: string, rest: string)
    requires AreBlanks(blanks) && EnvKeyOk(key)
    ensures BareStart(Lead(blanks, exported) + (key + "=" + rest)) == |Lead(blanks, exported)|
  {
    var bare := key + "=" + rest;
    var line := Lead(blanks, exported) + bare;
    var n := |blanks|;
    assert key[0] in key && bare[0] == key[0];
    ExportWord();
    if exported {
      assert line[n..] == EXPORT + bare && line[n] == line[n..][0] == EXPORT[0];
      BlanksAre(line, n);
      assert (EXPORT + bare)[..7] == EXPORT;
    } else {
      assert line == blanks + bare && line[n..] == bare;
      assert line[n] == bare[0];
      BlanksAre(line, n);
      KeyIsNotExport(key, rest);
    }
  }

  /** An assignment with any blanks and with or without `export ` in front is read as one. */
  lemma AssignmentIsRead(blanks: string, exported: bool, key: string, value: string)
    requires AreBlanks(blanks) && EnvKeyOk(key)
    ensures var lead := Lead(blanks, exported);
            EnvItemOf(lead + (key + "=" + value)) == Assign(lead, key, value)
  {
    var lead, bare := Lead(blanks, exported), key + "=" + value;
    var line := lead + bare;
    LeadOfLine(blanks, exported, key, value);
    assert line[|lead|..] == bare && line[..|lead|] == lead;
    assert bare[..|key|] == key && bare[|key|] == '=' && bare[|key| + 1..] == value;
    IndexByteAt(bare, '=', |key|);
    assert bare[0] == key[0];
  }

  /** An assignment to a deprecated variable keeps its blanks, its `export ` and its value; one to a removed
      variable is kept whole behind a remark; other assignments are kept as they are. */
  lemma AssignmentIsRenamed(reg: Registry, blanks: string, exported: bool, key: string, value: string)
    requires RegistryOk(Env, reg) && AreBlanks(blanks) && EnvKeyOk(key)
    ensures var lead := Lead(blanks, exported);
            var line := lead + (key + "=" + value);
            MigrateEnvLine(reg, line)
            == match FindEnvKey(reg, key)
               case None => line
               case Some(d) =>
                 if d.newEnv == "" then "# REMOVED (" + d.removedIn + "): " + line
                 else lead + d.newEnv + "=" + value
  {
    var lead := Lead(blanks, exported);
    var line := lead + (key + "=" + value);
    AssignmentIsRead(blanks, exported, key, value);
    LeadOfLine(blanks, exported, key, value);
    MatchIsLookup(reg, line);
    assert line[..|lead|] == lead;
    if MatchEnvLine(reg, line).Some? {
      MatchedRule(reg, line);
      var d := MatchEnvLine(reg, line).value;
      if d.newEnv != "" { RenamedText(reg, d, line); }
    }
  }

  /** Comments are never touched. */
  lemma CommentIsKept(reg: Registry, blanks: string, rest: string)
    requires RegistryOk(Env, reg) && AreBlanks(blanks)
    ensures MigrateEnvLine(reg, blanks + ("#" + rest)) == blanks + ("#" + rest)
  {
    var bare := "#" + rest;
    var line, n := blanks + bare, |blanks|;
    assert line[n..] == bare && line[n] == bare[0] == '#';
    BlanksAre(line, n);
    ExportWord();
    assert BareStart(line) == n;
    MatchIsLookup(reg, line);
  }

  /** Lines without an assignment, and assignments without a variable, are never touched. */
  lemma NoVariableIsKept(reg: Registry, line: string, blanks: string, value: string)
    requires RegistryOk(Env, reg) && AreBlanks(blanks)
    requires '=' !in line || line == blanks + ("=" + value)
    ensures MigrateEnvLine(reg, line) == line
  {
    MatchIsLookup(reg, line);
    var n := |blanks|;
    if '=' in line {
      assert line[n..] == "=" + value && line[n] == line[n..][0] == '=';
      BlanksAre(line, n);
      ExportWord();
      assert BareStart(line) == n && EnvItemOf(line).key == "";
      FoundEnvRule(reg, "");
    } else {
      assert '=' !in line[BareStart(line)..];
    }
  }

  ghost function Matches(fmt: Format, reg: Registry, lines: seq<string>): set<int> {
    set i | 0 <= i < |lines| && MatchLine(fmt, reg, lines[i]).Some?
  }

  lemma MatchesUnfold(fmt: Format, reg: Registry, lines: seq<string>, last: set<int>)
    requires lines != []
    requires last == if MatchLine(fmt, reg, lines[|lines| - 1]).Some? then {|lines| - 1} else {}
    ensures Matches(fmt, reg, lines) == Matches(fmt, reg, lines[..|lines| - 1]) + last
    ensures Matches(fmt, reg, lines[..|lines| - 1]) !! last
  {
  }

  /** The count is the number of matching lines. */
  lemma {:induction false} CountIsNumber(fmt: Format, reg: Registry, lines: seq<string>)
    ensures CountMatches(fmt, reg, lines) == |Matches(fmt, reg, lines)|
  {
    if lines == [] {
      assert Matches(fmt, reg, lines) == {};
    } else {
      var last := if MatchLine(fmt, reg, lines[|lines| - 1]).Some? then {|lines| - 1} else {};
      CountIsNumber(fmt, reg, lines[..|lines| - 1]);
      MatchesUnfold(fmt, reg, lines, last);
    }
  }

  /* Whole files */

  /** Migrating changes nothing but the key token of matching lines: the number of lines stays, other
      lines stay as they are, and every line says what it said, with deprecated keys renamed and
      removed ones turned into comments. */
  lemma MigrationPreservesMeaning(fmt: Format, reg: Registry, content: string)
    requires RegistryOk(fmt, reg)
    ensures var lines := Split(content);
            var out := Split(Join(MigrateLines(fmt, reg, lines)));
            && |out| == |lines|
            && forall i :: 0 <= i < |lines| ==>
                 && (MatchLine(fmt, reg, lines[i]).None? ==> out[i] == lines[i])
                 && (fmt.Env? ==> EnvItemOf(out[i]) == RenamedEnv(reg, lines[i]))
                 && (fmt.Yaml? ==> YamlItemOf(out[i]) == RenamedYaml(reg, lines[i]))
  {
    var lines := Split(content);
    forall i | 0 <= i < |lines|
      ensures '\n' !in MigrateLine(fmt, reg, lines[i])
      ensures fmt.Env? ==> EnvItemOf(MigrateLine(fmt, reg, lines[i])) == RenamedEnv(reg, lines[i])
      ensures fmt.Yaml? ==> YamlItemOf(MigrateLine(fmt, reg, lines[i])) == RenamedYaml(reg, lines[i])
    {
      if fmt.Env? { EnvLineMeaning(reg, lines[i]); } else { YamlLineMeaning(reg, lines[i]); }
    }
    SplitOfJoin(MigrateLines(fmt, reg, lines));
  }

  lemma {:induction false} NoMatches(fmt: Format, reg: Registry, lines: seq<string>)
    requires forall i :: 0 <= i < |lines| ==> MatchLine(fmt, reg, lines[i]).None?
    ensures CountMatches(fmt, reg, lines) == 0 && MigrateLines(fmt, reg, lines) == lines
  {
    if lines != [] { NoMatches(fmt, reg, lines[..|lines| - 1]); }
  }

  /** A second run finds nothing to do and returns the same text. */
  lemma MigrationIsIdempotent(fmt: Format, reg: Registry, content: string)
    requires RegistryOk(fmt, reg)
    ensures var once := Join(MigrateLines(fmt, reg, Split(content)));
            && Join(MigrateLines(fmt, reg, Split(once))) == once
            && CountMatches(fmt, reg, Split(once)) == 0
  {
    var lines := Split(content);
    var out := MigrateLines(fmt, reg, lines);
    forall i | 0 <= i < |lines|
      ensures '\n' !in out[i] && MatchLine(fmt, reg, out[i]).None?
    {
      if fmt.Env? { EnvLineMeaning(reg, lines[i]); } else { YamlLineMeaning(reg, lines[i]); }
    }
    SplitOfJoin(out);
    NoMatches(fmt, reg, out);
  }

  /** A migration changes the text if and only if it counts something. */
  lemma ChangedIffCounted(fmt: Format, reg: Registry, content: string)
    requires RegistryOk(fmt, reg)
    ensures Join(MigrateLines(fmt, reg, Split(content))) != content <==> CountMatches(fmt, reg, Split(content)) > 0
  {
    UnmatchedTextIsKept(fmt, reg, content);
    MigrationIsIdempotent(fmt, reg, content);
  }

  /* The conditions are needed, and the shipped registry meets them */

  /** When a replacement is itself deprecated, a second run changes a file that uses the old key. */
  lemma DeprecatedReplacementMigratesTwice(reg: Registry, d: Deprecation)
    requires YamlKeyOk(d.oldYaml) && FindDeprecationByYamlKey(reg, d.oldYaml) == Some(d)
    requires YamlKeyOk(d.newYaml) && FindDeprecationByYamlKey(reg, d.newYaml).Some?
    ensures var once := Join(MigrateLines(Yaml, reg, Split(d.oldYaml + ":")));
            once == d.newYaml + ":" && CountMatches(Yaml, reg, Split(once)) == 1
  {
    var line := d.oldYaml + ":";
    YamlReadsBack(d.oldYaml, ":");
    YamlReadsBack(d.newYaml, ":");
    IndexByteAt(line, ':', |d.oldYaml|);
    assert line[|d.oldYaml|..] == ":";
    var once := d.newYaml + ":";
    SplitOfLine(line, "");
    SplitOfLine(once, "");
    assert MigrateLines(Yaml, reg, [line]) == [once];
    assert [once][..0] == [];
  }

  lemma MigratedEmptyAssignment(reg: Registry, d: Deprecation)
    requires forall r :: r in reg && r.oldEnv != "" ==> EnvKeyOk(r.oldEnv)
    requires EnvKeyOk(d.oldEnv) && FindEnvKey(reg, d.oldEnv) == Some(d) && d.newEnv != ""
    ensures MigrateEnvLine(reg, d.oldEnv + "=") == d.newEnv + "="
  {
    var line := d.oldEnv + "=";
    MatchOfEmptyAssignment(reg, d.oldEnv);
    MigratedText(reg, d, line);
    IndexIsFirst(line, d.oldEnv, 0);
    assert line[|d.oldEnv|..] == "=";
    ReplaceAt(line, d.oldEnv, d.newEnv, 0, "=");
    assert line[..0] + d.newEnv + "=" == d.newEnv + "=";
  }

  /** The same for .env: when a replacement is itself deprecated, a second run changes the file again. */
  lemma DeprecatedVariableMigratesTwice(reg: Registry, d: Deprecation)
    requires forall r :: r in reg && r.oldEnv != "" ==> EnvKeyOk(r.oldEnv)
    requires EnvKeyOk(d.oldEnv) && FindEnvKey(reg, d.oldEnv) == Some(d)
    requires EnvKeyOk(d.newEnv) && FindEnvKey(reg, d.newEnv).Some?
    ensures var once := Join(MigrateLines(Env, reg, Split(d.oldEnv + "=")));
            once == d.newEnv + "=" && CountMatches(Env, reg, Split(once)) == 1
  {
    var line, once := d.oldEnv + "=", d.newEnv + "=";
    MigratedEmptyAssignment(reg, d);
    assert '\n' !in line && Split(line) == [line] by { MatchOfEmptyAssignment(reg, d.oldEnv); SplitOfLine(line, ""); }
    MatchOfEmptyAssignment(reg, d.newEnv);
    SplitOfLine(once, "");
    assert MigrateLines(Env, reg, [line]) == [once];
    assert [once][..0] == [];
  }

  lemma MatchOfEmptyAssignment(reg: Registry, key: string)
    requires forall r :: r in reg && r.oldEnv != "" ==> EnvKeyOk(r.oldEnv)
    requires EnvKeyOk(key)
    ensures MatchEnvLine(reg, key + "=") == FindEnvKey(reg, key)
    ensures '\n' !in key + "=" && OccursAt(key + "=", key, 0)
  {
    var line := key + "=";
    assert key[0] in key;
    BlanksAre(line, 0);
    assert line[0..] == line == key + "=" + "";
    KeyIsNotExport(key, "");
    assert line[BareStart(line)..] == line;
    EnvPrefixIsKey(reg, line);
    IndexByteAt(line, '=', |key|);
    assert line[..|key|] == key;
  }

  /** An old name inside the word `export` is looked up there: for such a name there is a matching line
      in which the migrator rewrites the prefix instead of the key. With KeyIsFirstOccurrence, the
      key is found in every matching line if and only if it is not part of `export`. */
  lemma NameInsideExportIsMisplaced(key: string, value: string, k: nat)
    requires EnvKeyOk(key) && OccursAt("export", key, k)
    ensures var line := EXPORT + key + "=" + value;
            HasPrefix(line[BareStart(line)..], key + "=") && Index(line, key) < BareStart(line)
  {
    ExportWord();
    var line := EXPORT + key + "=" + value;
    assert line[0] == EXPORT[0];
    assert line[0..] == line && line[..7] == EXPORT;
    assert BareStart(line) == 7;
    assert line[7..] == key + "=" + value;
    assert (key + "=" + value)[..|key| + 1] == key + "=";
    assert OccursAt(line, key, k) by {
      assert line[..6] == line[..7][..6] == EXPORT[..6];
      assert line[k..k + |key|] == line[..6][k..k + |key|];
    }
    IndexFinds(line, key, k);
  }

  /** In a file that sets both the old variable and its replacement, both lines survive and now set the
      same variable: duplicates are not commented out. */
  lemma DuplicatesAreKept(reg: Registry, content: string, i: nat, j: nat, d: Deprecation)
    requires RegistryOk(Env, reg) && i < |Split(content)| && j < |Split(content)|
    requires EnvItemOf(Split(content)[i]).Assign? && EnvItemOf(Split(content)[j]).Assign?
    requires FindEnvKey(reg, EnvItemOf(Split(content)[i]).key) == Some(d) && d.newEnv != ""
    requires EnvItemOf(Split(content)[j]).key == d.newEnv
    ensures var lines, out := Split(content), Split(Join(MigrateLines(Env, reg, Split(content))));
            && |out| == |lines| && out[j] == lines[j]
            && EnvItemOf(out[i]) == EnvItemOf(lines[i]).(key := d.newEnv)
  {
    var lines := Split(content);
    MigrationPreservesMeaning(Env, reg, content);
    MatchIsLookup(reg, lines[j]);
    FoundEnvRule(reg, EnvItemOf(lines[i]).key);
    assert EnvRuleOk(reg, d);
  }

  const ENV_START := "NEXUS_QUALITY_"
  const ENV_END := "_RING_SIZE"
  const DROPED_ENV := ENV_START + "DROPED" + ENV_END
  const DROPPED_ENV := ENV_START + "DROPPED" + ENV_END
  const DROPED_YAML := "quality_droped_ring_size"
  const DROPPED_YAML := "quality_dropped_ring_size"

  const DEPRECATIONS: Registry := [Deprecation(DROPED_ENV, DROPPED_ENV, DROPED_YAML, DROPPED_YAML, "v0.9.0")]

  lemma EnvNamesAreKeys()
    ensures EnvKeyOk(DROPED_ENV) && |DROPED_ENV| == 30
    ensures EnvKeyOk(DROPPED_ENV) && |DROPPED_ENV| == 31
  {
    assert EnvKeyOk(ENV_START) && EnvKeyOk(ENV_END) && EnvKeyOk("DROPED") && EnvKeyOk("DROPPED");
  }

  lemma DroppedYamlIsKey()
    ensures YamlKeyOk(DROPPED_YAML) && |DROPPED_YAML| == 25
  {
    var k := DROPPED_YAML;
    assert !IsSpace(k[0]) && !IsSpace(k[24]);
  }

  lemma SingleRenamingRule(d: Deprecation)
    requires d.oldEnv != d.newEnv && d.oldYaml != d.newYaml
    ensures FindEnvKey([d], d.newEnv).None? && FindDeprecationByYamlKey([d], d.newYaml).None?
  {
    assert [d][1..] == [];
  }

  /** The registry in use meets the conditions of both formats. */
  lemma ShippedRegistryIsOk(fmt: Format)
    ensures RegistryOk(fmt, DEPRECATIONS)
  {
    EnvNamesAreKeys();
    DroppedYamlIsKey();
    assert |DROPED_YAML| == 24;
    var d := DEPRECATIONS[0];
    assert DEPRECATIONS == [d];
    SingleRenamingRule(d);
    assert EnvRuleOk([d], d) && YamlRuleOk([d], d);
  }

  /** The rule in use corrects the spelling, in a .env file and in YAML. */
  lemma ShippedRegistryCorrects(blanks: string, exported: bool, rest: string)
    requires AreBlanks(blanks)
    ensures var lead := Lead(blanks, exported);
            MigrateEnvLine(DEPRECATIONS, lead + ("NEXUS_QUALITY_DROPED_RING_SIZE" + "=" + rest))
            == lead + "NEXUS_QUALITY_DROPPED_RING_SIZE" + "=" + rest
    ensures MigrateYamlLine(DEPRECATIONS, "quality_droped_ring_size" + ":" + rest)
            == "quality_dropped_ring_size" + ":" + rest
  {
    assert "NEXUS_QUALITY_DROPED_RING_SIZE" == DROPED_ENV && "NEXUS_QUALITY_DROPPED_RING_SIZE" == DROPPED_ENV;
    ShippedRegistryIsOk(Env);
    EnvNamesAreKeys();
    AssignmentIsRenamed(DEPRECATIONS, blanks, exported, DROPED_ENV, rest);
    DropedYamlIsKey();
    TopLevelKeyIsRenamed(DEPRECATIONS, DROPED_YAML, "", rest);
    assert DROPED_YAML + "" == DROPED_YAML;
  }

  lemma DropedYamlIsKey()
    ensures YamlKeyOk(DROPED_YAML)
  {
    var k := DROPED_YAML;
    assert |k| == 24 && !IsSpace(k[0]) && !IsSpace(k[23]);
  }
}
