/** What migrating a .env file does to the value in force of a variable: the last assignment wins. */
module ValueInForce {
  import opened Migrations
  import opened Text

  function InForce(lines: seq<string>, key: string): Option<string> {
    if lines == [] then None
    else
      var item := EnvItemOf(lines[|lines| - 1]);
      if item.Assign? && item.key == key then Some(item.value) else InForce(lines[..|lines| - 1], key)
  }

  /** What a line has to say about a variable: it assigns the variable itself, or a deprecated one that
      the variable replaces, or neither. */
  datatype Claim = Own(value: string) | Alias(value: string) | Neither

  function ClaimOf(reg: Registry, line: string, key: string): Claim {
    var item := EnvItemOf(line);
    if item.Other? then Neither
    else if item.key == key then Own(item.value)
    else
      match FindEnvKey(reg, item.key)
      case None => Neither
      case Some(d) => if d.newEnv == key then Alias(item.value) else Neither
  }

  function Claims(reg: Registry, lines: seq<string>, key: string): (cs: seq<Claim>)
    ensures |cs| == |lines|
  {
    if lines == [] then []
    else Claims(reg, lines[..|lines| - 1], key) + [ClaimOf(reg, lines[|lines| - 1], key)]
  }

  /** The value of the last line that assigns the variable itself. */
  function LastOwn(cs: seq<Claim>): Option<string> {
    if cs == [] then None
    else if cs[|cs| - 1].Own? then Some(cs[|cs| - 1].value)
    else LastOwn(cs[..|cs| - 1])
  }

  /** The value of the last line that assigns the variable or an alias. */
  function LastOfAny(cs: seq<Claim>): Option<string> {
    if cs == [] then None
    else if !cs[|cs| - 1].Neither? then Some(cs[|cs| - 1].value)
    else LastOfAny(cs[..|cs| - 1])
  }

  lemma {:induction false} InForceIsLastOwn(reg: Registry, lines: seq<string>, key: string)
    ensures InForce(lines, key) == LastOwn(Claims(reg, lines, key))
  {
    if lines != [] {
      InForceIsLastOwn(reg, lines[..|lines| - 1], key);
      var cs := Claims(reg, lines, key);
      assert cs[..|cs| - 1] == Claims(reg, lines[..|lines| - 1], key);
    }
  }

  lemma LineAfter(reg: Registry, line: string, key: string)
    requires RegistryOk(Env, reg) && '\n' !in line && key != "" && FindEnvKey(reg, key).None?
    ensures var item, claim := EnvItemOf(MigrateEnvLine(reg, line)), ClaimOf(reg, line, key);
            && (item.Assign? && item.key == key <==> !claim.Neither?)
            && (!claim.Neither? ==> item.value == claim.value)
  {
    EnvLineMeaning(reg, line);
  }

  ghost predicate NoNewlines(lines: seq<string>) { forall i :: 0 <= i < |lines| ==> '\n' !in lines[i] }

  /** After a migration the old aliases compete with the variable itself: the last of them all wins. */
  lemma {:induction false} LastOfAnyWins(reg: Registry, lines: seq<string>, key: string)
    requires RegistryOk(Env, reg) && NoNewlines(lines) && key != "" && FindEnvKey(reg, key).None?
    ensures InForce(MigrateLines(Env, reg, lines), key) == LastOfAny(Claims(reg, lines, key))
  {
    if lines != [] {
      var front := lines[..|lines| - 1];
      LastOfAnyWins(reg, front, key);
      LineAfter(reg, lines[|lines| - 1], key);
      var cs := Claims(reg, lines, key);
      assert cs[..|cs| - 1] == Claims(reg, front, key);
      assert MigrateLines(Env, reg, lines)[..|lines| - 1] == MigrateLines(Env, reg, front);
    }
  }

  /** Line `i` assigns an alias another value than `was`, and no later line assigns the variable or an
      alias. */
  ghost predicate Overrides(cs: seq<Claim>, i: int, was: string) {
    0 <= i < |cs| && cs[i].Alias? && cs[i].value != was && forall j :: i < j < |cs| ==> cs[j].Neither?
  }

  lemma {:induction false} LastDiffersIff(cs: seq<Claim>)
    requires LastOwn(cs).Some?
    ensures LastOfAny(cs) != LastOwn(cs) <==> exists i :: Overrides(cs, i, LastOwn(cs).value)
  {
    var last, was, front := cs[|cs| - 1], LastOwn(cs).value, cs[..|cs| - 1];
    match last
    case Own(_) =>
    case Alias(b) => if b != was { assert Overrides(cs, |cs| - 1, was); }
    case Neither =>
      LastDiffersIff(front);
      forall i
        ensures Overrides(cs, i, was) <==> Overrides(front, i, was)
      {
        assert 0 <= i < |front| ==> front[i] == cs[i];
        assert forall j :: 0 <= j < |front| ==> front[j] == cs[j];
      }
  }

  lemma MigratedText(reg: Registry, content: string)
    requires RegistryOk(Env, reg)
    ensures var out := MigrateLines(Env, reg, Split(content)); Split(Join(out)) == out
  {
    var lines := Split(content);
    forall i | 0 <= i < |lines|
      ensures '\n' !in MigrateEnvLine(reg, lines[i])
    {
      EnvLineMeaning(reg, lines[i]);
    }
    SplitOfJoin(MigrateLines(Env, reg, lines));
  }

  /** The value in force of a variable that a file sets changes if and only if a deprecated alias of it is
      assigned another value after every other line that assigns the variable or an alias. */
  lemma ValueChangesIff(reg: Registry, content: string, key: string)
    requires RegistryOk(Env, reg) && key != "" && FindEnvKey(reg, key).None?
    requires InForce(Split(content), key).Some?
    ensures var lines, out := Split(content), Split(Join(MigrateLines(Env, reg, Split(content))));
            InForce(out, key) != InForce(lines, key)
            <==> exists i :: Overrides(Claims(reg, lines, key), i, InForce(lines, key).value)
  {
    var lines := Split(content);
    MigratedText(reg, content);
    LastOfAnyWins(reg, lines, key);
    InForceIsLastOwn(reg, lines, key);
    LastDiffersIff(Claims(reg, lines, key));
  }

  lemma PlainAssignment(key: string, value: string)
    requires EnvKeyOk(key)
    ensures EnvItemOf(key + "=" + value) == Assign("", key, value)
  {
    var line := key + "=" + value;
    assert key[0] in key;
    BlanksAre(line, 0);
    assert line[0..] == line;
    KeyIsNotExport(key, value);
    assert line[BareStart(line)..] == line && line[..0] == "";
    IndexByteAt(line, '=', |key|);
    assert line[..|key|] == key && line[|key| + 1..] == value;
  }

  lemma TwoClaims(reg: Registry, first: string, second: string, key: string)
    ensures Claims(reg, [first, second], key) == [ClaimOf(reg, first, key), ClaimOf(reg, second, key)]
  {
    assert [first, second][..1] == [first] && [first][..0] == [];
    assert Claims(reg, [first], key) == [ClaimOf(reg, first, key)];
  }

  lemma LastOfTwo(a: string, b: string)
    ensures LastOwn([Own(a), Alias(b)]) == Some(a) && LastOfAny([Own(a), Alias(b)]) == Some(b)
  {
    assert [Own(a), Alias(b)][..1] == [Own(a)];
  }

  /** It does happen: the new name set to one value and then the old name to another. */
  lemma OldAliasTakesOver(reg: Registry, d: Deprecation, a: string, b: string, lines: seq<string>)
    requires RegistryOk(Env, reg) && EnvKeyOk(d.oldEnv) && EnvKeyOk(d.newEnv)
    requires FindEnvKey(reg, d.oldEnv) == Some(d) && FindEnvKey(reg, d.newEnv).None?
    requires lines == [d.newEnv + "=" + a, d.oldEnv + "=" + b] && NoNewlines(lines)
    ensures InForce(lines, d.newEnv) == Some(a)
    ensures InForce(MigrateLines(Env, reg, lines), d.newEnv) == Some(b)
  {
    PlainAssignment(d.newEnv, a);
    PlainAssignment(d.oldEnv, b);
    TwoClaims(reg, lines[0], lines[1], d.newEnv);
    LastOfTwo(a, b);
    InForceIsLastOwn(reg, lines, d.newEnv);
    LastOfAnyWins(reg, lines, d.newEnv);
  }
}
