/** Expansion of `${NAME}` and `$NAME` references in config values, with `\$` as the escape. */
module EnvTemplate {

  /** Unknown variables expand to nothing. */
  function Getenv(env: map<string, string>, name: string): string { if name in env then env[name] else "" }

  predicate IsEnvNameByte(b: char) {
    'a' <= b <= 'z' || 'A' <= b <= 'Z' || '0' <= b <= '9' || b == '_'
  }

  /** The index of the first `c` at or after `i`, or the length of `s`. */
  function Find(s: string, c: char, i: nat): (k: nat)
    requires i <= |s|
    ensures i <= k <= |s| && (k < |s| ==> s[k] == c) && c !in s[i..k]
    decreases |s| - i
  {
    if i == |s| || s[i] == c then i
    else
      assert forall k: nat :: i < k <= |s| ==> s[i..k] == [s[i]] + s[i + 1..k];
      Find(s, c, i + 1)
  }

  /** The end of the run of name bytes that starts at `i`. */
  function NameEnd(s: string, i: nat): (k: nat)
    requires i <= |s|
    ensures i <= k <= |s| && (forall j :: i <= j < k ==> IsEnvNameByte(s[j])) && (k < |s| ==> !IsEnvNameByte(s[k]))
    decreases |s| - i
  {
    if i == |s| || !IsEnvNameByte(s[i]) then i else NameEnd(s, i + 1)
  }

  /** What the scan emits at the front of a nonempty text, and how much it consumes. */
  function Token(env: map<string, string>, s: string): (r: (string, nat))
    requires s != ""
    ensures 0 < r.1 <= |s|
  {
    if s[0] == '\\' && |s| > 1 && s[1] == '$' then ("$", 2)
    else if s[0] != '$' then ([s[0]], 1)
    else if |s| > 1 && s[1] == '{' then
      var end := Find(s, '}', 2);
      if end == |s| then ("$", 1) else (Getenv(env, s[2..end]), end + 1)
    else
      var j := NameEnd(s, 1);
      if j == 1 then ("$", 1) else (Getenv(env, s[1..j]), j)
  }

  /** The meaning of a whole text. */
  function Expand(env: map<string, string>, s: string): string {
    if s == "" then "" else Token(env, s).0 + Expand(env, s[Token(env, s).1..])
  }

  /** One turn of the scan: what is written for the text at `i`, and where the scan goes on. */
  method ScanToken(value: string, i: nat, env: map<string, string>) returns (out: string, next: nat)
    requires i < |value|
    ensures i < next <= |value| && (out, next - i) == Token(env, value[i..])
  {
    ghost var rest := value[i..];
    var c := value[i];
    if c == '\\' && i + 1 < |value| && value[i + 1] == '$' {
      return "$", i + 2;
    }
    if c != '$' {
      return [c], i + 1;
    }
    if i + 1 < |value| && value[i + 1] == '{' {
      var end := Find(value, '}', i + 2);
      assert rest[2..end - i] == value[i + 2..end];
      FindAt(rest, '}', 2, end - i);
      if end == |value| {
        return [c], i + 1;
      }
      return Getenv(env, value[i + 2..end]), end + 1;
    }
    var j := i + 1;
    while j < |value| && IsEnvNameByte(value[j])
      invariant i + 1 <= j <= |value| && forall k :: i + 1 <= k < j ==> IsEnvNameByte(value[k])
    {
      j := j + 1;
    }
    NameEndAt(rest, 1, j - i);
    if j == i + 1 {
      return [c], i + 1;
    }
    assert rest[1..j - i] == value[i + 1..j];
    return Getenv(env, value[i + 1..j]), j;
  }

  /** What has been written plus the meaning of what is left. */
  function ToGo(env: map<string, string>, s: string, i: nat, b: string): string
    requires i <= |s|
  {
    b + Expand(env, s[i..])
  }

  lemma Regroup(a: string, b: string, c: string)
    ensures a + (b + c) == a + b + c
  {
  }

  lemma TokenDone(env: map<string, string>, s: string, i: nat, b: string, out: string, next: nat)
    requires i < next <= |s| && (out, next - i) == Token(env, s[i..])
    ensures ToGo(env, s, next, b + out) == ToGo(env, s, i, b)
  {
    assert s[i..][next - i..] == s[next..];
    assert Expand(env, s[i..]) == out + Expand(env, s[next..]);
    Regroup(b, out, Expand(env, s[next..]));
  }

  /** The scan over the value; it terminates on every input. */
  method ExpandEnv(value: string, env: map<string, string>) returns (b: string)
    ensures b == Expand(env, value)
  {
    b := "";
    var i := 0;
    assert value[0..] == value && "" + Expand(env, value) == Expand(env, value);
    while i < |value|
      invariant i <= |value| && ToGo(env, value, i, b) == Expand(env, value)
    {
      var out, next := ScanToken(value, i, env);
      TokenDone(env, value, i, b, out, next);
      b := b + out;
      i := next;
    }
    assert value[i..] == "" && b + "" == b;
  }

  /* Templates */

  /** A literal character (a dollar sign escaped), a dollar sign that is not escaped, a braced reference, or
      a bare one. */
  datatype Piece = Lit(c: char) | Dollar | Braced(name: string) | Bare(name: string)

  function RenderPiece(p: Piece): string {
    match p
    case Lit(c) => if c == '$' then "\\$" else [c]
    case Dollar => "$"
    case Braced(name) => "${" + name + "}"
    case Bare(name) => "$" + name
  }

  /** The text of a template. */
  function Render(t: seq<Piece>): string {
    if t == [] then "" else RenderPiece(t[0]) + Render(t[1..])
  }

  function PieceValue(env: map<string, string>, p: Piece): string {
    match p
    case Lit(c) => [c]
    case Dollar => "$"
    case Braced(name) => Getenv(env, name)
    case Bare(name) => Getenv(env, name)
  }

  /** The literals and the variables' values, concatenated. */
  function Value(env: map<string, string>, t: seq<Piece>): string {
    if t == [] then "" else PieceValue(env, t[0]) + Value(env, t[1..])
  }

  /** Braced names hold no brace; bare names are nonempty runs of name bytes that end before the next
      piece's text; a dollar sign that is not escaped begins no reference: no name byte follows it, and if a
      brace does, it is not closed. */
  ghost predicate WellFormed(t: seq<Piece>) {
    t == []
    || (&& WellFormed(t[1..])
        && (t[0].Braced? ==> '}' !in t[0].name)
        && (t[0].Bare? ==>
              && t[0].name != "" && (forall i :: 0 <= i < |t[0].name| ==> IsEnvNameByte(t[0].name[i]))
              && (|t| > 1 && t[1].Lit? ==> !IsEnvNameByte(t[1].c)))
        && (t[0].Dollar? && |t| > 1 && t[1].Lit? ==>
              !IsEnvNameByte(t[1].c) && (t[1].c == '{' ==> '}' !in Render(t[1..]))))
  }

  /** No literal backslash directly precedes a reference. */
  ghost predicate NoBackslashBeforeReference(t: seq<Piece>) {
    forall i :: 0 < i < |t| && !t[i].Lit? ==> t[i - 1] != Lit('\\')
  }

  lemma RenderStarts(t: seq<Piece>)
    requires t != []
    ensures Render(t) != ""
    ensures Render(t)[0] == match t[0] case Lit(c) => (if c == '$' then '\\' else c) case _ => '$'
  {
  }

  lemma {:induction false} FindAt(s: string, c: char, i: nat, k: nat)
    requires i <= k <= |s| && c !in s[i..k] && (k < |s| ==> s[k] == c)
    ensures Find(s, c, i) == k
    decreases k - i
  {
    if i < k {
      assert s[i] in s[i..k];
      assert s[i..k] == [s[i]] + s[i + 1..k];
      FindAt(s, c, i + 1, k);
    }
  }

  lemma {:induction false} NameEndAt(s: string, i: nat, k: nat)
    requires i <= k <= |s| && (forall j :: i <= j < k ==> IsEnvNameByte(s[j])) && (k < |s| ==> !IsEnvNameByte(s[k]))
    ensures NameEnd(s, i) == k
    decreases k - i
  {
    if i < k { NameEndAt(s, i + 1, k); }
  }

  lemma TokenOfLiteral(env: map<string, string>, c: char, rest: string)
    requires c == '\\' ==> rest == "" || rest[0] != '$'
    ensures Token(env, RenderPiece(Lit(c)) + rest) == ([c], |RenderPiece(Lit(c))|)
  {
  }

  lemma TokenOfDollar(env: map<string, string>, rest: string)
    requires rest != "" ==> !IsEnvNameByte(rest[0]) && (rest[0] == '{' ==> '}' !in rest)
    ensures Token(env, "$" + rest) == ("$", 1)
  {
    var s := "$" + rest;
    assert s[1..] == rest;
    if rest != "" && rest[0] == '{' {
      assert forall i :: 2 <= i < |s| ==> s[i] == rest[i - 1];
      FindAt(s, '}', 2, |s|);
    }
  }

  lemma TokenOfBraced(env: map<string, string>, name: string, rest: string)
    requires '}' !in name
    ensures Token(env, RenderPiece(Braced(name)) + rest) == (Getenv(env, name), |RenderPiece(Braced(name))|)
  {
    var s := "${" + name + "}" + rest;
    var end := |name| + 2;
    assert s[0] == '$' && s[1] == '{' && s[end] == '}';
    assert s[2..end] == name;
    FindAt(s, '}', 2, end);
  }

  lemma TokenOfBare(env: map<string, string>, name: string, rest: string)
    requires name != "" && (forall i :: 0 <= i < |name| ==> IsEnvNameByte(name[i]))
    requires rest != "" ==> !IsEnvNameByte(rest[0])
    ensures Token(env, RenderPiece(Bare(name)) + rest) == (Getenv(env, name), |RenderPiece(Bare(name))|)
  {
    var s := "$" + name + rest;
    var end := |name| + 1;
    assert s[1..end] == name && s[0] == '$' && s[1] == name[0];
    assert forall j :: 1 <= j < end ==> s[j] == name[j - 1];
    assert end < |s| ==> s[end] == rest[0];
    NameEndAt(s, 1, end);
  }

  /** The scan reads exactly the first piece, unless that is a backslash before a reference. */
  lemma TokenOfPiece(env: map<string, string>, t: seq<Piece>)
    requires t != [] && WellFormed(t) && !(t[0] == Lit('\\') && |t| > 1 && !t[1].Lit?)
    ensures Render(t) != "" && Token(env, Render(t)) == (PieceValue(env, t[0]), |RenderPiece(t[0])|)
  {
    var rest := Render(t[1..]);
    if |t| > 1 { RenderStarts(t[1..]); }
    assert Render(t) == RenderPiece(t[0]) + rest;
    match t[0]
    case Lit(c) =>
      TokenOfLiteral(env, c, rest);
    case Dollar =>
      TokenOfDollar(env, rest);
    case Braced(name) =>
      TokenOfBraced(env, name, rest);
    case Bare(name) =>
      TokenOfBare(env, name, rest);
  }

  /** Expanding a rendered template yields its value if and only if no literal backslash directly
      precedes a reference. */
  lemma {:induction false} RoundTripIff(env: map<string, string>, t: seq<Piece>)
    requires WellFormed(t)
    ensures Expand(env, Render(t)) == Value(env, t) <==> NoBackslashBeforeReference(t)
  {
    if t != [] {
      var s := Render(t);
      RenderStarts(t);
      if t[0] == Lit('\\') && |t| > 1 && !t[1].Lit? {
        RenderStarts(t[1..]);
        assert s[1] == Render(t[1..])[0] == '$';
        assert Expand(env, s)[0] == '$' && Value(env, t)[0] == '\\';
        assert !t[1].Lit? && t[1 - 1] == Lit('\\');
      } else {
        TokenOfPiece(env, t);
        assert s[|RenderPiece(t[0])|..] == Render(t[1..]);
        RoundTripIff(env, t[1..]);
        SamePrefix(PieceValue(env, t[0]), Expand(env, Render(t[1..])), Value(env, t[1..]));
        ShiftCondition(t);
      }
    }
  }

  /** The condition is needed: a literal backslash turns the reference after it into plain text. */
  lemma BackslashBreaksRoundTrip(env: map<string, string>, name: string)
    requires '}' !in name
    ensures var t := [Lit('\\'), Braced(name)]; WellFormed(t) && Expand(env, Render(t)) != Value(env, t)
  {
    var t := [Lit('\\'), Braced(name)];
    assert t[1..] == [Braced(name)] && t[1..][1..] == [];
    assert !t[1].Lit? && t[1 - 1] == Lit('\\');
    RoundTripIff(env, t);
  }

  lemma SamePrefix(p: string, a: string, b: string)
    ensures p + a == p + b <==> a == b
  {
    if p + a == p + b {
      assert (p + a)[|p|..] == a && (p + b)[|p|..] == b;
    }
  }

  lemma ShiftCondition(t: seq<Piece>)
    requires t != [] && !(t[0] == Lit('\\') && |t| > 1 && !t[1].Lit?)
    ensures NoBackslashBeforeReference(t) <==> NoBackslashBeforeReference(t[1..])
  {
    var r := t[1..];
    if NoBackslashBeforeReference(t) {
      forall i | 0 < i < |r| && !r[i].Lit?
        ensures r[i - 1] != Lit('\\')
      {
        assert !t[i + 1].Lit?;
      }
    }
    if NoBackslashBeforeReference(r) {
      forall i | 0 < i < |t| && !t[i].Lit?
        ensures t[i - 1] != Lit('\\')
      {
        if i > 1 { assert !r[i - 1].Lit?; }
      }
    }
  }

  /** A text without `$` is left alone. */
  lemma {:induction false} PlainTextIsKept(env: map<string, string>, s: string)
    requires '$' !in s
    ensures Expand(env, s) == s
  {
    if s != "" {
      assert s[0] in s && (|s| > 1 ==> s[1] in s);
      PlainTextIsKept(env, s[1..]);
      assert s == [s[0]] + s[1..];
    }
  }

  /* What single references and dollar signs come to */

  lemma OnePiece(env: map<string, string>, p: Piece)
    requires WellFormed([p])
    ensures Expand(env, RenderPiece(p)) == PieceValue(env, p)
  {
    var t := [p];
    assert t[1..] == [];
    assert Render([]) == "" && Render(t) == RenderPiece(p) + Render(t[1..]);
    assert Value(env, []) == "" && Value(env, t) == PieceValue(env, p) + Value(env, t[1..]);
    assert Render(t) == RenderPiece(p) && Value(env, t) == PieceValue(env, p);
    RoundTripIff(env, t);
  }

  /** A variable's value is put in its place, and nothing for an unknown variable. */
  lemma BracedIsLookup(env: map<string, string>, name: string)
    requires '}' !in name
    ensures Expand(env, "${" + name + "}") == if name in env then env[name] else ""
  {
    OnePiece(env, Braced(name));
  }

  const UPPER := "ABCDEFGHIJKLMNOPQRSTUVWXYZ"
  const LOWER := "abcdefghijklmnopqrstuvwxyz"
  const DIGITS := "0123456789"

  lemma UpperCase(c: char)
    ensures c in UPPER <==> 'A' <= c <= 'Z'
  {
    if 'A' <= c <= 'Z' { assert UPPER[c as int - 'A' as int] == c; }
  }

  lemma LowerCase(c: char)
    ensures c in LOWER <==> 'a' <= c <= 'z'
  {
    if 'a' <= c <= 'z' { assert LOWER[c as int - 'a' as int] == c; }
  }

  lemma Digit(c: char)
    ensures c in DIGITS <==> '0' <= c <= '9'
  {
    if '0' <= c <= '9' { assert DIGITS[c as int - '0' as int] == c; }
  }

  /** Names without braces consist of the letters, the digits and the underscore. */
  lemma NameByteIff(c: char)
    ensures IsEnvNameByte(c) <==> c in UPPER || c in LOWER || c in DIGITS || c == '_'
  {
    UpperCase(c);
    LowerCase(c);
    Digit(c);
  }

  lemma BareIsLookup(env: map<string, string>, name: string)
    requires name != ""
    requires forall i :: 0 <= i < |name| ==> name[i] in UPPER || name[i] in LOWER || name[i] in DIGITS || name[i] == '_'
    ensures Expand(env, "$" + name) == if name in env then env[name] else ""
  {
    forall i | 0 <= i < |name|
      ensures IsEnvNameByte(name[i])
    {
      NameByteIff(name[i]);
    }
    OnePiece(env, Bare(name));
  }

  /** A dollar sign before anything that cannot begin a reference, and one before a brace that is never closed, is
      kept, and the scan goes on behind it. */
  lemma LoneDollarIsKept(env: map<string, string>, rest: string)
    requires rest != "" ==> !IsEnvNameByte(rest[0]) && (rest[0] == '{' ==> '}' !in rest)
    ensures Expand(env, "$" + rest) == "$" + Expand(env, rest)
  {
    TokenOfDollar(env, rest);
    assert ("$" + rest)[1..] == rest;
  }
}
