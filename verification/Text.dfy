/** The few string operations the config migrators rely on. */
module Text {

  /** The parts of `s` between newlines; at least one. */
  function Split(s: string): (lines: seq<string>)
    ensures |lines| > 0 && forall i :: 0 <= i < |lines| ==> '\n' !in lines[i]
  {
    if s == "" then [""]
    else
      var rest := Split(s[1..]);
      if s[0] == '\n' then [""] + rest else [[s[0]] + rest[0]] + rest[1..]
  }

  function Join(lines: seq<string>): string {
    if lines == [] then "" else if |lines| == 1 then lines[0] else lines[0] + "\n" + Join(lines[1..])
  }

  lemma JoinAfterNewline(rest: seq<string>)
    requires rest != []
    ensures Join([""] + rest) == ['\n'] + Join(rest)
  {
    assert ([""] + rest)[1..] == rest;
    assert "" + "\n" == ['\n'];
  }

  lemma JoinAfterChar(c: char, rest: seq<string>)
    requires rest != []
    ensures Join([[c] + rest[0]] + rest[1..]) == [c] + Join(rest)
  {
    var lines := [[c] + rest[0]] + rest[1..];
    assert lines[1..] == rest[1..] && lines[0] == [c] + rest[0];
    if |rest| > 1 {
      assert ([c] + rest[0]) + "\n" + Join(rest[1..]) == [c] + (rest[0] + "\n" + Join(rest[1..]));
    }
  }

  lemma {:induction false} JoinOfSplit(s: string)
    ensures Join(Split(s)) == s
  {
    if s != "" {
      JoinOfSplit(s[1..]);
      assert s == [s[0]] + s[1..];
      if s[0] == '\n' { JoinAfterNewline(Split(s[1..])); } else { JoinAfterChar(s[0], Split(s[1..])); }
    }
  }

  lemma {:induction false} SplitOfLine(a: string, rest: string)
    requires '\n' !in a
    ensures Split(a) == [a]
    ensures Split(a + "\n" + rest) == [a] + Split(rest)
  {
    if a == "" {
      assert a + "\n" + rest == "\n" + rest && ("\n" + rest)[1..] == rest;
    } else {
      assert a[0] in a && forall c :: c in a[1..] ==> c in a;
      SplitOfLine(a[1..], rest);
      assert (a + "\n" + rest)[1..] == a[1..] + "\n" + rest;
      assert [a[0]] + a[1..] == a;
    }
  }

  lemma {:induction false} SplitOfJoin(lines: seq<string>)
    requires |lines| > 0 && forall i :: 0 <= i < |lines| ==> '\n' !in lines[i]
    ensures Split(Join(lines)) == lines
  {
    if |lines| == 1 {
      SplitOfLine(lines[0], "");
    } else {
      SplitOfJoin(lines[1..]);
      SplitOfLine(lines[0], Join(lines[1..]));
    }
  }

  /** The index of the first `c`, or the length of `s`. */
  function IndexByte(s: string, c: char): (k: nat)
    ensures k <= |s| && c !in s[..k] && (k < |s| ==> s[k] == c)
  {
    if s == "" || s[0] == c then 0
    else
      assert forall k: nat :: k <= |s| - 1 ==> s[..k + 1] == [s[0]] + s[1..][..k];
      1 + IndexByte(s[1..], c)
  }

  lemma {:induction false} IndexByteAt(s: string, c: char, k: nat)
    requires k < |s| && s[k] == c && c !in s[..k]
    ensures IndexByte(s, c) == k
  {
    if k > 0 {
      assert s[..k] == [s[0]] + s[1..][..k - 1];
      IndexByteAt(s[1..], c, k - 1);
    }
  }

  predicate HasPrefix(s: string, p: string) { p <= s }

  predicate OccursAt(s: string, p: string, i: nat) { i + |p| <= |s| && s[i..i + |p|] == p }

  lemma OccursLater(s: string, p: string, i: nat)
    requires s != "" && i > 0
    ensures OccursAt(s, p, i) <==> OccursAt(s[1..], p, i - 1)
  {
    if i + |p| <= |s| {
      assert s[i..i + |p|] == s[1..][i - 1..i - 1 + |p|];
    }
  }

  /** The index of the first occurrence of `p`, or -1. */
  function Index(s: string, p: string): (k: int)
    ensures k == -1 || (0 <= k && k + |p| <= |s|)
  {
    if HasPrefix(s, p) then 0
    else if s == "" then -1
    else if Index(s[1..], p) == -1 then -1
    else Index(s[1..], p) + 1
  }

  lemma {:induction false} IndexFinds(s: string, p: string, i: nat)
    requires OccursAt(s, p, i)
    ensures 0 <= Index(s, p) <= i
  {
    if i == 0 {
      assert s[0..|p|] == s[..|p|];
    } else {
      OccursLater(s, p, i);
      IndexFinds(s[1..], p, i - 1);
    }
  }

  lemma {:induction false} IndexIsFirst(s: string, p: string, k: nat)
    requires OccursAt(s, p, k) && forall i: nat :: i < k ==> !OccursAt(s, p, i)
    ensures Index(s, p) == k
  {
    IndexFinds(s, p, k);
    IndexOccurs(s, p);
  }

  lemma {:induction false} IndexOccurs(s: string, p: string)
    ensures Index(s, p) >= 0 ==> OccursAt(s, p, Index(s, p))
  {
    if HasPrefix(s, p) {
      assert s[0..|p|] == s[..|p|];
    } else if s != "" && Index(s[1..], p) >= 0 {
      IndexOccurs(s[1..], p);
      OccursLater(s, p, Index(s[1..], p) + 1);
    }
  }

  /** White space as Unicode defines it. */
  predicate IsSpace(c: char) {
    || '\t' <= c <= '\r' || c == ' ' || c == '\U{0085}' || c == '\U{00A0}' || c == '\U{1680}'
    || '\U{2000}' <= c <= '\U{200A}' || c == '\U{2028}' || c == '\U{2029}' || c == '\U{202F}'
    || c == '\U{205F}' || c == '\U{3000}'
  }

  function TrimSpaceLeft(s: string): string {
    if s != "" && IsSpace(s[0]) then TrimSpaceLeft(s[1..]) else s
  }

  function TrimSpaceRight(s: string): string {
    if s != "" && IsSpace(s[|s| - 1]) then TrimSpaceRight(s[..|s| - 1]) else s
  }

  function TrimSpace(s: string): string { TrimSpaceRight(TrimSpaceLeft(s)) }

  ghost predicate AllSpace(s: string) { forall i :: 0 <= i < |s| ==> IsSpace(s[i]) }

  lemma {:induction false} TrimLeftParts(s: string) returns (left: string)
    ensures s == left + TrimSpaceLeft(s) && AllSpace(left)
    ensures TrimSpaceLeft(s) != "" ==> !IsSpace(TrimSpaceLeft(s)[0])
  {
    if s != "" && IsSpace(s[0]) {
      left := TrimLeftParts(s[1..]);
      left := [s[0]] + left;
      assert s == [s[0]] + s[1..];
    } else {
      left := "";
    }
  }

  lemma {:induction false} TrimRightParts(s: string) returns (right: string)
    ensures s == TrimSpaceRight(s) + right && AllSpace(right)
    ensures TrimSpaceRight(s) != "" ==> !IsSpace(TrimSpaceRight(s)[|TrimSpaceRight(s)| - 1])
  {
    if s != "" && IsSpace(s[|s| - 1]) {
      right := TrimRightParts(s[..|s| - 1]);
      right := right + [s[|s| - 1]];
      assert s == s[..|s| - 1] + [s[|s| - 1]];
    } else {
      right := "";
    }
  }

  /** Trimming takes white space, and all of it, from both ends and nothing else. */
  lemma TrimSpaceParts(s: string) returns (left: string, right: string)
    ensures s == left + TrimSpace(s) + right && AllSpace(left) && AllSpace(right)
    ensures TrimSpace(s) != "" ==> !IsSpace(TrimSpace(s)[0]) && !IsSpace(TrimSpace(s)[|TrimSpace(s)| - 1])
  {
    left := TrimLeftParts(s);
    right := TrimRightParts(TrimSpaceLeft(s));
    assert TrimSpaceLeft(s) == TrimSpace(s) + right;
    if TrimSpace(s) != "" { assert TrimSpaceLeft(s)[0] == TrimSpace(s)[0]; }
  }

  lemma {:induction false} TrimRightOfPadded(key: string, pad: string)
    requires key != "" && !IsSpace(key[|key| - 1]) && AllSpace(pad)
    ensures TrimSpaceRight(key + pad) == key
  {
    if pad == "" {
      assert key + pad == key;
    } else {
      TrimRightOfPadded(key, pad[..|pad| - 1]);
      assert (key + pad)[..|key + pad| - 1] == key + pad[..|pad| - 1];
    }
  }

  /** White space behind a trimmed text is trimmed away. */
  lemma TrimOfPadded(key: string, pad: string)
    requires key != "" && TrimSpace(key) == key && AllSpace(pad)
    ensures TrimSpace(key + pad) == key
  {
    var left, right := TrimSpaceParts(key);
    assert (key + pad)[0] == key[0];
    TrimRightOfPadded(key, pad);
  }

  /** The white space that Unicode lists, by code point. */
  lemma SpacesByCode(c: char)
    ensures IsSpace(c) <==> c as int in {9, 10, 11, 12, 13, 0x20, 0x85, 0xA0, 0x1680, 0x2000, 0x2001, 0x2002, 0x2003,
                                         0x2004, 0x2005, 0x2006, 0x2007, 0x2008, 0x2009, 0x200A, 0x2028, 0x2029,
                                         0x202F, 0x205F, 0x3000}
  {
  }

  /** The number of leading blanks and tabs. */
  function Blanks(s: string): (n: nat)
    ensures n <= |s| && (forall i :: 0 <= i < n ==> s[i] == ' ' || s[i] == '\t')
    ensures n < |s| ==> s[n] != ' ' && s[n] != '\t'
  {
    if s != "" && (s[0] == ' ' || s[0] == '\t') then 1 + Blanks(s[1..]) else 0
  }
}
