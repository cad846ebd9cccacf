/** The API-key table: a list of items with an index by key hash, against a last-wins lookup. */
module Credentials {
  import opened Text

  datatype Entry = Entry(key: string, tenant: string)

  /** A symbolic, collision-free digest of a key. */
  datatype KeyHash = HashOf(key: string)

  datatype Lookup = Matched(tenant: string) | NoMatch

  predicate Blank(key: string) { TrimSpace(key) == "" }

  /** The tenant of the last entry with this key; blank keys never match. */
  function LastWins(entries: seq<Entry>, token: string): Lookup {
    if entries == [] then NoMatch
    else
      var last := entries[|entries| - 1];
      if last.key == token && !Blank(token) then Matched(last.tenant)
      else LastWins(entries[..|entries| - 1], token)
  }

  /** A key is blank if and only if all its characters are white space. */
  lemma BlankIff(key: string)
    ensures Blank(key) <==> AllSpace(key)
  {
    var left, right := TrimSpaceParts(key);
    if AllSpace(key) {
      assert TrimSpace(key) == key[|left|..|key| - |right|];
    }
  }

  ghost predicate IsLast(entries: seq<Entry>, token: string, i: int) {
    0 <= i < |entries| && entries[i].key == token && forall j :: i < j < |entries| ==> entries[j].key != token
  }

  lemma IsLastOfFront(entries: seq<Entry>, token: string)
    requires entries != [] && entries[|entries| - 1].key != token
    ensures forall i :: IsLast(entries, token, i) <==> IsLast(entries[..|entries| - 1], token, i)
  {
    forall i
      ensures IsLast(entries, token, i) <==> IsLast(entries[..|entries| - 1], token, i)
    {
      assert forall j :: 0 <= j < |entries| - 1 ==> entries[..|entries| - 1][j] == entries[j];
    }
  }

  /** The last entry with the token's key decides. */
  lemma {:induction false} LastMatchDecides(entries: seq<Entry>, token: string)
    requires !Blank(token)
    ensures forall i :: IsLast(entries, token, i) ==> LastWins(entries, token) == Matched(entries[i].tenant)
    ensures LastWins(entries, token) == NoMatch <==> forall i :: 0 <= i < |entries| ==> entries[i].key != token
  {
    if entries != [] && entries[|entries| - 1].key != token {
      LastMatchDecides(entries[..|entries| - 1], token);
      IsLastOfFront(entries, token);
    }
  }

  /** Blank tokens match nothing. */
  lemma {:induction false} BlankNeverMatches(entries: seq<Entry>, token: string)
    requires Blank(token)
    ensures LastWins(entries, token) == NoMatch
  {
    if entries != [] { BlankNeverMatches(entries[..|entries| - 1], token); }
  }

  /** The index points at the position of each key, and at nothing else. */
  ghost predicate Indexed(items: seq<Entry>, keyHashes: map<KeyHash, nat>) {
    && (forall i :: 0 <= i < |items| ==> HashOf(items[i].key) in keyHashes && keyHashes[HashOf(items[i].key)] == i)
    && (forall h :: h in keyHashes ==> keyHashes[h] < |items| && items[keyHashes[h]].key == h.key)
  }

  /** The items answer every token as the entry list does. */
  ghost predicate Answers(items: seq<Entry>, entries: seq<Entry>) {
    && (forall i :: 0 <= i < |items| ==> LastWins(entries, items[i].key) == Matched(items[i].tenant))
    && (forall token {:trigger LastWins(entries, token)} ::
          LastWins(entries, token) != NoMatch ==> exists i :: 0 <= i < |items| && items[i].key == token)
  }

  ghost predicate DistinctKeys(items: seq<Entry>) {
    forall i, j :: 0 <= i < j < |items| ==> items[i].key != items[j].key
  }

  /** One step of the construction. */
  lemma OneMoreEntry(entries: seq<Entry>, e: Entry, token: string)
    ensures LastWins(entries + [e], token)
            == if e.key == token && !Blank(token) then Matched(e.tenant) else LastWins(entries, token)
  {
    assert (entries + [e])[..|entries|] == entries;
  }

  lemma SkippingKeeps(items: seq<Entry>, entries: seq<Entry>, e: Entry)
    requires Answers(items, entries) && Blank(e.key)
    ensures Answers(items, entries + [e])
  {
    forall token
      ensures LastWins(entries + [e], token) == LastWins(entries, token)
    {
      OneMoreEntry(entries, e, token);
    }
  }

  lemma OverwritingKeeps(items: seq<Entry>, i: nat, entries: seq<Entry>, e: Entry)
    requires Answers(items, entries) && !Blank(e.key) && i < |items| && items[i].key == e.key
    requires forall j :: 0 <= j < |items| && items[j].key == e.key ==> j == i
    ensures Answers(items[i := e], entries + [e])
  {
    forall token
      ensures LastWins(entries + [e], token) == if e.key == token then Matched(e.tenant) else LastWins(entries, token)
    {
      OneMoreEntry(entries, e, token);
    }
    var items' := items[i := e];
    forall token {:trigger LastWins(entries + [e], token)} | LastWins(entries + [e], token) != NoMatch
      ensures exists j :: 0 <= j < |items'| && items'[j].key == token
    {
      var j := if token == e.key then i else var j :| 0 <= j < |items| && items[j].key == token; j;
      assert items'[j].key == token;
    }
  }

  lemma AppendingKeeps(items: seq<Entry>, entries: seq<Entry>, e: Entry)
    requires Answers(items, entries) && !Blank(e.key) && forall j :: 0 <= j < |items| ==> items[j].key != e.key
    ensures Answers(items + [e], entries + [e])
  {
    var items' := items + [e];
    forall token
      ensures LastWins(entries + [e], token) == if e.key == token then Matched(e.tenant) else LastWins(entries, token)
    {
      OneMoreEntry(entries, e, token);
    }
    forall token {:trigger LastWins(entries + [e], token)} | LastWins(entries + [e], token) != NoMatch
      ensures exists j :: 0 <= j < |items'| && items'[j].key == token
    {
      var j := if token == e.key then |items| else var j :| 0 <= j < |items| && items[j].key == token; j;
      assert items'[j].key == token;
    }
  }

  class CredentialSet {
    var items: seq<Entry>
    var keyHashes: map<KeyHash, nat>
    ghost var entries: seq<Entry>  // what the set was built from

    ghost predicate Valid()
      reads this
    {
      Indexed(items, keyHashes) && Answers(items, entries)
    }

    constructor (entries: seq<Entry>)
      ensures Valid() && this.entries == entries && DistinctKeys(items)
    {
      items, keyHashes, this.entries := [], map[], entries;
      new;
      Build(entries);
    }

    method Build(entries: seq<Entry>)
      modifies this
      ensures Valid() && this.entries == entries && DistinctKeys(items)
    {
      items, keyHashes := [], map[];
      for n := 0 to |entries|
        invariant Indexed(items, keyHashes) && Answers(items, entries[..n])
      {
        var e := entries[n];
        assert entries[..n + 1] == entries[..n] + [e];
        if Blank(e.key) {
          SkippingKeeps(items, entries[..n], e);
          continue;
        }
        var h := HashOf(e.key);
        if h in keyHashes {
          OverwritingKeeps(items, keyHashes[h], entries[..n], e);
          items := items[keyHashes[h] := e];
          continue;
        }
        AppendingKeeps(items, entries[..n], e);
        keyHashes := keyHashes[h := |items|];
        items := items + [e];
      }
      assert entries[..|entries|] == entries;
      this.entries := entries;
    }

    /** Match compares the token with every item and answers as the last-wins list does. */
    method Match(token: string) returns (tenant: string, matched: bool)
      requires Valid()
      ensures LastWins(entries, token) == if matched then Matched(tenant) else NoMatch
      ensures !matched ==> tenant == ""
    {
      if |items| == 0 {
        return "", false;
      }
      tenant, matched := "", false;
      for i := 0 to |items|
        invariant matched <==> exists k :: 0 <= k < i && items[k].key == token
        invariant if matched then LastWins(entries, token) == Matched(tenant) else tenant == ""
      {
        if token == items[i].key {
          tenant := items[i].tenant;
          matched := true;
        }
      }
    }

    /** The whole set is exchanged. */
    method Replace(entries: seq<Entry>)
      modifies this
      ensures Valid() && this.entries == entries && DistinctKeys(items)
    {
      var next := new CredentialSet(entries);
      items := next.items;
      keyHashes := next.keyHashes;
      this.entries := entries;
    }
  }
}
