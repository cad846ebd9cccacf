/**
 The hash-chained audit log. Hashing is symbolic: a digest is the pair of what was hashed, so it is
 collision-free and a chain cannot contain itself. A stored hash field may hold any digest or any
 other text.
 */
module AuditChain {

  /** The attribution fields of an entry, which the hash covers. */
  datatype Payload = Payload(timestamp: int, requestId: string, clientIp: string, keyHash: string,
                             route: string, model: string, outcome: string)

  datatype Hash =
    | Genesis                            // 64 zeros
    | Text(text: string)                 // any string that is not a digest
    | Digest(prev: Hash, payload: Payload)

  datatype Row = Row(payload: Payload, prevHash: Hash, hash: Hash)

  /** A line of the file: blank, unparsable, or an entry. */
  datatype Line = Blank | Garbage | Entry(row: Row)

  datatype Verdict = Intact | BadJson(line: nat) | BadPrevHash(line: nat) | BadHash(line: nat)

  function ComputeHash(prev: Hash, payload: Payload): Hash { Digest(prev, payload) }

  /* The chain of rows */

  /** Each row points to its predecessor's hash and carries the hash of its own content. */
  ghost predicate Chained(rows: seq<Row>, prev: Hash)
    decreases |rows|
  {
    rows == []
    || (rows[0].prevHash == prev
        && rows[0].hash == ComputeHash(prev, rows[0].payload)
        && Chained(rows[1..], rows[0].hash))
  }

  function Tip(rows: seq<Row>, prev: Hash): Hash { if rows == [] then prev else rows[|rows| - 1].hash }

  function Rows(lines: seq<Line>): seq<Row> {
    if lines == [] then []
    else if lines[0].Entry? then [lines[0].row] + Rows(lines[1..])
    else Rows(lines[1..])
  }

  /** Every line parses and the rows form a chain from the genesis hash. */
  ghost predicate Accepted(lines: seq<Line>) { Garbage !in lines && Chained(Rows(lines), Genesis) }

  /* Verify */

  lemma {:induction false} RowsConcat(a: seq<Line>, b: seq<Line>)
    ensures Rows(a + b) == Rows(a) + Rows(b)
  {
    if a == [] {
      assert a + b == b;
    } else {
      assert (a + b)[1..] == a[1..] + b;
      RowsConcat(a[1..], b);
    }
  }

  lemma {:induction false} ChainedConcat(a: seq<Row>, b: seq<Row>, prev: Hash)
    ensures Chained(a + b, prev) <==> Chained(a, prev) && Chained(b, Tip(a, prev))
    decreases |a|
  {
    if a == [] {
      assert a + b == b;
    } else {
      assert (a + b)[1..] == a[1..] + b;
      ChainedConcat(a[1..], b, a[0].hash);
      assert Tip(a[1..], a[0].hash) == Tip(a, prev);
    }
  }

  /** The line a verdict complains about. */
  function BadLine(v: Verdict): nat
    requires v != Intact
  {
    match v case BadJson(n) => n case BadPrevHash(n) => n case BadHash(n) => n
  }

  /** What one more line does to an accepted log. */
  lemma OneMoreLine(lines: seq<Line>, line: Line)
    ensures Accepted(lines + [line])
            <==> Accepted(lines) && line != Garbage
                 && (line.Entry? ==>
                       line.row.prevHash == Tip(Rows(lines), Genesis)
                       && line.row.hash == ComputeHash(line.row.prevHash, line.row.payload))
    ensures line.Entry? ==> Rows(lines + [line]) == Rows(lines) + [line.row]
    ensures !line.Entry? ==> Rows(lines + [line]) == Rows(lines)
  {
    RowsConcat(lines, [line]);
    assert [line][1..] == [];
    assert Garbage in lines + [line] <==> Garbage in lines || line == Garbage;
    if line.Entry? {
      var row, tip := line.row, Tip(Rows(lines), Genesis);
      assert Rows([line]) == [row] + Rows([line][1..]);
      assert Rows(lines + [line]) == Rows(lines) + [row];
      ChainedConcat(Rows(lines), [row], Genesis);
      assert [row][1..] == [];
      assert Chained([row], tip) <==> row.prevHash == tip && row.hash == ComputeHash(tip, row.payload);
    } else {
      assert Rows([line]) == [];
      assert Rows(lines) + [] == Rows(lines);
    }
  }

  /** Every prefix of an accepted log is accepted. */
  lemma {:induction false} PrefixIsAccepted(lines: seq<Line>, n: nat)
    requires Accepted(lines) && n <= |lines|
    ensures Accepted(lines[..n])
    decreases |lines| - n
  {
    if n == |lines| {
      assert lines[..n] == lines;
    } else {
      PrefixIsAccepted(lines, n + 1);
      assert lines[..n + 1] == lines[..n] + [lines[n]];
      OneMoreLine(lines[..n], lines[n]);
    }
  }

  /** Verify accepts exactly the intact logs, and otherwise pinpoints the first line at which the log
      stops being acceptable. */
  method Verify(lines: seq<Line>) returns (v: Verdict)
    ensures v == Intact <==> Accepted(lines)
    ensures v != Intact ==>
              1 <= BadLine(v) <= |lines| && Accepted(lines[..BadLine(v) - 1]) && !Accepted(lines[..BadLine(v)])
    ensures v.BadJson? ==> lines[v.line - 1] == Garbage
    ensures v.BadPrevHash? ==> lines[v.line - 1].Entry?
                               && lines[v.line - 1].row.prevHash != Tip(Rows(lines[..v.line - 1]), Genesis)
    ensures v.BadHash? ==> lines[v.line - 1].Entry?
                           && lines[v.line - 1].row.prevHash == Tip(Rows(lines[..v.line - 1]), Genesis)
  {
    var prev := Genesis;
    var lineNo := 0;
    while lineNo < |lines|
      invariant lineNo <= |lines|
      invariant Accepted(lines[..lineNo]) && prev == Tip(Rows(lines[..lineNo]), Genesis)
    {
      var raw := lines[lineNo];
      lineNo := lineNo + 1;
      assert lines[..lineNo] == lines[..lineNo - 1] + [raw];
      OneMoreLine(lines[..lineNo - 1], raw);
      ghost var rejected := !Accepted(lines[..lineNo]);
      if rejected && Accepted(lines) { PrefixIsAccepted(lines, lineNo); }
      match raw
      case Blank =>
      case Garbage => return BadJson(lineNo);
      case Entry(e) =>
        if e.prevHash != prev {
          return BadPrevHash(lineNo);
        }
        var want := ComputeHash(prev, e.payload);
        if e.hash != want {
          return BadHash(lineNo);
        }
        prev := e.hash;
    }
    assert lines[..lineNo] == lines;
    v := Intact;
  }

  /* Tamper evidence */

  /** How many digests are nested in a hash. */
  function Depth(h: Hash): nat {
    match h
    case Genesis => 0
    case Text(_) => 0
    case Digest(prev, _) => Depth(prev) + 1
  }

  lemma {:induction false} ChainDepth(rows: seq<Row>, prev: Hash, i: nat)
    requires Chained(rows, prev) && i < |rows|
    ensures Depth(rows[i].hash) == Depth(prev) + i + 1
    decreases |rows|
  {
    if i > 0 {
      ChainDepth(rows[1..], rows[0].hash, i - 1);
    }
  }

  lemma ChainPrefix(rows: seq<Row>, n: nat)
    requires Chained(rows, Genesis) && n <= |rows|
    ensures Chained(rows[..n], Genesis)
    ensures n < |rows| ==> rows[n].prevHash == Tip(rows[..n], Genesis)
                           && rows[n].hash == ComputeHash(rows[n].prevHash, rows[n].payload)
  {
    assert rows == rows[..n] + rows[n..];
    ChainedConcat(rows[..n], rows[n..], Genesis);
  }

  /** Two intact logs with the same last hash are identical row for row. */
  lemma {:induction false} SameTipSameRows(a: seq<Row>, b: seq<Row>)
    requires Chained(a, Genesis) && Chained(b, Genesis) && Tip(a, Genesis) == Tip(b, Genesis)
    ensures a == b
    decreases |a|
  {
    if a == [] || b == [] {
      if a != [] { ChainDepth(a, Genesis, |a| - 1); }
      if b != [] { ChainDepth(b, Genesis, |b| - 1); }
    } else {
      var n, m := |a| - 1, |b| - 1;
      ChainPrefix(a, n);
      ChainPrefix(b, m);
      SameTipSameRows(a[..n], b[..m]);
      assert a == a[..n] + [a[n]] && b == b[..m] + [b[m]];
    }
  }

  /** A hash pins everything up to its row: where the hash of row `i` of one intact log occurs in
      another, it occurs at the same place and everything before it is the same. */
  lemma HashPinsPrefix(a: seq<Row>, b: seq<Row>, i: nat, j: nat)
    requires Chained(a, Genesis) && Chained(b, Genesis) && i < |a| && j < |b| && a[i].hash == b[j].hash
    ensures i == j && a[..i + 1] == b[..j + 1]
  {
    ChainPrefix(a, i + 1);
    ChainPrefix(b, j + 1);
    SameTipSameRows(a[..i + 1], b[..j + 1]);
  }

  /** Replacing one row of an intact log is detected unless nothing changes or the row is the last one
      and the new row is again correctly chained. */
  lemma ReplacementIsDetectedIff(rows: seq<Row>, i: nat, row: Row)
    requires Chained(rows, Genesis) && i < |rows|
    ensures Chained(rows[i := row], Genesis)
            <==> row == rows[i]
                 || (i == |rows| - 1 && row.prevHash == Tip(rows[..i], Genesis)
                     && row.hash == ComputeHash(row.prevHash, row.payload))
  {
    var forged := rows[i := row];
    assert forged[..i] == rows[..i];
    ChainPrefix(rows, i);
    if Chained(forged, Genesis) {
      ChainPrefix(forged, i);
      if i < |rows| - 1 {
        SameTipSameRows(rows, forged);
      }
    } else if i == |rows| - 1 {
      ChainedConcat(rows[..i], [row], Genesis);
      assert forged == rows[..i] + [row];
    } else {
      assert row == rows[i] ==> forged == rows;
    }
  }

  /** Deleting one row of an intact log is detected unless it is the last one. */
  lemma DeletionIsDetectedIff(rows: seq<Row>, i: nat)
    requires Chained(rows, Genesis) && i < |rows|
    ensures Chained(rows[..i] + rows[i + 1..], Genesis) <==> i == |rows| - 1
  {
    var forged := rows[..i] + rows[i + 1..];
    if i == |rows| - 1 {
      assert forged == rows[..i];
      ChainPrefix(rows, i);
    } else if Chained(forged, Genesis) {
      assert forged[|forged| - 1] == rows[|rows| - 1];
      SameTipSameRows(rows, forged);
    }
  }

  /** Inserting a row anywhere but at the end of an intact log is detected. */
  lemma InsertionIsDetected(rows: seq<Row>, i: nat, row: Row)
    requires Chained(rows, Genesis) && i < |rows|
    ensures !Chained(rows[..i] + [row] + rows[i..], Genesis)
  {
    var forged := rows[..i] + [row] + rows[i..];
    if Chained(forged, Genesis) {
      assert forged[|forged| - 1] == rows[|rows| - 1];
      SameTipSameRows(rows, forged);
    }
  }

  /** Any reordering that is not the identity is detected. */
  lemma ReorderingIsDetected(rows: seq<Row>, forged: seq<Row>)
    requires Chained(rows, Genesis) && multiset(forged) == multiset(rows) && forged != rows
    ensures !Chained(forged, Genesis)
  {
    if Chained(forged, Genesis) {
      assert |forged| == |multiset(forged)| == |multiset(rows)| == |rows|;
      forall i | 0 <= i < |rows|
        ensures forged[i] == rows[i]
      {
        assert forged[i] in multiset(rows);
        var j :| 0 <= j < |rows| && rows[j] == forged[i];
        ChainDepth(forged, Genesis, i);
        ChainDepth(rows, Genesis, j);
      }
    }
  }
}
