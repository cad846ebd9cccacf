/**
 The auditor over whole histories: opening, recording with write and sync failures, closing and
 reopening a log file.
 */
module AuditWriter {
  import opened AuditChain

  datatype SyncMode = SyncFull | SyncNone

  /** How the operating system answers one append: everything works, nothing is written, or the line
      is written but syncing it fails. */
  datatype Outcome = Works | WriteFails | SyncFails

  /** The auditor's part of the state: the chain tip it continues from. */
  datatype Session = Session(lastHash: Hash, syncMode: SyncMode)

  datatype Log = Closed(lines: seq<Line>) | Opened(lines: seq<Line>, session: Session)

  datatype Op =
    | Open(syncMode: SyncMode)
    | Record(entry: Row, outcome: Outcome)  // the caller's hash fields are arbitrary
    | Close

  const NO_HASH := Text("")

  /** The hash of the last entry, NO_HASH for an empty log. */
  function LastHash(lines: seq<Line>): Hash { Tip(Rows(lines), NO_HASH) }

  function OpenSession(lines: seq<Line>, syncMode: SyncMode): Session {
    Session(if LastHash(lines) == NO_HASH then Genesis else LastHash(lines), syncMode)
  }

  /** The row that is written: both hash fields are computed. */
  function Sealed(tip: Hash, entry: Row): Row { Row(entry.payload, tip, ComputeHash(tip, entry.payload)) }

  predicate Written(outcome: Outcome) { outcome != WriteFails }

  predicate Advances(s: Session, outcome: Outcome) {
    outcome == Works || (outcome == SyncFails && s.syncMode == SyncNone)
  }

  function RecordRow(log: Log, entry: Row, outcome: Outcome): Log
    requires log.Opened?
  {
    var row := Sealed(log.session.lastHash, entry);
    Opened(if Written(outcome) then log.lines + [Entry(row)] else log.lines,
           if Advances(log.session, outcome) then log.session.(lastHash := row.hash) else log.session)
  }

  /** Opening fails on a log that does not parse; recording needs an open log. */
  function Exec(log: Log, op: Op): Log {
    match op
    case Open(mode) => if Garbage in log.lines then log else Opened(log.lines, OpenSession(log.lines, mode))
    case Record(entry, outcome) => if log.Opened? then RecordRow(log, entry, outcome) else log
    case Close => Closed(log.lines)
  }

  function Final(log: Log, ops: seq<Op>): Log {
    if ops == [] then log else Exec(Final(log, ops[..|ops| - 1]), ops[|ops| - 1])
  }

  /* Which histories stay verifiable */

  /** The auditor's tip after `ops` is behind the file: some line of the current session was written
      but never acknowledged. */
  ghost predicate Stale(log: Log, ops: seq<Op>) {
    ops != []
    && var last := ops[|ops| - 1];
       var before := Final(log, ops[..|ops| - 1]);
       match last
       case Open(_) => Garbage in before.lines && Stale(log, ops[..|ops| - 1])
       case Close => false
       case Record(_, outcome) =>
         before.Opened? && (Stale(log, ops[..|ops| - 1]) || (Written(outcome) && !Advances(before.session, outcome)))
  }

  /** At some point a line was written while the tip was stale. */
  ghost predicate Forked(log: Log, ops: seq<Op>) {
    ops != []
    && var last := ops[|ops| - 1];
       var before := Final(log, ops[..|ops| - 1]);
       (Forked(log, ops[..|ops| - 1])
        || (last.Record? && before.Opened? && Written(last.outcome) && Stale(log, ops[..|ops| - 1])))
  }

  /** The tip of an open, stale session is the row before the last one. */
  ghost predicate InStep(log: Log, stale: bool) {
    && Accepted(log.lines)
    && (log.Opened? ==>
          if stale
          then Rows(log.lines) != [] && log.session.lastHash == Rows(log.lines)[|Rows(log.lines)| - 1].prevHash
          else log.session.lastHash == Tip(Rows(log.lines), Genesis))
  }

  lemma TipIsNotBefore(lines: seq<Line>)
    requires Accepted(lines) && Rows(lines) != []
    ensures var rows := Rows(lines); rows[|rows| - 1].prevHash != Tip(rows, Genesis)
    ensures LastHash(lines) != NO_HASH && LastHash(lines) == Tip(Rows(lines), Genesis)
  {
    var rows := Rows(lines);
    ChainPrefix(rows, |rows| - 1);
    ChainDepth(rows, Genesis, |rows| - 1);
  }

  lemma RecordKeepsInStep(log: Log, entry: Row, outcome: Outcome, stale: bool)
    requires log.Opened? && InStep(log, stale)
    ensures var log' := RecordRow(log, entry, outcome);
            && (stale && Written(outcome) ==> !Accepted(log'.lines))
            && (!(stale && Written(outcome)) ==>
                  InStep(log', stale || (Written(outcome) && !Advances(log.session, outcome))))
  {
    var row := Sealed(log.session.lastHash, entry);
    OneMoreLine(log.lines, Entry(row));
    if stale { TipIsNotBefore(log.lines); }
  }

  lemma {:induction false} RejectedStaysRejected(log: Log, op: Op)
    requires !Accepted(log.lines)
    ensures !Accepted(Exec(log, op).lines)
  {
    if op.Record? && log.Opened? {
      OneMoreLine(log.lines, Entry(Sealed(log.session.lastHash, op.entry)));
    }
  }

  /** From an intact log, any history of opening, recording, failing, closing and reopening leaves a log
      that Verify accepts if and only if no line was written while an earlier line of the same session
      had been written without being acknowledged. */
  lemma {:induction false} HistoryVerifiesIff(lines: seq<Line>, ops: seq<Op>)
    requires Accepted(lines)
    ensures Accepted(Final(Closed(lines), ops).lines) <==> !Forked(Closed(lines), ops)
    ensures !Forked(Closed(lines), ops) ==> InStep(Final(Closed(lines), ops), Stale(Closed(lines), ops))
    decreases |ops|
  {
    var log := Closed(lines);
    if ops != [] {
      var front, last := ops[..|ops| - 1], ops[|ops| - 1];
      var before := Final(log, front);
      HistoryVerifiesIff(lines, front);
      if Forked(log, front) {
        RejectedStaysRejected(before, last);
      } else {
        match last
        case Open(_) => if Rows(before.lines) != [] { TipIsNotBefore(before.lines); }
        case Close =>
        case Record(entry, outcome) =>
          if before.Opened? { RecordKeepsInStep(before, entry, outcome, Stale(log, front)); }
      }
    }
  }

  /** It does happen: on any intact log, a failed sync and then a record that works leave a log that
      Verify rejects. */
  lemma FailedSyncForks(lines: seq<Line>, a: Row, b: Row)
    requires Accepted(lines)
    ensures !Accepted(Final(Closed(lines), [Open(SyncFull), Record(a, SyncFails), Record(b, Works)]).lines)
  {
    var ops := [Open(SyncFull), Record(a, SyncFails), Record(b, Works)];
    assert ops[..2] == [Open(SyncFull), Record(a, SyncFails)] && ops[..2][..1] == [Open(SyncFull)];
    assert ops[..2][..1][..0] == [];
    assert Final(Closed(lines), ops[..2][..1]).Opened?;
    assert Stale(Closed(lines), ops[..2]);
    HistoryVerifiesIff(lines, ops);
  }

  ghost predicate Successful(ops: seq<Op>) {
    forall i :: 0 <= i < |ops| && ops[i].Record? ==> ops[i].outcome != SyncFails
  }

  lemma {:induction false} SuccessfulNeverForks(log: Log, ops: seq<Op>)
    requires Successful(ops)
    ensures !Stale(log, ops) && !Forked(log, ops)
    decreases |ops|
  {
    if ops != [] { SuccessfulNeverForks(log, ops[..|ops| - 1]); }
  }

  /** Every history without a failed sync, starting from an empty file, verifies, and an open auditor
      continues from the last row's hash, whatever hash fields callers put in their entries. */
  lemma HonestHistoryVerifies(ops: seq<Op>)
    requires Successful(ops)
    ensures var log := Final(Closed([]), ops);
            Accepted(log.lines) && (log.Opened? ==> log.session.lastHash == Tip(Rows(log.lines), Genesis))
  {
    SuccessfulNeverForks(Closed([]), ops);
    HistoryVerifiesIff([], ops);
  }

  /** What is in the file is never rewritten: every history only appends. */
  lemma {:induction false} LogOnlyGrows(log: Log, ops: seq<Op>)
    ensures log.lines <= Final(log, ops).lines
    decreases |ops|
  {
    if ops != [] { LogOnlyGrows(log, ops[..|ops| - 1]); }
  }

  /** The payloads of the rows that stand in a file. */
  function Payloads(rows: seq<Row>): seq<Payload> {
    if rows == [] then [] else Payloads(rows[..|rows| - 1]) + [rows[|rows| - 1].payload]
  }

  /** What callers asked to record while the log was open and the write did not fail, in order. */
  ghost function Submitted(log: Log, ops: seq<Op>): seq<Payload> {
    if ops == [] then []
    else
      var last := ops[|ops| - 1];
      Submitted(log, ops[..|ops| - 1])
      + if last.Record? && last.outcome != WriteFails && Final(log, ops[..|ops| - 1]).Opened?
        then [last.entry.payload] else []
  }

  lemma PayloadsAppend(rows: seq<Row>, row: Row)
    ensures Payloads(rows + [row]) == Payloads(rows) + [row.payload]
  {
    assert (rows + [row])[..|rows|] == rows;
  }

  lemma ExecKeepsPayloads(log: Log, op: Op)
    ensures Payloads(Rows(Exec(log, op).lines))
            == Payloads(Rows(log.lines))
               + if op.Record? && op.outcome != WriteFails && log.Opened? then [op.entry.payload] else []
  {
    if op.Record? && op.outcome != WriteFails && log.Opened? {
      var row := Sealed(log.session.lastHash, op.entry);
      OneMoreLine(log.lines, Entry(row));
      PayloadsAppend(Rows(log.lines), row);
    } else {
      assert Payloads(Rows(log.lines)) + [] == Payloads(Rows(log.lines));
    }
  }

  /** What was submitted is what stands in the file: nothing is altered, lost, repeated or reordered. */
  lemma {:induction false} SubmittedIsRecorded(log: Log, ops: seq<Op>)
    ensures Payloads(Rows(Final(log, ops).lines)) == Payloads(Rows(log.lines)) + Submitted(log, ops)
    decreases |ops|
  {
    if ops != [] {
      SubmittedIsRecorded(log, ops[..|ops| - 1]);
      ExecKeepsPayloads(Final(log, ops[..|ops| - 1]), ops[|ops| - 1]);
    }
  }

  /** Without syncing, a sync cannot fail; with it, a failed write leaves the log as it was. */
  lemma OutcomesThatAgree(log: Log, entry: Row)
    requires log.Opened?
    ensures log.session.syncMode == SyncNone ==> Exec(log, Record(entry, SyncFails)) == Exec(log, Record(entry, Works))
    ensures Exec(log, Record(entry, WriteFails)) == log
  {
  }

  /* The auditor object */

  /** The file on disk. */
  class LogFile {
    var lines: seq<Line>

    constructor (lines: seq<Line>)
      ensures this.lines == lines
    {
      this.lines := lines;
    }
  }

  /** The hash of the final entry, NO_HASH when there is none, or None when a line does not parse. */
  method ReadLastHash(lines: seq<Line>) returns (ok: bool, last: Hash)
    ensures ok <==> Garbage !in lines
    ensures ok ==> last == LastHash(lines)
  {
    last := NO_HASH;
    for i := 0 to |lines|
      invariant Garbage !in lines[..i] && last == LastHash(lines[..i])
    {
      assert lines[..i + 1] == lines[..i] + [lines[i]];
      OneMoreLine(lines[..i], lines[i]);
      match lines[i]
      case Blank =>
      case Garbage => return false, last;
      case Entry(e) => last := e.hash;
    }
    assert lines[..|lines|] == lines;
    ok := true;
  }

  class FileAuditor {
    const path: LogFile  // the file that the path names
    var f: LogFile?      // the handle, null once closed
    var syncMode: SyncMode
    var lastHash: Hash

    ghost predicate Valid()
      reads this
    {
      f != null ==> f == path
    }

    /** The log as this auditor sees it. */
    ghost function View(): Log
      reads this, path
    {
      if f == null then Closed(path.lines) else Opened(path.lines, Session(lastHash, syncMode))
    }

    constructor (f: LogFile, syncMode: SyncMode, lastHash: Hash)
      ensures Valid() && path == f && View() == Opened(f.lines, Session(lastHash, syncMode))
    {
      this.path := f;
      this.f := f;
      this.syncMode := syncMode;
      this.lastHash := lastHash;
    }

    /** Null when the existing log cannot be read. */
    static method OpenAuditor(file: LogFile, syncMode: SyncMode) returns (a: FileAuditor?)
      ensures a == null <==> Garbage in file.lines
      ensures a != null ==>
                fresh(a) && a.Valid() && a.path == file && a.View() == Exec(Closed(file.lines), Op.Open(syncMode))
    {
      var ok, last := ReadLastHash(file.lines);
      if !ok {
        return null;
      }
      if last == NO_HASH {
        last := Genesis;
      }
      a := new FileAuditor(file, syncMode, last);
    }

    /** `outcome` is what the file system does; `ok` is false when an error is returned. A closed auditor
        writes nothing and returns an error. */
    method Record(entry: Row, outcome: Outcome) returns (ok: bool)
      requires Valid()
      modifies this, path
      ensures Valid() && View() == Exec(old(View()), Op.Record(entry, outcome))
      ensures ok <==> old(View()).Opened? && Advances(old(View()).session, outcome)
    {
      var row := Row(entry.payload, lastHash, ComputeHash(lastHash, entry.payload));
      if f == null || outcome == WriteFails {
        return false;
      }
      f.lines := f.lines + [Entry(row)];
      if syncMode == SyncFull {
        if outcome == SyncFails {
          return false;
        }
      }
      lastHash := row.hash;
      ok := true;
    }

    /** Closing twice is harmless. */
    method Close()
      requires Valid()
      modifies `f
      ensures Valid() && f == null && View() == Exec(old(View()), Op.Close)
    {
      f := null;
    }
  }
}
