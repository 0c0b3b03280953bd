/**
 Versioned SQL migrations: applying pending files in name order, and rolling the newest applied
 versions back, against a database that may fail at any statement.

 A database transaction is one step: it either commits as a whole or leaves no trace.  What a statement
 does to the schema is the parameter `exec` (None is a failing statement); the files on disk, the rows a
 query returns and the points at which the database breaks are inputs.
 */
module Migrations {
  import opened Common
  import SqlSplitter

  type Stmt = SqlSplitter.Text

  datatype MigrationFile = MigrationFile(
    version: string,
    filename: string,
    checksum: string,
    statements: seq<Stmt>,
    rollbackFilename: Option<string>)

  datatype Status = Applied | FailedStatus | RolledBack
  datatype RollbackStatus = Success | RollbackFailed | Missing

  datatype Record = Record(
    filename: string,
    checksum: string,
    status: Status,
    statementsCount: nat,
    rollbackFile: Option<string>,
    rollbackStatus: Option<RollbackStatus>)

  datatype Db<S> = Db(schema: S, records: map<string, Record>)

  /** Where the database breaks during one call: at statement `at[v]` of version `v` (the number of
      statements stands for writing the record and committing); for versions in `lost` the transaction
      that would record the failure is lost as well. */
  datatype Faults = Faults(at: map<string, nat>, lost: set<string>)

  datatype ApplyResult = Completed(total: nat, applied: nat, skipped: nat)
                       | ChecksumMismatch(version: string)
                       | ApplyFailed(version: string)

  datatype RollbackResult = Rolled(count: nat) | NothingToRollBack
                          | RollbackMissing(version: string) | RollbackBroke(version: string)

  const LEGACY_MIGRATION_CHECKSUMS: map<string, set<string>> :=
    map["023" := {"c93877d366dea1ab1d54fe637afb04eb4af6e2cf370d10b201c48e1afa3776ba"}]

  predicate IsChecksumCompatible(version: string, existing: string, current: string) {
    existing == current
    || (version in LEGACY_MIGRATION_CHECKSUMS && existing in LEGACY_MIGRATION_CHECKSUMS[version])
  }

  predicate IsApplied(records: map<string, Record>, version: string) {
    version in records && records[version].status == Applied
  }

  function FaultFor(faults: Faults, version: string): Option<nat> {
    if version in faults.at then Some(faults.at[version]) else None
  }

  // ---------------------------------------------------------------- one transaction

  datatype Execution<S> = Done(schema: S) | Broke(executed: nat)

  /** Statements `i..` and the final record write, in one transaction. */
  function Execute<S>(exec: (S, Stmt) -> Option<S>, stmts: seq<Stmt>, i: nat, schema: S, fault: Option<nat>): (r: Execution<S>)
    requires i <= |stmts|
    decreases |stmts| - i
  {
    if fault == Some(i) then Broke(i)
    else if i == |stmts| then Done(schema)
    else
      match exec(schema, stmts[i])
      case None => Broke(i)
      case Some(schema') => Execute(exec, stmts, i + 1, schema', fault)
  }

  /** All the statements in a row, without faults. */
  function RunAll<S>(exec: (S, Stmt) -> Option<S>, stmts: seq<Stmt>, schema: S): Option<S> {
    if stmts == [] then Some(schema)
    else
      match exec(schema, stmts[0])
      case None => None
      case Some(schema') => RunAll(exec, stmts[1..], schema')
  }

  function AppliedRecord(f: MigrationFile): Record {
    Record(f.filename, f.checksum, Applied, |f.statements|, f.rollbackFilename, None)
  }

  function FailedRecord(f: MigrationFile, executed: nat): Record {
    Record(f.filename, f.checksum, FailedStatus, executed, f.rollbackFilename, None)
  }

  function ApplyOne<S>(exec: (S, Stmt) -> Option<S>, f: MigrationFile, db: Db<S>, faults: Faults): (Db<S>, bool) {
    match Execute(exec, f.statements, 0, db.schema, FaultFor(faults, f.version))
    case Done(schema') => (Db(schema', db.records[f.version := AppliedRecord(f)]), true)
    case Broke(executed) =>
      (if f.version in faults.lost then db else db.(records := db.records[f.version := FailedRecord(f, executed)]), false)
  }

  /** The files from `i` on, in order, stopping at the first mismatch or failure. */
  function ApplyFrom<S>(exec: (S, Stmt) -> Option<S>, files: seq<MigrationFile>, i: nat, db: Db<S>, faults: Faults,
                        applied: nat, skipped: nat): (Db<S>, ApplyResult)
    requires i <= |files|
    decreases |files| - i
  {
    if i == |files| then (db, Completed(|files|, applied, skipped))
    else
      var f := files[i];
      if IsApplied(db.records, f.version) then
        if IsChecksumCompatible(f.version, db.records[f.version].checksum, f.checksum)
        then ApplyFrom(exec, files, i + 1, db, faults, applied, skipped + 1)
        else (db, ChecksumMismatch(f.version))
      else
        var (db', ok) := ApplyOne(exec, f, db, faults);
        if ok then ApplyFrom(exec, files, i + 1, db', faults, applied + 1, skipped)
        else (db', ApplyFailed(f.version))
  }

  // ---------------------------------------------------------------- rollback

  function RollbackScript(disk: map<string, seq<Stmt>>, rec: Record): Option<seq<Stmt>> {
    if rec.rollbackFile.Some? && rec.rollbackFile.value in disk then Some(disk[rec.rollbackFile.value]) else None
  }

  function RollbackOne<S>(exec: (S, Stmt) -> Option<S>, disk: map<string, seq<Stmt>>, v: string, db: Db<S>, faults: Faults)
    : (Db<S>, RollbackResult)
    requires v in db.records
  {
    var rec := db.records[v];
    match RollbackScript(disk, rec)
    case None =>
      (if v in faults.lost then db
       else db.(records := db.records[v := rec.(status := Applied, rollbackStatus := Some(Missing))]),
       RollbackMissing(v))
    case Some(stmts) =>
      match Execute(exec, stmts, 0, db.schema, FaultFor(faults, v))
      case Done(schema') =>
        (Db(schema', db.records[v := rec.(status := RolledBack, statementsCount := |stmts|, rollbackStatus := Some(Success))]),
         Rolled(1))
      case Broke(_) =>
        (if v in faults.lost then db
         else db.(records := db.records[v := rec.(status := Applied, rollbackStatus := Some(RollbackFailed))]),
         RollbackBroke(v))
  }

  function RollbackRows<S>(exec: (S, Stmt) -> Option<S>, disk: map<string, seq<Stmt>>, rows: seq<string>, i: nat, db: Db<S>,
                           faults: Faults, dryRun: bool): (Db<S>, RollbackResult)
    requires i <= |rows| && forall j | 0 <= j < |rows| :: rows[j] in db.records
    decreases |rows| - i
  {
    if i == |rows| then (db, Rolled(i))
    else if dryRun && RollbackScript(disk, db.records[rows[i]]).Some? then
      RollbackRows(exec, disk, rows, i + 1, db, faults, dryRun)
    else
      var (db', r) := RollbackOne(exec, disk, rows[i], db, faults);
      if r.Rolled? then RollbackRows(exec, disk, rows, i + 1, db', faults, dryRun) else (db', r)
  }

  /** Numeric value of a version's digits. */
  function Num(v: string): nat {
    if v == "" then 0 else Digit(v[0]) * Pow10(|v| - 1) + Num(v[1..])
  }

  function Digit(c: char): nat {
    if '0' <= c <= '9' then c as nat - '0' as nat else 0
  }

  function Pow10(n: nat): (p: nat)
    ensures p >= 1
  {
    if n == 0 then 1 else 10 * Pow10(n - 1)
  }

  /** The answer of the rollback query: the `steps` applied versions of greatest number, greatest first. */
  ghost predicate IsNewestApplied(records: map<string, Record>, steps: nat, rows: seq<string>) {
    && (forall j | 0 <= j < |rows| :: IsApplied(records, rows[j]))
    && (forall a, b | 0 <= a < b < |rows| :: rows[a] != rows[b] && Num(rows[a]) >= Num(rows[b]))
    && |rows| <= steps
    && (forall v | IsApplied(records, v) && v !in rows ::
          |rows| == steps && forall j | 0 <= j < |rows| :: Num(rows[j]) >= Num(v))
  }

  // ---------------------------------------------------------------- the loops

  class MigrationManager<S> {
    var schema: S
    var records: map<string, Record>

    constructor (schema: S)
      ensures this.schema == schema && records == map[]
    {
      this.schema := schema;
      records := map[];
    }

    ghost function Contents(): Db<S>
      reads this
    {
      Db(schema, records)
    }

    /** Runs statements on a working copy; the caller commits it. */
    method RunStatements(exec: (S, Stmt) -> Option<S>, stmts: seq<Stmt>, fault: Option<nat>)
      returns (work: S, executed: nat, ok: bool)
      ensures ok ==> executed == |stmts| && Execute(exec, stmts, 0, schema, fault) == Done(work)
      ensures !ok ==> Execute(exec, stmts, 0, schema, fault) == Broke(executed)
    {
      work, executed := schema, 0;
      while executed < |stmts|
        invariant executed <= |stmts|
        invariant Execute(exec, stmts, 0, schema, fault) == Execute(exec, stmts, executed, work, fault)
      {
        if fault == Some(executed) {
          return work, executed, false;
        }
        var next := exec(work, stmts[executed]);
        if next.None? {
          return work, executed, false;
        }
        work, executed := next.value, executed + 1;
      }
      ok := fault != Some(executed);
    }

    method ApplyPendingMigrations(exec: (S, Stmt) -> Option<S>, files: seq<MigrationFile>, faults: Faults)
      returns (r: ApplyResult)
      modifies this
      ensures (Contents(), r) == ApplyFrom(exec, files, 0, old(Contents()), faults, 0, 0)
    {
      var applied, skipped := 0, 0;
      var i := 0;
      while i < |files|
        invariant i <= |files|
        invariant ApplyFrom(exec, files, 0, old(Contents()), faults, 0, 0)
               == ApplyFrom(exec, files, i, Contents(), faults, applied, skipped)
      {
        var f := files[i];
        if f.version in records && records[f.version].status == Applied {
          if !IsChecksumCompatible(f.version, records[f.version].checksum, f.checksum) {
            return ChecksumMismatch(f.version);
          }
          skipped := skipped + 1;
          i := i + 1;
          continue;
        }
        var work, executed, ok := RunStatements(exec, f.statements, FaultFor(faults, f.version));
        if !ok {
          if f.version !in faults.lost {
            records := records[f.version := FailedRecord(f, executed)];
          }
          return ApplyFailed(f.version);
        }
        schema := work;
        records := records[f.version := AppliedRecord(f)];
        applied := applied + 1;
        i := i + 1;
      }
      return Completed(|files|, applied, skipped);
    }

    /** `rows` is what the candidate query returned. */
    method RollbackMigrations(exec: (S, Stmt) -> Option<S>, disk: map<string, seq<Stmt>>, rows: seq<string>,
                              faults: Faults, dryRun: bool)
      returns (r: RollbackResult)
      requires forall j | 0 <= j < |rows| :: rows[j] in Contents().records && IsApplied(records, rows[j])
      requires forall a, b | 0 <= a < b < |rows| :: rows[a] != rows[b]
      modifies this
      ensures rows == [] ==> r == NothingToRollBack && Contents() == old(Contents())
      ensures rows != [] ==> (Contents(), r) == RollbackRows(exec, disk, rows, 0, old(Contents()), faults, dryRun)
    {
      if rows == [] {
        return NothingToRollBack;
      }
      var candidates := records;
      var i := 0;
      while i < |rows|
        invariant i <= |rows|
        invariant forall j | 0 <= j < |rows| :: rows[j] in records
        invariant forall j | i <= j < |rows| :: records[rows[j]] == candidates[rows[j]]
        invariant RollbackRows(exec, disk, rows, 0, old(Contents()), faults, dryRun)
               == RollbackRows(exec, disk, rows, i, Contents(), faults, dryRun)
      {
        var v := rows[i];
        var row := candidates[v];
        var script := RollbackScript(disk, row);
        if script.None? {
          if v !in faults.lost {
            records := records[v := row.(status := Applied, rollbackStatus := Some(Missing))];
          }
          return RollbackMissing(v);
        }
        if dryRun {
          i := i + 1;
          continue;
        }
        var work, executed, ok := RunStatements(exec, script.value, FaultFor(faults, v));
        if !ok {
          if v !in faults.lost {
            records := records[v := row.(status := Applied, rollbackStatus := Some(RollbackFailed))];
          }
          return RollbackBroke(v);
        }
        schema := work;
        records := records[v := row.(status := RolledBack, statementsCount := executed, rollbackStatus := Some(Success))];
        i := i + 1;
      }
      return Rolled(|rows|);
    }
  }

  // ---------------------------------------------------------------- name order is number order

  predicate IsVersion(v: string) {
    v != "" && forall i | 0 <= i < |v| :: '0' <= v[i] <= '9'
  }

  /** Python's string order. */
  predicate LexLess(a: string, b: string) {
    if b == "" then false
    else if a == "" then true
    else if a[0] != b[0] then a[0] < b[0]
    else LexLess(a[1..], b[1..])
  }

  lemma Scale(a: nat, b: nat, p: nat)
    requires a <= b
    ensures a * p <= b * p
  {
  }

  lemma {:induction false} NumBound(v: string)
    ensures Num(v) < Pow10(|v|)
  {
    hide Digit;
    if v != "" {
      NumBound(v[1..]);
      DigitBound(v[0]);
      Scale(Digit(v[0]), 9, Pow10(|v| - 1));
    }
  }

  lemma DigitBound(c: char)
    ensures Digit(c) <= 9
  {
  }

  /** A smaller leading digit makes a smaller number. */
  lemma LeadingDigit(v: string, w: string)
    requires |v| == |w| && v != "" && Digit(v[0]) < Digit(w[0])
    ensures Num(v) < Num(w)
  {
    hide Digit;
    var p := Pow10(|v| - 1);
    NumBound(v[1..]);
    Scale(Digit(v[0]) + 1, Digit(w[0]), p);
    assert (Digit(v[0]) + 1) * p == Digit(v[0]) * p + p;
  }

  lemma {:induction false} LexIsNumeric(v: string, w: string, restV: string, restW: string)
    requires |v| == |w| && v != w
    requires (forall i | 0 <= i < |v| :: '0' <= v[i] <= '9') && (forall i | 0 <= i < |w| :: '0' <= w[i] <= '9')
    ensures LexLess(v + restV, w + restW) <==> Num(v) < Num(w)
  {
    assert (v + restV)[1..] == v[1..] + restV && (w + restW)[1..] == w[1..] + restW;
    if v[0] == w[0] {
      assert v[1..] != w[1..] by {
        assert v == [v[0]] + v[1..] && w == [w[0]] + w[1..];
      }
      LexIsNumeric(v[1..], w[1..], restV, restW);
      SameLeadingDigit(v, w);
    } else if v[0] < w[0] {
      LeadingDigit(v, w);
    } else {
      LeadingDigit(w, v);
    }
  }

  lemma SameLeadingDigit(v: string, w: string)
    requires |v| == |w| && v != "" && v[0] == w[0]
    ensures Num(v) < Num(w) <==> Num(v[1..]) < Num(w[1..])
  {
  }

  /** What discovery returns: well-named files in name order, one file per version. */
  ghost predicate Discovered(files: seq<MigrationFile>) {
    && (forall i | 0 <= i < |files| :: IsVersion(files[i].version) && files[i].version + "_" <= files[i].filename)
    && (forall i, j | 0 <= i < j < |files| ::
          LexLess(files[i].filename, files[j].filename) && files[i].version != files[j].version)
  }

  ghost predicate EqualWidth(files: seq<MigrationFile>) {
    forall i, j | 0 <= i < |files| && 0 <= j < |files| :: |files[i].version| == |files[j].version|
  }

  ghost predicate Increasing(files: seq<MigrationFile>) {
    forall i, j | 0 <= i < j < |files| :: Num(files[i].version) < Num(files[j].version)
  }

  /** With versions of equal width, the order in which files are applied is the order of their numbers. */
  lemma NameOrderIsNumberOrder(files: seq<MigrationFile>)
    requires Discovered(files) && EqualWidth(files)
    ensures Increasing(files)
  {
    forall i, j | 0 <= i < j < |files| ensures Num(files[i].version) < Num(files[j].version) {
      var v, w := files[i].version, files[j].version;
      var restV, restW := files[i].filename[|v|..], files[j].filename[|w|..];
      assert files[i].filename == v + restV && files[j].filename == w + restW;
      LexIsNumeric(v, w, restV, restW);
    }
  }

  // ---------------------------------------------------------------- the invariant

  /** The first `k` files, and nothing else, are applied. */
  ghost predicate PrefixApplied(files: seq<MigrationFile>, records: map<string, Record>, k: nat) {
    && k <= |files|
    && (forall i | 0 <= i < |files| :: IsApplied(records, files[i].version) <==> i < k)
    && (forall v | IsApplied(records, v) :: exists i :: 0 <= i < k && files[i].version == v)
  }

  /** The schema after the up scripts of `files`. */
  ghost function Fold<S>(exec: (S, Stmt) -> Option<S>, files: seq<MigrationFile>, base: S): Option<S> {
    if files == [] then Some(base)
    else
      match Fold(exec, files[..|files| - 1], base)
      case None => None
      case Some(s) => RunAll(exec, files[|files| - 1].statements, s)
  }

  /** Every down script on disk takes back what its up script did to the schema that the files before it
      lead to; what either does to any other schema does not matter. */
  ghost predicate DownInvertsUp<S(!new)>(exec: (S, Stmt) -> Option<S>, base: S, files: seq<MigrationFile>, disk: map<string, seq<Stmt>>) {
    forall i | 0 <= i < |files| && files[i].rollbackFilename.Some? && files[i].rollbackFilename.value in disk ::
      forall s: S, t: S | Fold(exec, files[..i], base) == Some(s) && RunAll(exec, files[i].statements, s) == Some(t) ::
        RunAll(exec, disk[files[i].rollbackFilename.value], t) == Some(s)
  }

  ghost predicate RecordsMatch(files: seq<MigrationFile>, records: map<string, Record>, k: nat)
    requires PrefixApplied(files, records, k)
  {
    forall i | 0 <= i < k ::
      && records[files[i].version].checksum == files[i].checksum
      && records[files[i].version].rollbackFile == files[i].rollbackFilename
  }

  ghost predicate Consistent<S>(exec: (S, Stmt) -> Option<S>, base: S, files: seq<MigrationFile>, db: Db<S>, k: nat) {
    && PrefixApplied(files, db.records, k)
    && RecordsMatch(files, db.records, k)
    && Fold(exec, files[..k], base) == Some(db.schema)
  }

  lemma {:induction false} ExecuteIsRunAll<S>(exec: (S, Stmt) -> Option<S>, stmts: seq<Stmt>, i: nat, schema: S, fault: Option<nat>)
    requires i <= |stmts|
    ensures Execute(exec, stmts, i, schema, fault).Done? ==>
              RunAll(exec, stmts[i..], schema) == Some(Execute(exec, stmts, i, schema, fault).schema)
    decreases |stmts| - i
  {
    if fault != Some(i) && i < |stmts| {
      assert stmts[i..][0] == stmts[i] && stmts[i..][1..] == stmts[i + 1..];
      var next := exec(schema, stmts[i]);
      if next.Some? {
        ExecuteIsRunAll(exec, stmts, i + 1, next.value, fault);
      }
    }
  }

  ghost predicate Distinct(files: seq<MigrationFile>) {
    forall i, j | 0 <= i < |files| && 0 <= j < |files| && i != j :: files[i].version != files[j].version
  }

  lemma DistinctVersions(files: seq<MigrationFile>)
    requires Increasing(files)
    ensures Distinct(files)
  {
    assert forall i, j | 0 <= i < j < |files| :: Num(files[i].version) != Num(files[j].version);
  }

  /** Writing the record of the file at the edge of the prefix moves the edge, or leaves it. */
  lemma PrefixAfterRecord(files: seq<MigrationFile>, records: map<string, Record>, k: nat, e: nat, rec: Record)
    requires Distinct(files) && PrefixApplied(files, records, k)
    requires e < |files| && (e == k || e + 1 == k)
    ensures PrefixApplied(files, records[files[e].version := rec], if rec.status == Applied then e + 1 else e)
  {
    var records' := records[files[e].version := rec];
    var k' := if rec.status == Applied then e + 1 else e;
    assert IsApplied(records', files[e].version) <==> rec.status == Applied;
    assert forall v | v != files[e].version :: IsApplied(records', v) == IsApplied(records, v);
    forall v | IsApplied(records', v) ensures exists i :: 0 <= i < k' && files[i].version == v {
      if v == files[e].version {
        assert 0 <= e < k' && files[e].version == v;
      } else {
        assert IsApplied(records, v);
        var i :| 0 <= i < k && files[i].version == v;
        assert 0 <= i < k' && files[i].version == v;
      }
    }
  }

  lemma {:induction false} ApplyOneKeeps<S>(exec: (S, Stmt) -> Option<S>, base: S, files: seq<MigrationFile>, k: nat, db: Db<S>, faults: Faults)
    requires Increasing(files) && k < |files| && Consistent(exec, base, files, db, k)
    ensures var (db', ok) := ApplyOne(exec, files[k], db, faults);
            Consistent(exec, base, files, db', if ok then k + 1 else k)
  {
    var f := files[k];
    var step := ApplyOne(exec, f, db, faults);
    if step.0 == db && !step.1 {
      return;
    }
    ExecuteIsRunAll(exec, f.statements, 0, db.schema, FaultFor(faults, f.version));
    hide Execute, RunAll, Fold;
    var rec := step.0.records[f.version];
    assert step.0.records == db.records[f.version := rec] && (rec.status == Applied <==> step.1);
    DistinctVersions(files);
    PrefixAfterRecord(files, db.records, k, k, rec);
    assert RecordsMatch(files, step.0.records, if step.1 then k + 1 else k);
    hide RecordsMatch, PrefixApplied;
    if step.1 {
      FoldStep(exec, files, k, base, db.schema, step.0.schema);
    }
  }

  lemma FoldStep<S>(exec: (S, Stmt) -> Option<S>, files: seq<MigrationFile>, k: nat, base: S, before: S, after: S)
    requires k < |files| && Fold(exec, files[..k], base) == Some(before)
    requires RunAll(exec, files[k].statements[0..], before) == Some(after)
    ensures Fold(exec, files[..k + 1], base) == Some(after)
  {
    assert files[..k + 1][..k] == files[..k];
    assert files[k].statements[0..] == files[k].statements;
  }

  /** A prefix that folds, and its last up script, of which the down script is the inverse. */
  lemma FoldBack<S>(exec: (S, Stmt) -> Option<S>, files: seq<MigrationFile>, k: nat, base: S, after: S) returns (before: S)
    requires 0 < k <= |files| && Fold(exec, files[..k], base) == Some(after)
    ensures Fold(exec, files[..k - 1], base) == Some(before) && RunAll(exec, files[k - 1].statements, before) == Some(after)
  {
    assert files[..k][..k - 1] == files[..k - 1];
    before := Fold(exec, files[..k - 1], base).value;
  }

  /** Whatever breaks, an apply call leaves a prefix of the file list applied, with the schema equal to
      the fold of that prefix; it never meets a mismatching checksum. */
  lemma {:induction false} ApplyKeepsPrefix<S>(exec: (S, Stmt) -> Option<S>, base: S, files: seq<MigrationFile>, i: nat, k: nat,
                                               db: Db<S>, faults: Faults, applied: nat, skipped: nat) returns (k': nat)
    requires Increasing(files) && i <= k && Consistent(exec, base, files, db, k)
    ensures var (db', r) := ApplyFrom(exec, files, i, db, faults, applied, skipped);
            && k <= k' && Consistent(exec, base, files, db', k')
            && !r.ChecksumMismatch? && (r.Completed? <==> k' == |files|)
            && (r.Completed? ==> r.applied == applied + (|files| - k) && r.skipped == skipped + (k - i))
    decreases |files| - i
  {
    if i == |files| {
      k' := k;
    } else if i < k {
      k' := ApplyKeepsPrefix(exec, base, files, i + 1, k, db, faults, applied, skipped + 1);
    } else {
      ApplyOneKeeps(exec, base, files, k, db, faults);
      var (db', ok) := ApplyOne(exec, files[k], db, faults);
      if ok {
        k' := ApplyKeepsPrefix(exec, base, files, i + 1, k + 1, db', faults, applied + 1, skipped);
      } else {
        k' := k;
      }
    }
  }

  // ---------------------------------------------------------------- rollback keeps the prefix

  /** The first `n` rows are the last applied files, last first. */
  ghost predicate LastFirst(files: seq<MigrationFile>, k: nat, rows: seq<string>, n: nat) {
    n <= |rows| && n <= k <= |files| && forall j | 0 <= j < n :: rows[j] == files[k - 1 - j].version
  }

  /** An applied version that is not among the first `j` rows has at most the number of row `j`. */
  lemma NextRowIsGreatest(records: map<string, Record>, steps: nat, rows: seq<string>, j: nat, w: string)
    requires IsNewestApplied(records, steps, rows) && j < |rows|
    requires IsApplied(records, w) && w !in rows[..j]
    ensures Num(w) <= Num(rows[j])
  {
    assert forall b | 0 <= b < j :: rows[..j][b] == rows[b];
  }

  lemma NextNewest(files: seq<MigrationFile>, records: map<string, Record>, k: nat, steps: nat, rows: seq<string>, j: nat)
    requires Increasing(files) && PrefixApplied(files, records, k) && IsNewestApplied(records, steps, rows)
    requires j < |rows| && LastFirst(files, k, rows, j)
    ensures LastFirst(files, k, rows, j + 1)
  {
    assert IsApplied(records, rows[j]) && rows[j] !in rows[..j];
    var i :| 0 <= i < k && files[i].version == rows[j];
    assert i < k - j by {
      hide IsNewestApplied, PrefixApplied, Increasing;
      assert forall x | k - j <= x < k :: rows[..j][k - 1 - x] == files[x].version;
    }
    var w := files[k - 1 - j].version;
    assert IsApplied(records, w);
    assert w !in rows[..j] by {
      hide IsNewestApplied, PrefixApplied;
      DistinctVersions(files);
      assert forall b | 0 <= b < j :: rows[..j][b] == files[k - 1 - b].version;
    }
    NextRowIsGreatest(records, steps, rows, j, w);
    hide IsNewestApplied, PrefixApplied, Num;
    assert i == k - 1 - j;
  }

  /** The candidate query returns the last applied files, last first. */
  lemma {:induction false} NewestAreLast(files: seq<MigrationFile>, records: map<string, Record>, k: nat, steps: nat, rows: seq<string>, n: nat)
    requires Increasing(files) && PrefixApplied(files, records, k) && IsNewestApplied(records, steps, rows)
    requires n <= |rows|
    ensures LastFirst(files, k, rows, n)
  {
    assert k <= |files|;
    hide IsNewestApplied, PrefixApplied, Increasing;
    if n > 0 {
      NewestAreLast(files, records, k, steps, rows, n - 1);
      NextNewest(files, records, k, steps, rows, n - 1);
    }
  }

  lemma RollbackOneKeeps<S(!new)>(exec: (S, Stmt) -> Option<S>, base: S, files: seq<MigrationFile>, disk: map<string, seq<Stmt>>,
                            k: nat, db: Db<S>, faults: Faults)
    requires Increasing(files) && DownInvertsUp(exec, base, files, disk)
    requires 0 < k && Consistent(exec, base, files, db, k)
    ensures files[k - 1].version in db.records
    ensures var (db', r) := RollbackOne(exec, disk, files[k - 1].version, db, faults);
            db.records.Keys <= db'.records.Keys && Consistent(exec, base, files, db', if r.Rolled? then k - 1 else k)
  {
    var f := files[k - 1];
    assert IsApplied(db.records, f.version);
    DistinctVersions(files);
    var (db', r) := RollbackOne(exec, disk, f.version, db, faults);
    if db' != db {
      hide PrefixApplied, Execute, RunAll, Fold, DownInvertsUp;
      PrefixAfterRecord(files, db.records, k, k - 1, db'.records[f.version]);
    }
    if r.Rolled? {
      hide Fold;
      var stmts := RollbackScript(disk, db.records[f.version]).value;
      ExecuteIsRunAll(exec, stmts, 0, db.schema, FaultFor(faults, f.version));
      assert stmts[0..] == stmts;
      var before := FoldBack(exec, files, k, base, db.schema);
      assert RunAll(exec, stmts, db.schema) == Some(before);
    }
  }

  lemma {:induction false} RollbackRowsKeep<S(!new)>(exec: (S, Stmt) -> Option<S>, base: S, files: seq<MigrationFile>, disk: map<string, seq<Stmt>>,
                                               start: nat, k: nat, rows: seq<string>, i: nat, db: Db<S>, faults: Faults) returns (k': nat)
    requires Increasing(files) && DownInvertsUp(exec, base, files, disk)
    requires start == k + i && LastFirst(files, start, rows, |rows|) && Consistent(exec, base, files, db, k)
    requires i <= |rows| && forall j | 0 <= j < |rows| :: rows[j] in db.records
    ensures var (db', r) := RollbackRows(exec, disk, rows, i, db, faults, false);
            && Consistent(exec, base, files, db', k')
            && (r.Rolled? ==> k' == start - |rows|)
    decreases |rows| - i
  {
    hide Consistent, DownInvertsUp, Increasing, RollbackOne;
    if i == |rows| {
      return k;
    }
    assert 0 < k <= |files| && rows[i] == files[k - 1].version;
    RollbackOneKeeps(exec, base, files, disk, k, db, faults);
    var step := RollbackOne(exec, disk, rows[i], db, faults);
    if !step.1.Rolled? {
      return k;
    }
    k' := RollbackRowsKeep(exec, base, files, disk, start, k - 1, rows, i + 1, step.0, faults);
  }

  /** A dry run at most notes a missing file on the record of one applied version. */
  lemma {:induction false} DryRunKeeps<S(!new)>(exec: (S, Stmt) -> Option<S>, base: S, files: seq<MigrationFile>, disk: map<string, seq<Stmt>>,
                                          k: nat, rows: seq<string>, i: nat, db: Db<S>, faults: Faults)
    requires Consistent(exec, base, files, db, k)
    requires i <= |rows| && forall j | 0 <= j < |rows| :: rows[j] in db.records
    requires forall j | i <= j < |rows| :: IsApplied(db.records, rows[j])
    ensures var (db', _) := RollbackRows(exec, disk, rows, i, db, faults, true);
            Consistent(exec, base, files, db', k) && db'.schema == db.schema
    decreases |rows| - i
  {
    if i < |rows| {
      if RollbackScript(disk, db.records[rows[i]]).Some? {
        DryRunKeeps(exec, base, files, disk, k, rows, i + 1, db, faults);
      } else {
        var (db', _) := RollbackOne(exec, disk, rows[i], db, faults);
        assert forall v :: IsApplied(db'.records, v) == IsApplied(db.records, v);
      }
    }
  }

  // ---------------------------------------------------------------- whole runs

  /** The deployment and the database. */
  datatype World<S> = World(files: seq<MigrationFile>, disk: map<string, seq<Stmt>>, db: Db<S>)

  ghost predicate AppliesOnce<S>(exec: (S, Stmt) -> Option<S>, w: World<S>, w': World<S>, faults: Faults) {
    w' == w.(db := ApplyFrom(exec, w.files, 0, w.db, faults, 0, 0).0)
  }

  ghost predicate RollsBack<S>(exec: (S, Stmt) -> Option<S>, w: World<S>, w': World<S>, steps: nat, rows: seq<string>, faults: Faults, dryRun: bool) {
    && IsNewestApplied(w.db.records, steps, rows)
    && (forall j | 0 <= j < |rows| :: rows[j] in w.db.records)
    && w' == w.(db := RollbackRows(exec, w.disk, rows, 0, w.db, faults, dryRun).0)
  }

  /** A new release: files are only appended, with versions not applied yet; the scripts on disk are whatever
      the release brings. */
  ghost predicate Deploys<S>(w: World<S>, w': World<S>) {
    && w.files <= w'.files && w'.db == w.db
    && (forall v | IsApplied(w.db.records, v) :: forall i | |w.files| <= i < |w'.files| :: w'.files[i].version != v)
  }

  ghost predicate Next<S>(exec: (S, Stmt) -> Option<S>, w: World<S>, w': World<S>) {
    || (exists faults :: AppliesOnce(exec, w, w', faults))
    || (exists steps: nat, rows, faults, dryRun :: RollsBack(exec, w, w', steps, rows, faults, dryRun))
    || Deploys(w, w')
  }

  ghost predicate PrefixState<S>(exec: (S, Stmt) -> Option<S>, base: S, w: World<S>) {
    exists k: nat :: Consistent(exec, base, w.files, w.db, k)
  }

  lemma RollbackKeepsPrefix<S(!new)>(exec: (S, Stmt) -> Option<S>, base: S, w: World<S>, w': World<S>, k: nat,
                                     steps: nat, rows: seq<string>, faults: Faults) returns (k': nat)
    requires Increasing(w.files) && DownInvertsUp(exec, base, w.files, w.disk)
    requires Consistent(exec, base, w.files, w.db, k) && RollsBack(exec, w, w', steps, rows, faults, false)
    ensures Consistent(exec, base, w'.files, w'.db, k')
  {
    NewestAreLast(w.files, w.db.records, k, steps, rows, |rows|);
    hide Consistent, DownInvertsUp, Increasing, IsNewestApplied, RollbackRows, LastFirst;
    k' := RollbackRowsKeep(exec, base, w.files, w.disk, k, k, rows, 0, w.db, faults);
  }

  lemma DryRunKeepsPrefix<S(!new)>(exec: (S, Stmt) -> Option<S>, base: S, w: World<S>, w': World<S>, k: nat,
                                   steps: nat, rows: seq<string>, faults: Faults)
    requires Consistent(exec, base, w.files, w.db, k) && RollsBack(exec, w, w', steps, rows, faults, true)
    ensures Consistent(exec, base, w'.files, w'.db, k) && w'.db.schema == w.db.schema
  {
    hide Consistent, RollbackRows;
    DryRunKeeps(exec, base, w.files, w.disk, k, rows, 0, w.db, faults);
  }

  lemma DeployKeepsVersions<S>(w: World<S>, w': World<S>, k: nat)
    requires PrefixApplied(w.files, w.db.records, k) && Deploys(w, w')
    ensures PrefixApplied(w'.files, w'.db.records, k)
  {
    assert forall i | 0 <= i < |w.files| :: w'.files[i] == w.files[i];
    forall v | IsApplied(w'.db.records, v) ensures exists i :: 0 <= i < k && w'.files[i].version == v {
      var i :| 0 <= i < k && w.files[i].version == v;
      assert 0 <= i < k && w'.files[i].version == v;
    }
  }

  lemma DeployKeepsPrefix<S>(exec: (S, Stmt) -> Option<S>, base: S, w: World<S>, w': World<S>, k: nat)
    requires Consistent(exec, base, w.files, w.db, k) && Deploys(w, w')
    ensures Consistent(exec, base, w'.files, w'.db, k)
  {
    DeployKeepsVersions(w, w', k);
    assert w'.files[..k] == w.files[..k];
    assert forall i | 0 <= i < k :: w'.files[i] == w.files[i];
  }

  lemma NextKeepsPrefix<S(!new)>(exec: (S, Stmt) -> Option<S>, base: S, w: World<S>, w': World<S>)
    requires Increasing(w.files) && DownInvertsUp(exec, base, w.files, w.disk)
    requires Next(exec, w, w') && PrefixState(exec, base, w)
    ensures PrefixState(exec, base, w')
  {
    hide Consistent, DownInvertsUp, Increasing, RollsBack, Deploys;
    var k: nat :| Consistent(exec, base, w.files, w.db, k);
    if faults :| AppliesOnce(exec, w, w', faults) {
      var k' := ApplyKeepsPrefix(exec, base, w.files, 0, k, w.db, faults, 0, 0);
    } else if steps: nat, rows, faults, dryRun :| RollsBack(exec, w, w', steps, rows, faults, dryRun) {
      if dryRun {
        DryRunKeepsPrefix(exec, base, w, w', k, steps, rows, faults);
      } else {
        var k' := RollbackKeepsPrefix(exec, base, w, w', k, steps, rows, faults);
      }
    } else {
      DeployKeepsPrefix(exec, base, w, w', k);
    }
  }

  /** If the down scripts take back their up scripts where they are reached, then in every state of every run
      - applies, rollbacks by steps, dry runs and releases in any order, each breaking anywhere - the applied
      versions are a prefix of the file list and the schema is the fold of that prefix over the schema the
      run started from. */
  lemma {:induction false} RunKeepsSchema<S(!new)>(exec: (S, Stmt) -> Option<S>, base: S, run: seq<World<S>>, i: nat)
    requires i < |run|
    requires run[0].db == Db(base, map[])
    requires forall j | 0 <= j < |run| :: Increasing(run[j].files) && DownInvertsUp(exec, base, run[j].files, run[j].disk)
    requires forall j | 0 <= j < |run| - 1 :: Next(exec, run[j], run[j + 1])
    ensures PrefixState(exec, base, run[i])
  {
    if i == 0 {
      assert Consistent(exec, base, run[0].files, run[0].db, 0);
    } else {
      RunKeepsSchema(exec, base, run, i - 1);
      NextKeepsPrefix(exec, base, run[i - 1], run[i]);
    }
  }

  // ---------------------------------------------------------------- the versions alone

  /** Whatever the scripts do and wherever they break, an apply call leaves a prefix applied, no shorter than
      before, and all files if it completes. */
  lemma {:induction false} ApplyVersions<S>(exec: (S, Stmt) -> Option<S>, files: seq<MigrationFile>, i: nat, k: nat,
                                            db: Db<S>, faults: Faults, applied: nat, skipped: nat) returns (k': nat)
    requires Distinct(files) && i <= k && PrefixApplied(files, db.records, k)
    ensures var (db', r) := ApplyFrom(exec, files, i, db, faults, applied, skipped);
            k <= k' && PrefixApplied(files, db'.records, k') && (r.Completed? ==> k' == |files|)
    decreases |files| - i
  {
    hide Execute, PrefixApplied, Distinct, IsChecksumCompatible;
    assert k <= |files| && forall j | 0 <= j < |files| :: IsApplied(db.records, files[j].version) <==> j < k by {
      PrefixIs(files, db.records, k);
    }
    if i == |files| {
      return k;
    }
    if i < k {
      if IsChecksumCompatible(files[i].version, db.records[files[i].version].checksum, files[i].checksum) {
        k' := ApplyVersions(exec, files, i + 1, k, db, faults, applied, skipped + 1);
        return;
      }
      return k;
    }
    var step := ApplyOne(exec, files[k], db, faults);
    if step.0 == db && !step.1 {
      return k;
    }
    PrefixAfterRecord(files, db.records, k, k, step.0.records[files[k].version]);
    if !step.1 {
      return k;
    }
    k' := ApplyVersions(exec, files, i + 1, k + 1, step.0, faults, applied + 1, skipped);
  }

  lemma PrefixIs(files: seq<MigrationFile>, records: map<string, Record>, k: nat)
    requires PrefixApplied(files, records, k)
    ensures k <= |files| && forall j | 0 <= j < |files| :: IsApplied(records, files[j].version) <==> j < k
  {
  }

  /** Whatever the down scripts do and wherever they break, rolling the last files back leaves a prefix
      applied, shorter by as many files as were rolled back. */
  lemma {:induction false} RollbackVersions<S>(exec: (S, Stmt) -> Option<S>, files: seq<MigrationFile>, disk: map<string, seq<Stmt>>,
                                               start: nat, k: nat, rows: seq<string>, i: nat, db: Db<S>, faults: Faults) returns (k': nat)
    requires Distinct(files) && start == k + i && LastFirst(files, start, rows, |rows|) && PrefixApplied(files, db.records, k)
    requires i <= |rows| && forall j | 0 <= j < |rows| :: rows[j] in db.records
    ensures var (db', r) := RollbackRows(exec, disk, rows, i, db, faults, false);
            PrefixApplied(files, db'.records, k') && start - |rows| <= k' <= k && (r.Rolled? ==> k' == start - |rows|)
    decreases |rows| - i
  {
    hide Execute, PrefixApplied, Distinct;
    if i == |rows| {
      return k;
    }
    assert 0 < k <= |files| && rows[i] == files[k - 1].version;
    PrefixIs(files, db.records, k);
    var step := RollbackOne(exec, disk, rows[i], db, faults);
    if step.0.records != db.records {
      PrefixAfterRecord(files, db.records, k, k - 1, step.0.records[rows[i]]);
    }
    if !step.1.Rolled? {
      return k;
    }
    k' := RollbackVersions(exec, files, disk, start, k - 1, rows, i + 1, step.0, faults);
  }

  lemma {:induction false} DryRunVersions<S>(exec: (S, Stmt) -> Option<S>, disk: map<string, seq<Stmt>>, rows: seq<string>, i: nat,
                                             db: Db<S>, faults: Faults, v: string)
    requires i <= |rows| && forall j | 0 <= j < |rows| :: rows[j] in db.records && IsApplied(db.records, rows[j])
    ensures IsApplied(RollbackRows(exec, disk, rows, i, db, faults, true).0.records, v) <==> IsApplied(db.records, v)
    decreases |rows| - i
  {
    if i < |rows| && RollbackScript(disk, db.records[rows[i]]).Some? {
      DryRunVersions(exec, disk, rows, i + 1, db, faults, v);
    }
  }

  ghost predicate SomePrefixApplied<S>(w: World<S>) {
    exists k: nat :: PrefixApplied(w.files, w.db.records, k)
  }

  lemma {:induction false} RollbackKeepsVersions<S>(exec: (S, Stmt) -> Option<S>, w: World<S>, w': World<S>, k: nat,
                                                    steps: nat, rows: seq<string>, faults: Faults, dryRun: bool)
    requires Increasing(w.files) && PrefixApplied(w.files, w.db.records, k) && RollsBack(exec, w, w', steps, rows, faults, dryRun)
    ensures SomePrefixApplied(w')
  {
    DistinctVersions(w.files);
    if dryRun {
      forall v ensures IsApplied(w'.db.records, v) <==> IsApplied(w.db.records, v) {
        DryRunVersions(exec, w.disk, rows, 0, w.db, faults, v);
      }
      hide RollbackRows, IsNewestApplied, Increasing;
      assert PrefixApplied(w'.files, w'.db.records, k);
    } else {
      NewestAreLast(w.files, w.db.records, k, steps, rows, |rows|);
      hide PrefixApplied, RollbackRows, IsNewestApplied, Increasing, LastFirst;
      var k' := RollbackVersions(exec, w.files, w.disk, k, k, rows, 0, w.db, faults);
    }
  }

  lemma NextKeepsVersions<S>(exec: (S, Stmt) -> Option<S>, w: World<S>, w': World<S>)
    requires Increasing(w.files) && Next(exec, w, w') && SomePrefixApplied(w)
    ensures SomePrefixApplied(w')
  {
    hide Increasing, RollsBack, PrefixApplied;
    var k: nat :| PrefixApplied(w.files, w.db.records, k);
    DistinctVersions(w.files);
    if faults :| AppliesOnce(exec, w, w', faults) {
      var k' := ApplyVersions(exec, w.files, 0, k, w.db, faults, 0, 0);
    } else if steps: nat, rows, faults, dryRun :| RollsBack(exec, w, w', steps, rows, faults, dryRun) {
      RollbackKeepsVersions(exec, w, w', k, steps, rows, faults, dryRun);
    } else {
      DeployKeepsVersions(w, w', k);
    }
  }

  /** In every state of every run - applies, rollbacks by steps, dry runs and releases in any order, each
      breaking anywhere, with scripts that do anything - the applied versions are a prefix of the file list. */
  lemma {:induction false} RunKeepsPrefix<S>(exec: (S, Stmt) -> Option<S>, run: seq<World<S>>, i: nat)
    requires i < |run|
    requires run[0].db.records == map[]
    requires forall j | 0 <= j < |run| :: Increasing(run[j].files)
    requires forall j | 0 <= j < |run| - 1 :: Next(exec, run[j], run[j + 1])
    ensures SomePrefixApplied(run[i])
  {
    hide Next, Increasing;
    if i == 0 {
      assert PrefixApplied(run[0].files, run[0].db.records, 0);
    } else {
      RunKeepsPrefix(exec, run, i - 1);
      NextKeepsVersions(exec, run[i - 1], run[i]);
    }
  }

  // ---------------------------------------------------------------- one file, forward and back

  /** Where the scripts break: all statements before `n` run, and then the database breaks or the statement fails. */
  ghost predicate BreaksAt<S>(exec: (S, Stmt) -> Option<S>, stmts: seq<Stmt>, schema: S, fault: Option<nat>, n: nat) {
    && n <= |stmts| && RunAll(exec, stmts[..n], schema).Some?
    && (fault == Some(n) || (n < |stmts| && RunAll(exec, stmts[..n + 1], schema).None?))
  }

  lemma {:induction false} RunOneMore<S>(exec: (S, Stmt) -> Option<S>, stmts: seq<Stmt>, n: nat, schema: S)
    requires n < |stmts|
    ensures RunAll(exec, stmts[..n + 1], schema) ==
            if RunAll(exec, stmts[..n], schema).None? then None else exec(RunAll(exec, stmts[..n], schema).value, stmts[n])
  {
    if n == 0 {
      assert stmts[..1] == [stmts[0]] && stmts[..1][1..] == [] && stmts[..0] == [];
    } else {
      assert stmts[..n + 1][1..] == stmts[1..][..n] && stmts[..n][1..] == stmts[1..][..n - 1];
      var next := exec(schema, stmts[0]);
      if next.Some? {
        RunOneMore(exec, stmts[1..], n - 1, next.value);
      }
    }
  }

  /** A transaction does all its statements exactly if nothing breaks up to its commit; otherwise it says where. */
  lemma {:induction false} ExecuteExactly<S>(exec: (S, Stmt) -> Option<S>, stmts: seq<Stmt>, i: nat, base: S, schema: S, fault: Option<nat>)
    requires i <= |stmts| && RunAll(exec, stmts[..i], base) == Some(schema)
    requires forall j: nat | j < i :: fault != Some(j)
    ensures match Execute(exec, stmts, i, schema, fault)
            case Done(end) => RunAll(exec, stmts, base) == Some(end) && forall n: nat | n <= |stmts| :: fault != Some(n)
            case Broke(n) => BreaksAt(exec, stmts, base, fault, n)
    decreases |stmts| - i
  {
    if fault == Some(i) {
    } else if i == |stmts| {
      assert stmts[..i] == stmts;
    } else {
      RunOneMore(exec, stmts, i, base);
      var next := exec(schema, stmts[i]);
      if next.Some? {
        ExecuteExactly(exec, stmts, i + 1, base, next.value, fault);
      }
    }
  }

  ghost predicate Recorded<S>(db: Db<S>, db': Db<S>, v: string, lost: bool, rec: Record) {
    db'.records == if lost then db.records else db.records[v := rec]
  }

  /** A file is applied with all its statements and its record in one go, or leaves the schema alone and is noted as
      failed with the number of statements that had run - unless that note is lost as well. */
  lemma ApplyOneExactly<S>(exec: (S, Stmt) -> Option<S>, f: MigrationFile, db: Db<S>, faults: Faults)
    ensures var (db', ok) := ApplyOne(exec, f, db, faults);
            var fault := Lookup(faults.at, f.version);
            if ok then
              && RunAll(exec, f.statements, db.schema) == Some(db'.schema) && (forall n: nat | n <= |f.statements| :: fault != Some(n))
              && Recorded(db, db', f.version, false, Record(f.filename, f.checksum, Applied, |f.statements|, f.rollbackFilename, None))
            else
              && db'.schema == db.schema
              && exists n: nat :: && BreaksAt(exec, f.statements, db.schema, fault, n)
                                  && Recorded(db, db', f.version, f.version in faults.lost,
                                              Record(f.filename, f.checksum, FailedStatus, n, f.rollbackFilename, None))
  {
    var fault := Lookup(faults.at, f.version);
    assert f.statements[..0] == [];
    ExecuteExactly(exec, f.statements, 0, db.schema, db.schema, fault);
    assert FaultFor(faults, f.version) == fault;
    var e := Execute(exec, f.statements, 0, db.schema, fault);
    hide Execute, RunAll, BreaksAt;
    if e.Broke? {
      assert Recorded(db, ApplyOne(exec, f, db, faults).0, f.version, f.version in faults.lost,
                      Record(f.filename, f.checksum, FailedStatus, e.executed, f.rollbackFilename, None));
    }
  }

  /** A version is rolled back with all statements of its script, or stays applied with the reason noted on its
      record: no script on disk, or a script that broke. */
  lemma RollbackOneExactly<S>(exec: (S, Stmt) -> Option<S>, disk: map<string, seq<Stmt>>, v: string, db: Db<S>, faults: Faults)
    requires v in db.records
    ensures var (db', r) := RollbackOne(exec, disk, v, db, faults);
            var rec := db.records[v];
            var fault, lost := Lookup(faults.at, v), v in faults.lost;
            if rec.rollbackFile.None? || rec.rollbackFile.value !in disk then
              && r == RollbackMissing(v) && db'.schema == db.schema
              && Recorded(db, db', v, lost, Record(rec.filename, rec.checksum, Applied, rec.statementsCount, rec.rollbackFile, Some(Missing)))
            else
              var stmts := disk[rec.rollbackFile.value];
              if RunAll(exec, stmts, db.schema).Some? && forall n: nat | n <= |stmts| :: fault != Some(n) then
                && r == Rolled(1) && RunAll(exec, stmts, db.schema) == Some(db'.schema)
                && Recorded(db, db', v, false, Record(rec.filename, rec.checksum, RolledBack, |stmts|, rec.rollbackFile, Some(Success)))
              else
                && r == RollbackBroke(v) && db'.schema == db.schema
                && Recorded(db, db', v, lost, Record(rec.filename, rec.checksum, Applied, rec.statementsCount, rec.rollbackFile, Some(RollbackFailed)))
  {
    var rec := db.records[v];
    var fault := Lookup(faults.at, v);
    assert FaultFor(faults, v) == fault;
    if rec.rollbackFile.Some? && rec.rollbackFile.value in disk {
      var stmts := disk[rec.rollbackFile.value];
      assert stmts[..0] == [] && stmts[..|stmts|] == stmts;
      ExecuteExactly(exec, stmts, 0, db.schema, db.schema, fault);
      var e := Execute(exec, stmts, 0, db.schema, fault);
      hide Execute;
      if e.Broke? && fault != Some(e.executed) {
        BrokenRunsOut(exec, stmts, e.executed + 1, db.schema);
      }
      hide RunAll;
    }
  }

  lemma {:induction false} BrokenRunsOut<S>(exec: (S, Stmt) -> Option<S>, stmts: seq<Stmt>, n: nat, schema: S)
    requires n <= |stmts| && RunAll(exec, stmts[..n], schema).None?
    ensures RunAll(exec, stmts, schema).None?
    decreases |stmts| - n
  {
    if n == |stmts| {
      assert stmts[..n] == stmts;
    } else {
      RunOneMore(exec, stmts, n, schema);
      BrokenRunsOut(exec, stmts, n + 1, schema);
    }
  }

  // ---------------------------------------------------------------- edited files

  /** An applied version whose file is not the one it was applied from, nor a known forerunner of it. */
  ghost predicate EditedSince(f: MigrationFile, records: map<string, Record>) {
    && f.version in records && records[f.version].status == Applied && records[f.version].checksum != f.checksum
    && !(f.version in LEGACY_MIGRATION_CHECKSUMS && records[f.version].checksum in LEGACY_MIGRATION_CHECKSUMS[f.version])
  }

  /** An apply call gets as far as an edited file exactly if the files before it can be applied, is refused there, and
      leaves what applying these alone would leave. */
  lemma {:induction false} EditedFileStops<S>(exec: (S, Stmt) -> Option<S>, files: seq<MigrationFile>, k: nat, i: nat, db: Db<S>, faults: Faults,
                                              applied: nat, skipped: nat)
    requires k <= i < |files| && EditedSince(files[i], db.records)
    ensures var (db', r) := ApplyFrom(exec, files[..i], k, db, faults, applied, skipped);
            ApplyFrom(exec, files, k, db, faults, applied, skipped)
            == (db', if r.Completed? then ChecksumMismatch(files[i].version) else r)
    decreases i - k
  {
    if k < i {
      var f := files[k];
      assert files[..i][k] == f;
      if IsApplied(db.records, f.version) {
        if IsChecksumCompatible(f.version, db.records[f.version].checksum, f.checksum) {
          hide IsChecksumCompatible, Execute;
          EditedFileStops(exec, files, k + 1, i, db, faults, applied, skipped + 1);
        }
      } else {
        var (db', ok) := ApplyOne(exec, f, db, faults);
        assert files[i].version != f.version;
        hide Execute;
        if ok {
          EditedFileStops(exec, files, k + 1, i, db', faults, applied + 1, skipped);
        }
      }
    }
  }

  /** With every file applied already, a call changes nothing: it skips them all, unless one has been edited since, and
      is then refused at the first such file. */
  lemma {:induction false} AppliedFilesExactly<S>(exec: (S, Stmt) -> Option<S>, files: seq<MigrationFile>, k: nat, db: Db<S>, faults: Faults,
                                                  applied: nat, skipped: nat)
    requires k <= |files|
    requires forall j | k <= j < |files| :: files[j].version in db.records && db.records[files[j].version].status == Applied
    ensures var (db', r) := ApplyFrom(exec, files, k, db, faults, applied, skipped);
            && db' == db
            && if (forall j | k <= j < |files| :: !EditedSince(files[j], db.records)) then
                 r == Completed(|files|, applied, skipped + (|files| - k))
               else
                 exists i :: && k <= i < |files| && r == ChecksumMismatch(files[i].version) && EditedSince(files[i], db.records)
                             && forall j | k <= j < i :: !EditedSince(files[j], db.records)
    decreases |files| - k
  {
    if k < |files| {
      if EditedSince(files[k], db.records) {
        assert ApplyFrom(exec, files, k, db, faults, applied, skipped) == (db, ChecksumMismatch(files[k].version));
      } else {
        AppliedFilesExactly(exec, files, k + 1, db, faults, applied, skipped + 1);
      }
    }
  }

  /** Up to the first file that has been edited everything being applied, the call is refused there and leaves the
      database as it was. */
  lemma EditedFileRefused<S>(exec: (S, Stmt) -> Option<S>, files: seq<MigrationFile>, i: nat, db: Db<S>, faults: Faults)
    requires i < |files| && EditedSince(files[i], db.records)
    requires forall j | 0 <= j < i :: files[j].version in db.records && db.records[files[j].version].status == Applied
                                      && !EditedSince(files[j], db.records)
    ensures ApplyFrom(exec, files, 0, db, faults, 0, 0) == (db, ChecksumMismatch(files[i].version))
  {
    AppliedFilesExactly(exec, files[..i], 0, db, faults, 0, 0);
    EditedFileStops(exec, files, 0, i, db, faults, 0, 0);
  }

  /** A call completes only if no file has been edited since. */
  lemma CompletesUnedited<S>(exec: (S, Stmt) -> Option<S>, files: seq<MigrationFile>, db: Db<S>, faults: Faults)
    requires ApplyFrom(exec, files, 0, db, faults, 0, 0).1.Completed?
    ensures forall i | 0 <= i < |files| :: !EditedSince(files[i], db.records)
  {
    forall i | 0 <= i < |files| && EditedSince(files[i], db.records) ensures false {
      EditedFileStops(exec, files, 0, i, db, faults, 0, 0);
    }
  }

  // ---------------------------------------------------------------- a second apply

  lemma {:induction false} CompletedAppliesAll<S>(exec: (S, Stmt) -> Option<S>, files: seq<MigrationFile>, i: nat, db: Db<S>, faults: Faults,
                                                  applied: nat, skipped: nat, j: nat)
    requires forall a, b | 0 <= a < b < |files| :: files[a].version != files[b].version
    requires i <= |files| && j < |files|
    requires ApplyFrom(exec, files, i, db, faults, applied, skipped).1.Completed?
    requires j < i ==> IsApplied(db.records, files[j].version)
                       && IsChecksumCompatible(files[j].version, db.records[files[j].version].checksum, files[j].checksum)
    ensures var db' := ApplyFrom(exec, files, i, db, faults, applied, skipped).0;
            && IsApplied(db'.records, files[j].version)
            && IsChecksumCompatible(files[j].version, db'.records[files[j].version].checksum, files[j].checksum)
    decreases |files| - i
  {
    if i < |files| {
      var f := files[i];
      if IsApplied(db.records, f.version) {
        CompletedAppliesAll(exec, files, i + 1, db, faults, applied, skipped + 1, j);
      } else {
        var (db', ok) := ApplyOne(exec, f, db, faults);
        CompletedAppliesAll(exec, files, i + 1, db', faults, applied + 1, skipped, j);
      }
    }
  }

  lemma {:induction false} ApplyAllApplied<S>(exec: (S, Stmt) -> Option<S>, files: seq<MigrationFile>, i: nat, db: Db<S>, faults: Faults,
                                              skipped: nat)
    requires i <= |files|
    requires forall j | i <= j < |files| ::
               && IsApplied(db.records, files[j].version)
               && IsChecksumCompatible(files[j].version, db.records[files[j].version].checksum, files[j].checksum)
    ensures ApplyFrom(exec, files, i, db, faults, 0, skipped) == (db, Completed(|files|, 0, skipped + (|files| - i)))
    decreases |files| - i
  {
    if i < |files| {
      ApplyAllApplied(exec, files, i + 1, db, faults, skipped + 1);
    }
  }

  /** After an apply call that completed, another one executes nothing, changes nothing and skips every
      file - whatever faults lie in wait, and whatever the records were before. */
  lemma SecondApplyDoesNothing<S>(exec: (S, Stmt) -> Option<S>, files: seq<MigrationFile>, db: Db<S>, faults: Faults, later: Faults)
    requires forall a, b | 0 <= a < b < |files| :: files[a].version != files[b].version
    requires ApplyFrom(exec, files, 0, db, faults, 0, 0).1.Completed?
    ensures var db' := ApplyFrom(exec, files, 0, db, faults, 0, 0).0;
            ApplyFrom(exec, files, 0, db', later, 0, 0) == (db', Completed(|files|, 0, |files|))
  {
    var db' := ApplyFrom(exec, files, 0, db, faults, 0, 0).0;
    forall j | 0 <= j < |files|
      ensures IsApplied(db'.records, files[j].version)
      ensures IsChecksumCompatible(files[j].version, db'.records[files[j].version].checksum, files[j].checksum)
    {
      CompletedAppliesAll(exec, files, 0, db, faults, 0, 0, j);
    }
    ApplyAllApplied(exec, files, 0, db', later, 0);
  }

  // ---------------------------------------------------------------- where the prefix is lost

  /** Rolling one applied version back by name keeps the applied versions a prefix exactly when it is the
      last applied one. */
  lemma RollbackByVersionPrefix<S>(exec: (S, Stmt) -> Option<S>, files: seq<MigrationFile>, disk: map<string, seq<Stmt>>, db: Db<S>, k: nat, i: nat, faults: Faults)
    requires Distinct(files) && PrefixApplied(files, db.records, k) && i < k
    requires files[i].version in db.records
    requires RollbackOne(exec, disk, files[i].version, db, faults).1.Rolled?
    ensures (exists k' :: PrefixApplied(files, RollbackOne(exec, disk, files[i].version, db, faults).0.records, k')) <==> i == k - 1
  {
    var db' := RollbackOne(exec, disk, files[i].version, db, faults).0;
    assert !IsApplied(db'.records, files[i].version);
    assert forall v | v != files[i].version :: IsApplied(db'.records, v) == IsApplied(db.records, v);
    if i == k - 1 {
      forall v | IsApplied(db'.records, v) ensures exists j :: 0 <= j < k - 1 && files[j].version == v {
        assert IsApplied(db.records, v);
        var j :| 0 <= j < k && files[j].version == v;
        assert 0 <= j < k - 1 && files[j].version == v;
      }
      assert PrefixApplied(files, db'.records, k - 1);
    } else {
      assert IsApplied(db'.records, files[k - 1].version);
    }
  }

  /** Whatever prefix is applied, a rollback by one step takes the last applied file. */
  ghost predicate StepTakesLast(files: seq<MigrationFile>) {
    forall records, k: nat, rows | 0 < k && PrefixApplied(files, records, k) && IsNewestApplied(records, 1, rows) ::
      rows == [files[k - 1].version]
  }

  function FirstApplied(files: seq<MigrationFile>, n: nat): map<string, Record>
    requires n <= |files|
  {
    if n == 0 then map[] else FirstApplied(files, n - 1)[files[n - 1].version := AppliedRecord(files[n - 1])]
  }

  lemma {:induction false} FirstAreApplied(files: seq<MigrationFile>, n: nat)
    requires n <= |files| && Distinct(files)
    ensures PrefixApplied(files, FirstApplied(files, n), n)
  {
    if n > 0 {
      FirstAreApplied(files, n - 1);
      PrefixAfterRecord(files, FirstApplied(files, n - 1), n - 1, n - 1, AppliedRecord(files[n - 1]));
    }
  }

  /** The first file that is out of numeric order. */
  lemma {:induction false} FirstOutOfOrder(files: seq<MigrationFile>) returns (j: nat)
    requires !Increasing(files)
    ensures 0 < j < |files| && Num(files[j - 1].version) >= Num(files[j].version)
    ensures forall i | 0 <= i < j - 1 :: Num(files[i].version) < Num(files[j - 1].version)
  {
    hide Num;
    j := 1;
    while j < |files| && Num(files[j - 1].version) < Num(files[j].version)
      invariant 0 < j <= |files| || |files| == 0
      invariant forall a, b | 0 <= a < b < j && b < |files| :: Num(files[a].version) < Num(files[b].version)
    {
      j := j + 1;
    }
  }

  /** The exact condition on the file names: rollbacks by steps take the last applied file, and so keep the
      applied versions a prefix, if and only if the order of the names is the order of the numbers. */
  lemma StepsTakeLastExactly(files: seq<MigrationFile>)
    requires Discovered(files)
    ensures StepTakesLast(files) <==> Increasing(files)
  {
    assert Distinct(files);
    if Increasing(files) {
      forall records, k: nat, rows | 0 < k && PrefixApplied(files, records, k) && IsNewestApplied(records, 1, rows)
        ensures rows == [files[k - 1].version]
      {
        OneStepTakesLast(files, records, k, rows);
      }
    } else {
      var j := FirstOutOfOrder(files);
      FirstAreApplied(files, j + 1);
      OneStepTakesOther(files, FirstApplied(files, j + 1), j);
      assert [files[j - 1].version][0] != [files[j].version][0];
    }
  }

  lemma OneStepTakesLast(files: seq<MigrationFile>, records: map<string, Record>, k: nat, rows: seq<string>)
    requires Increasing(files) && 0 < k && PrefixApplied(files, records, k) && IsNewestApplied(records, 1, rows)
    ensures rows == [files[k - 1].version]
  {
    NewestAreLast(files, records, k, 1, rows, |rows|);
    assert IsApplied(records, files[k - 1].version);
  }

  lemma OneStepTakesOther(files: seq<MigrationFile>, records: map<string, Record>, j: nat)
    requires 0 < j < |files| && PrefixApplied(files, records, j + 1)
    requires Num(files[j - 1].version) >= Num(files[j].version)
    requires forall i | 0 <= i < j - 1 :: Num(files[i].version) < Num(files[j - 1].version)
    ensures IsNewestApplied(records, 1, [files[j - 1].version])
  {
    hide Num;
    var row := files[j - 1].version;
    forall v | IsApplied(records, v) ensures Num(row) >= Num(v) {
      var i :| 0 <= i < j + 1 && files[i].version == v;
      assert i < j - 1 || i == j - 1 || i == j;
    }
  }

  /** Without equal widths the two orders part: "10_a.sql" sorts before "9_a.sql", and with both applied,
      a rollback by one step takes 10 and leaves 9, which is not a prefix of the file list. */
  lemma UnequalWidthsLoseThePrefix()
    ensures var files := [MigrationFile("10", "10_a.sql", "", [], None), MigrationFile("9", "9_a.sql", "", [], None)];
            && Discovered(files) && !EqualWidth(files)
            && (forall records | PrefixApplied(files, records, 2) :: IsNewestApplied(records, 1, ["10"]))
            && (forall records, k | IsApplied(records, "9") && !IsApplied(records, "10") :: !PrefixApplied(files, records, k))
  {
    var files := [MigrationFile("10", "10_a.sql", "", [], None), MigrationFile("9", "9_a.sql", "", [], None)];
    assert "10" + "_" == "10_" <= "10_a.sql" && "9" + "_" == "9_" <= "9_a.sql";
    assert "10"[1..] == "0" && "0"[1..] == "" && "9"[1..] == "";
    assert Pow10(0) == 1 && Pow10(1) == 10;
    assert Num("0") == 0 && Num("10") == 10 && Num("9") == 9;
    forall records | PrefixApplied(files, records, 2) ensures IsNewestApplied(records, 1, ["10"]) {
      assert IsApplied(records, files[0].version) && IsApplied(records, files[1].version);
      forall v | IsApplied(records, v) && v !in ["10"] ensures Num("10") >= Num(v) {
        var i :| 0 <= i < 2 && files[i].version == v;
        assert v == "9" || v == "10";
      }
    }
    forall records, k | IsApplied(records, "9") && !IsApplied(records, "10") ensures !PrefixApplied(files, records, k) {
      assert files[0].version == "10" && files[1].version == "9";
    }
  }
}
