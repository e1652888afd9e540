/**
 * `MetadataImporter`: exports the source catalog database to
 * `metadata.bacpac`, drops and recreates the local emulator database, and
 * imports the bacpac into it. SQL Server, DacFx and the file system are
 * outside the model: the database a connection string reaches is a function
 * parameter, and the run is described by the steps it takes in order. The
 * T-SQL quoting the drop-and-create batch relies on is modelled exactly,
 * together with the way SQL Server reads it back.
 */
module MetadataImporter {
  import opened Wrappers
  import opened Text
  import Catalog
  import ConfigurationReader

  /** `EscapeSqlIdentifier`: bracket quoting, every `]` of the name written twice. */
  function EscapeSqlIdentifier(identifier: string): (r: string)
    ensures |r| == |identifier| + 2 + Count(identifier, ']')
    ensures UnescapeSqlIdentifier(r) == Some(identifier)
  {
    DoubleLength(identifier, ']');
    UndoubleDouble(identifier, ']');
    var r := "[" + Double(identifier, ']') + "]";
    assert r[1..|r| - 1] == Double(identifier, ']');
    r
  }

  /**
   * How T-SQL reads a bracket-quoted identifier: inside the brackets `]]`
   * stands for `]`, and a `]` that is not doubled would end the identifier
   * early, so the text is not one quoted identifier.
   */
  function UnescapeSqlIdentifier(t: string): Option<string>
  {
    if |t| >= 2 && t[0] == '[' && t[|t| - 1] == ']' then Undouble(t[1..|t| - 1], ']') else None
  }

  /** A bracket-quoted identifier reads back as a name exactly when it is that name escaped. */
  lemma EscapeSqlIdentifierInverse(s: string, t: string)
    ensures UnescapeSqlIdentifier(t) == Some(s) <==> t == EscapeSqlIdentifier(s)
  {
    if UnescapeSqlIdentifier(t) == Some(s) {
      UnescapedIsEscape(s, t);
    }
  }

  lemma UnescapedIsEscape(s: string, t: string)
    requires UnescapeSqlIdentifier(t) == Some(s)
    ensures t == EscapeSqlIdentifier(s)
  {
    var inner := t[1..|t| - 1];
    DoubleUndouble(inner, ']', s);
    assert t == [t[0]] + inner + [t[|t| - 1]];
  }

  /** The `N'...'` argument of `DB_ID`: every `'` of the name written twice. */
  function NLiteral(s: string): (r: string)
    ensures |r| == |s| + 3 + Count(s, '\'')
    ensures ReadNLiteral(r) == Some(s)
  {
    DoubleLength(s, '\'');
    UndoubleDouble(s, '\'');
    var r := "N'" + Double(s, '\'') + "'";
    assert r[2..|r| - 1] == Double(s, '\'');
    r
  }

  /** How T-SQL reads an `N'...'` literal: inside the quotes `''` stands for `'`. */
  function ReadNLiteral(t: string): Option<string>
  {
    if |t| >= 3 && t[0] == 'N' && t[1] == '\'' && t[|t| - 1] == '\'' then Undouble(t[2..|t| - 1], '\'') else None
  }

  /** An `N'...'` literal reads back as a name exactly when it is that name quoted. */
  lemma NLiteralInverse(s: string, t: string)
    ensures ReadNLiteral(t) == Some(s) <==> t == NLiteral(s)
  {
    if ReadNLiteral(t) == Some(s) {
      ReadIsNLiteral(s, t);
    }
  }

  lemma ReadIsNLiteral(s: string, t: string)
    requires ReadNLiteral(t) == Some(s)
    ensures t == NLiteral(s)
  {
    var inner := t[2..|t| - 1];
    DoubleUndouble(inner, '\'', s);
    assert t == [t[0], t[1]] + inner + [t[|t| - 1]];
  }

  /**
   * The statements of the batches sent to `master`; `name` is the literal
   * passed to `DB_ID` and `identifier` the quoted database name.
   */
  datatype Statement =
    | DropDatabaseIfExists(name: string, identifier: string)
      // IF DB_ID(<name>) IS NOT NULL BEGIN ALTER DATABASE <identifier> SET SINGLE_USER WITH ROLLBACK IMMEDIATE; DROP DATABASE <identifier>; END;
    | CreateDatabase(identifier: string)
      // CREATE DATABASE <identifier>;
    | CreateDatabaseIfMissing(name: string, identifier: string)
      // IF DB_ID(<name>) IS NULL BEGIN CREATE DATABASE <identifier>; END

  /** Both readings, when they agree. */
  function Agreed(a: Option<string>, b: Option<string>): Option<string>
  {
    if a.Some? && b == a then a else None
  }

  /**
   * The database a statement acts on, as SQL Server reads its quoted parts;
   * `None` when a part does not read as one name or the parts disagree.
   */
  function Target(st: Statement): Option<string>
  {
    match st
    case DropDatabaseIfExists(name, identifier) => Agreed(ReadNLiteral(name), UnescapeSqlIdentifier(identifier))
    case CreateDatabase(identifier) => UnescapeSqlIdentifier(identifier)
    case CreateDatabaseIfMissing(name, identifier) => Agreed(ReadNLiteral(name), UnescapeSqlIdentifier(identifier))
  }

  /**
   * The batch `DropAndRecreateDatabaseAsync` runs: drop the database if it
   * exists, then create it. Whatever quotes or brackets the name holds,
   * every statement acts on exactly that database.
   */
  function DropAndRecreateSql(targetDatabaseName: string): (r: seq<Statement>)
    ensures |r| == 2 && r[0].DropDatabaseIfExists? && r[1].CreateDatabase?
    ensures forall i :: 0 <= i < |r| ==> Target(r[i]) == Some(targetDatabaseName)
  {
    [ DropDatabaseIfExists(NLiteral(targetDatabaseName), EscapeSqlIdentifier(targetDatabaseName)),
      CreateDatabase(EscapeSqlIdentifier(targetDatabaseName)) ]
  }

  /** What the import does to files and databases, in order; paths are segments under the data image directory. */
  datatype Step =
    | CreateDirectory(path: seq<string>)
    | DeleteFile(path: seq<string>)
    | ExportBacpac(connection: string, database: string, path: seq<string>)
    | ExecuteOnMaster(connection: string, batch: seq<Statement>)
    | ImportBacpac(connection: string, database: string, path: seq<string>)

  datatype MetadataError =
    | Config(error: ConfigurationReader.ConfigError)
    | SourceDatabaseUnknown                          // InvalidOperationException
    | UnexpectedTargetDatabase(name: Option<string>) // InvalidOperationException

  /** No step of `steps` runs SQL against a database other than the emulator's. */
  predicate OnlyEmulatorDatabaseTouched(steps: seq<Step>)
  {
    forall i, j :: 0 <= i < |steps| && steps[i].ExecuteOnMaster? && 0 <= j < |steps[i].batch| ==>
      Target(steps[i].batch[j]).Some? && EqualsIgnoreCase(Target(steps[i].batch[j]).value, Catalog.FileShareEmulatorDatabase)
  }

  /**
   * `ExportAndImportBacpacAsync`. `dbName` is `SELECT DB_NAME()` over a
   * connection string (null when the server returns none). An existing
   * bacpac is deleted first; a blank source name or a target other than
   * the emulator database (ignoring case) stops the run before any export;
   * otherwise export, drop and recreate, and import follow in that order.
   */
  method ExportAndImportBacpac(
    sourceConnection: string,
    targetConnection: string,
    bacpacPath: seq<string>,
    bacpacExists: bool,
    dbName: string -> Option<string>)
    returns (steps: seq<Step>, error: Option<MetadataError>)
    ensures var source := dbName(sourceConnection);
      var target := dbName(targetConnection);
      && (error.None? <==> !IsNullOrWhiteSpace(source) && NullableEqualsIgnoreCase(target, Some(Catalog.FileShareEmulatorDatabase)))
      && (IsNullOrWhiteSpace(source) ==> error == Some(SourceDatabaseUnknown))
      && (!IsNullOrWhiteSpace(source) && !NullableEqualsIgnoreCase(target, Some(Catalog.FileShareEmulatorDatabase)) ==>
            error == Some(UnexpectedTargetDatabase(target)))
    ensures var deleted := if bacpacExists then [DeleteFile(bacpacPath)] else [];
      && (error.Some? ==> steps == deleted)
      && (error.None? ==> steps == deleted + [
            ExportBacpac(sourceConnection, dbName(sourceConnection).value, bacpacPath),
            ExecuteOnMaster(targetConnection, DropAndRecreateSql(dbName(targetConnection).value)),
            ImportBacpac(targetConnection, dbName(targetConnection).value, bacpacPath)])
    ensures OnlyEmulatorDatabaseTouched(steps)
  {
    steps := [];
    if bacpacExists {
      steps := steps + [DeleteFile(bacpacPath)];
    }
    var sourceDbName := dbName(sourceConnection);
    if IsNullOrWhiteSpace(sourceDbName) {
      return steps, Some(SourceDatabaseUnknown);
    }
    var targetDbName := dbName(targetConnection);
    if !NullableEqualsIgnoreCase(targetDbName, Some(Catalog.FileShareEmulatorDatabase)) {
      return steps, Some(UnexpectedTargetDatabase(targetDbName));
    }
    steps := steps + [ExportBacpac(sourceConnection, sourceDbName.value, bacpacPath)];
    var batch := DropAndRecreateSql(targetDbName.value);
    steps := steps + [ExecuteOnMaster(targetConnection, batch)];
    steps := steps + [ImportBacpac(targetConnection, targetDbName.value, bacpacPath)];
    error := None;
  }

  /**
   * `ImportAsync`, with the constructor's read of the source connection
   * string before it: the settings come first, then the bacpac directory is
   * created and the export and import run on `<dataImagePath>/metadata.bacpac`.
   */
  method ImportAsync(
    file: ConfigurationReader.ConfigFile,
    env: ConfigurationReader.Environment,
    bacpacExists: bool,
    dbName: string -> Option<string>)
    returns (steps: seq<Step>, error: Option<MetadataError>)
    ensures var source := ConfigurationReader.GetSourceDatabaseConnectionString(file);
      var target := ConfigurationReader.GetTargetDatabaseConnectionString(env, Catalog.FileShareEmulatorDatabase);
      var dir := ConfigurationReader.GetDataImagePath(file);
      && (source.Err? ==> steps == [] && error == Some(Config(source.error)))
      && (source.Ok? && target.Err? ==> steps == [] && error == Some(Config(target.error)))
      && (source.Ok? && target.Ok? && dir.Err? ==> steps == [] && error == Some(Config(dir.error)))
    ensures var source := ConfigurationReader.GetSourceDatabaseConnectionString(file);
      var target := ConfigurationReader.GetTargetDatabaseConnectionString(env, Catalog.FileShareEmulatorDatabase);
      var dir := ConfigurationReader.GetDataImagePath(file);
      source.Ok? && target.Ok? && dir.Ok? ==>
        var path := [dir.value, "metadata.bacpac"];
        var sourceName := dbName(source.value);
        var targetName := dbName(target.value);
        && (error.None? <==>
              !IsNullOrWhiteSpace(sourceName) && NullableEqualsIgnoreCase(targetName, Some(Catalog.FileShareEmulatorDatabase)))
        && (IsNullOrWhiteSpace(sourceName) ==> error == Some(SourceDatabaseUnknown))
        && (!IsNullOrWhiteSpace(sourceName) && !NullableEqualsIgnoreCase(targetName, Some(Catalog.FileShareEmulatorDatabase)) ==>
              error == Some(UnexpectedTargetDatabase(targetName)))
        && steps == [CreateDirectory([dir.value])]
             + (if bacpacExists then [DeleteFile(path)] else [])
             + (if error.None? then
                  [ ExportBacpac(source.value, sourceName.value, path),
                    ExecuteOnMaster(target.value, DropAndRecreateSql(targetName.value)),
                    ImportBacpac(target.value, targetName.value, path) ]
                else [])
    ensures OnlyEmulatorDatabaseTouched(steps)
  {
    var source := ConfigurationReader.GetSourceDatabaseConnectionString(file);
    if source.Err? {
      return [], Some(Config(source.error));
    }
    var target := ConfigurationReader.GetTargetDatabaseConnectionString(env, Catalog.FileShareEmulatorDatabase);
    if target.Err? {
      return [], Some(Config(target.error));
    }
    var dir := ConfigurationReader.GetDataImagePath(file);
    if dir.Err? {
      return [], Some(Config(dir.error));
    }
    var rest;
    rest, error := ExportAndImportBacpac(source.value, target.value, [dir.value, "metadata.bacpac"], bacpacExists, dbName);
    steps := [CreateDirectory([dir.value])] + rest;
  }

  /** `ProgressDataReader` reports every this many rows. */
  const ReportEvery := 1000

  /** The reader's counter and the values handed to `onRow` so far, in order. */
  datatype Progress = Progress(sinceLast: int, reports: seq<int>)

  /** One `Read`: the inner reader answered `hasRow`. */
  function Advance(p: Progress, hasRow: bool): Progress
  {
    if hasRow then
      if p.sinceLast + 1 >= ReportEvery then Progress(0, p.reports + [p.sinceLast + 1])
      else Progress(p.sinceLast + 1, p.reports)
    else if p.sinceLast > 0 then Progress(0, p.reports + [p.sinceLast])
    else p
  }

  /** The state after the inner reader has answered `answers`, one `Read` each. */
  function Replay(answers: seq<bool>): Progress
  {
    if answers == [] then Progress(0, [])
    else Advance(Replay(answers[..|answers| - 1]), answers[|answers| - 1])
  }

  function Sum(xs: seq<int>): int
  {
    if xs == [] then 0 else Sum(xs[..|xs| - 1]) + xs[|xs| - 1]
  }

  /** The rows read: the `true` answers. */
  function RowCount(answers: seq<bool>): nat
  {
    if answers == [] then 0 else RowCount(answers[..|answers| - 1]) + (if answers[|answers| - 1] then 1 else 0)
  }

  lemma SumAppend(xs: seq<int>, x: int)
    ensures Sum(xs + [x]) == Sum(xs) + x
  {
    assert (xs + [x])[..|xs|] == xs;
  }

  /**
   * Between calls the counter stays in `[0, 1000)`, every value handed to
   * `onRow` is in `(0, 1000]` (never 0), and the values handed over plus the
   * counter add up to the rows read.
   */
  predicate Consistent(p: Progress, rows: int)
  {
    && 0 <= p.sinceLast < ReportEvery
    && (forall i :: 0 <= i < |p.reports| ==> 0 < p.reports[i] <= ReportEvery)
    && Sum(p.reports) + p.sinceLast == rows
  }

  /** One `Read` keeps the state consistent with one more row when the inner reader had one. */
  lemma AdvanceConsistent(p: Progress, rows: int, hasRow: bool)
    requires Consistent(p, rows)
    ensures Consistent(Advance(p, hasRow), rows + (if hasRow then 1 else 0))
  {
    if hasRow && p.sinceLast + 1 >= ReportEvery {
      SumAppend(p.reports, p.sinceLast + 1);
    } else if !hasRow && p.sinceLast > 0 {
      SumAppend(p.reports, p.sinceLast);
    }
  }

  lemma {:induction false} ReplayInvariant(answers: seq<bool>)
    ensures Consistent(Replay(answers), RowCount(answers))
  {
    if answers != [] {
      var prefix := answers[..|answers| - 1];
      ReplayInvariant(prefix);
      AdvanceConsistent(Replay(prefix), RowCount(prefix), answers[|answers| - 1]);
    }
  }

  /** After the inner reader reports the end of data, the values handed to `onRow` alone add up to the rows read. */
  lemma ReplayAtEnd(answers: seq<bool>)
    requires answers != [] && !answers[|answers| - 1]
    ensures Replay(answers).sinceLast == 0 && Sum(Replay(answers).reports) == RowCount(answers)
  {
    ReplayInvariant(answers);
  }

  /** `n` answers `true`: `n` rows. */
  function AllRows(n: nat): (r: seq<bool>)
    ensures |r| == n && forall i :: 0 <= i < n ==> r[i]
  {
    seq(n, _ => true)
  }

  /** `k` reports of a full thousand. */
  function Thousands(k: nat): (r: seq<int>)
    ensures |r| == k && forall i :: 0 <= i < k ==> r[i] == ReportEvery
  {
    seq(k, _ => ReportEvery)
  }

  /** Over `n` rows `onRow` gets 1000 once per full thousand, and the counter holds the rest. */
  lemma {:induction false} ReplayRows(n: nat)
    ensures Replay(AllRows(n)) == Progress(n % ReportEvery, Thousands(n / ReportEvery))
  {
    if n > 0 {
      ReplayRows(n - 1);
      assert AllRows(n)[..n - 1] == AllRows(n - 1);
      var q, r := (n - 1) / ReportEvery, (n - 1) % ReportEvery;
      assert n - 1 == q * ReportEvery + r;
      if r + 1 == ReportEvery {
        assert n == (q + 1) * ReportEvery;
        assert Thousands(q) + [ReportEvery] == Thousands(q + 1);
      } else {
        assert n == q * ReportEvery + (r + 1);
      }
    }
  }

  /**
   * Reading `n` rows and then the end of data: one 1000 per full thousand,
   * then the remainder if it is not 0, and the counter back at 0.
   */
  lemma ReadToEnd(n: nat)
    ensures Replay(AllRows(n) + [false])
      == Progress(0, Thousands(n / ReportEvery) + (if n % ReportEvery == 0 then [] else [n % ReportEvery]))
  {
    ReplayRows(n);
    assert (AllRows(n) + [false])[..n] == AllRows(n);
  }

  /**
   * `ProgressDataReader`: wraps the bulk-copy reader and calls `onRow` with
   * the rows read since the last call, every 1000 rows and once more at the
   * end of data. `reports` records those calls; `answers` is the inner
   * reader's answers so far.
   */
  class ProgressDataReader {
    var sinceLast: int
    var reports: seq<int>
    ghost var answers: seq<bool>

    ghost predicate Valid()
      reads this
    {
      Progress(sinceLast, reports) == Replay(answers)
    }

    constructor ()
      ensures Valid() && answers == [] && sinceLast == 0 && reports == []
    {
      sinceLast := 0;
      reports := [];
      answers := [];
    }

    /** `Read`: returns the inner reader's answer, counting the row or flushing the count. */
    method Read(hasRow: bool) returns (r: bool)
      requires Valid()
      modifies this
      ensures Valid() && answers == old(answers) + [hasRow] && r == hasRow
      ensures Consistent(Progress(sinceLast, reports), RowCount(answers))
    {
      if hasRow {
        sinceLast := sinceLast + 1;
        if sinceLast >= ReportEvery {
          reports := reports + [sinceLast];
          sinceLast := 0;
        }
      } else if sinceLast > 0 {
        reports := reports + [sinceLast];
        sinceLast := 0;
      }
      answers := answers + [hasRow];
      assert answers[..|answers| - 1] == old(answers);
      ReplayInvariant(answers);
      r := hasRow;
    }
  }
}
