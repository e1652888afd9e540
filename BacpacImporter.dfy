/**
 * The emulator's start-up seeding: `BacpacImporter.EnsureDatabaseSeededAsync`
 * and the `BacpacImportState` flag that only it writes. SQL Server and
 * DacFx are outside the model: whether the `Batch` table exists, whether the
 * bacpac file exists and whether the import succeeds are parameters.
 */
module BacpacImporter {
  import opened Wrappers
  import MetadataImporter

  /** `BacpacImportState`: set once the catalog database holds the seed data; never cleared. */
  class BacpacImportState {
    var completed: bool

    constructor ()
      ensures !completed
    {
      completed := false;
    }

    /** `MarkCompleted`: idempotent, and the only writer of the flag. */
    method MarkCompleted()
      modifies this
      ensures completed
    {
      completed := true;
    }
  }

  /** What the seeding does to the database server, in order. */
  datatype SeedStep =
    | ExecuteOnMaster(connection: string, batch: seq<MetadataImporter.Statement>)
    | ImportBacpac(connection: string, database: string, path: string)

  datatype SeedError =
    | BacpacNotFound(path: string)   // FileNotFoundException
    | ImportFailed(reason: string)   // whatever DacFx throws

  /**
   * The batch `EnsureDatabaseExistsAsync` runs on `master`: create the
   * database unless it exists. The name is quoted the way
   * `MetadataImporter.EscapeSqlIdentifier` quotes it, so the statement acts
   * on exactly that database whatever quotes or brackets it holds.
   */
  function EnsureDatabaseExistsSql(databaseName: string): (r: seq<MetadataImporter.Statement>)
    ensures |r| == 1 && r[0].CreateDatabaseIfMissing?
    ensures MetadataImporter.Target(r[0]) == Some(databaseName)
  {
    [MetadataImporter.CreateDatabaseIfMissing(MetadataImporter.NLiteral(databaseName), MetadataImporter.EscapeSqlIdentifier(databaseName))]
  }

  /**
   * `EnsureDatabaseSeededAsync`. An existing `Batch` table marks the state
   * completed and imports nothing; otherwise a missing bacpac throws and
   * leaves the flag alone; otherwise the database is created if missing,
   * the bacpac imported, and only a finished import marks the state
   * completed. `importOutcome` is `None` for a successful DacFx import and
   * the failure otherwise.
   */
  method EnsureDatabaseSeeded(
    state: BacpacImportState,
    connectionString: string,
    databaseName: string,
    bacpacPath: string,
    batchTableExists: bool,
    bacpacExists: bool,
    importOutcome: Option<string>)
    returns (steps: seq<SeedStep>, error: Option<SeedError>)
    modifies state
    ensures old(state.completed) ==> state.completed
    ensures state.completed <==> old(state.completed) || error.None?
    ensures batchTableExists ==> steps == [] && error.None?
    ensures !batchTableExists && !bacpacExists ==> steps == [] && error == Some(BacpacNotFound(bacpacPath))
    ensures !batchTableExists && bacpacExists ==>
      && steps == [ExecuteOnMaster(connectionString, EnsureDatabaseExistsSql(databaseName)),
                   ImportBacpac(connectionString, databaseName, bacpacPath)]
      && (error.None? <==> importOutcome.None?)
      && (importOutcome.Some? ==> error == Some(ImportFailed(importOutcome.value)))
    ensures error.None? ==> batchTableExists || (bacpacExists && importOutcome.None?)
  {
    if batchTableExists {
      state.MarkCompleted();
      return [], None;
    }
    if !bacpacExists {
      return [], Some(BacpacNotFound(bacpacPath));
    }
    steps := [ExecuteOnMaster(connectionString, EnsureDatabaseExistsSql(databaseName))];
    steps := steps + [ImportBacpac(connectionString, databaseName, bacpacPath)];
    if importOutcome.Some? {
      return steps, Some(ImportFailed(importOutcome.value));
    }
    state.MarkCompleted();
    error := None;
  }
}
