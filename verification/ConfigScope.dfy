/** The scope of a configuration request, and the configuration a query for it yields. */
module ConfigScope {
  import opened Wrappers

  /** A configuration message: version, engine and the rest of its content. */
  datatype EngineConfig = EngineConfig(version: nat, engineId: string, settings: string)

  const NO_CONFIG := EngineConfig(0, "", "")

  datatype Scope = Scope(tenantId: string, engineId: string)

  /** What the database answers.  `payload` is the message the stored JSON converts to, if it does. */
  datatype QueryOutcome =
    | Unavailable                                            // no DAO or no connection
    | Missing                                                // not found, or no rows
    | QueryFailed
    | Row(payload: Option<EngineConfig>, version: Option<nat>)

  function MakeConfigScope(engineId: string): (scope: Scope)
    ensures scope.tenantId == "default"
    ensures engineId != "" ==> scope.engineId == engineId
    ensures engineId == "" ==> scope.engineId == "default"
  {
    Scope("default", if engineId == "" then "default" else engineId)
  }

  /** The version of the configuration a query yields; 0 stands for a failed query. */
  function QueryVersion(q: QueryOutcome): nat {
    match q
    case Unavailable => 0
    case Missing => 1
    case QueryFailed => 0
    case Row(payload, version) => if payload.Some? && version.Some? then version.value else 0
  }

  /**
    A configuration with a version always names its engine: the stored one if it names any, else the
    one asked for.  The version is the row's, whatever the payload says.
  */
  method QueryEngineConfig(scope: Scope, q: QueryOutcome) returns (config: EngineConfig)
    ensures config.version == QueryVersion(q)
    ensures scope.engineId != "" && config.version > 0 ==> config.engineId != ""
    ensures q.Missing? ==> config.engineId == scope.engineId && config.settings == ""
    ensures q.Row? && q.payload.Some? ==>
              && config.settings == q.payload.value.settings
              && config.engineId == if q.payload.value.engineId == "" then scope.engineId else q.payload.value.engineId
    ensures q.Row? && q.payload.Some? ==> config.version == if q.version.Some? then q.version.value else 0
    ensures q.Unavailable? || q.QueryFailed? || (q.Row? && q.payload.None?) ==> config == EngineConfig(0, "", "")
  {
    config := NO_CONFIG;
    if q.Unavailable? {
      return;
    }
    if q.Missing? {
      config := config.(version := 1);
      config := config.(engineId := scope.engineId);
      return;
    }
    if q.QueryFailed? || q.payload.None? {
      return;
    }
    config := q.payload.value;
    config := config.(version := if q.version.Some? then q.version.value else 0);
    if config.engineId == "" {
      config := config.(engineId := scope.engineId);
    }
  }

  /** The answer to a request: whatever engine it names, a configuration with a version names one. */
  method GetEngineConfig(engineId: string, q: QueryOutcome) returns (config: EngineConfig)
    ensures config.version == QueryVersion(q)
    ensures config.version > 0 ==> config.engineId != ""
    ensures q.Missing? ==> config == EngineConfig(1, if engineId == "" then "default" else engineId, "")
  {
    config := QueryEngineConfig(MakeConfigScope(engineId), q);
  }
}
