/**
 * Settings lookup for the image builder: string, optional string and
 * positive-integer properties of `configuration.override.json`, plus two
 * environment variables. The JSON document and the process environment are
 * parameters; a getter that throws returns `Err` with the reason.
 */
module ConfigurationReader {
  import opened Wrappers
  import Text

  /** A JSON number as `JsonElement.TryGetInt32` sees it: a plain integer literal, or anything else. */
  datatype JsonNumber = Integer(value: int) | NonInteger

  /** A property value of the configuration document (nested structure is not looked into). */
  datatype JsonValue = JString(text: string) | JNumber(number: JsonNumber) | JNull | JBool(b: bool) | JArray | JObject

  /** The root element of the parsed document. */
  datatype JsonRoot = Object(properties: map<string, JsonValue>) | NotAnObject

  /** `configuration.override.json` next to the executable. */
  datatype ConfigFile = Missing | Unparsable | Parsed(root: JsonRoot)

  /** The process environment: variable name to value; an absent name reads as null. */
  type Environment = map<string, string>

  /** The .NET exception type a failing getter throws. */
  datatype ExceptionKind = FileNotFoundException | JsonException | InvalidOperationException | ArgumentException

  datatype ConfigError =
    | OverrideFileMissing
    | OverrideFileInvalid
    | RootNotAnObject
    | PropertyMissing(name: string)
    | PropertyNotAString(name: string)
    | PropertyBlank(name: string)
    | PropertyNotPositiveInt32(name: string)
    | DatabaseNameBlank
    | ConnectionStringMissing(variable: string)
  {
    function Kind(): ExceptionKind
    {
      match this
      case OverrideFileMissing => FileNotFoundException
      case OverrideFileInvalid => JsonException
      case DatabaseNameBlank => ArgumentException
      case _ => InvalidOperationException
    }
  }

  const Int32Max := 0x7FFF_FFFF
  const Int32Min := -0x8000_0000

  /** `ReadOverrideConfiguration`: the parsed document, or why it cannot be read. */
  function ReadOverrideConfiguration(file: ConfigFile): (r: Result<JsonRoot, ConfigError>)
    ensures file.Missing? ==> r == Err(OverrideFileMissing)
    ensures file.Unparsable? ==> r == Err(OverrideFileInvalid)
    ensures file.Parsed? ==> r == Ok(file.root)
  {
    match file
    case Missing => Err(OverrideFileMissing)
    case Unparsable => Err(OverrideFileInvalid)
    case Parsed(root) => Ok(root)
  }

  /** `JsonElement.TryGetProperty`: throws on a root that is not an object. */
  function TryGetProperty(root: JsonRoot, name: string): Result<Option<JsonValue>, ConfigError>
  {
    match root
    case NotAnObject => Err(RootNotAnObject)
    case Object(props) => Ok(if name in props then Some(props[name]) else None)
  }

  /** `JsonElement.GetString`: the text of a string, null for a JSON null, otherwise a throw. */
  function GetString(v: JsonValue, name: string): Result<Option<string>, ConfigError>
  {
    match v
    case JString(text) => Ok(Some(text))
    case JNull => Ok(None)
    case _ => Err(PropertyNotAString(name))
  }

  /** A JSON null, or a JSON string that is empty or all white space. */
  predicate IsNullOrBlankString(v: JsonValue)
  {
    v == JNull || (v.JString? && Text.IsBlank(v.text))
  }

  function GetOptionalStringProperty(root: JsonRoot, name: string): (r: Result<Option<string>, ConfigError>)
    ensures r == Ok(None) <==>
      root.Object? && (name !in root.properties || IsNullOrBlankString(root.properties[name]))
    ensures r.Ok? && r.value.Some? <==>
      root.Object? && name in root.properties && root.properties[name].JString?
      && !Text.IsBlank(root.properties[name].text)
    ensures r.Ok? && r.value.Some? ==> r.value.value == root.properties[name].text
  {
    match TryGetProperty(root, name)
    case Err(e) => Err(e)
    case Ok(None) => Ok(None)
    case Ok(Some(v)) =>
      match GetString(v, name)
      case Err(e) => Err(e)
      case Ok(s) => Ok(if Text.IsNullOrWhiteSpace(s) then None else s)
  }

  function GetRequiredStringProperty(root: JsonRoot, name: string): (r: Result<string, ConfigError>)
    ensures r.Ok? <==>
      root.Object? && name in root.properties && root.properties[name].JString?
      && !Text.IsBlank(root.properties[name].text)
    ensures r.Ok? ==> r.value == root.properties[name].text
    ensures root.Object? && name !in root.properties ==> r == Err(PropertyMissing(name))
    ensures root.Object? && name in root.properties && IsNullOrBlankString(root.properties[name]) ==>
      r == Err(PropertyBlank(name))
    ensures r.Err? ==> r.error.Kind() == InvalidOperationException
  {
    match TryGetProperty(root, name)
    case Err(e) => Err(e)
    case Ok(None) => Err(PropertyMissing(name))
    case Ok(Some(v)) =>
      match GetString(v, name)
      case Err(e) => Err(e)
      case Ok(s) => if Text.IsNullOrWhiteSpace(s) then Err(PropertyBlank(name)) else Ok(s.value)
  }

  /** `JsonElement.TryGetInt32` on a number element. */
  function TryGetInt32(n: JsonNumber): Option<int>
  {
    match n
    case Integer(v) => if Int32Min <= v <= Int32Max then Some(v) else None
    case NonInteger => None
  }

  /** The shared body of `GetDataImageBinSizeGB` and `GetDataImageCount`. */
  function GetPositiveInt32Property(file: ConfigFile, name: string): (r: Result<int, ConfigError>)
    ensures r.Ok? <==>
      file.Parsed? && file.root.Object? && name in file.root.properties
      && file.root.properties[name].JNumber? && file.root.properties[name].number.Integer?
      && 0 < file.root.properties[name].number.value <= Int32Max
    ensures r.Ok? ==> r.value == file.root.properties[name].number.value && 0 < r.value <= Int32Max
    ensures file.Parsed? && file.root.Object? && name !in file.root.properties ==> r == Err(PropertyMissing(name))
  {
    match ReadOverrideConfiguration(file)
    case Err(e) => Err(e)
    case Ok(root) =>
      match TryGetProperty(root, name)
      case Err(e) => Err(e)
      case Ok(None) => Err(PropertyMissing(name))
      case Ok(Some(v)) =>
        if !v.JNumber? then Err(PropertyNotPositiveInt32(name))
        else match TryGetInt32(v.number)
          case None => Err(PropertyNotPositiveInt32(name))
          case Some(x) => if x <= 0 then Err(PropertyNotPositiveInt32(name)) else Ok(x)
  }

  function GetDataImageBinSizeGB(file: ConfigFile): Result<int, ConfigError>
  {
    GetPositiveInt32Property(file, "dataImageBinSizeGB")
  }

  function GetDataImageCount(file: ConfigFile): Result<int, ConfigError>
  {
    GetPositiveInt32Property(file, "dataImageCount")
  }

  /** A required string property read from the override file. */
  function GetRequiredSetting(file: ConfigFile, name: string): (r: Result<string, ConfigError>)
    ensures file.Missing? ==> r == Err(OverrideFileMissing)
    ensures file.Parsed? ==> r == GetRequiredStringProperty(file.root, name)
    ensures r.Ok? ==> !Text.IsBlank(r.value)
  {
    match ReadOverrideConfiguration(file)
    case Err(e) => Err(e)
    case Ok(root) => GetRequiredStringProperty(root, name)
  }

  /** An optional string property read from the override file. */
  function GetOptionalSetting(file: ConfigFile, name: string): (r: Result<Option<string>, ConfigError>)
    ensures file.Missing? ==> r == Err(OverrideFileMissing)
    ensures file.Parsed? ==> r == GetOptionalStringProperty(file.root, name)
    ensures r.Ok? && r.value.Some? ==> !Text.IsBlank(r.value.value)
  {
    match ReadOverrideConfiguration(file)
    case Err(e) => Err(e)
    case Ok(root) => GetOptionalStringProperty(root, name)
  }

  function GetRemoteServiceBaseAddress(file: ConfigFile): Result<string, ConfigError>
  {
    GetRequiredSetting(file, "remoteService")
  }

  function GetSourceDatabaseConnectionString(file: ConfigFile): Result<string, ConfigError>
  {
    GetRequiredSetting(file, "sourceDatabase")
  }

  function GetDataImagePath(file: ConfigFile): Result<string, ConfigError>
  {
    GetRequiredSetting(file, "dataImagePath")
  }

  function GetTenantId(file: ConfigFile): Result<Option<string>, ConfigError>
  {
    GetOptionalSetting(file, "tenantId")
  }

  function GetClientId(file: ConfigFile): Result<Option<string>, ConfigError>
  {
    GetOptionalSetting(file, "clientId")
  }

  /** A non-blank `environment` variable wins; otherwise the required `environment` setting. */
  function GetEnvironmentName(env: Environment, file: ConfigFile): (r: Result<string, ConfigError>)
    ensures "environment" in env && !Text.IsBlank(env["environment"]) ==> r == Ok(env["environment"])
    ensures !("environment" in env && !Text.IsBlank(env["environment"])) ==> r == GetRequiredSetting(file, "environment")
    ensures r.Ok? ==> !Text.IsBlank(r.value)
  {
    if "environment" in env && !Text.IsBlank(env["environment"]) then Ok(env["environment"])
    else GetRequiredSetting(file, "environment")
  }

  function ConnectionStringVariable(databaseName: string): string
  {
    "ConnectionStrings__" + databaseName
  }

  function GetTargetDatabaseConnectionString(env: Environment, databaseName: string): (r: Result<string, ConfigError>)
    ensures Text.IsBlank(databaseName) ==> r == Err(DatabaseNameBlank) && r.error.Kind() == ArgumentException
    ensures !Text.IsBlank(databaseName) ==>
      var v := ConnectionStringVariable(databaseName);
      if v in env && !Text.IsBlank(env[v]) then r == Ok(env[v])
      else r == Err(ConnectionStringMissing(v)) && r.error.Kind() == InvalidOperationException
  {
    if Text.IsBlank(databaseName) then Err(DatabaseNameBlank)
    else
      var v := ConnectionStringVariable(databaseName);
      if v in env && !Text.IsBlank(env[v]) then Ok(env[v]) else Err(ConnectionStringMissing(v))
  }

  /** Without the override file every getter that reads it throws `FileNotFoundException`. */
  lemma MissingOverrideFileFails(env: Environment)
    ensures GetRemoteServiceBaseAddress(Missing) == Err(OverrideFileMissing)
    ensures GetSourceDatabaseConnectionString(Missing) == Err(OverrideFileMissing)
    ensures GetDataImagePath(Missing) == Err(OverrideFileMissing)
    ensures GetTenantId(Missing) == Err(OverrideFileMissing)
    ensures GetClientId(Missing) == Err(OverrideFileMissing)
    ensures GetDataImageBinSizeGB(Missing) == Err(OverrideFileMissing)
    ensures GetDataImageCount(Missing) == Err(OverrideFileMissing)
    ensures !("environment" in env && !Text.IsBlank(env["environment"])) ==>
      GetEnvironmentName(env, Missing) == Err(OverrideFileMissing)
    ensures OverrideFileMissing.Kind() == FileNotFoundException
  {
  }
}
