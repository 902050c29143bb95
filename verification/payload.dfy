/**
 The webhook payload as Python holds it after `json.loads`, and the field
 extraction `handle_webhook` performs on it with chained `dict.get` calls.
 */
module Payload {
  import opened Base

  /**
   A decoded JSON value: `null` becomes None, objects become dicts. Numbers
   are whole numbers here; the handler only passes them along.
   */
  datatype Value =
    | Null
    | Bool(b: bool)
    | Int(i: int)
    | Str(s: string)
    | List(items: seq<Value>)
    | Dict(fields: map<string, Value>)

  /** `d.get(key, default)`: an AttributeError when `d` is not a dict. */
  function Get(d: Value, key: string, default: Value): Result<Value> {
    if !d.Dict? then Raised(NotADict)
    else if key in d.fields then Ok(d.fields[key])
    else Ok(default)
  }

  /**
   The value at a path of object keys, if every step is an object that has
   the key; a reference reading of the payload independent of `dict.get`.
   */
  function Find(v: Value, path: seq<string>): Option<Value>
    decreases |path|
  {
    if |path| == 0 then Some(v)
    else if v.Dict? && path[0] in v.fields then Find(v.fields[path[0]], path[1..])
    else None
  }

  /** The value at `path`, with a missing entry read as None. */
  function FieldAt(v: Value, path: seq<string>): Value {
    match Find(v, path)
    case Some(x) => x
    case None => Null
  }

  /** The value at `path` is an object, or there is none. */
  predicate DictOrAbsent(v: Value, path: seq<string>) {
    Find(v, path).None? || Find(v, path).value.Dict?
  }

  /**
   A payload whose extraction raises nothing: the payload is an object, and
   `repository`, `repository.owner`, `installation` and `deployment` are
   objects where present (a present `null` is not).
   */
  predicate WellShaped(p: Value) {
    && p.Dict?
    && DictOrAbsent(p, ["repository"])
    && DictOrAbsent(p, ["repository", "owner"])
    && DictOrAbsent(p, ["installation"])
    && DictOrAbsent(p, ["deployment"])
  }

  /** The fields the handler reads from a `deployment_protection_rule` payload. */
  datatype Fields = Fields(
    action: Value,
    environment: Value,
    event: Value,
    owner: Value,
    repo: Value,
    installationId: Value,
    runId: Value)

  /**
   The extraction in `handle_webhook`: `payload.get(...)` for the top-level
   fields, `.get(k, {})` for the nested objects, then `.get` on those. It
   raises exactly when the payload is not well shaped, and otherwise reads
   each field at its path.
   */
  function Extract(p: Value): (r: Result<Fields>)
    ensures r.Ok? <==> WellShaped(p)
    ensures r.Ok? ==> r.value == Fields(
      FieldAt(p, ["action"]),
      FieldAt(p, ["environment"]),
      FieldAt(p, ["event"]),
      FieldAt(p, ["repository", "owner", "login"]),
      FieldAt(p, ["repository", "name"]),
      FieldAt(p, ["installation", "id"]),
      FieldAt(p, ["deployment", "id"]))
    ensures r.Raised? ==> r.fault == NotADict
  {
    var empty := Dict(map[]);
    if !p.Dict? then Raised(NotADict)
    else
      var action := Get(p, "action", Null).value;
      var environment := Get(p, "environment", Null).value;
      var event := Get(p, "event", Null).value;
      var deployment := Get(p, "deployment", empty).value;
      var repository := Get(p, "repository", empty).value;
      var installation := Get(p, "installation", empty).value;
      match Get(repository, "owner", empty)
      case Raised(f) => Raised(f)
      case Ok(ownerObject) =>
        match Get(ownerObject, "login", Null)
        case Raised(f) => Raised(f)
        case Ok(owner) =>
          var repo := Get(repository, "name", Null).value;
          match Get(installation, "id", Null)
          case Raised(f) => Raised(f)
          case Ok(installationId) =>
            match Get(deployment, "id", Null)
            case Raised(f) => Raised(f)
            case Ok(runId) => Ok(Fields(action, environment, event, owner, repo, installationId, runId))
  }
}
