/** The validation rules of the web application's target endpoints: how the
    update interval is read from a JSON payload, and which payloads create or
    change a target. Database access is reduced to a predicate saying whether
    a secret id exists; the row written is returned. */
module Routes {
  import opened Wrappers
  import opened Text
  import opened Json
  import opened Hostnames

  /** Python's `int(value)` for a decoded JSON value: integers as they are,
      booleans as 0 and 1, strings parsed by `int`; `None`, lists and objects
      raise `TypeError`, modelled as `None`. */
  function PyInt(j: Json): (r: Option<int>)
    ensures j.JInt? ==> r == Some(j.i)
    ensures j.JBool? ==> r == Some(if j.b then 1 else 0)
    ensures forall n :: j == JStr(IntToString(n)) ==> r == Some(n)
    ensures j.JStr? && AllSpace(j.s) ==> r == None
    ensures j.JNull? || j.JArr? || j.JObj? ==> r == None
  {
    match j
    case JInt(i) => Some(i)
    case JBool(b) => Some(if b then 1 else 0)
    case JStr(s) =>
      DecimalTextParses(s);
      if AllSpace(s) then ParseIntRejectsBlank(s); ParseInt(s) else ParseInt(s)
    case _ => None
  }

  const IntervalKey: string := "interval_minutes"

  /** `_coerce_interval_minutes`: a missing key gives the default when asked
      to, otherwise `None`; a present value is converted with `int`, and a
      value that cannot be converted gives `None`. */
  function CoerceIntervalMinutes(payload: map<string, Json>, defaultMinutes: int, useDefaultIfMissing: bool): (r: Option<int>)
    ensures IntervalKey !in payload ==> r == (if useDefaultIfMissing then Some(defaultMinutes) else None)
    ensures forall n :: IntervalKey in payload && payload[IntervalKey] == JInt(n) ==> r == Some(n)
    ensures forall n :: IntervalKey in payload && payload[IntervalKey] == JStr(IntToString(n)) ==> r == Some(n)
    ensures IntervalKey in payload && payload[IntervalKey].JStr? && AllSpace(payload[IntervalKey].s) ==> r == None
    ensures IntervalKey in payload && (payload[IntervalKey].JNull? || payload[IntervalKey].JArr? || payload[IntervalKey].JObj?)
      ==> r == None
  {
    if IntervalKey !in payload then (if useDefaultIfMissing then Some(defaultMinutes) else None)
    else PyInt(payload[IntervalKey])
  }

  /** The decimal text of an integer, as a form would send it, is read back
      as that integer. */
  lemma CoerceDecimalText(payload: map<string, Json>, n: int, defaultMinutes: int, useDefaultIfMissing: bool)
    requires IntervalKey in payload && payload[IntervalKey] == JStr(IntToString(n))
    ensures CoerceIntervalMinutes(payload, defaultMinutes, useDefaultIfMissing) == Some(n)
  {
    ParseIntOfIntToString(n);
  }

  /** Blank text is not an interval. */
  lemma CoerceBlankText(payload: map<string, Json>, s: string, defaultMinutes: int, useDefaultIfMissing: bool)
    requires IntervalKey in payload && payload[IntervalKey] == JStr(s) && AllSpace(s)
    ensures CoerceIntervalMinutes(payload, defaultMinutes, useDefaultIfMissing) == None
  {
    ParseIntRejectsBlank(s);
  }

  /** A target row as the endpoints write it. */
  datatype TargetRow = TargetRow(host: string, domain: Json, secretId: Json, isEnabled: bool, intervalMinutes: int)

  /** What a target endpoint answers: the row saved, a client error with its
      status and message, or an unhandled exception. */
  datatype Answer = Saved(row: TargetRow) | Rejected(status: int, error: string) | Crashed

  /** `payload.get(key)`. */
  function Lookup(payload: map<string, Json>, key: string): Json {
    if key in payload then payload[key] else JNull
  }

  /** The interval a target may be saved with: present and at least one. */
  predicate ValidInterval(interval: Option<int>) {
    interval.Some? && interval.value >= 1
  }

  /** Every check of `create_target` but the interval passes. */
  predicate Admissible(payload: map<string, Json>, secretExists: Json -> bool) {
    && Truthy(Lookup(payload, "host")) && Truthy(Lookup(payload, "domain")) && Truthy(Lookup(payload, "secret_id"))
    && secretExists(Lookup(payload, "secret_id"))
    && Lookup(payload, "host").JStr?
    && Normalized(Lookup(payload, "host").s) != ""
  }

  /** `create_target`: the host, domain and secret id must be given (truthy)
      and the secret must exist; the host is normalised and must not come out
      empty; the interval (5 minutes when absent) must be a positive integer.
      A host that is not a string makes normalisation raise. */
  function CreateTarget(payload: map<string, Json>, secretExists: Json -> bool): (a: Answer)
    ensures a.Saved? <==> Admissible(payload, secretExists) && ValidInterval(CoerceIntervalMinutes(payload, 5, true))
    ensures a.Saved? ==>
      && a.row.host == Normalized(Lookup(payload, "host").s)
      && a.row.domain == Lookup(payload, "domain") && a.row.secretId == Lookup(payload, "secret_id")
    ensures a.Saved? ==> a.row.intervalMinutes >= 1 && Some(a.row.intervalMinutes) == CoerceIntervalMinutes(payload, 5, true)
    ensures a.Saved? ==> a.row.isEnabled == Truthy(if "is_enabled" in payload then payload["is_enabled"] else JBool(true))
    ensures !Truthy(Lookup(payload, "host")) || !Truthy(Lookup(payload, "domain")) || !Truthy(Lookup(payload, "secret_id"))
      ==> a == Rejected(400, "host, domain, and secret_id are required")
    ensures (Truthy(Lookup(payload, "host")) && Truthy(Lookup(payload, "domain")) && Truthy(Lookup(payload, "secret_id"))
             && !secretExists(Lookup(payload, "secret_id")))
      ==> a == Rejected(400, "secret_id does not exist")
    ensures Admissible(payload, secretExists) && !ValidInterval(CoerceIntervalMinutes(payload, 5, true))
      ==> a == Rejected(400, "interval_minutes must be a positive integer")
  {
    var host := Lookup(payload, "host");
    var domain := Lookup(payload, "domain");
    var secretId := Lookup(payload, "secret_id");
    var isEnabled := if "is_enabled" in payload then payload["is_enabled"] else JBool(true);
    var interval := CoerceIntervalMinutes(payload, 5, true);
    if !Truthy(host) || !Truthy(domain) || !Truthy(secretId) then Rejected(400, "host, domain, and secret_id are required")
    else if !secretExists(secretId) then Rejected(400, "secret_id does not exist")
    else if !host.JStr? then Crashed
    else
      var normalized := Normalized(host.s);
      if normalized == "" then Rejected(400, "host is required")
      else if !ValidInterval(interval) then Rejected(400, "interval_minutes must be a positive integer")
      else Saved(TargetRow(normalized, domain, secretId, Truthy(isEnabled), interval.value))
  }

  /** A created target has no missing interval: without one in the payload
      it gets five minutes. */
  lemma CreateDefaultsInterval(payload: map<string, Json>, secretExists: Json -> bool)
    requires IntervalKey !in payload
    requires CreateTarget(payload, secretExists).Saved?
    ensures CreateTarget(payload, secretExists).row.intervalMinutes == 5
  {
  }

  /** A created target's host list is normalised: splitting it gives the
      distinct hostnames of the submitted value, none empty, none repeated. */
  lemma CreatedHostIsNormal(payload: map<string, Json>, secretExists: Json -> bool)
    requires CreateTarget(payload, secretExists).Saved?
    ensures var host := CreateTarget(payload, secretExists).row.host;
      && SplitHostnames(host) == Dedupe(SplitHostnames(Lookup(payload, "host").s))
      && NoDuplicates(SplitHostnames(host))
      && Normalized(host) == host
  {
    var value := Lookup(payload, "host").s;
    SplitNormalized(value);
    NormalizedIdempotent(value);
  }

  /** The host part of `update_target`: a falsy host counts as "", which
      normalises to nothing and is rejected. */
  function UpdateHost(row: TargetRow, given: Json): (a: Answer)
    ensures a.Saved? ==> a.row == row.(host := a.row.host) && a.row.host != "" && Normalized(a.row.host) == a.row.host
    ensures a.Saved? <==> given.JStr? && Normalized(given.s) != ""
    ensures a.Saved? ==> a.row.host == Normalized(given.s)
    ensures !Truthy(given) || (given.JStr? && Normalized(given.s) == "") ==> a == Rejected(400, "host is required")
  {
    var value := if Truthy(given) then given else JStr("");
    if !value.JStr? then Crashed
    else
      var normalized := Normalized(value.s);
      NormalizedIdempotent(value.s);
      if normalized == "" then Rejected(400, "host is required")
      else Saved(row.(host := normalized))
  }

  /** The checks of `update_target` before the interval: a present host
      normalises to something, a present domain is truthy, and a present
      secret id is truthy and exists. */
  predicate FieldsAccepted(row: TargetRow, payload: map<string, Json>, secretExists: Json -> bool) {
    && ("host" in payload ==> UpdateHost(row, payload["host"]).Saved?)
    && ("domain" in payload ==> Truthy(payload["domain"]))
    && ("secret_id" in payload ==> Truthy(payload["secret_id"]) && secretExists(payload["secret_id"]))
  }

  /** `update_target`: each field present in the payload is validated and
      replaces the stored one; a rejected update changes nothing. */
  function UpdateTarget(row: TargetRow, payload: map<string, Json>, secretExists: Json -> bool): (a: Answer)
    ensures a.Saved? <==>
      FieldsAccepted(row, payload, secretExists) && (IntervalKey in payload ==> ValidInterval(CoerceIntervalMinutes(payload, 5, false)))
    ensures FieldsAccepted(row, payload, secretExists) && IntervalKey in payload && !ValidInterval(CoerceIntervalMinutes(payload, 5, false))
      ==> a == Rejected(400, "interval_minutes must be a positive integer")
    ensures a.Saved? && "host" in payload ==> payload["host"].JStr? && a.row.host == Normalized(payload["host"].s)
    ensures a.Saved? && "domain" in payload ==> a.row.domain == payload["domain"]
    ensures a.Saved? && "secret_id" in payload ==> a.row.secretId == payload["secret_id"]
    ensures a.Saved? && "is_enabled" in payload ==> a.row.isEnabled == Truthy(payload["is_enabled"])
    ensures a.Saved? && IntervalKey in payload ==>
      ValidInterval(CoerceIntervalMinutes(payload, 5, false))
      && a.row.intervalMinutes == CoerceIntervalMinutes(payload, 5, false).value
    ensures a.Saved? && IntervalKey !in payload ==> a.row.intervalMinutes == row.intervalMinutes
    ensures IntervalKey in payload && !ValidInterval(CoerceIntervalMinutes(payload, 5, false)) ==> !a.Saved?
    ensures a.Saved? && "host" !in payload ==> a.row.host == row.host
    ensures a.Saved? && "host" in payload ==> a.row.host != "" && Normalized(a.row.host) == a.row.host
    ensures a.Saved? && "domain" !in payload ==> a.row.domain == row.domain
    ensures a.Saved? && "secret_id" !in payload ==> a.row.secretId == row.secretId
    ensures a.Saved? && "is_enabled" !in payload ==> a.row.isEnabled == row.isEnabled
  {
    var hostStep := if "host" in payload then UpdateHost(row, payload["host"]) else Saved(row);
    if !hostStep.Saved? then hostStep
    else
      var r1 := hostStep.row;
      if "domain" in payload && !Truthy(payload["domain"]) then Rejected(400, "domain is required")
      else
        var r2 := if "domain" in payload then r1.(domain := payload["domain"]) else r1;
        if "secret_id" in payload && !Truthy(payload["secret_id"]) then Rejected(400, "secret_id is required")
        else if "secret_id" in payload && !secretExists(payload["secret_id"]) then Rejected(400, "secret_id does not exist")
        else
          var r3 := if "secret_id" in payload then r2.(secretId := payload["secret_id"]) else r2;
          var r4 := if "is_enabled" in payload then r3.(isEnabled := Truthy(payload["is_enabled"])) else r3;
          var interval := CoerceIntervalMinutes(payload, 5, false);
          if IntervalKey in payload && !ValidInterval(interval) then Rejected(400, "interval_minutes must be a positive integer")
          else Saved(if IntervalKey in payload then r4.(intervalMinutes := interval.value) else r4)
  }

  /** A host of blank pieces, such as " , ", is refused as missing. */
  lemma BlankHostRequired(row: TargetRow, a: string, b: string)
    requires ',' !in a && Strip(a) == "" && ',' !in b && Strip(b) == ""
    ensures UpdateHost(row, JStr(a + "," + b)) == Rejected(400, "host is required")
  {
    SplitBlankPiece(b);
    SplitAllBlank(a, b);
    assert Dedupe([]) == [];
  }

  /** Sending the same update again is harmless: the saved row already holds
      every field the payload sets. */
  lemma UpdateTwiceIsOnce(row: TargetRow, payload: map<string, Json>, secretExists: Json -> bool)
    requires UpdateTarget(row, payload, secretExists).Saved?
    ensures UpdateTarget(UpdateTarget(row, payload, secretExists).row, payload, secretExists)
      == UpdateTarget(row, payload, secretExists)
  {
  }

  /** An empty update changes nothing. */
  lemma EmptyUpdateKeepsRow(row: TargetRow, secretExists: Json -> bool)
    ensures UpdateTarget(row, map[], secretExists) == Saved(row)
  {
  }
}
