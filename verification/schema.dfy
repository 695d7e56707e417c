/** The configuration document shared by the web application and the agent:
    one `AgentConfig` holding the URL of the public-IP service and one
    `AgentTarget` per hostname. Both records forbid unknown keys. Whether a
    string is an acceptable HTTP URL is decided by a predicate supplied by
    the caller; URL normalisation is not modelled. */
module Schema {
  import opened Wrappers
  import opened Json
  import opened Seqs

  datatype AgentTarget = AgentTarget(
    id: string,
    hostname: string,
    updateUrl: string,
    encryptedToken: string,
    interval: int)

  datatype AgentConfig = AgentConfig(checkIpUrl: string, targets: seq<AgentTarget>)

  const TargetKeys: set<string> := {"id", "hostname", "update_url", "encrypted_token", "interval"}
  const ConfigKeys: set<string> := {"check_ip_url", "targets"}

  /** The JSON object a target is written as. */
  function TargetToJson(t: AgentTarget): Json {
    JObj(map[
      "id" := JStr(t.id),
      "hostname" := JStr(t.hostname),
      "update_url" := JStr(t.updateUrl),
      "encrypted_token" := JStr(t.encryptedToken),
      "interval" := JInt(t.interval)])
  }

  function TargetsToJson(ts: seq<AgentTarget>): (items: seq<Json>)
    ensures |items| == |ts|
    decreases |ts|
  {
    if |ts| == 0 then [] else [TargetToJson(ts[0])] + TargetsToJson(ts[1..])
  }

  /** The JSON document a configuration is written as. */
  function ConfigToJson(c: AgentConfig): Json {
    JObj(map["check_ip_url" := JStr(c.checkIpUrl), "targets" := JArr(TargetsToJson(c.targets))])
  }

  /** Every URL in the configuration is one the URL type accepts. */
  predicate UrlsValid(c: AgentConfig, isHttpUrl: string -> bool) {
    && isHttpUrl(c.checkIpUrl)
    && forall i :: 0 <= i < |c.targets| ==> isHttpUrl(c.targets[i].updateUrl)
  }

  /** Validates one target object: exactly the five keys, string fields,
      an integer interval and an acceptable update URL. */
  function ValidateTarget(j: Json, isHttpUrl: string -> bool): (r: Result<AgentTarget>)
    ensures r.Ok? ==> j == TargetToJson(r.value) && isHttpUrl(r.value.updateUrl)
    ensures j.JObj? && j.fields.Keys != TargetKeys ==> r.Err?
  {
    if !j.JObj? then Err("target must be an object")
    else if j.fields.Keys != TargetKeys then Err("target must have exactly the fields id, hostname, update_url, encrypted_token, interval")
    else
      var f := j.fields;
      if !(f["id"].JStr? && f["hostname"].JStr? && f["update_url"].JStr? && f["encrypted_token"].JStr?) then
        Err("target string field has the wrong type")
      else if !f["interval"].JInt? then Err("interval must be an integer")
      else if !isHttpUrl(f["update_url"].s) then Err("update_url is not a valid HTTP URL")
      else
        var t := AgentTarget(f["id"].s, f["hostname"].s, f["update_url"].s, f["encrypted_token"].s, f["interval"].i);
        TargetFields(f, t);
        Ok(t)
  }

  function ValidateTargets(items: seq<Json>, isHttpUrl: string -> bool): (r: Result<seq<AgentTarget>>)
    ensures r.Ok? ==> items == TargetsToJson(r.value)
    ensures r.Ok? ==> forall i :: 0 <= i < |r.value| ==> isHttpUrl(r.value[i].updateUrl)
    decreases |items|
  {
    if |items| == 0 then Ok([])
    else
      match ValidateTarget(items[0], isHttpUrl)
      case Err(e) => Err(e)
      case Ok(head) =>
        match ValidateTargets(items[1..], isHttpUrl)
        case Err(e) => Err(e)
        case Ok(tail) =>
          ValidatedCons(items, head, tail, isHttpUrl);
          Ok([head] + tail)
  }

  /** Validates a whole document (`AgentConfig.model_validate`): exactly the
      keys `check_ip_url` and `targets`, an acceptable URL and a list of
      valid targets. */
  function ValidateConfig(j: Json, isHttpUrl: string -> bool): (r: Result<AgentConfig>)
    ensures r.Ok? ==> j == ConfigToJson(r.value) && UrlsValid(r.value, isHttpUrl)
    ensures j.JObj? && j.fields.Keys != ConfigKeys ==> r.Err?
  {
    if !j.JObj? then Err("configuration must be an object")
    else if j.fields.Keys != ConfigKeys then Err("configuration must have exactly the fields check_ip_url, targets")
    else
      var f := j.fields;
      if !f["check_ip_url"].JStr? then Err("check_ip_url must be a string")
      else if !isHttpUrl(f["check_ip_url"].s) then Err("check_ip_url is not a valid HTTP URL")
      else if !f["targets"].JArr? then Err("targets must be a list")
      else
        var targets :- ValidateTargets(f["targets"].items, isHttpUrl);
        var c := AgentConfig(f["check_ip_url"].s, targets);
        ConfigFields(f, c);
        Ok(c)
  }

  /** A map with exactly the target keys is the image of the target built
      from its values. */
  lemma TargetFields(f: map<string, Json>, t: AgentTarget)
    requires f.Keys == TargetKeys
    requires f["id"] == JStr(t.id) && f["hostname"] == JStr(t.hostname) && f["update_url"] == JStr(t.updateUrl)
    requires f["encrypted_token"] == JStr(t.encryptedToken) && f["interval"] == JInt(t.interval)
    ensures JObj(f) == TargetToJson(t)
  {
  }

  lemma ConfigFields(f: map<string, Json>, c: AgentConfig)
    requires f.Keys == ConfigKeys
    requires f["check_ip_url"] == JStr(c.checkIpUrl) && f["targets"] == JArr(TargetsToJson(c.targets))
    ensures JObj(f) == ConfigToJson(c)
  {
  }

  /** A validated head and tail make a validated list. */
  lemma ValidatedCons(items: seq<Json>, head: AgentTarget, tail: seq<AgentTarget>, isHttpUrl: string -> bool)
    requires |items| > 0 && items[0] == TargetToJson(head) && items[1..] == TargetsToJson(tail)
    requires isHttpUrl(head.updateUrl) && forall i :: 0 <= i < |tail| ==> isHttpUrl(tail[i].updateUrl)
    ensures items == TargetsToJson([head] + tail)
    ensures forall i :: 0 <= i < |[head] + tail| ==> isHttpUrl(([head] + tail)[i].updateUrl)
  {
    ConsParts(head, tail);
    TargetsToJsonParts([head] + tail);
    ConsSplit(items);
  }

  lemma TargetsToJsonParts(ts: seq<AgentTarget>)
    requires |ts| > 0
    ensures TargetsToJson(ts) == [TargetToJson(ts[0])] + TargetsToJson(ts[1..])
  {
  }

  lemma ValidateTargetToJson(t: AgentTarget, isHttpUrl: string -> bool)
    ensures ValidateTarget(TargetToJson(t), isHttpUrl) == (if isHttpUrl(t.updateUrl) then Ok(t) else Err("update_url is not a valid HTTP URL"))
  {
    assert TargetToJson(t).fields.Keys == TargetKeys;
  }

  lemma {:induction false} ValidateTargetsToJson(ts: seq<AgentTarget>, isHttpUrl: string -> bool)
    requires forall i :: 0 <= i < |ts| ==> isHttpUrl(ts[i].updateUrl)
    ensures ValidateTargets(TargetsToJson(ts), isHttpUrl) == Ok(ts)
    decreases |ts|
  {
    if |ts| > 0 {
      ValidateTargetToJson(ts[0], isHttpUrl);
      ValidateTargetsToJson(ts[1..], isHttpUrl);
      TargetsToJsonParts(ts);
      ConsParts(TargetToJson(ts[0]), TargetsToJson(ts[1..]));
      ConsSplit(ts);
    }
  }

  /** The validator accepts exactly the documents that are written images of
      configurations with acceptable URLs, and gives that configuration back. */
  lemma ValidateConfigToJson(c: AgentConfig, isHttpUrl: string -> bool)
    ensures UrlsValid(c, isHttpUrl) <==> ValidateConfig(ConfigToJson(c), isHttpUrl) == Ok(c)
  {
    assert ConfigToJson(c).fields.Keys == ConfigKeys;
    if UrlsValid(c, isHttpUrl) {
      ValidateTargetsToJson(c.targets, isHttpUrl);
    }
  }
}
