/** The agent's runner (`DDNSRunner`): it loads the configuration document,
    fetches the public IP once per cycle, skips the cycle when the IP is the
    cached one, and otherwise makes one update request per target, recording
    one history row per target. HTTP calls, the configuration file and the
    cipher are inputs. */
module Core {
  import opened Wrappers
  import opened Text
  import opened Template
  import opened Json
  import opened Crypto
  import opened Schema
  import opened Database
  import opened Http

  datatype Runner = Runner(config: Option<AgentConfig>, store: Store)

  /** What the agent holds besides its state: its cipher key and the URL
      type's acceptance predicate. */
  datatype Env = Env(suite: Suite, agentKey: Key, isHttpUrl: string -> bool)

  /** The cache key of the last public IP seen. */
  const LastIpKey: string := "last_ip"

  /** `load_config`: the document read from disk (`None` when it cannot be
      read or is not JSON) replaces the in-memory configuration only when it
      validates; otherwise the call raises and the runner is untouched. */
  function LoadConfig(r: Runner, file: Option<Json>, isHttpUrl: string -> bool): (res: Result<Runner>)
    ensures res.Ok? <==> file.Some? && ValidateConfig(file.value, isHttpUrl).Ok?
    ensures res.Ok? ==> res.value.store == r.store && res.value.config.Some?
    ensures res.Ok? ==> file.value == ConfigToJson(res.value.config.value)
    ensures res.Ok? ==> UrlsValid(res.value.config.value, isHttpUrl)
  {
    if file.None? then Err("configuration file cannot be read")
    else
      var config :- ValidateConfig(file.value, isHttpUrl);
      Ok(r.(config := Some(config)))
  }

  /** `_get_config`: the loaded configuration, loading it on first use. */
  function GetConfig(r: Runner, file: Option<Json>, isHttpUrl: string -> bool): (res: Result<Runner>)
    ensures r.config.Some? ==> res == Ok(r)
    ensures r.config.None? ==> res == LoadConfig(r, file, isHttpUrl)
    ensures res.Ok? ==> res.value.config.Some? && res.value.store == r.store
  {
    if r.config.Some? then Ok(r) else LoadConfig(r, file, isHttpUrl)
  }

  /** `_fetch_public_ip`: the stripped body of a successful answer, or `None`
      when the request raised (including `raise_for_status`). */
  function FetchPublicIp(ex: Exchange): (ip: Option<string>)
    ensures ip.Some? <==> ex.Answered? && !RaisesForStatus(ex.reply.code)
    ensures ip.Some? ==> IsStripped(ip.value) && ip.value == Strip(ex.reply.body)
  {
    match ex
    case Answered(reply) => if RaisesForStatus(reply.code) then None else Some(Strip(reply.body))
    case Raised(_, _) => None
  }

  /** The configuration file is read at most once: after a successful load,
      later calls return the same runner whatever the file holds by then. */
  lemma GetConfigLoadsOnce(r: Runner, file: Option<Json>, later: Option<Json>, isHttpUrl: string -> bool)
    requires GetConfig(r, file, isHttpUrl).Ok?
    ensures GetConfig(GetConfig(r, file, isHttpUrl).value, later, isHttpUrl) == GetConfig(r, file, isHttpUrl)
  {
  }

  /** Whitespace around the address, such as the trailing newline many
      services send, is dropped: a body of padding, the address and padding
      gives exactly the address. */
  lemma FetchPaddedAddress(reply: Reply, before: string, address: string, after: string)
    requires !RaisesForStatus(reply.code)
    requires AllSpace(before) && AllSpace(after) && IsStripped(address) && address != ""
    requires reply.body == before + address + after
    ensures FetchPublicIp(Answered(reply)) == Some(address)
  {
    StripSpaceAround(before, address, after);
  }

  /** Python truthiness of the fetched IP: present and non-empty. */
  predicate IsSet(ip: Option<string>) {
    ip.Some? && ip.value != ""
  }

  /** `ip_address or ""`. */
  function IpText(ip: Option<string>): string {
    if IsSet(ip) then ip.value else ""
  }

  /** The keyword values `_build_update_url` formats with. */
  function AgentValues(token: string, hostname: string, id: string, ip: Option<string>): map<string, string> {
    map["token" := token, "hostname" := hostname, "id" := id, "ip" := IpText(ip)]
  }

  /** `_build_update_url`: the formatted URL, or the template itself when it
      names a placeholder the agent has no value for; any other formatting
      error propagates. */
  function BuildUpdateUrl(url: string, token: string, hostname: string, id: string, ip: Option<string>): (r: Result<string>)
    // Only a malformed template fails; a brace-free URL is used as written.
    ensures r.Err? <==> Format(url, AgentValues(token, hostname, id, ip)).BadFormat?
    ensures Plain(url) ==> r == Ok(url)
    ensures Format(url, AgentValues(token, hostname, id, ip)).UnknownKey? ==> r == Ok(url)
    ensures Format(url, AgentValues(token, hostname, id, ip)).Formatted?
      ==> r == Ok(Format(url, AgentValues(token, hostname, id, ip)).text)
  {
    var values := AgentValues(token, hostname, id, ip);
    if Plain(url) then
      FormatPlain(url, values);
      Ok(url)
    else
      match Format(url, values)
      case Formatted(text) => Ok(text)
      case UnknownKey(_) => Ok(url)
      case BadFormat => Err("invalid update URL template")
  }

  /** The placeholders the agent fills. */
  predicate AgentPlaceholder(name: string) {
    name == "token" || name == "hostname" || name == "id" || name == "ip"
  }

  predicate OnlyAgentPlaceholders(ps: seq<Piece>) {
    forall i :: 0 <= i < |ps| && ps[i].Hole? ==> AgentPlaceholder(ps[i].name)
  }

  /** For a template written as pieces: when every placeholder is one of
      `token`, `hostname`, `id`, `ip`, the URL is the template rendered with
      those values (`ip` rendered as "" when no IP is known); as soon as one
      other placeholder appears the template is returned unchanged. */
  lemma BuildUpdateUrlRenders(ps: seq<Piece>, token: string, hostname: string, id: string, ip: Option<string>)
    requires WellFormed(ps)
    ensures OnlyAgentPlaceholders(ps) ==>
      BuildUpdateUrl(Source(ps), token, hostname, id, ip) == Ok(Render(ps, AgentValues(token, hostname, id, ip)))
    ensures !OnlyAgentPlaceholders(ps) ==> BuildUpdateUrl(Source(ps), token, hostname, id, ip) == Ok(Source(ps))
    ensures AgentValues(token, hostname, id, ip)["ip"] == (if IsSet(ip) then ip.value else "")
  {
    var values := AgentValues(token, hostname, id, ip);
    FormatSource(ps, values);
    assert OnlyAgentPlaceholders(ps) <==> AllBound(ps, values);
  }

  /** The smallest target interval. */
  function MinInterval(ts: seq<AgentTarget>): (m: int)
    requires |ts| > 0
    ensures forall i :: 0 <= i < |ts| ==> m <= ts[i].interval
    ensures exists i :: 0 <= i < |ts| && ts[i].interval == m
    decreases |ts|
  {
    if |ts| == 1 then ts[0].interval
    else
      var rest := MinInterval(ts[1..]);
      assert forall i :: 1 <= i < |ts| ==> ts[i] == ts[1..][i - 1];
      if ts[0].interval <= rest then ts[0].interval else rest
  }

  /** `get_sleep_seconds`: 60 seconds with no targets; otherwise the
      smallest target interval, but never less than 30 seconds. */
  function SleepSeconds(c: AgentConfig): (s: int)
    ensures |c.targets| == 0 ==> s == 60
    ensures s >= 30
    ensures |c.targets| > 0 ==> s == 30 || exists i :: 0 <= i < |c.targets| && c.targets[i].interval == s
    ensures |c.targets| > 0 && s > 30 ==> forall i :: 0 <= i < |c.targets| ==> s <= c.targets[i].interval
    ensures |c.targets| > 0 ==> exists i :: 0 <= i < |c.targets| && c.targets[i].interval <= s
  {
    if |c.targets| == 0 then 60
    else
      var m := MinInterval(c.targets);
      if m < 30 then 30 else m
  }

  /** What one target's attempt does before any request: decrypt the
      token and build the update URL. Either step can raise; the error is
      the exception's message. */
  function Prepared(t: AgentTarget, ip: Option<string>, env: Env): Result<string> {
    match env.suite.decrypt(env.agentKey, t.encryptedToken)
    case Err(e) => Err(e)
    case Ok(token) => BuildUpdateUrl(t.updateUrl, token, t.hostname, t.id, ip)
  }

  /** The URL one target's attempt requests, or `None` when decryption or
      URL building raised before any request was made. */
  function RequestedUrl(t: AgentTarget, ip: Option<string>, env: Env): (u: Option<string>)
    ensures u.Some? <==> Prepared(t, ip, env).Ok?
    ensures u.Some? ==> u.value == Prepared(t, ip, env).value
  {
    match Prepared(t, ip, env)
    case Err(_) => None
    case Ok(url) => Some(url)
  }

  /** The history row target `i`'s attempt writes; the network's answer to
      its request for `url` is `net(i, url)`. Every exception is caught and
      recorded as an error: a request failure keeps the response code when a
      response is attached, anything else (decryption, URL building) has no
      code. */
  function Attempt(t: AgentTarget, ip: Option<string>, env: Env, net: (nat, string) -> Exchange, i: nat): (r: Record)
    ensures r.targetId == t.id && r.ipAddress == ip
    ensures r.status == Success <==>
      RequestedUrl(t, ip, env).Some? && net(i, RequestedUrl(t, ip, env).value).Answered?
      && !RaisesForStatus(net(i, RequestedUrl(t, ip, env).value).reply.code)
    ensures r.status == Success ==> r.responseCode == Some(net(i, RequestedUrl(t, ip, env).value).reply.code)
    ensures RequestedUrl(t, ip, env).None? ==> r.responseCode == None
  {
    match Prepared(t, ip, env)
    case Err(e) => Record(t.id, Error, e, None, ip)
    case Ok(url) =>
      match net(i, url)
      case Answered(reply) =>
        if RaisesForStatus(reply.code) then Record(t.id, Error, HttpErrorMessage(reply, url), Some(reply.code), ip)
        else Record(t.id, Success, Strip(reply.body), Some(reply.code), ip)
      case Raised(message, attached) =>
        Record(t.id, Error, message, if attached.Some? then Some(attached.value.code) else None, ip)
  }

  /** The rows a cycle writes: one per target, in target order, target `i`
      answered by `net(i, _)`. */
  function Attempts(ts: seq<AgentTarget>, ip: Option<string>, env: Env, net: (nat, string) -> Exchange): (rs: seq<Record>)
    ensures |rs| == |ts|
    ensures forall i :: 0 <= i < |ts| ==> rs[i] == Attempt(ts[i], ip, env, net, i)
    decreases |ts|
  {
    if |ts| == 0 then []
    else Attempts(ts[..|ts| - 1], ip, env, net) + [Attempt(ts[|ts| - 1], ip, env, net, |ts| - 1)]
  }

  /** The URL each target requests, in target order. */
  function Requests(ts: seq<AgentTarget>, ip: Option<string>, env: Env): (us: seq<Option<string>>)
    ensures |us| == |ts|
    ensures forall i :: 0 <= i < |ts| ==> us[i] == RequestedUrl(ts[i], ip, env)
    decreases |ts|
  {
    if |ts| == 0 then []
    else Requests(ts[..|ts| - 1], ip, env) + [RequestedUrl(ts[|ts| - 1], ip, env)]
  }

  /** The outcome of one cycle: the runner afterwards and, per target, the
      update URL it requested (empty when the cycle was skipped). */
  datatype Cycle = Cycle(runner: Runner, requests: seq<Option<string>>)

  /** The loop of `run_once` over the configured targets, in order. */
  function UpdateAll(r: Runner, ip: Option<string>, env: Env, net: (nat, string) -> Exchange): (c: Cycle)
    requires r.config.Some?
    ensures c.runner.config == r.config && c.runner.store.cache == r.store.cache
    ensures var ts := r.config.value.targets;
      var n := |r.store.history|;
      && |c.runner.store.history| == n + |ts|
      && c.runner.store.history[..n] == r.store.history
      && |c.requests| == |ts|
      && (forall i :: 0 <= i < |ts| ==>
            && c.runner.store.history[n + i] == Attempt(ts[i], ip, env, net, i)
            && c.requests[i] == RequestedUrl(ts[i], ip, env))
  {
    var ts := r.config.value.targets;
    var rows := Attempts(ts, ip, env, net);
    Cycle(r.(store := LogAll(r.store, rows)), Requests(ts, ip, env))
  }

  /** Row `n + i` of a cycle is target `i`'s: it names the target and the
      IP, and is a success exactly when that target's own request was
      answered without an error status. */
  predicate RowReports(c: Cycle, ip: Option<string>, n: nat, net: (nat, string) -> Exchange, i: nat) {
    && c.runner.config.Some? && i < |c.runner.config.value.targets|
    && n + i < |c.runner.store.history| && i < |c.requests|
    && var row := c.runner.store.history[n + i];
       && row.targetId == c.runner.config.value.targets[i].id
       && row.ipAddress == ip
       && (row.status == Success <==>
             && c.requests[i].Some?
             && net(i, c.requests[i].value).Answered?
             && !RaisesForStatus(net(i, c.requests[i].value).reply.code))
  }

  /** Every target's row, after the first `n`, reports its own request. */
  predicate RowsReport(c: Cycle, ip: Option<string>, n: nat, net: (nat, string) -> Exchange) {
    && c.runner.config.Some?
    && |c.runner.store.history| == n + |c.runner.config.value.targets|
    && |c.requests| == |c.runner.config.value.targets|
    && forall i: nat :: i < |c.runner.config.value.targets| ==> RowReports(c, ip, n, net, i)
  }

  /** Every row of a cycle reports its own target's request. */
  lemma CycleRows(r: Runner, ip: Option<string>, env: Env, net: (nat, string) -> Exchange)
    requires r.config.Some?
    ensures RowsReport(UpdateAll(r, ip, env, net), ip, |r.store.history|, net)
  {
    var c := UpdateAll(r, ip, env, net);
    forall i: nat | i < |r.config.value.targets|
      ensures RowReports(c, ip, |r.store.history|, net, i)
    {
      CycleRow(r, ip, env, net, i);
    }
  }

  lemma CycleRow(r: Runner, ip: Option<string>, env: Env, net: (nat, string) -> Exchange, i: nat)
    requires r.config.Some? && i < |r.config.value.targets|
    ensures RowReports(UpdateAll(r, ip, env, net), ip, |r.store.history|, net, i)
  {
    var c := UpdateAll(r, ip, env, net);
    var t := r.config.value.targets[i];
    assert c.runner.store.history[|r.store.history| + i] == Attempt(t, ip, env, net, i);
    assert c.requests[i] == RequestedUrl(t, ip, env);
  }

  /** `run_once`. */
  function RunOnce(r: Runner, file: Option<Json>, env: Env, ipAnswer: Exchange, net: (nat, string) -> Exchange): (res: Result<Cycle>)
    ensures res.Err? <==> GetConfig(r, file, env.isHttpUrl).Err?
    ensures res.Ok? ==> res.value.runner.config == GetConfig(r, file, env.isHttpUrl).value.config
    // Unchanged IP: nothing is written and no update request is made.
    ensures res.Ok? && IsSet(FetchPublicIp(ipAnswer)) && GetCache(r.store, LastIpKey) == FetchPublicIp(ipAnswer)
      ==> res.value.runner.store == r.store && res.value.requests == []
    // Otherwise every target is attempted, in order, with one row each.
    ensures res.Ok? && !(IsSet(FetchPublicIp(ipAnswer)) && GetCache(r.store, LastIpKey) == FetchPublicIp(ipAnswer)) ==>
      var ts := res.value.runner.config.value.targets;
      var ip := FetchPublicIp(ipAnswer);
      var n := |r.store.history|;
      var history := res.value.runner.store.history;
      && |history| == n + |ts|
      && history[..n] == r.store.history
      && |res.value.requests| == |ts|
    // The cached IP becomes the fetched one whenever it is set, whatever the
    // targets' outcomes; a failed fetch leaves the cache alone.
    ensures res.Ok? ==>
      res.value.runner.store.cache ==
        (if IsSet(FetchPublicIp(ipAnswer)) then r.store.cache[LastIpKey := FetchPublicIp(ipAnswer).value] else r.store.cache)
  {
    var loaded :- GetConfig(r, file, env.isHttpUrl);
    var config := loaded.config.value;
    var ip := FetchPublicIp(ipAnswer);
    if IsSet(ip) && GetCache(loaded.store, LastIpKey) == ip then Ok(Cycle(loaded, []))
    else
      var st := if IsSet(ip) then SetCache(loaded.store, LastIpKey, ip.value) else loaded.store;
      Ok(UpdateAll(loaded.(store := st), ip, env, net))
  }

  /** When the IP is new, row `i` of a cycle is target `i`'s: it names the
      target and the IP, and it is a success exactly when that target's own
      request went through, whatever happened to the other targets. */
  lemma RunOnceRows(r: Runner, file: Option<Json>, env: Env, ipAnswer: Exchange, net: (nat, string) -> Exchange)
    requires RunOnce(r, file, env, ipAnswer, net).Ok?
    requires !(IsSet(FetchPublicIp(ipAnswer)) && GetCache(r.store, LastIpKey) == FetchPublicIp(ipAnswer))
    ensures RowsReport(RunOnce(r, file, env, ipAnswer, net).value, FetchPublicIp(ipAnswer), |r.store.history|, net)
  {
    var loaded := GetConfig(r, file, env.isHttpUrl).value;
    var ip := FetchPublicIp(ipAnswer);
    var st := if IsSet(ip) then SetCache(loaded.store, LastIpKey, ip.value) else loaded.store;
    assert RunOnce(r, file, env, ipAnswer, net).value == UpdateAll(loaded.(store := st), ip, env, net);
    CycleRows(loaded.(store := st), ip, env, net);
  }
}
