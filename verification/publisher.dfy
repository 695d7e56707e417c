/** The web application's configuration compiler (`ConfigCompiler`): it
    turns the operator's targets into the agent's configuration document,
    one entry per enabled target and hostname, re-encrypting each secret from
    the web application's key to the agent's key and pre-filling the update
    URL template with everything but the token and the IP. Writing the file
    atomically and reloading the service are modelled as one state change
    of a disk. */
module Publisher {
  import opened Wrappers
  import opened Text
  import opened Template
  import opened Json
  import opened Crypto
  import opened Schema
  import opened Hostnames
  import opened Seqs
  import Core
  import UrlValidation

  /** A target row as the compiler reads it: its id, comma-separated host
      list, domain, the stored (web-application-encrypted) value of its
      secret, and whether it is enabled. */
  datatype Target = Target(id: int, host: string, domain: string, secret: string, isEnabled: bool)

  /** The compiler's settings. `isHttpUrl` is the acceptance predicate of the
      URL type the configuration schema uses. */
  datatype Compiler = Compiler(
    suite: Suite,
    flaskKey: Key,
    agentKey: Key,
    checkIpUrl: string,
    template: string,
    defaultInterval: int,
    isHttpUrl: string -> bool)

  /** The update URL template used when none is configured (Namecheap's
      dynamic DNS endpoint). */
  const DefaultTemplate: string :=
    "https://dynamicdns.park-your-domain.com/update?host={hostname}&domain={domain}&password={token}&ip={ip}"

  /** The interval every compiled entry gets unless configured otherwise. */
  const DefaultInterval: int := 300

  /** The IP-check URL used when none is configured. */
  const DefaultCheckIpUrl: string := "https://api.ipify.org"

  /** `_publish_config`'s compiler: the IP-check URL and the update URL
      template are read from their settings (each with its default and its
      companion host allowlist) and validated, the IP-check URL first; a
      refusal is the `RuntimeError` naming the setting and no compiler is
      built. The interval is left at the constructor's default. */
  function PublishCompiler(suite: Suite, flaskKey: Key, agentKey: Key,
                           checkIpSetting: Option<string>, checkIpAllowlist: Option<string>,
                           templateSetting: Option<string>, templateAllowlist: Option<string>,
                           urlparse: string -> UrlValidation.ParsedUrl,
                           ipOf: string -> Option<UrlValidation.IpFacts>,
                           isHttpUrl: string -> bool): (r: Result<Compiler>)
    ensures var checkIp := UrlValidation.ConfiguredUrl("AGENT_CHECK_IP_URL", checkIpSetting, DefaultCheckIpUrl,
                                                      checkIpAllowlist, urlparse, ipOf);
            var template := UrlValidation.ConfiguredUrl("AGENT_UPDATE_URL_TEMPLATE", templateSetting, DefaultTemplate,
                                                        templateAllowlist, urlparse, ipOf);
      && (r.Ok? <==> checkIp.Ok? && template.Ok?)
      && (checkIp.Err? ==> r == Err(checkIp.error))
      && (checkIp.Ok? && template.Err? ==> r == Err(template.error))
    ensures r.Ok? ==>
      && r.value.checkIpUrl == checkIpSetting.GetOr(DefaultCheckIpUrl)
      && r.value.template == templateSetting.GetOr(DefaultTemplate)
      && r.value.defaultInterval == DefaultInterval
      && r.value.flaskKey == flaskKey && r.value.agentKey == agentKey
  {
    var checkIpUrl :- UrlValidation.ConfiguredUrl("AGENT_CHECK_IP_URL", checkIpSetting, DefaultCheckIpUrl,
                                                  checkIpAllowlist, urlparse, ipOf);
    var template :- UrlValidation.ConfiguredUrl("AGENT_UPDATE_URL_TEMPLATE", templateSetting, DefaultTemplate,
                                                templateAllowlist, urlparse, ipOf);
    Ok(Compiler(suite, flaskKey, agentKey, checkIpUrl, template, DefaultInterval, isHttpUrl))
  }

  /** The keyword values the compiler formats the template with: the token
      and the IP are written back as their own placeholders so that the
      agent fills them. */
  function PublisherValues(hostname: string, domain: string, id: int): (values: map<string, string>)
    ensures values.Keys == {"hostname", "domain", "token", "ip", "id"}
  {
    map["hostname" := hostname, "domain" := domain, "token" := "{token}", "ip" := "{ip}", "id" := IntToString(id)]
  }

  /** `_build_target`: decrypts the secret under the web application's key
      (raising on failure), encrypts it under the agent's key, formats the
      template (raising on an unknown placeholder or a malformed template) and
      validates the result as an agent target. */
  function BuildTarget(c: Compiler, t: Target, hostname: string): (r: Result<AgentTarget>)
    ensures r.Ok? <==>
      && c.suite.decrypt(c.flaskKey, t.secret).Ok?
      && Format(c.template, PublisherValues(hostname, t.domain, t.id)).Formatted?
      && c.isHttpUrl(Format(c.template, PublisherValues(hostname, t.domain, t.id)).text)
    ensures r.Ok? ==>
      && r.value.id == IntToString(t.id)
      && r.value.hostname == hostname
      && r.value.interval == c.defaultInterval
      && r.value.updateUrl == Format(c.template, PublisherValues(hostname, t.domain, t.id)).text
      && r.value.encryptedToken == c.suite.encrypt(c.agentKey, c.suite.decrypt(c.flaskKey, t.secret).value)
      && c.isHttpUrl(r.value.updateUrl)
  {
    var plain :- c.suite.decrypt(c.flaskKey, t.secret);
    var token := c.suite.encrypt(c.agentKey, plain);
    match Format(c.template, PublisherValues(hostname, t.domain, t.id))
    case UnknownKey(name) => Err("KeyError: " + name)
    case BadFormat => Err("invalid update URL template")
    case Formatted(url) =>
      if !c.isHttpUrl(url) then Err("update_url is not a valid HTTP URL")
      else Ok(AgentTarget(IntToString(t.id), hostname, url, token, c.defaultInterval))
  }

  /** One target's (target, hostname) pairs, in hostname order. */
  function HostEntries(t: Target): (r: seq<(Target, string)>)
    ensures |r| == |SplitHostnames(t.host)|
    ensures forall i :: 0 <= i < |r| ==> r[i] == (t, SplitHostnames(t.host)[i])
  {
    var hs := SplitHostnames(t.host);
    seq(|hs|, i requires 0 <= i < |hs| => (t, hs[i]))
  }

  /** The (target, hostname) pairs `compile` builds entries for: enabled
      targets only, ordered by target and then by hostname. */
  function Entries(ts: seq<Target>): seq<(Target, string)>
    decreases |ts|
  {
    if |ts| == 0 then []
    else (if ts[0].isEnabled then HostEntries(ts[0]) else []) + Entries(ts[1..])
  }

  /** The entry comes from an enabled target of `ts` and one of its split
      hostnames. */
  predicate FromEnabled(e: (Target, string), ts: seq<Target>) {
    e.0 in ts && e.0.isEnabled && e.1 in SplitHostnames(e.0.host)
  }

  /** Every entry comes from an enabled target of the list and one of its
      split hostnames. */
  lemma {:induction false} EntriesFromEnabled(ts: seq<Target>)
    ensures forall i :: 0 <= i < |Entries(ts)| ==> FromEnabled(Entries(ts)[i], ts)
    decreases |ts|
  {
    if |ts| > 0 {
      var head := if ts[0].isEnabled then HostEntries(ts[0]) else [];
      var rest := Entries(ts[1..]);
      EntriesFromEnabled(ts[1..]);
      assert Entries(ts) == head + rest;
      forall i | 0 <= i < |Entries(ts)| ensures FromEnabled(Entries(ts)[i], ts) {
        if i < |head| {
          assert Entries(ts)[i] == head[i];
          HostEntryFrom(ts, i);
        } else {
          assert Entries(ts)[i] == rest[i - |head|];
          FromEnabledWiden(rest[i - |head|], ts);
        }
      }
    }
  }

  lemma HostEntryFrom(ts: seq<Target>, i: nat)
    requires |ts| > 0 && ts[0].isEnabled && i < |HostEntries(ts[0])|
    ensures FromEnabled(HostEntries(ts[0])[i], ts)
  {
    assert HostEntries(ts[0])[i] == (ts[0], SplitHostnames(ts[0].host)[i]);
  }

  lemma FromEnabledWiden(e: (Target, string), ts: seq<Target>)
    requires |ts| > 0 && FromEnabled(e, ts[1..])
    ensures FromEnabled(e, ts)
  {
    assert e.0 in ts[1..];
  }

  /** `f` applied to each element in order; the first failure is raised. */
  function Traverse<T, U>(f: T -> Result<U>, xs: seq<T>): (r: Result<seq<U>>)
    ensures r.Ok? <==> forall i :: 0 <= i < |xs| ==> f(xs[i]).Ok?
    ensures r.Ok? ==> |r.value| == |xs| && forall i :: 0 <= i < |xs| ==> f(xs[i]) == Ok(r.value[i])
    decreases |xs|
  {
    if |xs| == 0 then Ok([])
    else
      var head :- f(xs[0]);
      var tail := Traverse(f, xs[1..]);
      if tail.Err? then
        assert exists i :: 0 <= i < |xs| - 1 && f(xs[1..][i]).Err?;
        tail
      else
        Ok([head] + tail.value)
  }

  /** Traversing a concatenation succeeds only when both parts do, and gives
      their results in order. */
  lemma {:induction false} TraverseAppend<T, U>(f: T -> Result<U>, a: seq<T>, b: seq<T>)
    requires Traverse(f, a + b).Ok?
    ensures Traverse(f, a).Ok? && Traverse(f, b).Ok?
    ensures Traverse(f, a + b).value == Traverse(f, a).value + Traverse(f, b).value
    decreases |a|
  {
    if |a| == 0 {
      assert a + b == b;
    } else {
      var ab := a + b;
      assert ab[0] == a[0] && ab[1..] == a[1..] + b;
      TraverseAppend(f, a[1..], b);
      var head := f(a[0]).value;
      ConsAssoc(head, Traverse(f, a[1..]).value, Traverse(f, b).value);
    }
  }

  /** One entry's build, as `Traverse` applies it. */
  function BuildPair(c: Compiler): ((Target, string)) -> Result<AgentTarget> {
    (pair: (Target, string)) => BuildTarget(c, pair.0, pair.1)
  }

  /** The entries built in order; the first failure is raised. */
  function BuildAll(c: Compiler, pairs: seq<(Target, string)>): (r: Result<seq<AgentTarget>>)
    ensures r.Ok? <==> forall i :: 0 <= i < |pairs| ==> BuildTarget(c, pairs[i].0, pairs[i].1).Ok?
    ensures r.Ok? ==> |r.value| == |pairs|
    ensures r.Ok? ==> forall i :: 0 <= i < |pairs| ==> BuildTarget(c, pairs[i].0, pairs[i].1) == Ok(r.value[i])
  {
    var r := Traverse(BuildPair(c), pairs);
    assert forall i :: 0 <= i < |pairs| ==> BuildPair(c)(pairs[i]) == BuildTarget(c, pairs[i].0, pairs[i].1);
    r
  }

  /** `compile`: the configuration of all enabled targets, or the first
      exception met; the configuration's own URL is validated last. */
  function Compile(c: Compiler, ts: seq<Target>): (r: Result<AgentConfig>)
    ensures r.Ok? <==> BuildAll(c, Entries(ts)).Ok? && c.isHttpUrl(c.checkIpUrl)
    ensures r.Ok? ==> r.value.checkIpUrl == c.checkIpUrl
    ensures r.Ok? ==> |r.value.targets| == |Entries(ts)|
    ensures r.Ok? ==> forall i :: 0 <= i < |Entries(ts)| ==>
      BuildTarget(c, Entries(ts)[i].0, Entries(ts)[i].1) == Ok(r.value.targets[i])
    ensures r.Ok? ==> UrlsValid(r.value, c.isHttpUrl)
  {
    var built :- BuildAll(c, Entries(ts));
    if !c.isHttpUrl(c.checkIpUrl) then Err("check_ip_url is not a valid HTTP URL")
    else Ok(AgentConfig(c.checkIpUrl, built))
  }

  lemma {:induction false} EntriesAppend(xs: seq<Target>, ys: seq<Target>)
    ensures Entries(xs + ys) == Entries(xs) + Entries(ys)
    decreases |xs|
  {
    if |xs| == 0 {
      assert xs + ys == ys;
      assert Entries(xs) == [];
    } else {
      var head := if xs[0].isEnabled then HostEntries(xs[0]) else [];
      FrontParts(xs, ys);
      assert Entries(xs + ys) == head + Entries(xs[1..] + ys);
      assert Entries(xs) == head + Entries(xs[1..]);
      EntriesAppend(xs[1..], ys);
      Assoc(head, Entries(xs[1..]), Entries(ys));
    }
  }

  lemma EntriesSkipDisabled(xs: seq<Target>, t: Target, ys: seq<Target>)
    requires !t.isEnabled
    ensures Entries(xs + [t] + ys) == Entries(xs + ys)
  {
    assert Entries([t]) == [] by {
      assert [t][1..] == [];
    }
    calc {
      Entries(xs + [t] + ys);
      { EntriesAppend(xs + [t], ys); }
      Entries(xs + [t]) + Entries(ys);
      { EntriesAppend(xs, [t]); }
      Entries(xs) + [] + Entries(ys);
      { assert Entries(xs) + [] == Entries(xs); }
      Entries(xs) + Entries(ys);
      { EntriesAppend(xs, ys); }
      Entries(xs + ys);
    }
  }

  /** A disabled target contributes nothing, wherever it sits in the list. */
  lemma CompileIgnoresDisabled(c: Compiler, xs: seq<Target>, t: Target, ys: seq<Target>)
    requires !t.isEnabled
    ensures Compile(c, xs + [t] + ys) == Compile(c, xs + ys)
  {
    EntriesSkipDisabled(xs, t, ys);
  }

  /** Building the entries of a concatenation succeeds only when both parts
      do, and gives their results in order. */
  lemma BuildAllAppend(c: Compiler, a: seq<(Target, string)>, b: seq<(Target, string)>)
    requires BuildAll(c, a + b).Ok?
    ensures BuildAll(c, a).Ok? && BuildAll(c, b).Ok?
    ensures BuildAll(c, a + b).value == BuildAll(c, a).value + BuildAll(c, b).value
  {
    TraverseAppend(BuildPair(c), a, b);
  }

  /** Entries are ordered by target: the entries of a concatenation are the
      entries of the first part followed by those of the second. */
  lemma CompileOrdersByTarget(c: Compiler, xs: seq<Target>, ys: seq<Target>)
    requires Compile(c, xs + ys).Ok?
    ensures Compile(c, xs).Ok? && Compile(c, ys).Ok?
    ensures Compile(c, xs + ys).value.targets == Compile(c, xs).value.targets + Compile(c, ys).value.targets
  {
    EntriesAppend(xs, ys);
    BuildAllAppend(c, Entries(xs), Entries(ys));
  }

  /** One enabled target yields one entry per split hostname, in order, each
      carrying the target's id and the configured interval; a disabled one
      yields none. */
  lemma CompileOneTarget(c: Compiler, t: Target)
    requires Compile(c, [t]).Ok?
    ensures var es := Compile(c, [t]).value.targets;
      && (t.isEnabled ==> |es| == |SplitHostnames(t.host)|)
      && (!t.isEnabled ==> es == [])
      && forall i :: 0 <= i < |es| ==>
           && es[i].hostname == SplitHostnames(t.host)[i]
           && es[i].id == IntToString(t.id)
           && es[i].interval == c.defaultInterval
  {
    assert [t][1..] == [];
    assert Entries([t]) == (if t.isEnabled then HostEntries(t) else []) + Entries([]);
  }

  /** A host of two comma-separated pieces, such as "@, www", compiles to
      exactly two entries: the stripped pieces, in order. */
  lemma CompileTwoHosts(c: Compiler, t: Target, a: string, b: string)
    requires t.isEnabled && t.host == a + "," + b
    requires ',' !in a && Strip(a) != "" && ',' !in b && Strip(b) != ""
    requires Compile(c, [t]).Ok?
    ensures var es := Compile(c, [t]).value.targets;
      |es| == 2 && es[0].hostname == Strip(a) && es[1].hostname == Strip(b)
  {
    SplitTwoPieces(a, b);
    CompileOneTarget(c, t);
  }

  /** Every entry the web application publishes polls every 300 seconds, and
      with no template setting its URL is Namecheap's endpoint formatted for
      that entry. */
  lemma PublishedEntriesDefault(suite: Suite, flaskKey: Key, agentKey: Key,
                                checkIpSetting: Option<string>, checkIpAllowlist: Option<string>,
                                templateSetting: Option<string>, templateAllowlist: Option<string>,
                                urlparse: string -> UrlValidation.ParsedUrl,
                                ipOf: string -> Option<UrlValidation.IpFacts>,
                                isHttpUrl: string -> bool, ts: seq<Target>)
    requires PublishCompiler(suite, flaskKey, agentKey, checkIpSetting, checkIpAllowlist, templateSetting,
                             templateAllowlist, urlparse, ipOf, isHttpUrl).Ok?
    requires Compile(PublishCompiler(suite, flaskKey, agentKey, checkIpSetting, checkIpAllowlist, templateSetting,
                                     templateAllowlist, urlparse, ipOf, isHttpUrl).value, ts).Ok?
    ensures var c := PublishCompiler(suite, flaskKey, agentKey, checkIpSetting, checkIpAllowlist, templateSetting,
                                     templateAllowlist, urlparse, ipOf, isHttpUrl).value;
            var es := Compile(c, ts).value.targets;
      forall i :: 0 <= i < |es| ==>
        && es[i].interval == 300
        && (templateSetting.None? ==>
              es[i].updateUrl == Format(DefaultTemplate, PublisherValues(Entries(ts)[i].1, Entries(ts)[i].0.domain, Entries(ts)[i].0.id)).text)
  {
  }

  /** Re-encryption is faithful: under a cipher that round-trips, the agent
      decrypts every compiled token to the plaintext the web application
      decrypts from the target's stored secret. */
  lemma CompiledTokensDecrypt(c: Compiler, ts: seq<Target>)
    requires RoundTrips(c.suite)
    requires Compile(c, ts).Ok?
    ensures var es := Compile(c, ts).value.targets;
      forall i :: 0 <= i < |es| ==>
        && c.suite.decrypt(c.flaskKey, Entries(ts)[i].0.secret).Ok?
        && c.suite.decrypt(c.agentKey, es[i].encryptedToken) == c.suite.decrypt(c.flaskKey, Entries(ts)[i].0.secret)
  {
  }

  /** `str(n)` contains no brace. */
  lemma IntToStringPlain(n: int)
    ensures Plain(IntToString(n))
  {
    var m: nat := if n < 0 then -n else n;
    var digits := NatToString(m);
    assert forall i :: 0 <= i < |digits| ==> IsDigit(digits[i]);
  }

  /** The values one substitution of the original template would use. */
  function OneShotValues(hostname: string, domain: string, id: int, token: string, ip: Option<string>): map<string, string> {
    map["hostname" := hostname, "domain" := domain, "id" := IntToString(id), "token" := token, "ip" := Core.IpText(ip)]
  }

  /** The compiler's pre-filled values defer `{token}` and `{ip}` to the
      agent's values. */
  lemma PublisherDefersToAgent(hostname: string, domain: string, id: int, token: string, ip: Option<string>)
    requires Plain(hostname) && Plain(domain)
    ensures Defers(PublisherValues(hostname, domain, id), Core.AgentValues(token, hostname, IntToString(id), ip),
                   OneShotValues(hostname, domain, id, token, ip))
  {
    var first := PublisherValues(hostname, domain, id);
    var second := Core.AgentValues(token, hostname, IntToString(id), ip);
    var oneShot := OneShotValues(hostname, domain, id, token, ip);
    IntToStringPlain(id);
    TokenDefers(second);
    IpDefers(second);
    assert DefersKey(first["token"], second, oneShot["token"]);
    assert DefersKey(first["ip"], second, oneShot["ip"]);
    assert DefersKey(first["hostname"], second, oneShot["hostname"]);
    assert DefersKey(first["domain"], second, oneShot["domain"]);
    assert DefersKey(first["id"], second, oneShot["id"]);
    forall n | n in first ensures n in oneShot && DefersKey(first[n], second, oneShot[n]) {
      assert n == "hostname" || n == "domain" || n == "token" || n == "ip" || n == "id";
    }
  }

  /** `{token}` and `{ip}` defer to the second pass's values. */
  lemma TokenDefers(second: map<string, string>)
    requires "token" in second
    ensures DefersKey("{token}", second, second["token"])
  {
    assert "{token}"[1..6] == "token";
    assert !IsDigit("token"[0]);
  }

  lemma IpDefers(second: map<string, string>)
    requires "ip" in second
    ensures DefersKey("{ip}", second, second["ip"])
  {
    assert "{ip}"[1..3] == "ip";
    assert !IsDigit("ip"[0]);
  }

  /** Publishing and then updating resolves the template exactly once: when
      the hostname and domain contain no braces, the agent's substitution of
      a compiled entry's URL (token and IP) gives the same URL as substituting
      every value into the original template in one pass, and never falls
      back to the raw template. */
  lemma CompiledUrlResolves(c: Compiler, t: Target, hostname: string, token: string, ip: Option<string>)
    requires Plain(hostname) && Plain(t.domain)
    requires BuildTarget(c, t, hostname).Ok?
    ensures var e := BuildTarget(c, t, hostname).value;
      && Format(c.template, OneShotValues(hostname, t.domain, t.id, token, ip)).Formatted?
      && Core.BuildUpdateUrl(e.updateUrl, token, e.hostname, e.id, ip)
         == Ok(Format(c.template, OneShotValues(hostname, t.domain, t.id, token, ip)).text)
  {
    var first := PublisherValues(hostname, t.domain, t.id);
    var second := Core.AgentValues(token, hostname, IntToString(t.id), ip);
    PublisherDefersToAgent(hostname, t.domain, t.id, token, ip);
    TwoPass(c.template, first, second, OneShotValues(hostname, t.domain, t.id, token, ip));
  }

  /** The configuration file and the number of service reloads so far. */
  datatype Disk = Disk(document: Option<Json>, reloads: nat)

  /** The outcome of `publish`: the compiled configuration or the exception,
      and the disk afterwards. */
  datatype Published = Published(config: Result<AgentConfig>, disk: Disk)

  /** `publish`: compile first; only a successful compilation writes the
      document and reloads the agent's service. */
  function Publish(c: Compiler, ts: seq<Target>, disk: Disk): (p: Published)
    ensures p.config == Compile(c, ts)
    ensures p.config.Err? ==> p.disk == disk
    ensures p.config.Ok? ==> p.disk == Disk(Some(ConfigToJson(p.config.value)), disk.reloads + 1)
  {
    match Compile(c, ts)
    case Err(e) => Published(Err(e), disk)
    case Ok(config) => Published(Ok(config), Disk(Some(ConfigToJson(config)), disk.reloads + 1))
  }

  /** What the web application publishes is what the agent loads: reading the
      written document back replaces the runner's configuration with exactly
      the compiled one and touches nothing else. */
  lemma PublishedConfigLoads(c: Compiler, ts: seq<Target>, disk: Disk, runner: Core.Runner)
    requires Publish(c, ts, disk).config.Ok?
    ensures Core.LoadConfig(runner, Publish(c, ts, disk).disk.document, c.isHttpUrl)
            == Ok(runner.(config := Some(Publish(c, ts, disk).config.value)))
  {
    var config := Publish(c, ts, disk).config.value;
    ValidateConfigToJson(config, c.isHttpUrl);
  }
}
