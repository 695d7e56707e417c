/** The safety checks applied to the outbound URLs the web application
    configures (the public-IP service and the update URL template). URL
    parsing and IP-address classification are library code, so they are
    inputs: what `urlparse` reports and what `ipaddress.ip_address` makes of
    a host. */
module UrlValidation {
  import opened Wrappers
  import opened Text
  import opened Hostnames

  /** The parts of `urlparse(value)` the checks read. */
  datatype ParsedUrl = ParsedUrl(scheme: string, hostname: Option<string>)

  /** The classification of a host that parses as an IP address. */
  datatype IpFacts = IpFacts(
    isPrivate: bool,
    isLoopback: bool,
    isLinkLocal: bool,
    isReserved: bool,
    isMulticast: bool,
    isUnspecified: bool)

  /** An address no request should be sent to. */
  predicate Forbidden(ip: IpFacts) {
    ip.isPrivate || ip.isLoopback || ip.isLinkLocal || ip.isReserved || ip.isMulticast || ip.isUnspecified
  }

  /** `parse_host_allowlist`: the comma-separated pieces that are not blank,
      each stripped and lower-cased. Nothing configured (or an empty
      setting) is the empty allowlist. */
  function ParseHostAllowlist(raw: Option<string>): (r: set<string>)
    ensures raw.None? || raw.value == "" ==> r == {}
    ensures forall h :: h in r ==> h != "" && IsStripped(h) && IsLower(h)
    ensures raw.Some? ==> forall p :: p in Split(raw.value, ',') && Strip(p) != "" ==> Lower(Strip(p)) in r
  {
    if raw.None? || raw.value == "" then {}
    else
      var pieces := Split(raw.value, ',');
      var r := set p | p in pieces && Strip(p) != "" :: Lower(Strip(p));
      forall h | h in r ensures h != "" && IsStripped(h) && IsLower(h) {
        var p :| p in pieces && Strip(p) != "" && h == Lower(Strip(p));
        LowerKeepsStripped(Strip(p));
        LowerIsLower(Strip(p));
      }
      r
  }

  lemma LowerKeepsStripped(s: string)
    requires IsStripped(s)
    ensures IsStripped(Lower(s))
  {
  }

  /** The allowlist is the hostname splitter's output, lower-cased: the same
      pieces the publisher and the forced update work on. */
  lemma {:induction false} AllowlistIsSplitHosts(raw: string)
    requires raw != ""
    ensures ParseHostAllowlist(Some(raw)) == set h | h in SplitHostnames(raw) :: Lower(h)
  {
    var pieces := Split(raw, ',');
    var stripped := StripAll(pieces);
    var hs := SplitHostnames(raw);
    var left := ParseHostAllowlist(Some(raw));
    var right := set h | h in hs :: Lower(h);
    forall x | x in left ensures x in right {
      var p :| p in pieces && Strip(p) != "" && x == Lower(Strip(p));
      InStripAll(pieces, p);
      NonEmptyKeeps(stripped, Strip(p));
    }
    forall x | x in right ensures x in left {
      var h :| h in hs && x == Lower(h);
      FromStripAll(pieces, h);
    }
  }

  lemma InStripAll(xs: seq<string>, x: string)
    requires x in xs
    ensures Strip(x) in StripAll(xs)
  {
    var k :| 0 <= k < |xs| && xs[k] == x;
    assert StripAll(xs)[k] == Strip(x);
  }

  lemma FromStripAll(xs: seq<string>, h: string)
    requires h in StripAll(xs)
    ensures exists x :: x in xs && Strip(x) == h
  {
    var k :| 0 <= k < |xs| && StripAll(xs)[k] == h;
    assert xs[k] in xs;
  }

  /** Every non-empty element survives `NonEmpty`. */
  lemma {:induction false} NonEmptyKeeps(xs: seq<string>, x: string)
    requires x in xs && x != ""
    ensures x in NonEmpty(xs)
    decreases |xs|
  {
    var init := xs[..|xs| - 1];
    if xs[|xs| - 1] != x {
      assert x in init;
      NonEmptyKeeps(init, x);
    }
  }

  /** Why `validate_url` refuses a URL: the text of the `ValueError`. */
  function SchemeProblem(): string { "URL must use https://" }
  function HostnameProblem(): string { "URL must include a hostname" }
  function LocalhostProblem(): string { "URL hostname cannot be localhost" }
  function PrivateIpProblem(): string { "URL hostname cannot be a loopback or private IP" }
  function AllowlistProblem(host: string): string { "URL host " + host + " is not in the allowlist" }

  /** Every check passes: an https URL with a hostname that is not
      localhost, not a forbidden IP address, and on the allowlist when there
      is one. */
  predicate Acceptable(p: ParsedUrl, allowed: set<string>, ipOf: string -> Option<IpFacts>) {
    && Lower(p.scheme) == "https"
    && p.hostname.Some? && p.hostname.value != ""
    && var host := Lower(p.hostname.value);
       && host != "localhost"
       && !(ipOf(host).Some? && Forbidden(ipOf(host).value))
       && (allowed == {} || host in set a | a in allowed :: Lower(a))
  }

  /** `validate_url`: `None` when the URL is accepted, otherwise the problem,
      checked in order: scheme, hostname, localhost, IP range, allowlist. */
  function ValidateUrl(value: string, allowed: set<string>, urlparse: string -> ParsedUrl,
                       ipOf: string -> Option<IpFacts>): (r: Option<string>)
    ensures r.None? <==> Acceptable(urlparse(value), allowed, ipOf)
    ensures Lower(urlparse(value).scheme) != "https" ==> r == Some(SchemeProblem())
    ensures Lower(urlparse(value).scheme) == "https" && (urlparse(value).hostname.None? || urlparse(value).hostname.value == "")
      ==> r == Some(HostnameProblem())
    ensures (Lower(urlparse(value).scheme) == "https" && urlparse(value).hostname.Some?
             && Lower(urlparse(value).hostname.value) == "localhost") ==> r == Some(LocalhostProblem())
  {
    var parsed := urlparse(value);
    if Lower(parsed.scheme) != "https" then Some(SchemeProblem())
    else if parsed.hostname.None? || parsed.hostname.value == "" then Some(HostnameProblem())
    else
      var host := Lower(parsed.hostname.value);
      if host == "localhost" then Some(LocalhostProblem())
      else
        var ip := ipOf(host);
        if ip.Some? && Forbidden(ip.value) then Some(PrivateIpProblem())
        else if allowed != {} && host !in set a | a in allowed :: Lower(a) then Some(AllowlistProblem(host))
        else None
  }

  /** Letter case never matters for the scheme: "HTTPS://" passes the scheme
      check, and nothing but "https" in some case does. */
  lemma SchemeCaseInsensitive(value: string, allowed: set<string>, urlparse: string -> ParsedUrl,
                              ipOf: string -> Option<IpFacts>, other: string)
    requires Lower(other) == Lower(urlparse(value).scheme)
    ensures ValidateUrl(value, allowed, urlparse, ipOf)
         == ValidateUrl(value, allowed, (v: string) => if v == value then urlparse(value).(scheme := other) else urlparse(v), ipOf)
  {
  }

  /** An IP literal in a forbidden range is refused whatever the allowlist
      says. */
  lemma ForbiddenIpRefused(value: string, allowed: set<string>, urlparse: string -> ParsedUrl,
                           ipOf: string -> Option<IpFacts>)
    requires Lower(urlparse(value).scheme) == "https"
    requires urlparse(value).hostname.Some? && urlparse(value).hostname.value != ""
    requires Lower(urlparse(value).hostname.value) != "localhost"
    requires ipOf(Lower(urlparse(value).hostname.value)).Some? && Forbidden(ipOf(Lower(urlparse(value).hostname.value)).value)
    ensures ValidateUrl(value, allowed, urlparse, ipOf) == Some(PrivateIpProblem())
  {
  }

  /** An empty allowlist restricts nothing; a non-empty one admits only the
      hosts on it (compared in lower case). */
  lemma AllowlistDecides(value: string, allowed: set<string>, urlparse: string -> ParsedUrl,
                         ipOf: string -> Option<IpFacts>)
    requires Acceptable(urlparse(value), {}, ipOf)
    ensures ValidateUrl(value, {}, urlparse, ipOf).None?
    ensures ValidateUrl(value, allowed, urlparse, ipOf).None? <==>
      allowed == {} || Lower(urlparse(value).hostname.value) in set a | a in allowed :: Lower(a)
  {
  }

  /** `_get_check_ip_url` and `_get_update_url_template`: the configured
      value (or the default when unset) is validated against the allowlist
      read from its companion setting; a refusal becomes a `RuntimeError`
      naming the setting. */
  function ConfiguredUrl(name: string, setting: Option<string>, default: string, allowlistSetting: Option<string>,
                         urlparse: string -> ParsedUrl, ipOf: string -> Option<IpFacts>): (r: Result<string>)
    ensures r.Ok? <==> Acceptable(urlparse(setting.GetOr(default)), ParseHostAllowlist(allowlistSetting), ipOf)
    ensures r.Ok? ==> r.value == setting.GetOr(default)
    ensures r.Err? ==> exists problem :: r.error == name + " is invalid: " + problem
  {
    var url := setting.GetOr(default);
    match ValidateUrl(url, ParseHostAllowlist(allowlistSetting), urlparse, ipOf)
    case None => Ok(url)
    case Some(problem) => Err(name + " is invalid: " + problem)
  }
}
