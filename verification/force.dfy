/** The web application's forced update of one target (`force_target_update`):
    it decrypts the target's secret, fetches the public IP, formats the update
    URL once per hostname with every value filled in, sends it, and records
    one history row per hostname, classifying Namecheap's answer. The network,
    the XML parser, the key lookup and the IP fetch are inputs. */
module Force {
  import opened Wrappers
  import opened Text
  import opened Template
  import opened Crypto
  import opened Database
  import opened Http
  import opened Hostnames
  import opened Namecheap
  import Publisher

  /** What one hostname's request came to. */
  datatype HostResult = HostResult(
    hostname: string,
    status: Status,
    message: string,
    fields: Fields,
    responseCode: Option<int>)

  /** Whether a status code or Namecheap's own fields report a failure. */
  predicate AnswerFails(code: int, fields: Fields) {
    code >= 400 || IsNamecheapError(fields)
  }

  /** The classification of one exchange. An answer (of any status code) is
      an error when its code is at least 400 or its fields report one; a
      raised request is always an error, and its message is rendered from the
      attached response only when there are fields or a code to show. A
      response attached to the exception is parsed only when it is truthy
      (a code outside 400-599). */
  function Classify(hostname: string, ex: Exchange, parseXml: string -> Option<seq<Element>>): (r: HostResult)
    ensures r.hostname == hostname
    ensures r.status == Error <==> ex.Raised? || AnswerFails(ex.reply.code, ParseFields(ex.reply.body, parseXml))
    ensures ex.Answered? ==> r.responseCode == Some(ex.reply.code) && r.fields == ParseFields(ex.reply.body, parseXml)
    ensures ex.Raised? ==> r.responseCode == (if ex.attached.Some? then Some(ex.attached.value.code) else None)
    ensures ex.Raised? && ex.attached.None? ==> r.message == ex.message && r.fields == []
  {
    match ex
    case Answered(reply) =>
      var fields := ParseFields(reply.body, parseXml);
      var status := if AnswerFails(reply.code, fields) then Error else Success;
      HostResult(hostname, status, FormatMessage(reply.body, Some(reply.code), fields), fields, Some(reply.code))
    case Raised(message, attached) =>
      var code := if attached.Some? then Some(attached.value.code) else None;
      var truthy := attached.Some? && Truthy(attached.value);
      var fields := if truthy then ParseFields(attached.value.body, parseXml) else [];
      var shown := if fields != [] || code.Some? then FormatMessage(if truthy then attached.value.body else message, code, fields) else message;
      HostResult(hostname, Error, shown, fields, code)
  }

  /** A response attached to the exception with a 4xx or 5xx code is
      falsy, so its body is never parsed nor shown: the row is the same
      whatever that body says, and its message is the exception's text with
      the code added. */
  lemma ClassifyIgnoresFailedBody(h: string, message: string, reply: Reply, body: string,
                                  parseXml: string -> Option<seq<Element>>)
    requires RaisesForStatus(reply.code)
    ensures Classify(h, Raised(message, Some(reply)), parseXml) == Classify(h, Raised(message, Some(reply.(body := body))), parseXml)
    ensures Classify(h, Raised(message, Some(reply)), parseXml).fields == []
    ensures Classify(h, Raised(message, Some(reply)), parseXml).message == FormatMessage(message, Some(reply.code), [])
  {
  }

  /** The keyword values of the forced update: every placeholder is filled. */
  function ForceValues(t: Publisher.Target, hostname: string, token: string, ip: string): (r: map<string, string>)
    ensures "hostname" in r && "domain" in r && "token" in r && "ip" in r && "id" in r
    ensures r["hostname"] == hostname && r["domain"] == t.domain && r["token"] == token && r["ip"] == ip
    ensures r["id"] == IntToString(t.id)
  {
    map["hostname" := hostname, "domain" := t.domain, "token" := token, "ip" := ip, "id" := IntToString(t.id)]
  }

  /** The `id` placeholder is the target's row id written in decimal: it
      reads back as that id. */
  lemma ForceIdReadsBack(t: Publisher.Target, hostname: string, token: string, ip: string)
    ensures ParseInt(ForceValues(t, hostname, token, ip)["id"]) == Some(t.id)
  {
    ParseIntOfIntToString(t.id);
  }

  /** One hostname's step: its URL is formatted and requested as request
      number `k`; `None` when formatting raises. */
  function Step(t: Publisher.Target, template: string, token: string, ip: string, h: string,
                net: (nat, string) -> Exchange, parseXml: string -> Option<seq<Element>>, k: nat): (r: Option<HostResult>)
    ensures r.Some? <==> Format(template, ForceValues(t, h, token, ip)).Formatted?
    ensures r.Some? ==> r.value.hostname == h
  {
    match Format(template, ForceValues(t, h, token, ip))
    case Formatted(url) => Some(Classify(h, net(k, url), parseXml))
    case _ => None
  }

  /** The loop over hostnames, starting at request number `start`: each
      hostname's step runs in turn. A formatting error escapes the loop, so
      the flag is false and only the earlier hostnames have results. */
  function ForceLoop(hs: seq<string>, step: (nat, string) -> Option<HostResult>, start: nat): (r: (seq<HostResult>, bool))
    ensures r.1 ==> |r.0| == |hs|
    ensures !r.1 ==> |r.0| < |hs| && step(start + |r.0|, hs[|r.0|]).None?
    ensures forall i :: 0 <= i < |r.0| ==> step(start + i, hs[i]) == Some(r.0[i])
    decreases |hs|
  {
    if |hs| == 0 then ([], true)
    else
      match step(start, hs[0])
      case None => ([], false)
      case Some(head) =>
        var rest := ForceLoop(hs[1..], step, start + 1);
        LoopCons(hs, step, start, head, rest.0);
        ([head] + rest.0, rest.1)
  }

  /** The step on the first hostname followed by the steps on the rest are
      the steps on every hostname. */
  lemma LoopCons(hs: seq<string>, step: (nat, string) -> Option<HostResult>, start: nat, head: HostResult, rest: seq<HostResult>)
    requires |hs| > 0 && step(start, hs[0]) == Some(head)
    requires |rest| <= |hs| - 1
    requires forall i :: 0 <= i < |rest| ==> step(start + 1 + i, hs[1..][i]) == Some(rest[i])
    ensures forall i :: 0 <= i < |[head] + rest| ==> step(start + i, hs[i]) == Some(([head] + rest)[i])
    ensures |rest| < |hs| - 1 ==> hs[|[head] + rest|] == hs[1..][|rest|] && start + |[head] + rest| == start + 1 + |rest|
  {
    forall i | 0 <= i < |[head] + rest|
      ensures step(start + i, hs[i]) == Some(([head] + rest)[i])
    {
      if i > 0 {
        assert hs[i] == hs[1..][i - 1];
        assert ([head] + rest)[i] == rest[i - 1];
      }
    }
  }

  /** The history row one result is written as. */
  function ResultRecord(t: Publisher.Target, ip: string, h: HostResult): (r: Record)
    ensures r.status == h.status && r.message == h.message && r.responseCode == h.responseCode
    ensures r.ipAddress == Some(ip)
    ensures r.targetId == IntToString(t.id) && ParseInt(r.targetId) == Some(t.id)
  {
    ParseIntOfIntToString(t.id);
    Record(IntToString(t.id), h.status, h.message, h.responseCode, Some(ip))
  }

  function ResultRecords(t: Publisher.Target, ip: string, hs: seq<HostResult>): (rs: seq<Record>)
    ensures |rs| == |hs|
    ensures forall i :: 0 <= i < |hs| ==> rs[i] == ResultRecord(t, ip, hs[i])
  {
    seq(|hs|, i requires 0 <= i < |hs| => ResultRecord(t, ip, hs[i]))
  }

  /** The handler's outcome: a refusal before anything is sent (with its
      HTTP status), an exception after `aborted` rows were written, or the
      per-hostname results. */
  datatype ForceOutcome =
    | Refused(httpStatus: int, error: string)
    | Aborted(store: Store)
    | Done(store: Store, results: seq<HostResult>)

  /** `st'` is `st` with the rows of the first `n` hostnames appended: each
      of those hostnames' steps has a result, logged in order. */
  predicate Logged(st: Store, st': Store, t: Publisher.Target, template: string, token: string, ip: string,
                   hs: seq<string>, net: (nat, string) -> Exchange, parseXml: string -> Option<seq<Element>>, n: nat) {
    && n <= |hs|
    && |st'.history| == |st.history| + n
    && forall i :: 0 <= i < n ==>
      && Step(t, template, token, ip, hs[i], net, parseXml, i).Some?
      && st'.history[|st.history| + i] == ResultRecord(t, ip, Step(t, template, token, ip, hs[i], net, parseXml, i).value)
  }

  /** The sending part: one step per hostname, each result logged as it
      comes, so rows written before a formatting error stay written. */
  function Send(t: Publisher.Target, template: string, token: string, ip: string, hs: seq<string>, st: Store,
                net: (nat, string) -> Exchange, parseXml: string -> Option<seq<Element>>): (o: ForceOutcome)
    ensures !o.Refused?
    ensures o.store.cache == st.cache && |st.history| <= |o.store.history| && o.store.history[..|st.history|] == st.history
    ensures o.Done? ==>
      && |o.results| == |hs|
      && |o.store.history| == |st.history| + |hs|
      && forall i :: 0 <= i < |hs| ==>
           && Step(t, template, token, ip, hs[i], net, parseXml, i) == Some(o.results[i])
           && o.results[i].hostname == hs[i]
           && o.store.history[|st.history| + i] == ResultRecord(t, ip, o.results[i])
    // An aborted send keeps the rows of the hostnames before the one whose
    // URL did not format.
    ensures o.Aborted? ==>
      && |o.store.history| < |st.history| + |hs|
      && Logged(st, o.store, t, template, token, ip, hs, net, parseXml, |o.store.history| - |st.history|)
      && Step(t, template, token, ip, hs[|o.store.history| - |st.history|], net, parseXml,
              |o.store.history| - |st.history|).None?
  {
    var loop := ForceLoop(hs, (k: nat, h: string) => Step(t, template, token, ip, h, net, parseXml, k), 0);
    var written := LogAll(st, ResultRecords(t, ip, loop.0));
    if loop.1 then Done(written, loop.0) else Aborted(written)
  }

  /** `_get_flask_key` accepts the setting only when it is truthy: present
      and non-empty. */
  predicate KeyGiven(flaskKey: Option<Key>) {
    flaskKey.Some? && flaskKey.value != ""
  }

  /** The handler has a key, the target's secret decrypts under it, and a
      non-empty public IP was fetched. */
  predicate KeySecretAndIp(t: Publisher.Target, flaskKey: Option<Key>, suite: Suite, fetchedIp: Option<string>) {
    && KeyGiven(flaskKey) && suite.decrypt(flaskKey.value, t.secret).Ok?
    && fetchedIp.Some? && fetchedIp.value != ""
  }

  /** `force_target_update`. `flaskKey` is the web application's key
      setting, if any (an empty setting is refused like a missing one);
      `fetchedIp` is what fetching the public IP returned; `template` is the
      configured update URL template or the reason it was rejected. */
  function ForceUpdate(t: Publisher.Target, flaskKey: Option<Key>, suite: Suite, fetchedIp: Option<string>,
                       template: Result<string>, st: Store,
                       net: (nat, string) -> Exchange, parseXml: string -> Option<seq<Element>>): (o: ForceOutcome)
    ensures !KeyGiven(flaskKey) ==> o == Refused(400, "FLASK_MASTER_KEY is required for encrypting secrets")
    ensures KeyGiven(flaskKey) && suite.decrypt(flaskKey.value, t.secret).Err? ==> o == Aborted(st)
    ensures KeyGiven(flaskKey) && suite.decrypt(flaskKey.value, t.secret).Ok? && (fetchedIp.None? || fetchedIp.value == "")
      ==> o == Refused(502, "Unable to fetch public IP")
    ensures !o.Refused? ==>
      && o.store.cache == st.cache
      && |st.history| <= |o.store.history|
      && o.store.history[..|st.history|] == st.history
    ensures o.Done? ==>
      && KeyGiven(flaskKey) && suite.decrypt(flaskKey.value, t.secret).Ok? && fetchedIp.Some? && fetchedIp.value != ""
      && template.Ok? && |SplitHostnames(t.host)| > 0
      && o == Send(t, template.value, suite.decrypt(flaskKey.value, t.secret).value, fetchedIp.value,
                   SplitHostnames(t.host), st, net, parseXml)
    // An abort is either the secret failing to decrypt, with nothing
    // written, or a send that stopped part-way.
    ensures o.Aborted? ==>
      || (KeyGiven(flaskKey) && suite.decrypt(flaskKey.value, t.secret).Err? && o.store == st)
      || (&& KeySecretAndIp(t, flaskKey, suite, fetchedIp) && template.Ok? && |SplitHostnames(t.host)| > 0
          && o == Send(t, template.value, suite.decrypt(flaskKey.value, t.secret).value, fetchedIp.value,
                       SplitHostnames(t.host), st, net, parseXml))
    // Past the key, the secret and the IP: empty hostnames and a rejected
    // template are refused with 400, and otherwise the update is sent.
    ensures KeySecretAndIp(t, flaskKey, suite, fetchedIp) && |SplitHostnames(t.host)| == 0
      ==> o == Refused(400, "Target hostnames are empty")
    ensures KeySecretAndIp(t, flaskKey, suite, fetchedIp) && |SplitHostnames(t.host)| > 0 && template.Err?
      ==> o == Refused(400, template.error)
    ensures KeySecretAndIp(t, flaskKey, suite, fetchedIp) && |SplitHostnames(t.host)| > 0 && template.Ok?
      ==> o == Send(t, template.value, suite.decrypt(flaskKey.value, t.secret).value, fetchedIp.value,
                    SplitHostnames(t.host), st, net, parseXml)
  {
    if !KeyGiven(flaskKey) then Refused(400, "FLASK_MASTER_KEY is required for encrypting secrets")
    else
      match suite.decrypt(flaskKey.value, t.secret)
      case Err(_) => Aborted(st)
      case Ok(token) =>
        if fetchedIp.None? || fetchedIp.value == "" then Refused(502, "Unable to fetch public IP")
        else
          var ip := fetchedIp.value;
          var hs := SplitHostnames(t.host);
          if |hs| == 0 then Refused(400, "Target hostnames are empty")
          else if template.Err? then Refused(400, template.error)
          else Send(t, template.value, token, ip, hs, st, net, parseXml)
  }

  /** The exchange for request number `k`, for hostname `h`. */
  function ExchangeFor(t: Publisher.Target, template: string, token: string, ip: string, h: string,
                       net: (nat, string) -> Exchange, k: nat): Exchange
    requires Format(template, ForceValues(t, h, token, ip)).Formatted?
  {
    net(k, Format(template, ForceValues(t, h, token, ip)).text)
  }

  /** A history row records a failure exactly when its exchange raised, its
      answer's code is at least 400, or Namecheap's fields report one. */
  predicate RowClassifies(row: Record, ex: Exchange, parseXml: string -> Option<seq<Element>>) {
    row.status == Error <==> ex.Raised? || AnswerFails(ex.reply.code, ParseFields(ex.reply.body, parseXml))
  }

  /** A completed update with one history row per hostname after the rows
      `st` had: each carries the fetched IP and comes from formatting the
      template for its hostname, and each is an error exactly when its own
      request failed. */
  predicate SentRows(o: ForceOutcome, t: Publisher.Target, template: string, token: string, ip: string, hs: seq<string>,
                     st: Store, net: (nat, string) -> Exchange, parseXml: string -> Option<seq<Element>>) {
    && o.Done?
    && |o.store.history| == |st.history| + |hs|
    && forall i :: 0 <= i < |hs| ==>
      && o.store.history[|st.history| + i].ipAddress == Some(ip)
      && Format(template, ForceValues(t, hs[i], token, ip)).Formatted?
      && RowClassifies(o.store.history[|st.history| + i], ExchangeFor(t, template, token, ip, hs[i], net, i), parseXml)
  }

  /** Every row sent carries the fetched IP and every hostname's URL was
      formatted; each row is an error exactly when its own request failed. */
  lemma SendRowsClassify(t: Publisher.Target, template: string, token: string, ip: string, hs: seq<string>, st: Store,
                         net: (nat, string) -> Exchange, parseXml: string -> Option<seq<Element>>)
    requires Send(t, template, token, ip, hs, st, net, parseXml).Done?
    ensures SentRows(Send(t, template, token, ip, hs, st, net, parseXml), t, template, token, ip, hs, st, net, parseXml)
  {
    forall i | 0 <= i < |hs|
      ensures var o := Send(t, template, token, ip, hs, st, net, parseXml);
        && o.store.history[|st.history| + i].ipAddress == Some(ip)
        && Format(template, ForceValues(t, hs[i], token, ip)).Formatted?
        && RowClassifies(o.store.history[|st.history| + i], ExchangeFor(t, template, token, ip, hs[i], net, i), parseXml)
    {
      SendRow(t, template, token, ip, hs, st, net, parseXml, i);
    }
  }

  /** A target whose host is blank, such as "  ", is refused for having no
      hostnames once the key, the secret and the IP are in place. */
  lemma BlankHostRefused(t: Publisher.Target, flaskKey: Option<Key>, suite: Suite, fetchedIp: Option<string>,
                         template: Result<string>, st: Store,
                         net: (nat, string) -> Exchange, parseXml: string -> Option<seq<Element>>)
    requires KeySecretAndIp(t, flaskKey, suite, fetchedIp)
    requires ',' !in t.host && Strip(t.host) == ""
    ensures ForceUpdate(t, flaskKey, suite, fetchedIp, template, st, net, parseXml)
            == Refused(400, "Target hostnames are empty")
  {
    SplitBlankPiece(t.host);
  }

  /** A completed forced update logs one row per hostname of the target, in
      order: each carries the fetched IP and is classified from that
      hostname's own request, whose URL is the template formatted with the
      decrypted token. */
  lemma ForceUpdateRows(t: Publisher.Target, flaskKey: Option<Key>, suite: Suite, fetchedIp: Option<string>,
                        template: Result<string>, st: Store,
                        net: (nat, string) -> Exchange, parseXml: string -> Option<seq<Element>>)
    requires ForceUpdate(t, flaskKey, suite, fetchedIp, template, st, net, parseXml).Done?
    ensures && KeyGiven(flaskKey) && suite.decrypt(flaskKey.value, t.secret).Ok? && fetchedIp.Some? && template.Ok?
            && SentRows(ForceUpdate(t, flaskKey, suite, fetchedIp, template, st, net, parseXml),
                        t, template.value, suite.decrypt(flaskKey.value, t.secret).value, fetchedIp.value,
                        SplitHostnames(t.host), st, net, parseXml)
  {
    var token := suite.decrypt(flaskKey.value, t.secret).value;
    var hs := SplitHostnames(t.host);
    assert ForceUpdate(t, flaskKey, suite, fetchedIp, template, st, net, parseXml)
      == Send(t, template.value, token, fetchedIp.value, hs, st, net, parseXml);
    SendRowsClassify(t, template.value, token, fetchedIp.value, hs, st, net, parseXml);
  }

  /** One row of a completed send: the row of hostname `i` and its
      exchange. */
  lemma SendRow(t: Publisher.Target, template: string, token: string, ip: string, hs: seq<string>, st: Store,
                net: (nat, string) -> Exchange, parseXml: string -> Option<seq<Element>>, i: nat)
    requires Send(t, template, token, ip, hs, st, net, parseXml).Done?
    requires i < |hs|
    ensures var o := Send(t, template, token, ip, hs, st, net, parseXml);
      && o.store.history[|st.history| + i].ipAddress == Some(ip)
      && Format(template, ForceValues(t, hs[i], token, ip)).Formatted?
      && RowClassifies(o.store.history[|st.history| + i], ExchangeFor(t, template, token, ip, hs[i], net, i), parseXml)
  {
    var o := Send(t, template, token, ip, hs, st, net, parseXml);
    assert Step(t, template, token, ip, hs[i], net, parseXml, i) == Some(o.results[i]);
    assert o.results[i] == Classify(hs[i], ExchangeFor(t, template, token, ip, hs[i], net, i), parseXml);
  }
}
