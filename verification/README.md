# simple-namecheap-ddns, modelled in Dafny

This project models the core of a small dynamic-DNS system for Namecheap.
The system has two halves, and the model covers both.

The web application keeps targets. A target is a comma-separated host list,
a domain, an encrypted secret and an enabled flag. From those targets the
application compiles an agent configuration. Compiling does four things:

- it keeps only enabled targets;
- it splits each host list into one entry per hostname;
- it re-encrypts each secret from the web application's key to the agent's key;
- it pre-fills the update URL, leaving `{token}` and `{ip}` for the agent.

The agent loads that configuration and fetches its public IP once per cycle.
When the IP equals the cached `last_ip`, it skips the whole cycle. Otherwise
it sends one update request per entry and appends one history row per entry.
Its main loop reacts to SIGHUP, which reloads the configuration, and to
SIGTERM, which stops the agent.

The model also covers the application's pure helpers:

- hostname normalisation;
- interval coercion;
- Namecheap response-field extraction, error classification and message
  formatting;
- the forced update of one target;
- the URL safety checks and the configuration schema.

Everything is immutable datatypes and pure functions. Some things are
parameters rather than modelled code:

- the cipher, as a pair of functions whose same-key round trip is a
  hypothesis of the lemmas that need it;
- every HTTP exchange, the XML parser, `urlparse` and `ipaddress`;
- the configuration file on disk.

Python's builtins are written out in `text.dfy`:

- `str.strip`, using the full `isspace` set;
- `split` and `join`;
- ASCII `lower`;
- `int(str)`, including signs and digit underscores;
- `str(int)`.

`template.dfy` models the subset of `str.format(**kw)` that the URL
templates use.

| file | module | models |
|---|---|---|
| wrappers.dfy | Wrappers | `Option` and `Result` |
| seqs.dfy | Seqs | small facts about sequence concatenation used by the proofs |
| text.dfy | Text | Python string builtins |
| template.dfy | Template | `str.format` with keyword fields |
| json.dfy | Json | decoded JSON values and truthiness |
| crypto.dfy | Crypto | the abstract cipher |
| schema.dfy | Schema | `AgentTarget`, `AgentConfig` and their validation |
| database.dfy | Database | `LogDB`: append-only history and the key/value cache |
| http.dfy | Http | replies, exceptions, `raise_for_status` |
| core.dfy | Core | `DDNSRunner` |
| agent_main.dfy | AgentMain | the agent's `main` loop as a state machine |
| hostnames.dfy | Hostnames | `_split_hosts`, `_split_hostnames`, `_normalize_hostnames` |
| publisher.dfy | Publisher | `ConfigCompiler` |
| namecheap.dfy | Namecheap | Namecheap field extraction, error test, message format |
| routes.dfy | Routes | interval coercion, target create/update validation |
| force.dfy | Force | `force_target_update` |
| url_validation.dfy | UrlValidation | `parse_host_allowlist`, `validate_url`, the URL settings |

## Behaviour worth noting

- **Cache.** The cache holds one global `last_ip` key for the whole agent.
- **Skipping.** An unchanged IP skips the whole cycle: no request is sent
  and no history row is written. Rows are only ever "success" or "error".
- **When the cache is set.** The cache is set to the fetched IP before any
  target is tried, whatever the targets' outcomes.
- **Failed IP fetch.** The cycle still runs, with the IP rendered as "".
- **Sleep.** With no targets the agent sleeps 60 seconds; otherwise the
  larger of 30 and the smallest target interval.
- **Entry interval.** Every compiled entry gets the compiler's fixed
  interval of 300 seconds, whatever the target's own interval.
- **Failed reload.** A reload that fails ends the main loop; the agent does
  not carry on with the previous configuration.
- **SIGHUP during a reload.** A SIGHUP that arrives while a reload runs is
  lost, because the flag is cleared after the load.
- **Empty key.** An empty `FLASK_MASTER_KEY` is refused like a missing one.

## Model

| member | source | states |
|---|---|---|
| Database.LogUpdate | agent/database.py:53-67 | appends exactly the given record after the unchanged earlier history; the cache is untouched |
| Database.GetCache | agent/database.py:69-76 | returns a value exactly for keys that were set, and that key's stored value |
| Database.SetCache | agent/database.py:78-88 | afterwards the key reads back the new value, every other key reads as before, history is unchanged |
| Database.EmptyCacheMisses | agent/database.py:69-76 | a fresh store answers `None` for every key |
| Database.LastWriteWins | agent/database.py:78-88 | two writes to one key equal the second write alone |
| Database.HistoryOnlyGrows | agent/database.py:19-91 | any sequence of log and cache writes keeps every earlier history row in place and grows history by exactly one row per log write |
| Database.LogAll | agent/database.py:53-67 | logging rows one after another appends them in order and leaves the cache alone |
| Schema.ValidateTarget | shared_lib/schema.py:13-24 | an accepted target object is exactly the encoding of the target it yields, with an HTTP update URL; a missing or an extra key is rejected |
| Schema.ValidateTargets | shared_lib/schema.py:29 | an accepted list is exactly the encoding of the targets it yields, every one with an HTTP update URL |
| Schema.ValidateConfig | shared_lib/schema.py:27-35 | an accepted config object is the encoding of the config it yields with valid URLs; a missing or extra top-level key is rejected |
| Schema.ValidateTargetToJson | shared_lib/schema.py:13-24 | decoding an encoded target gives it back exactly when its update URL is an HTTP URL |
| Schema.ValidateTargetsToJson | shared_lib/schema.py:29 | a list of encoded targets with HTTP URLs decodes back to the same list |
| Schema.ValidateConfigToJson | shared_lib/schema.py:27-35 | an encoded config decodes back to itself if and only if all its URLs are HTTP URLs |
| Core.LoadConfig | agent/core.py:47-54 | the in-memory config is replaced exactly when the file can be read and validates; the new config encodes to the file and has valid URLs; otherwise the call fails and nothing changes |
| Core.GetConfig | agent/core.py:56-59 | a loaded config is returned as is; otherwise the result is exactly that of `load_config`, and a success always has a config and the same store |
| Core.GetConfigLoadsOnce | agent/core.py:56-59 | the file is read at most once: after a successful call, later calls give the same runner whatever the file holds by then |
| Core.FetchPublicIp | agent/core.py:61-68 | an IP is obtained exactly when the request answered without a 4xx/5xx code, and it is the response body stripped of surrounding whitespace |
| Core.FetchPaddedAddress | agent/core.py:61-68 | a body of whitespace, an address and whitespace (such as a trailing newline) gives exactly the address |
| Core.BuildUpdateUrl | agent/core.py:70-87 | only a malformed template fails; a template naming a placeholder the agent does not fill is returned unchanged, and so is a brace-free one; otherwise the formatted text |
| Core.BuildUpdateUrlRenders | agent/core.py:70-87 | a template with only the token, hostname, id and ip placeholders is rendered with those values, ip as "" when none; a template with any other placeholder is returned unchanged |
| Core.MinInterval | agent/core.py:154 | the result is one of the targets' intervals and no target's interval is smaller |
| Core.SleepSeconds | agent/core.py:150-154 | 60 with no targets; otherwise the larger of 30 and the smallest target interval: never below 30, equal to 30 or to some target's interval, no larger than any interval when above 30, and no smaller than some interval |
| Core.Attempt | agent/core.py:100-145 | one row carrying the target id and the cycle's IP; success exactly when decryption and URL building succeeded and the request answered without a 4xx/5xx code; a success carries the status code |
| Core.Attempts | agent/core.py:100-145 | one row per target, in target order |
| Core.UpdateAll | agent/core.py:100-145 | history grows by exactly one row per target in order, earlier rows kept, the cache untouched, and each row's status is decided by its own request only |
| Core.RunOnce | agent/core.py:89-145 | fails only when no config can be obtained; an unchanged non-empty IP writes nothing and sends nothing; otherwise one row per target after the earlier history and one request per target; the cache becomes the fetched IP whenever one was fetched, before and whatever the outcomes |
| Core.CycleRows | agent/core.py:100-145 | in a cycle, row `i` names target `i` and the cycle's IP, and is a success exactly when target `i`'s own request was answered without a 4xx/5xx code |
| Core.RunOnceRows | agent/core.py:89-145 | when `run_once` does not skip, row `i` after the earlier history names target `i` and the fetched IP, and is a success exactly when that target's own request went through, whatever happened to the others |
| Hostnames.SplitHostnames | webapp/publisher.py:41-43 | every hostname produced is non-empty, stripped and comma-free |
| Hostnames.SplitOnePiece | webapp/routes.py:164-165 | a comma-free value that is not blank is one hostname, stripped |
| Hostnames.SplitBlankPiece | webapp/routes.py:164-165 | a comma-free value that is blank, such as "  ", gives no hostname |
| Hostnames.SplitAllBlank | webapp/routes.py:164-165 | a blank piece before a comma adds no hostname, so " , " gives none |
| Hostnames.SplitHostnamesAppend | webapp/publisher.py:41-43 | splitting "a,b" gives the hostnames of "a" followed by those of "b": order is kept, empty pieces vanish, duplicates stay |
| Hostnames.SplitTwoPieces | webapp/publisher.py:41-43 | a value of two comma-free, non-blank pieces such as "@, www" splits into exactly those two pieces, stripped, in order |
| Hostnames.Dedupe | webapp/routes.py:154-160 | the result has no duplicates, has exactly the elements of the input, and lists them in the order of their first appearance in the input |
| Hostnames.DedupeOfDistinct | webapp/routes.py:154-160 | a list without duplicates is kept as it is |
| Hostnames.NormalizeHostnames | webapp/routes.py:152-161 | the loop with its seen-set computes the split, de-duplicated hostnames joined by ", " |
| Hostnames.SplitJoinedHostnames | webapp/routes.py:161-165 | splitting a ", "-joined list of hostname pieces gives the list back |
| Hostnames.SplitNormalized | webapp/routes.py:152-165 | the hostnames of a normalised value are the distinct hostnames of the original in first-appearance order, none empty, none repeated |
| Hostnames.NormalizedIdempotent | webapp/routes.py:152-161 | normalising twice is normalising once |
| Publisher.PublisherValues | webapp/publisher.py:48-54 | the compiler fills exactly the hostname, domain, token, ip and id keywords |
| Publisher.BuildTarget | webapp/publisher.py:45-61 | succeeds exactly when the stored secret decrypts, the template formats and the URL is an HTTP URL; the entry has id `str(target.id)`, the given hostname, the compiler's interval, the formatted URL, and the secret re-encrypted under the agent key |
| Publisher.HostEntries | webapp/publisher.py:67-68 | one entry per split hostname of the target, in order |
| Publisher.EntriesFromEnabled | webapp/publisher.py:63-68 | every entry comes from an enabled target and one of its split hostnames |
| Publisher.BuildAll | webapp/publisher.py:66-68 | succeeds exactly when every entry builds, and then yields each entry's build in order |
| Publisher.PublishCompiler | webapp/routes.py:74-90 | the compiler exists exactly when both configured URLs validate, the IP-check URL first, and a refusal is that URL's error; it holds the configured URL and template (or their defaults) and the constructor's default interval |
| Publisher.PublishedEntriesDefault | webapp/publisher.py:20-39 | every entry the web application publishes has interval 300, and with no template setting its URL is Namecheap's endpoint formatted for its hostname, domain and id |
| Publisher.Compile | webapp/publisher.py:63-72 | succeeds exactly when every entry builds and the IP-check URL is an HTTP URL; keeps the constructor's IP-check URL; one target per entry, in order; all URLs valid |
| Publisher.EntriesAppend | webapp/publisher.py:64-68 | the entries of two target lists are the entries of each, concatenated |
| Publisher.BuildAllAppend | webapp/publisher.py:66-68 | building the entries of a concatenation succeeds only when both parts build, and gives the first part's entries then the second's |
| Publisher.CompileIgnoresDisabled | webapp/publisher.py:64 | inserting a disabled target anywhere changes nothing |
| Publisher.CompileOrdersByTarget | webapp/publisher.py:65-68 | the compiled targets of two lists are those of the first followed by those of the second |
| Publisher.CompileOneTarget | webapp/publisher.py:55-68 | compiling one enabled target gives one entry per hostname, with its id, hostname and the compiler's configured interval |
| Publisher.CompileTwoHosts | webapp/publisher.py:65-68 | a host of two comma-free, non-blank pieces such as "@, www" compiles to exactly two entries, the stripped pieces, in order |
| Publisher.CompiledTokensDecrypt | webapp/publisher.py:46-47 | if the cipher round-trips, every entry's token decrypts under the agent key to the plaintext that the web application's key recovers from the stored secret |
| Publisher.PublisherDefersToAgent | webapp/publisher.py:48-54 | with brace-free hostname and domain, the compiler's values re-emit `{token}` and `{ip}` and agree with the agent's values on the rest |
| Publisher.CompiledUrlResolves | webapp/publisher.py:48-54 | the agent's `_build_update_url` on a compiled URL equals formatting the original template in one pass with every value |
| Publisher.Publish | webapp/publisher.py:74-82 | the config is compiled first; a failed compile writes nothing and reloads nothing; a successful one writes the encoded config and reloads once |
| Publisher.PublishedConfigLoads | webapp/publisher.py:74-82 | the agent's `load_config` accepts a freshly published file and yields exactly the compiled config |
| Namecheap.KeyIndex | webapp/routes.py:179-194 | the position of the first pair with the key, or the length when there is none |
| Namecheap.Put | webapp/routes.py:184-194 | dict assignment: the key reads back the value, other keys are unchanged, a new key goes last, existing order is kept |
| Namecheap.StripXmlTag | webapp/routes.py:168-169 | a tag without "}" is kept; otherwise everything up to and including the first "}" is dropped |
| Namecheap.StripNamespace | webapp/routes.py:168-169 | "{namespace}Local" becomes "Local" |
| Namecheap.Offer | webapp/routes.py:183-190 | an unconditional field overwrites, a conditional one fills only an absent key; other keys are unchanged |
| Namecheap.AttrOffer | webapp/routes.py:191-194 | an IsSuccess or ErrCount attribute fills the field only when it is still absent |
| Namecheap.ScanAll | webapp/routes.py:180-195 | the collected fields never repeat a key |
| Namecheap.ParseFields | webapp/routes.py:172-195 | no fields for an empty body, a body without "<", or one that does not parse |
| Namecheap.ScanAllMatchesExpected | webapp/routes.py:180-194 | each field's value is that of the last element setting it unconditionally; failing that, of the first element offering it while absent |
| Namecheap.IsNamecheapError | webapp/routes.py:198-209 | an error exactly when ErrCount is present and `int` reads it as a positive number, or IsSuccess is present and false-like; either alone suffices whatever the other says |
| Namecheap.SuccessIsNotError | webapp/routes.py:198-209 | a success flag that is not false-like, with no ErrCount or one that is not a positive number, is not an error |
| Namecheap.ErrorCountDecides | webapp/routes.py:198-209 | with a numeric ErrCount and no IsSuccess, the response is an error exactly when the count is positive |
| Namecheap.NonNumericCountIgnored | webapp/routes.py:198-209 | a non-numeric ErrCount is ignored and only a false-like IsSuccess ("false", "0", "no" in any case or padding) makes an error |
| Namecheap.NoFieldsNoError | webapp/routes.py:198-209 | without ErrCount and IsSuccess there is no error |
| Namecheap.WithKeyUnique | webapp/routes.py:222-224 | in a dict the pairs with one key are at most the single entry for it |
| Namecheap.OrderedPairsPermutes | webapp/routes.py:220-229 | the ordered detail fields are a permutation of the fields: nothing lost, nothing repeated |
| Namecheap.DetailParts | webapp/routes.py:217-229 | one part for the HTTP code when there is one, plus one per field |
| Namecheap.FormatMessage | webapp/routes.py:212-236 | the stripped body alone without detail; the detail alone when the body is blank; otherwise "body (detail)", the detail joined by " \| " |
| Routes.PyInt | webapp/routes.py:146-148 | integers convert to themselves and booleans to 1 or 0; the decimal text of any integer converts to it; blank text, None, lists and objects fail |
| Routes.CoerceIntervalMinutes | webapp/routes.py:138-149 | a missing key gives the default when asked to and no interval otherwise; an integer or the decimal text of an integer gives that integer; blank text, null, a list or an object gives no interval |
| Routes.CoerceDecimalText | webapp/routes.py:138-149 | decimal text of any integer coerces to that integer |
| Routes.CoerceBlankText | webapp/routes.py:145-148 | blank text is not an interval |
| Routes.CreateTarget | webapp/routes.py:412-447 | saves exactly when host, domain and secret_id are given, the secret exists, the normalised host is non-empty and the interval (5 by default) is at least 1; the saved row has the normalised host, the given domain and secret, the coerced interval and `is_enabled` (true by default); missing required fields, a missing secret and a bad interval each give their 400 message |
| Routes.CreateDefaultsInterval | webapp/routes.py:419-423 | a payload without an interval is saved with 5 minutes |
| Routes.CreatedHostIsNormal | webapp/routes.py:428-441 | a created target's hosts are the distinct submitted hostnames and its host is already normal |
| Routes.BlankHostRequired | webapp/routes.py:460-464 | a host of blank pieces such as " , " is refused with "host is required" |
| Routes.UpdateHost | webapp/routes.py:460-464 | saves exactly when the given host is text that normalises to something non-empty, and then stores that normal form and changes nothing else; a falsy host or one that normalises to nothing gives the 400 message |
| Routes.UpdateTarget | webapp/routes.py:457-483 | saves exactly when every present field is accepted and a present interval coerces to at least 1; each present field replaces the stored one (the host normalised, `is_enabled` by truthiness); absent fields keep their stored values; an otherwise accepted update with a bad interval gives its 400 message |
| Routes.UpdateTwiceIsOnce | webapp/routes.py:457-483 | sending the same update again changes nothing more |
| Routes.EmptyUpdateKeepsRow | webapp/routes.py:457-483 | an empty payload saves the row unchanged |
| Force.Classify | webapp/routes.py:536-564 | a row is an error exactly when the request raised, the code is at least 400, or the Namecheap fields report an error; an answer's code and fields are kept; a bare exception keeps its own text |
| Force.ClassifyIgnoresFailedBody | webapp/routes.py:550-564 | a 4xx/5xx response attached to an exception is falsy, so its body is neither parsed nor shown |
| Force.ForceValues | webapp/routes.py:528-534 | the URL is formatted with the hostname, the target's domain, the decrypted token, the fetched IP and `str(target.id)` |
| Force.ForceIdReadsBack | webapp/routes.py:528-534 | the `id` value is the target's id in decimal: it parses back to that id |
| Force.Step | webapp/routes.py:529-564 | a hostname has a result exactly when its URL formats, and the result names that hostname |
| Force.ForceLoop | webapp/routes.py:527-584 | hostnames are processed in order; a complete run has one result per hostname; an incomplete one stops at the first hostname whose URL does not format |
| Force.ResultRecord | webapp/routes.py:565-573 | the row carries the result's status, message and code, the fetched IP, and `str(target.id)`, which parses back to the id |
| Force.BlankHostRefused | webapp/routes.py:516-519 | with the key, the secret and the IP in place, a blank host is refused with "Target hostnames are empty" |
| Force.Send | webapp/routes.py:524-584 | earlier history and the cache are kept; a complete run writes one row per hostname, in order, each with its result; an aborted run stops at the first hostname whose URL does not format, and the rows of every hostname before it stay written, in order |
| Force.ForceUpdate | webapp/routes.py:504-593 | a missing or empty key gives 400; a secret that does not decrypt aborts with nothing written; no IP gives 502; past those, empty hostnames give a 400, a template error gives a 400 with its message, and otherwise the outcome is exactly the send over the target's split hostnames with the decrypted token and the fetched IP |
| Force.ForceUpdateRows | webapp/routes.py:524-584 | a completed forced update writes one row per hostname after the earlier history, each with the fetched IP and an error exactly when that hostname's own request failed |
| Force.SendRowsClassify | webapp/routes.py:528-573 | every hostname's row carries the fetched IP and is an error exactly when that hostname's own request failed |
| UrlValidation.ParseHostAllowlist | shared_lib/url_validation.py:10-17 | empty for a missing or empty setting; every element non-empty, stripped and lower case; every non-blank piece is included |
| UrlValidation.AllowlistIsSplitHosts | shared_lib/url_validation.py:13-17 | the allowlist is exactly the split hostnames of the setting, lower-cased |
| UrlValidation.ValidateUrl | shared_lib/url_validation.py:20-50 | accepts exactly when the scheme is https in any case, there is a hostname, it is not localhost in any case, it is not a forbidden IP, and it is allowlisted when there is an allowlist; scheme, hostname and localhost failures give their own messages |
| UrlValidation.SchemeCaseInsensitive | shared_lib/url_validation.py:22-24 | changing only the letter case of the scheme changes nothing |
| UrlValidation.ForbiddenIpRefused | shared_lib/url_validation.py:32-45 | a private, loopback, link-local, reserved, multicast or unspecified address is refused whatever the allowlist |
| UrlValidation.AllowlistDecides | shared_lib/url_validation.py:47-50 | an empty allowlist restricts nothing; a non-empty one admits exactly the hosts on it, compared in lower case |
| UrlValidation.ConfiguredUrl | webapp/routes.py:239-266 | the configured URL, or the default when unset, is returned exactly when it passes validation against its allowlist setting; a refusal names the setting |
| AgentMain.Start | agent/main.py:34-37 | the config is loaded once before the loop; a failed first load raises before the `try`, so the runner is not closed; signals during that load set their flags |
| AgentMain.Body | agent/main.py:41-47 | a pending reload happens before `run_once` and clears the flag; a failed reload leaves the loop; otherwise `run_once` runs on the reloaded runner, the agent keeps the runner it returns, and the wait is `get_sleep_seconds` of that runner's config |
| AgentMain.Run | agent/main.py:39-49 | the stop flag is never cleared: after any SIGTERM among the events, it is set |
| AgentMain.Step | agent/main.py:26-49 | the runner is closed exactly when the loop is left; SIGHUP only sets the flag; SIGTERM sets the stop flag and ends a wait |
| AgentMain.RunConsistent | agent/main.py:39-49 | after any sequence of events the runner is closed exactly when the loop has been left, and a looping agent has a config |
| AgentMain.ExitIsFinal | agent/main.py:39-49 | once the loop is left, no event changes the position, the runner or the closed flag |
| AgentMain.HangupsCollapse | agent/main.py:26-28 | any number of SIGHUPs before a check amount to one pending reload |
| AgentMain.HangupDuringLoadAbsorbed | agent/main.py:41-43 | a SIGHUP during a successful reload is lost: the flag ends cleared either way |
| AgentMain.StopTakesEffect | agent/main.py:40-47 | after SIGTERM, while waiting or about to check, the next iteration leaves the loop with the runner closed and no error |
| AgentMain.ReloadFailureEnds | agent/main.py:39-49 | a failed reload leaves the loop with its error, after closing, with the old runner state |

## Left out

- Fernet encryption in shared_lib/security.py is not part of this model. The cipher is a pair of functions, its round trip is a hypothesis, and encryption is treated as deterministic.
- HTTP transport, timeouts, redirects and sessions are left out. Every exchange is an input.
- The SQLite engine is left out: WAL mode, timestamps, the schema and the dashboard's queries (webapp/routes.py:595-635).
- The config file write in `_write_atomic` (temporary file, chmod, rename) and the `systemctl` reload are one state change: the document and a reload counter.
- The ORM and the Flask request/response plumbing are left out. The `interval_minutes` column missing from webapp/models.py and the two-argument `publish` call at webapp/routes.py:94 are not reconciled.
- `_publish_config` is modelled only as far as the compiler it builds (`Publisher.PublishCompiler`): its error reply, its `publish` call and the logging are left out. `_get_agent_key` is left out; it reads an env file. The settings and keys are inputs.
- The manual-IP settings endpoint and `_normalize_manual_ip` are left out. They depend on `ipaddress` formatting.
- Library internals are left out:
  - `urlparse` and `ipaddress` range tables, which are inputs;
  - ElementTree, whose pre-order element list is an input;
  - pydantic's lax coercion and `HttpUrl` normalisation, where URL validity is an input predicate and values round-trip unchanged.
- `str.format` brace escapes, format specs, conversions and attribute access are not modelled. Python raises on a lone brace, and the model reports that as an error.
- `str.lower`, `str.isdigit` and `int()` cover ASCII only: no Unicode case mapping and no non-ASCII digits.
- A float payload interval is not modelled; `int()` would truncate it. Payloads that are not JSON objects are not modelled either.
- Real signal delivery and threads are discrete events. A SIGHUP is only distinguished as arriving during a reload or between steps.
- `DDNSRunner.__init__` and its environment key lookup are left out, and so is logging.
- `Force.Classify`: the message of a raised request with an attached response, or of an answer, is not stated in its contract. It is computed by `FormatMessage`, whose contract states the three cases.
- `Force.ForceUpdate`: the 400 for an invalid update-URL template is modelled as the template input being an error. `ConfiguredUrl` states when that happens.
- `AgentMain.Step`: other exceptions from `run_once`, such as database errors, are not modelled. With a configuration loaded, `run_once` does not fail in the model.
