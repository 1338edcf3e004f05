/** The configuration of a request in header-auth mode (config.py, multitenant.py). */
module TenantConfig {
  import opened Basics
  import opened Texts

  datatype Config = Config(
    baseUrl: string, apiKey: string, authUser: string, verifySsl: bool, timeout: real,
    defaultBackends: seq<string>, readOnly: bool, enabledTools: seq<string>, auditLog: bool,
    maxConcurrent: int, maxConnections: int, maxKeepalive: int)

  type Headers = map<string, string>

  const AUTH_KEY := "x-thruk-auth-key"
  const BASE_URL := "x-thruk-base-url"
  const AUTH_USER := "x-thruk-auth-user"
  const BACKENDS := "x-thruk-backends"

  // ---- The header mapping --------------------------------------------------------------------------

  function Glue(a: string, b: string): string {
    a + ", " + b
  }

  /** A comma and a space in between. */
  lemma GlueExactly(a: string, b: string)
    ensures var s := Glue(a, b);
      && |s| == |a| + 2 + |b| && s[..|a|] == a && s[|a|] == ',' && s[|a| + 1] == ' ' && s[|a| + 2..] == b
  {
  }

  lemma GlueAssociates(a: string, b: string, c: string)
    ensures Glue(Glue(a, b), c) == Glue(a, Glue(b, c))
  {
  }

  /** One header more: a name seen before is joined with ", ". */
  function AddHeader(out: Headers, name: string, value: string): Headers {
    out[name := if name in out then Glue(out[name], value) else value]
  }

  function AddHeaders(lower: string -> string, out: Headers, raw: seq<(string, string)>): Headers
    decreases |raw|
  {
    if raw == [] then out else AddHeaders(lower, AddHeader(out, lower(raw[0].0), raw[0].1), raw[1..])
  }

  /** `_lower_headers`; `lower` is the lower-casing of names. */
  method LowerHeaders(lower: string -> string, raw: seq<(string, string)>) returns (out: Headers)
    ensures out == AddHeaders(lower, map[], raw)
  {
    out := map[];
    for i := 0 to |raw|
      invariant AddHeaders(lower, out, raw[i..]) == AddHeaders(lower, map[], raw)
    {
      assert raw[i..][1..] == raw[i + 1..];
      out := AddHeader(out, lower(raw[i].0), raw[i].1);
    }
    assert raw[|raw|..] == [];
  }

  /** The values sent under a name, in order. */
  function ValuesOf(lower: string -> string, raw: seq<(string, string)>, name: string): seq<string> {
    if raw == [] then []
    else (if lower(raw[0].0) == name then [raw[0].1] else []) + ValuesOf(lower, raw[1..], name)
  }

  function Joined(values: seq<string>): string
    requires values != []
  {
    if |values| == 1 then values[0] else Glue(values[0], Joined(values[1..]))
  }

  lemma JoinedFromFront(first: string, second: string, rest: seq<string>)
    ensures Joined([first, second] + rest) == Joined([Glue(first, second)] + rest)
  {
    assert ([first, second] + rest)[1..] == [second] + rest;
    assert ([Glue(first, second)] + rest)[1..] == rest;
    if rest == [] {
      assert [second] + rest == [second];
    } else {
      assert ([second] + rest)[1..] == rest;
      GlueAssociates(first, second, Joined(rest));
    }
  }

  function SentSoFar(out: Headers, name: string): seq<string> {
    if name in out then [out[name]] else []
  }

  function JoinedOrNone(values: seq<string>): Option<string> {
    if values == [] then None else Some(Joined(values))
  }

  lemma OneHeaderMore(out: Headers, sent: string, value: string, name: string, rest: seq<string>)
    ensures JoinedOrNone(SentSoFar(AddHeader(out, sent, value), name) + rest) ==
      JoinedOrNone(SentSoFar(out, name) + ((if sent == name then [value] else []) + rest))
  {
    var more := if sent == name then [value] else [];
    if sent != name {
      assert more + rest == rest;
    } else if name in out {
      JoinedFromFront(out[name], value, rest);
      assert SentSoFar(out, name) + (more + rest) == [out[name], value] + rest;
    } else {
      assert SentSoFar(out, name) + (more + rest) == more + rest;
    }
  }

  /** A name stands for all its values, joined in the order they were sent; a name not sent is not in the mapping. */
  lemma {:induction false} HeadersAreJoined(lower: string -> string, out: Headers, raw: seq<(string, string)>,
                                            name: string)
    ensures var after := AddHeaders(lower, out, raw);
      (if name in after then Some(after[name]) else None) ==
        JoinedOrNone(SentSoFar(out, name) + ValuesOf(lower, raw, name))
    decreases |raw|
  {
    if raw == [] {
      assert SentSoFar(out, name) + [] == SentSoFar(out, name);
    } else {
      HeadersAreJoined(lower, AddHeader(out, lower(raw[0].0), raw[0].1), raw[1..], name);
      OneHeaderMore(out, lower(raw[0].0), raw[0].1, name, ValuesOf(lower, raw[1..], name));
    }
  }

  // ---- A request's configuration ---------------------------------------------------------------------

  function HeaderText(headers: Headers, name: string): string {
    if name in headers then Strip(headers[name]) else ""
  }

  function StripSlashes(s: string): string {
    if s != [] && s[|s| - 1] == '/' then StripSlashes(s[..|s| - 1]) else s
  }

  predicate NotComma(c: char) {
    c != ','
  }

  function KeepFilled(part: string): seq<string> {
    if Strip(part) == "" then [] else [Strip(part)]
  }

  /** `_split_csv`: the pieces between commas, stripped, without the empty ones. */
  function SplitCsv(s: string): seq<string>
    decreases |s|
  {
    var n := Prefix(s, NotComma);
    KeepFilled(s[..n]) + if n == |s| then [] else SplitCsv(s[n + 1..])
  }

  /** `ThrukConfig.from_headers`: None where it raises for want of a key. */
  function FromHeaders(base: Config, headers: Headers): (r: Option<Config>)
    ensures r.Some? ==> SameKnobs(base, r.value)
    ensures r.Some? ==> var c := r.value;
      c == base.(apiKey := c.apiKey, baseUrl := c.baseUrl, authUser := c.authUser, defaultBackends := c.defaultBackends)
  {
    var key, url := HeaderText(headers, AUTH_KEY), HeaderText(headers, BASE_URL);
    var user, backends := HeaderText(headers, AUTH_USER), HeaderText(headers, BACKENDS);
    if key == "" then None
    else
      Some(base.(apiKey := key,
                 baseUrl := if url == "" then base.baseUrl else StripSlashes(url),
                 authUser := if user == "" then base.authUser else user,
                 defaultBackends := if backends == "" then base.defaultBackends else SplitCsv(backends)))
  }

  /** What a request cannot change. */
  predicate SameKnobs(a: Config, b: Config) {
    && a.readOnly == b.readOnly && a.enabledTools == b.enabledTools && a.auditLog == b.auditLog
    && a.verifySsl == b.verifySsl && a.timeout == b.timeout && a.maxConcurrent == b.maxConcurrent
    && a.maxConnections == b.maxConnections && a.maxKeepalive == b.maxKeepalive
  }

  /** Reading the same headers over the outcome changes nothing: all a request asks for is in it. */
  lemma FromHeadersTwice(base: Config, headers: Headers)
    requires FromHeaders(base, headers).Some?
    ensures FromHeaders(FromHeaders(base, headers).value, headers) == FromHeaders(base, headers)
  {
  }

  /** The base URL loses the slashes at its end and nothing else. */
  lemma {:induction false} StripSlashesExactly(s: string)
    ensures StripSlashes(s) <= s && forall i :: |StripSlashes(s)| <= i < |s| ==> s[i] == '/'
    ensures StripSlashes(s) != [] ==> StripSlashes(s)[|StripSlashes(s)| - 1] != '/'
  {
    if s == [] || s[|s| - 1] != '/' {
    } else {
      StripSlashesExactly(s[..|s| - 1]);
    }
  }

  function JoinCsv(parts: seq<string>): string {
    if parts == [] then ""
    else if |parts| == 1 then parts[0]
    else parts[0] + "," + JoinCsv(parts[1..])
  }

  /** A name in a list: not empty, no comma, no white space at either end. */
  ghost predicate IsListed(part: string) {
    part != "" && Every(part, NotComma) && !IsSpace(part[0]) && !IsSpace(part[|part| - 1])
  }

  lemma OneListed(part: string, rest: string)
    requires IsListed(part)
    ensures SplitCsv(part) == [part] && SplitCsv(part + "," + rest) == [part] + SplitCsv(rest)
  {
    StripKeeps(part);
    PrefixIs(part, [], NotComma);
    assert part + [] == part;
    var s := part + "," + rest;
    PrefixIs(part, "," + rest, NotComma);
    assert s == part + ("," + rest);
    assert s[..|part|] == part && s[|part| + 1..] == rest;
  }

  /** Splitting undoes joining with commas. */
  lemma {:induction false} SplitUndoesJoinCsv(parts: seq<string>)
    requires forall p :: p in parts ==> IsListed(p)
    ensures SplitCsv(JoinCsv(parts)) == parts
  {
    if parts == [] {
    } else {
      assert parts[0] in parts;
      if |parts| == 1 {
        OneListed(parts[0], "");
      } else {
        SplitUndoesJoinCsv(parts[1..]);
        OneListed(parts[0], JoinCsv(parts[1..]));
      }
    }
  }

  /** What is sent under a name, in whatever case: all its values joined, without white space around them. */
  function Requested(lower: string -> string, raw: seq<(string, string)>, name: string): string {
    var values := ValuesOf(lower, raw, name);
    if values == [] then "" else Strip(Joined(values))
  }

  lemma HeaderTextIs(lower: string -> string, raw: seq<(string, string)>, name: string)
    ensures HeaderText(AddHeaders(lower, map[], raw), name) == Requested(lower, raw, name)
  {
    HeadersAreJoined(lower, map[], raw, name);
    assert [] + ValuesOf(lower, raw, name) == ValuesOf(lower, raw, name);
  }

  /** A request is refused exactly when no key is sent; otherwise the key, and where they are sent the server, the
      user and the backends, are the ones sent, and the base's where they are not. */
  lemma RequestedExactly(lower: string -> string, raw: seq<(string, string)>, base: Config)
    ensures var r := FromHeaders(base, AddHeaders(lower, map[], raw));
      var url := Requested(lower, raw, "x-thruk-base-url");
      var user := Requested(lower, raw, "x-thruk-auth-user");
      var backends := Requested(lower, raw, "x-thruk-backends");
      && (r.None? <==> Requested(lower, raw, "x-thruk-auth-key") == "")
      && (r.Some? ==>
            && r.value.apiKey == Requested(lower, raw, "x-thruk-auth-key")
            && r.value.baseUrl == (if url == "" then base.baseUrl else StripSlashes(url))
            && r.value.authUser == (if user == "" then base.authUser else user)
            && r.value.defaultBackends == if backends == "" then base.defaultBackends else SplitCsv(backends))
  {
    HeaderTextIs(lower, raw, AUTH_KEY);
    HeaderTextIs(lower, raw, BASE_URL);
    HeaderTextIs(lower, raw, AUTH_USER);
    HeaderTextIs(lower, raw, BACKENDS);
  }
}
