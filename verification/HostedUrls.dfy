/** Index URLs on the hosting domains: the candidates built for a subdomain, and the subdomain read back from a URL. */
module HostedUrls {
  import opened Wrappers
  import opened Text

  /** The hosting domains as configured, none where the value is not a text, and the protocol. */
  datatype Config = Config(domains: seq<Option<string>>, protocol: Option<string>)

  // ----- domains -----

  function Normalize(value: Option<string>): Option<string> {
    if value.None? then None
    else
      var text := Lower(Trim(value.value));
      var domain := if text != "" && text[0] == '.' then text[1..] else text;
      if domain == "" then None else Some(domain)
  }

  /** The domain without its port. */
  function Bare(value: Option<string>): Option<string> {
    var domain := Normalize(value);
    if domain.None? then None
    else
      var bare := domain.value[..IndexOf(domain.value, ':')];
      if bare == "" then None else Some(bare)
  }

  /** Trimmed, in lower case, and without one leading dot; nothing if nothing is left. */
  lemma NormalizeMeans(value: Option<string>)
    ensures value.None? ==> Normalize(value) == None
    ensures value.Some? ==>
      var text := Lower(Trim(value.value));
      Normalize(value) ==
        if text == "" || text == "." then None else if text[0] == '.' then Some(text[1..]) else Some(text)
  {
  }

  /** What comes before the first colon, if anything does. */
  lemma BareMeans(value: Option<string>, bare: string)
    ensures Bare(value) == Some(bare) <==>
      && bare != "" && Free(bare, ':') && Normalize(value).Some?
      && (Normalize(value) == Some(bare) || exists port: string :: Normalize(value) == Some(bare + ":" + port))
  {
    if Normalize(value).Some? {
      var domain := Normalize(value).value;
      hide Normalize;
      var i := IndexOf(domain, ':');
      if i < |domain| {
        assert domain == domain[..i] + ":" + domain[i + 1..];
      } else {
        assert domain[..i] == domain;
      }
      forall port: string | Free(bare, ':') && domain == bare + ":" + port
        ensures domain[..i] == bare
      {
        assert domain[|bare|] == ':';
        assert forall j :: 0 <= j < |bare| ==> domain[j] == bare[j];
      }
    }
  }

  ghost predicate IsHosted(config: Config, domain: string) {
    exists i :: 0 <= i < |config.domains| && Bare(config.domains[i]) == Some(domain)
  }

  ghost predicate NoRepeats<T>(s: seq<T>) {
    forall i, j :: 0 <= i < j < |s| ==> s[i] != s[j]
  }

  /** Adding to a set that remembers the order of arrival. */
  function Added(s: seq<string>, x: string): (r: seq<string>)
    ensures NoRepeats(s) ==> NoRepeats(r)
    ensures forall y :: y in r <==> y in s || y == x
  {
    if x in s then s else s + [x]
  }

  method GetHostedDomains(config: Config) returns (domains: seq<string>)
    ensures NoRepeats(domains) && forall i, j :: 0 <= i < j < |domains| ==> domains[i] != domains[j]
    ensures forall d :: d in domains <==> IsHosted(config, d)
  {
    hide Bare;
    domains := [];
    for n := 0 to |config.domains|
      invariant NoRepeats(domains)
      invariant forall d :: d in domains <==> exists i :: 0 <= i < n && Bare(config.domains[i]) == Some(d)
    {
      var bare := Bare(config.domains[n]);
      if bare.Some? { domains := Added(domains, bare.value); }
    }
  }

  // ----- candidates -----

  function Paths(): seq<string> {
    ["", "/", "/index.html"]
  }

  function Url(protocol: string, host: string, path: string): string {
    protocol + "://" + host + path
  }

  /** The configured form of a host, and the one without a port. */
  ghost predicate IsHost(config: Config, name: string, host: string) {
    exists i :: 0 <= i < |config.domains| && HostOf(config.domains[i], name, host)
  }

  predicate HostOf(value: Option<string>, name: string, host: string) {
    || (Normalize(value).Some? && host == name + "." + Normalize(value).value)
    || (Bare(value).Some? && host == name + "." + Bare(value).value)
  }

  function ConfiguredProtocol(config: Config): string {
    if config.protocol.None? then ""
    else
      var p := Trim(config.protocol.value);
      if p != "" && p[|p| - 1] == ':' then p[..|p| - 1] else p
  }

  predicate IsProtocol(config: Config, protocol: string) {
    protocol != "" && (protocol == ConfiguredProtocol(config) || protocol == "https" || protocol == "http")
  }

  function SubdomainName(subdomain: Option<string>): string {
    if subdomain.Some? then Lower(Trim(subdomain.value)) else ""
  }

  /** A candidate index URL of a name. */
  ghost predicate IsCandidate(config: Config, name: string, url: string) {
    exists host, protocol, path ::
      IsHost(config, name, host) && IsProtocol(config, protocol) && path in Paths() && url == Url(protocol, host, path)
  }

  /** The whole of it: a configured domain with or without its port, a protocol, and one of three paths. */
  lemma CandidateMeans(config: Config, name: string, url: string)
    ensures IsCandidate(config, name, url) <==>
      exists i, host: string, protocol: string, path: string ::
        && 0 <= i < |config.domains|
        && ((Normalize(config.domains[i]).Some? && host == name + "." + Normalize(config.domains[i]).value)
            || (Bare(config.domains[i]).Some? && host == name + "." + Bare(config.domains[i]).value))
        && protocol != "" && protocol in [ConfiguredProtocol(config), "https", "http"]
        && path in ["", "/", "/index.html"] && url == Url(protocol, host, path)
  {
    hide Url, Normalize, Bare, ConfiguredProtocol;
    forall i, host: string, protocol: string, path: string |
      && 0 <= i < |config.domains| && HostOf(config.domains[i], name, host)
      && protocol != "" && protocol in [ConfiguredProtocol(config), "https", "http"]
      && path in ["", "/", "/index.html"] && url == Url(protocol, host, path)
      ensures IsCandidate(config, name, url)
    {
      assert IsHost(config, name, host) && IsProtocol(config, protocol) && path in Paths();
    }
  }

  /** The configured protocol, trimmed and without one colon at its end, and the text of a URL. */
  lemma ProtocolAndUrl(config: Config, protocol: string, host: string, path: string)
    ensures config.protocol.None? ==> ConfiguredProtocol(config) == ""
    ensures config.protocol.Some? ==>
      var p := Trim(config.protocol.value);
      (exists q: string :: p == q + ":" && ConfiguredProtocol(config) == q)
      || (ConfiguredProtocol(config) == p && (p == "" || p[|p| - 1] != ':'))
    ensures Url(protocol, host, path) == protocol + "://" + host + path
  {
    if config.protocol.Some? {
      var p := Trim(config.protocol.value);
      if p != "" && p[|p| - 1] == ':' {
        assert p == p[..|p| - 1] + ":";
      }
    }
  }

  method BuildCandidates(subdomain: Option<string>, config: Config) returns (candidates: seq<string>)
    ensures NoRepeats(candidates) && forall i, j :: 0 <= i < j < |candidates| ==> candidates[i] != candidates[j]
    ensures var name := if subdomain.Some? then Lower(Trim(subdomain.value)) else "";
      forall url :: url in candidates <==> name != "" && IsCandidate(config, name, url)
  {
    var name := SubdomainName(subdomain);
    if name == "" {
      return [];
    }
    hide Paths, Url, IsHost, IsProtocol, Among, OnHost;
    var hosts := BuildHosts(name, config);
    if hosts == [] {
      return [];
    }
    var protocols := BuildProtocols(config);
    candidates := [];
    for i := 0 to |hosts|
      invariant NoRepeats(candidates)
      invariant forall url :: url in candidates <==> Among(hosts[..i], protocols, url)
    {
      ghost var before := candidates;
      for j := 0 to |protocols|
        invariant NoRepeats(candidates)
        invariant forall url :: url in candidates <==> url in before || Among([hosts[i]], protocols[..j], url)
      {
        var base := protocols[j] + "://" + hosts[i];
        candidates := Added(candidates, base);
        candidates := Added(candidates, base + "/");
        candidates := Added(candidates, base + "/index.html");
        OneMoreProtocol(hosts[i], protocols, j);
        ThreePaths(protocols[j], hosts[i], base);
      }
      assert protocols[..|protocols|] == protocols;
      OneMoreHost(hosts, protocols, i);
    }
    assert hosts[..|hosts|] == hosts;
    forall url
      ensures Among(hosts, protocols, url) <==> IsCandidate(config, name, url)
    {
    }
  }

  ghost predicate Among(hosts: seq<string>, protocols: seq<string>, url: string) {
    exists host, protocol, path :: host in hosts && protocol in protocols && path in Paths() && url == Url(protocol, host, path)
  }

  ghost predicate OnHost(protocol: string, host: string, url: string) {
    exists path <- Paths() :: url == Url(protocol, host, path)
  }

  lemma OneMoreProtocol(host: string, protocols: seq<string>, j: nat)
    requires j < |protocols|
    ensures forall url :: Among([host], protocols[..j + 1], url) <==>
      Among([host], protocols[..j], url) || OnHost(protocols[j], host, url)
  {
    assert protocols[..j + 1] == protocols[..j] + [protocols[j]];
    forall path | path in Paths()
      ensures Among([host], protocols[..j + 1], Url(protocols[j], host, path))
    {
      assert host in [host] && protocols[j] in protocols[..j + 1];
    }
  }

  lemma ThreePaths(protocol: string, host: string, base: string)
    requires base == protocol + "://" + host
    ensures forall url :: OnHost(protocol, host, url) <==>
      url == base || url == base + "/" || url == base + "/index.html"
  {
    assert Url(protocol, host, "") == base;
    assert "" in Paths() && "/" in Paths() && "/index.html" in Paths();
  }

  lemma OneMoreHost(hosts: seq<string>, protocols: seq<string>, i: nat)
    requires i < |hosts|
    ensures forall url :: Among(hosts[..i + 1], protocols, url) <==> Among(hosts[..i], protocols, url) || Among([hosts[i]], protocols, url)
  {
    assert hosts[..i + 1] == hosts[..i] + [hosts[i]];
  }

  method BuildHosts(name: string, config: Config) returns (hosts: seq<string>)
    ensures NoRepeats(hosts)
    ensures forall h :: h in hosts <==> IsHost(config, name, h)
  {
    hide Bare, Normalize;
    hosts := [];
    for n := 0 to |config.domains|
      invariant NoRepeats(hosts)
      invariant forall h :: h in hosts <==> exists i :: 0 <= i < n && HostOf(config.domains[i], name, h)
    {
      var withPort := Normalize(config.domains[n]);
      if withPort.Some? { hosts := Added(hosts, name + "." + withPort.value); }
      var bare := Bare(config.domains[n]);
      if bare.Some? { hosts := Added(hosts, name + "." + bare.value); }
    }
  }

  method BuildProtocols(config: Config) returns (protocols: seq<string>)
    ensures NoRepeats(protocols)
    ensures forall p :: p in protocols <==> IsProtocol(config, p)
  {
    protocols := [];
    var configured := ConfiguredProtocol(config);
    if configured != "" { protocols := Added(protocols, configured); }
    protocols := Added(protocols, "https");
    protocols := Added(protocols, "http");
  }

  // ----- reading a name back -----

  /** The longest configured domain that ends the hostname after a dot. */
  ghost predicate Longest(config: Config, hostname: string, domain: string) {
    && IsHosted(config, domain) && HasSuffix(hostname, "." + domain)
    && forall d :: IsHosted(config, d) && HasSuffix(hostname, "." + d) ==> |d| <= |domain|
  }

  /** What comes before the domain and its dot. */
  function NameBefore(hostname: string, domain: string): Option<string>
    requires HasSuffix(hostname, "." + domain)
  {
    var name := hostname[..|hostname| - |domain| - 1];
    if name == "" then None else Some(name)
  }

  ghost predicate Extracts(config: Config, hostname: string, r: Option<string>) {
    || (exists d :: Longest(config, hostname, d) && r == NameBefore(hostname, d))
    || (r.None? && forall d :: IsHosted(config, d) ==> !HasSuffix(hostname, "." + d))
  }

  lemma LongestIsOne(config: Config, hostname: string, d: string, e: string)
    requires Longest(config, hostname, d) && Longest(config, hostname, e)
    ensures d == e
  {
    hide IsHosted;
    assert ("." + d)[1..] == d && ("." + e)[1..] == e;
  }

  /** The order of the configured domains does not matter: a hostname has one longest domain. */
  lemma ExtractsOneName(config: Config, hostname: string, r: Option<string>, q: Option<string>)
    ensures Extracts(config, hostname, r) && Extracts(config, hostname, q) ==> r == q
  {
    hide IsHosted, HasSuffix;
    forall d, e | Longest(config, hostname, d) && Longest(config, hostname, e)
      ensures d == e
    {
      LongestIsOne(config, hostname, d, e);
    }
  }

  ghost predicate EndsAfterDot(hostname: string, domain: string) {
    exists front: string :: hostname == front + "." + domain
  }

  /** The hosted domain is at the end after a dot, and none of the others there is longer. */
  ghost predicate IsLongestThere(config: Config, hostname: string, domain: string) {
    && IsHosted(config, domain) && EndsAfterDot(hostname, domain)
    && forall d :: IsHosted(config, d) && EndsAfterDot(hostname, d) ==> |d| <= |domain|
  }

  /**
   A name is extracted when it stands before the longest configured domain and its dot; nothing is
   when no domain stands at the end, or nothing before the longest.
   */
  lemma ExtractsMeans(config: Config, hostname: string, name: string)
    ensures Extracts(config, hostname, Some(name)) <==>
      name != "" && exists d :: IsLongestThere(config, hostname, d) && hostname == name + "." + d
    ensures Extracts(config, hostname, None) <==>
      || (forall d :: IsHosted(config, d) ==> !EndsAfterDot(hostname, d))
      || (exists d :: IsLongestThere(config, hostname, d) && hostname == "." + d)
  {
    hide IsHosted;
    forall d
      ensures HasSuffix(hostname, "." + d) <==> EndsAfterDot(hostname, d)
    {
      SuffixAfterDot(hostname, d);
    }
    forall d
      ensures Longest(config, hostname, d) <==> IsLongestThere(config, hostname, d)
    {
    }
    forall d | IsLongestThere(config, hostname, d)
      ensures NameBefore(hostname, d) == Some(name) <==> name != "" && hostname == name + "." + d
      ensures NameBefore(hostname, d) == None <==> hostname == "." + d
    {
      NameIsFront(hostname, name, d);
    }
    hide HasSuffix, EndsAfterDot, Longest, IsLongestThere, NameBefore;
  }

  lemma NameIsFront(hostname: string, name: string, d: string)
    requires HasSuffix(hostname, "." + d)
    ensures NameBefore(hostname, d) == Some(name) <==> name != "" && hostname == name + "." + d
    ensures NameBefore(hostname, d) == None <==> hostname == "." + d
  {
    var front := hostname[..|hostname| - |d| - 1];
    assert hostname == front + ("." + d);
    Regroup(front, ".", d);
    AppendCancels(front, name, "." + d);
    Regroup(name, ".", d);
    assert "" + ("." + d) == "." + d;
    AppendCancels(front, "", "." + d);
  }

  lemma AppendCancels(s: string, t: string, tail: string)
    ensures s + tail == t + tail <==> s == t
  {
    assert s == (s + tail)[..|s + tail| - |tail|] && t == (t + tail)[..|t + tail| - |tail|];
  }

  lemma SuffixAfterDot(hostname: string, d: string)
    ensures HasSuffix(hostname, "." + d) <==> EndsAfterDot(hostname, d)
  {
    SuffixMeans(hostname, "." + d);
    forall front: string
      ensures front + ("." + d) == front + "." + d
    {
      Regroup(front, ".", d);
    }
  }

  ghost predicate LongestFirst(s: seq<string>) {
    forall i, j :: 0 <= i < j < |s| ==> |s[i]| >= |s[j]|
  }

  /** A stable sort by falling length. */
  function SortByLength(s: seq<string>): (r: seq<string>)
    ensures LongestFirst(r) && |r| == |s|
    ensures forall y :: y in r <==> y in s
  {
    if s == [] then []
    else
      var front, last := s[..|s| - 1], s[|s| - 1];
      assert s == front + [last];
      Insert(SortByLength(front), last)
  }

  function Insert(s: seq<string>, x: string): (r: seq<string>)
    requires LongestFirst(s)
    ensures LongestFirst(r) && |r| == |s| + 1
    ensures forall y :: y in r <==> y in s || y == x
  {
    if s == [] || |s[|s| - 1]| >= |x| then s + [x]
    else
      var front, last := s[..|s| - 1], s[|s| - 1];
      assert s == front + [last];
      var r := Insert(front, x);
      assert forall y <- r :: |y| >= |last|;
      assert forall i :: 0 <= i < |r| ==> r[i] in r;
      r + [last]
  }

  /** `hostOf` is the URL parser: a URL's hostname, or none if it does not parse. */
  method ExtractSubdomain(hostOf: string -> Option<string>, indexUrl: Option<string>, config: Config)
    returns (r: Option<string>)
    ensures var url := indexUrl.GetOr("");
      if url == "" || hostOf(url).None? then r.None? else Extracts(config, Lower(hostOf(url).value), r)
  {
    hide Bare, SortByLength, HasSuffix;
    var url := indexUrl.GetOr("");
    if url == "" || hostOf(url).None? {
      return None;
    }
    var hostname := Lower(hostOf(url).value);
    var domains := GetHostedDomains(config);
    var sorted := SortByLength(domains);
    for i := 0 to |sorted|
      invariant forall j :: 0 <= j < i ==> !HasSuffix(hostname, "." + sorted[j])
    {
      if HasSuffix(hostname, "." + sorted[i]) {
        assert Longest(config, hostname, sorted[i]);
        return NameBefore(hostname, sorted[i]);
      }
    }
    return None;
  }

  // ----- there and back -----

  predicate IsPort(s: string) {
    s == "" || (s[0] == ':' && |s| <= 6 && (forall i :: 1 <= i < |s| ==> '0' <= s[i] <= '9') && DigitsValue(s[1..]) < 65536)
  }

  function DigitsValue(s: string): int {
    if s == "" then 0 else 10 * DigitsValue(s[..|s| - 1]) + s[|s| - 1] as int - '0' as int
  }

  /** The parser reads this host, as it stands, out of every web URL of the built shapes. */
  ghost predicate ReadsHost(hostOf: string -> Option<string>, host: string) {
    forall protocol, port, path :: protocol in ["http", "https"] && IsPort(port) && path in Paths() ==>
      hostOf(Url(protocol, host + port, path)) == Some(host)
  }

  /** A configured value is its bare domain and a port. */
  function PortOf(value: Option<string>): string {
    var domain := Normalize(value).GetOr("");
    domain[IndexOf(domain, ':')..]
  }

  lemma BareIsLower(value: Option<string>)
    requires Bare(value).Some?
    ensures Lower(Bare(value).value) == Bare(value).value
    ensures Normalize(value) == Some(Bare(value).value + PortOf(value))
  {
    LowerTwice(Trim(value.value));
    var domain := Normalize(value).value;
    assert domain == domain[..IndexOf(domain, ':')] + domain[IndexOf(domain, ':')..];
  }

  lemma LowerConcat(s: string, t: string)
    ensures Lower(s + "." + t) == Lower(s) + "." + Lower(t)
  {
  }

  /** A host has the bare form, with the configured port or without. */
  lemma HostForms(value: Option<string>, name: string, host: string)
    requires Bare(value).Some? && HostOf(value, name, host)
    ensures var h := name + "." + Bare(value).value; host == h + PortOf(value) || host == h + ""
  {
    BareIsLower(value);
    hide Bare, Normalize, PortOf;
    var d, port := Bare(value).value, PortOf(value);
    Regroup(name + ".", d, port);
    assert name + "." + d + "" == name + "." + d;
  }

  lemma ReadBack(hostOf: string -> Option<string>, h: string, port: string, protocol: string, path: string)
    requires ReadsHost(hostOf, h) && IsPort(port) && protocol in ["http", "https"] && path in Paths()
    ensures hostOf(Url(protocol, h + port, path)) == Some(h)
  {
    hide IsPort, Url, Paths;
  }

  lemma EmptyPort()
    ensures IsPort("")
  {
  }

  /** Both forms of a configured host parse to the host without the port. */
  lemma CandidateHostname(hostOf: string -> Option<string>, config: Config, i: nat, name: string, host: string, protocol: string, path: string)
    requires i < |config.domains| && Bare(config.domains[i]).Some? && IsPort(PortOf(config.domains[i]))
    requires Lower(name) == name && HostOf(config.domains[i], name, host)
    requires protocol in ["http", "https"] && path in Paths()
    requires ReadsHost(hostOf, name + "." + Bare(config.domains[i]).value)
    ensures var h := name + "." + Bare(config.domains[i]).value;
      hostOf(Url(protocol, host, path)) == Some(h) && Lower(h) == h
  {
    hide *;
    var value := config.domains[i];
    var h := name + "." + Bare(value).value;
    BareIsLower(value);
    LowerConcat(name, Bare(value).value);
    EmptyPort();
    HostForms(value, name, host);
    ReadBack(hostOf, h, PortOf(value), protocol, path);
    ReadBack(hostOf, h, "", protocol, path);
  }

  /** No longer configured domain ends the host built from a name and a domain. */
  ghost predicate NotOvershadowed(config: Config, name: string, domain: string) {
    forall d :: IsHosted(config, d) && HasSuffix(name + "." + domain, "." + d) ==> |d| <= |domain|
  }

  lemma HostOfDomain(name: string, domain: string)
    ensures HasSuffix(name + "." + domain, "." + domain)
    ensures name != "" ==> NameBefore(name + "." + domain, domain) == Some(name)
  {
    var h := name + "." + domain;
    assert h == name + ("." + domain);
    assert h[..|h| - |domain| - 1] == name;
  }

  /** The host built from a name and a domain gives the name back exactly when no longer domain takes the match. */
  lemma HostRoundTrip(config: Config, name: string, domain: string, r: Option<string>)
    requires name != ""
    ensures IsHosted(config, domain) && Extracts(config, name + "." + domain, r) ==>
      (r == Some(name) <==> NotOvershadowed(config, name, domain))
  {
    var h := name + "." + domain;
    HostOfDomain(name, domain);
    if IsHosted(config, domain) && Extracts(config, h, r) {
      if NotOvershadowed(config, name, domain) {
        assert Longest(config, h, domain);
        ExtractsOneName(config, h, r, Some(name));
      } else {
        var d :| Longest(config, h, d) && r == NameBefore(h, d);
        assert |d| > |domain|;
        assert r.Some? ==> |r.value| < |name|;
      }
    }
  }

  /** A name without a dot is never overshadowed, however the configured domains overlap. */
  lemma SingleLabelIsSafe(config: Config, name: string, domain: string)
    requires forall i :: 0 <= i < |name| ==> name[i] != '.'
    ensures NotOvershadowed(config, name, domain)
  {
    var h := name + "." + domain;
    assert forall k :: 0 <= k < |name| ==> h[k] == name[k];
    forall d | HasSuffix(h, "." + d)
      ensures |d| <= |domain|
    {
      var at := |h| - |d| - 1;
      assert h[at] == h[at..][0] == ("." + d)[0] == '.';
    }
  }

  /** A name with a dot in it may be: `a.b` under `x` is read as `a` when `b.x` is a hosting domain too. */
  lemma DottedNameIsMisread(a: string, b: string, x: string, config: Config, r: Option<string>)
    requires a != ""
    ensures IsHosted(config, x) && IsHosted(config, b + "." + x) && Extracts(config, a + "." + b + "." + x, r) ==>
      r != Some(a + "." + b)
  {
    hide HasSuffix, Extracts, Longest, IsHosted;
    var name := a + "." + b;
    assert name + "." + x == a + "." + (b + "." + x);
    HostOfDomain(a, b + "." + x);
    HostRoundTrip(config, name, x, r);
  }

  /**
   Every web candidate of a name is read back as that name, exactly when no longer domain overshadows
   the one it was built on; with one label in the name that is always so.
   */
  lemma CandidateRoundTrip(
    hostOf: string -> Option<string>, config: Config, i: nat, name: string, host: string, protocol: string, path: string, r: Option<string>)
    requires i < |config.domains| && Bare(config.domains[i]).Some? && IsPort(PortOf(config.domains[i]))
    requires name != "" && Lower(name) == name && HostOf(config.domains[i], name, host)
    requires protocol in ["http", "https"] && path in Paths()
    requires ReadsHost(hostOf, name + "." + Bare(config.domains[i]).value)
    requires var h := hostOf(Url(protocol, host, path)); if h.None? then r.None? else Extracts(config, Lower(h.value), r)
    ensures IsCandidate(config, name, Url(protocol, host, path))
    ensures r == Some(name) <==> NotOvershadowed(config, name, Bare(config.domains[i]).value)
    ensures (forall k :: 0 <= k < |name| ==> name[k] != '.') ==> r == Some(name)
  {
    var d := Bare(config.domains[i]).value;
    CandidateHostname(hostOf, config, i, name, host, protocol, path);
    HostRoundTrip(config, name, d, r);
    assert IsHost(config, name, host) && IsProtocol(config, protocol);
    if forall k :: 0 <= k < |name| ==> name[k] != '.' {
      SingleLabelIsSafe(config, name, d);
    }
  }

  // ----- which URLs are candidates -----

  /** The name, the configured domains with their ports, and the configured protocol do not hold `c`. */
  ghost predicate FreeOf(config: Config, name: string, c: char) {
    && Free(name, c) && Free(ConfiguredProtocol(config), c)
    && forall i :: 0 <= i < |config.domains| && Normalize(config.domains[i]).Some? ==> Free(Normalize(config.domains[i]).value, c)
  }

  lemma FreeConcat(s: string, t: string, c: char)
    ensures Free(s + t, c) <==> Free(s, c) && Free(t, c)
  {
    assert forall i :: 0 <= i < |s| ==> (s + t)[i] == s[i];
    assert forall i :: 0 <= i < |t| ==> (s + t)[|s| + i] == t[i];
  }

  lemma HostIsFree(config: Config, name: string, host: string, c: char)
    requires FreeOf(config, name, c) && IsHost(config, name, host) && c != '.'
    ensures Free(host, c)
  {
    var i :| 0 <= i < |config.domains| && HostOf(config.domains[i], name, host);
    FreeConcat(name, ".", c);
    DomainsAreFree(config, name, i, c);
    hide Bare, Normalize, Free;
    if Normalize(config.domains[i]).Some? {
      FreeConcat(name + ".", Normalize(config.domains[i]).value, c);
    }
    if Bare(config.domains[i]).Some? {
      FreeConcat(name + ".", Bare(config.domains[i]).value, c);
    }
  }

  lemma DomainsAreFree(config: Config, name: string, i: nat, c: char)
    requires FreeOf(config, name, c) && i < |config.domains|
    ensures Normalize(config.domains[i]).Some? ==> Free(Normalize(config.domains[i]).value, c)
    ensures Bare(config.domains[i]).Some? ==> Free(Bare(config.domains[i]).value, c)
  {
    hide Normalize;
  }

  /** The end of a slash-free text is where the first slash is. */
  lemma SlashEnds(s: string, t: string, u: string, v: string)
    requires Free(s, '/') && Free(u, '/') && s + t == u + v
    requires (t == "" || t[0] == '/') && (v == "" || v[0] == '/')
    ensures s == u && t == v
  {
    var left, right := s + t, u + v;
    assert forall k :: 0 <= k < |s| ==> left[k] == s[k];
    assert forall k :: 0 <= k < |u| ==> right[k] == u[k];
    assert t != "" ==> left[|s|] == '/';
    assert v != "" ==> right[|u|] == '/';
    assert |s| == |u|;
    assert s == left[..|s|] && u == right[..|u|] && t == left[|s|..] && v == right[|u|..];
  }

  /** A URL has one protocol. */
  lemma UrlRest(protocol: string, host: string, tail: string, protocol': string, host': string, path': string)
    requires Free(protocol, '/') && Free(protocol', '/') && Url(protocol, host, tail) == Url(protocol', host', path')
    ensures protocol == protocol' && host + tail == host' + path'
  {
    var rest, rest' := host + tail, host' + path';
    UrlAsParts(protocol, host, tail);
    UrlAsParts(protocol', host', path');
    FreeConcat(protocol, ":", '/');
    FreeConcat(protocol', ":", '/');
    SlashEnds(protocol + ":", "//" + rest, protocol' + ":", "//" + rest');
    assert protocol == (protocol + ":")[..|protocol|] && protocol' == (protocol' + ":")[..|protocol'|];
    assert rest == ("//" + rest)[2..] && rest' == ("//" + rest')[2..];
  }

  lemma UrlAsParts(protocol: string, host: string, tail: string)
    ensures Url(protocol, host, tail) == protocol + ":" + ("//" + (host + tail))
  {
    assert "://" == ":" + "//";
    Regroup(protocol, ":", "//");
    Regroup(protocol + ":" + "//", host, tail);
    Regroup(protocol + ":", "//", host + tail);
  }

  /** What may follow a host: nothing, a path, or a query or fragment, whose mark the configured texts do not hold. */
  ghost predicate IsTail(config: Config, name: string, tail: string) {
    tail == "" || tail[0] == '/' || (tail[0] in ['?', '#'] && FreeOf(config, name, tail[0]))
  }

  lemma QueryIsNoCandidate(config: Config, name: string, rest: string, host: string, tail: string, host': string, path: string)
    requires tail != "" && tail[0] in ['?', '#'] && FreeOf(config, name, tail[0])
    requires IsHost(config, name, host') && path in Paths() && rest == host + tail
    ensures rest != host' + path
  {
    var c := tail[0];
    HostIsFree(config, name, host', c);
    FreeConcat(host', path, c);
    assert Free(path, c);
    assert rest[|host|] == c;
  }

  /** A URL is a candidate exactly when its protocol, its host and what follows are each among those built. */
  lemma CandidateIff(config: Config, name: string, protocol: string, host: string, tail: string)
    requires FreeOf(config, name, '/') && Free(protocol, '/') && Free(host, '/') && IsTail(config, name, tail)
    ensures IsCandidate(config, name, Url(protocol, host, tail)) <==>
      IsProtocol(config, protocol) && IsHost(config, name, host) && tail in Paths()
  {
    hide Url, IsHost;
    forall host', protocol', path' |
      IsHost(config, name, host') && IsProtocol(config, protocol') && path' in Paths()
      && Url(protocol, host, tail) == Url(protocol', host', path')
      ensures host' == host && protocol' == protocol && path' == tail
    {
      HostIsFree(config, name, host', '/');
      UrlRest(protocol, host, tail, protocol', host', path');
      if tail != "" && tail[0] in ['?', '#'] {
        QueryIsNoCandidate(config, name, host + tail, host, tail, host', path');
      } else {
        SlashEnds(host, tail, host', path');
      }
    }
  }

  /**
   Of the web URLs on a name's host under a configured domain, whatever port, path, query or fragment
   they add, the candidates are exactly those with one of the three paths and nothing else, and with
   no port or one configured with that domain. The others resolve to the name just as well.
   */
  lemma ResolvingUrlIsCandidateIff(config: Config, name: string, protocol: string, domain: string, port: string, tail: string, r: Option<string>)
    requires FreeOf(config, name, '/') && name != "" && IsHosted(config, domain)
    requires protocol in ["http", "https"] && IsPort(port) && IsTail(config, name, tail)
    ensures IsCandidate(config, name, Url(protocol, name + "." + domain + port, tail)) <==>
      tail in Paths() && (port == "" || IsConfiguredForm(config, domain + port))
    ensures Extracts(config, name + "." + domain, r) ==> (r == Some(name) <==> NotOvershadowed(config, name, domain))
  {
    WebProtocols(config, protocol);
    PortIsFree(port);
    hide Url, Extracts, NotOvershadowed, IsTail, Free, Paths, IsPort, IsProtocol, FreeOf;
    HostRoundTrip(config, name, domain, r);
    var host := name + "." + domain + port;
    HostedHostIsFree(config, name, domain);
    FreeConcat(name + "." + domain, port, '/');
    CandidateIff(config, name, protocol, host, tail);
    HostIffConfigured(config, name, domain, port);
  }

  lemma WebProtocols(config: Config, protocol: string)
    requires protocol in ["http", "https"]
    ensures IsProtocol(config, protocol) && Free(protocol, '/')
  {
  }

  lemma PortIsFree(port: string)
    requires IsPort(port)
    ensures Free(port, '/')
  {
  }

  lemma HostedHostIsFree(config: Config, name: string, domain: string)
    requires FreeOf(config, name, '/') && IsHosted(config, domain)
    ensures Free(name + "." + domain, '/')
  {
    hide Bare, Normalize;
    var i :| 0 <= i < |config.domains| && Bare(config.domains[i]) == Some(domain);
    HostIsFree(config, name, name + "." + domain, '/');
  }

  /** Some configured value reads, once normalized, just like this. */
  ghost predicate IsConfiguredForm(config: Config, text: string) {
    exists i :: 0 <= i < |config.domains| && Normalize(config.domains[i]) == Some(text)
  }

  lemma AfterDot(name: string, s: string, t: string)
    ensures name + "." + s == name + "." + t <==> s == t
  {
    var n := |name| + 1;
    assert (name + "." + s)[n..] == s && (name + "." + t)[n..] == t;
  }

  lemma PortHoldsColon(domain: string, port: string)
    requires IsPort(port)
    ensures Free(domain + port, ':') ==> port == ""
  {
    if port != "" {
      assert (domain + port)[|domain|] == ':';
    }
  }

  lemma HostIffConfigured(config: Config, name: string, domain: string, port: string)
    requires IsHosted(config, domain) && IsPort(port)
    ensures IsHost(config, name, name + "." + domain + port) <==> port == "" || IsConfiguredForm(config, domain + port)
  {
    var host, form := name + "." + domain + port, domain + port;
    assert host == name + "." + form;
    forall i | 0 <= i < |config.domains|
      ensures HostOf(config.domains[i], name, host) <==> Normalize(config.domains[i]) == Some(form) || Bare(config.domains[i]) == Some(form)
      ensures Bare(config.domains[i]) == Some(form) ==> port == ""
    {
      HostOfForm(config.domains[i], name, form);
      PortHoldsColon(domain, port);
    }
    hide HostOf, Bare, Normalize, IsPort;
    if port == "" {
      assert form == domain;
    }
  }

  lemma HostOfForm(value: Option<string>, name: string, form: string)
    ensures HostOf(value, name, name + "." + form) <==> Normalize(value) == Some(form) || Bare(value) == Some(form)
  {
    hide Bare, Normalize;
    if Normalize(value).Some? {
      AfterDot(name, form, Normalize(value).value);
    }
    if Bare(value).Some? {
      AfterDot(name, form, Bare(value).value);
    }
  }

  // ----- the backing check -----

  /** `owner` is the row's user id, none where it is not a whole number. */
  datatype Row = Row(owner: Option<int>)

  /** The row that counts is the store's, or where it has none the primary's. */
  method BackingIsUnavailable(
    hostOf: string -> Option<string>, indexUrl: Option<string>, owner: Option<int>, config: Config,
    stored: string -> Option<Row>, primary: string -> Option<Row>) returns (unavailable: bool)
    ensures !unavailable <==>
      var url := indexUrl.GetOr("");
      || url == "" || hostOf(url).None?
      || Extracts(config, Lower(hostOf(url).value), None)
      || exists name ::
        && Extracts(config, Lower(hostOf(url).value), Some(name))
        && var row := if stored(name).Some? then stored(name) else primary(name);
        row.Some? && owner.Some? && row.value.owner == owner
  {
    var subdomain := ExtractSubdomain(hostOf, indexUrl, config);
    var url := indexUrl.GetOr("");
    if url != "" && hostOf(url).Some? {
      ghost var h := Lower(hostOf(url).value);
      forall r | Extracts(config, h, r)
        ensures r == subdomain
      {
        ExtractsOneName(config, h, r, subdomain);
      }
    }
    if subdomain.None? {
      return false;
    }
    var row := stored(subdomain.value);
    if row.None? {
      row := primary(subdomain.value);
    }
    if row.None? {
      return true;
    }
    if owner.None? || row.value.owner.None? {
      return true;
    }
    return row.value.owner != owner;
  }
}
