/** The allowed-domain policy of the web tool: wildcard host patterns,
    boundary-checked path prefixes, first-match-decides evaluation, URL
    validation, document-type detection from a URL and the official-site
    lookup. URL parsing and percent-decoding are inputs. */
module AllowedDomains {
  import opened Wrappers
  import opened Text
  import opened Seqs

  /** One configured domain. A missing pattern is "". A path allowlist
      entry that is not a string is `None`. */
  datatype DomainConfig = DomainConfig(pattern: string, description: string, pathAllowlist: Option<seq<Option<string>>>)

  datatype PortalConfig = PortalConfig(id: string, name: string, urlBase: string)

  /** The `allowedDomains` object, whose `domains` array may be missing. */
  datatype AllowedDomainsBlock = AllowedDomainsBlock(domains: Option<seq<DomainConfig>>)

  /** The document-sources configuration: the optional allowed-domain block
      and the optional portal list. */
  datatype SourcesConfig = SourcesConfig(allowedDomains: Option<AllowedDomainsBlock>, portals: Option<seq<PortalConfig>>)

  /** `config.allowedDomains?.domains || []`. */
  function Domains(config: SourcesConfig): seq<DomainConfig> {
    if config.allowedDomains.Some? then config.allowedDomains.value.domains.GetOr([]) else []
  }

  /** `getAllowedDomains`: the configured patterns, in order. Reading
      `domains` of a missing block, or calling `map` on a missing array,
      throws a `TypeError`. */
  function GetAllowedDomains(config: SourcesConfig): (r: Result<seq<string>>)
    ensures r.Ok? <==> config.allowedDomains.Some? && config.allowedDomains.value.domains.Some?
    ensures config.allowedDomains.None? ==> r == Err("Cannot read properties of undefined (reading 'domains')")
    ensures config.allowedDomains.Some? && config.allowedDomains.value.domains.None? ==>
              r == Err("Cannot read properties of undefined (reading 'map')")
    ensures r.Ok? ==> |r.value| == |Domains(config)| && forall i :: 0 <= i < |r.value| ==> r.value[i] == Domains(config)[i].pattern
  {
    if config.allowedDomains.None? then Err("Cannot read properties of undefined (reading 'domains')")
    else if config.allowedDomains.value.domains.None? then Err("Cannot read properties of undefined (reading 'map')")
    else Ok(AllowedPatterns(config.allowedDomains.value.domains.value))
  }

  /** The built-in configuration used when the configuration file is absent. */
  const DEFAULT_CONFIG := SourcesConfig(Some(AllowedDomainsBlock(Some([
    DomainConfig("*.gov.br", "Todos os domínios do governo brasileiro", None),
    DomainConfig("*.fazenda.gov.br", "Domínios do Ministério da Fazenda", None),
    DomainConfig("dfe-portal.svrs.rs.gov.br", "Portal SVRS (SEFAZ Virtual RS)", None),
    DomainConfig("confaz.fazenda.gov.br", "Portal do CONFAZ", None)]))), None)

  /** The parts of a parsed URL the policy reads. */
  datatype ParsedUrl = ParsedUrl(hostname: string, pathname: string)

  /** `new URL(url)` (`None` when it throws) and `decodeURIComponent`
      (`None` when it throws). */
  datatype UrlEnv = UrlEnv(parse: string -> Option<ParsedUrl>, decode: string -> Option<string>)

  /** `matchesHostPattern`. */
  predicate MatchesHostPattern(hostname: string, pattern: string) {
    if StartsWith(pattern, "*.") then EndsWith(hostname, pattern[1..]) else hostname == pattern
  }

  /** A wildcard pattern matches exactly the names ending in a dot and its
      suffix, so never the bare suffix itself. */
  lemma WildcardMatchesSubdomainsOnly(hostname: string, suffix: string)
    ensures MatchesHostPattern(hostname, "*." + suffix) <==> EndsWith(hostname, "." + suffix)
    ensures !MatchesHostPattern(suffix, "*." + suffix)
  {
    var p := "*." + suffix;
    assert StartsWith(p, "*.") by { assert p[..2] == "*."; }
    assert p[1..] == "." + suffix;
  }

  /** A pattern that does not start with `*.` matches only itself. */
  lemma PlainPatternIsExact(hostname: string, pattern: string)
    requires !StartsWith(pattern, "*.")
    ensures MatchesHostPattern(hostname, pattern) <==> hostname == pattern
  {
  }

  /** A trimmed prefix with its leading slash ensured. */
  function WithSlash(t: string): (r: string)
    ensures |r| > 0 && r[0] == '/'
  {
    if t == "" then "/"
    else if StartsWith(t, "/") then t
    else "/" + t
  }

  /** `normalizePathPrefix`: trimmed, with a leading slash; blank is "/". */
  function NormalizePathPrefix(prefix: string): (r: string)
    ensures |r| > 0 && r[0] == '/'
    ensures IsBlank(prefix) ==> r == "/"
  {
    var t := Trim(prefix);
    assert IsBlank(prefix) ==> t == "" by {
      if IsBlank(prefix) {
        TrimBlank(prefix);
      }
    }
    WithSlash(t)
  }

  lemma WithSlashTwice(t: string)
    requires |t| > 0 ==> !IsSpace(t[|t| - 1])
    ensures WithSlash(WithSlash(t)) == WithSlash(t)
    ensures Trim(WithSlash(t)) == WithSlash(t)
  {
    var r := WithSlash(t);
    assert StartsWith(r, "/") by { assert r[..1] == [r[0]]; }
    assert r[|r| - 1] == '/' || r[|r| - 1] == t[|t| - 1];
    TrimNoop(r);
  }

  /** Normalizing a normalized prefix changes nothing. */
  lemma NormalizePathPrefixIdempotent(prefix: string)
    ensures NormalizePathPrefix(NormalizePathPrefix(prefix)) == NormalizePathPrefix(prefix)
  {
    WithSlashTwice(Trim(prefix));
  }

  /** The prefix a path must equal or continue with a slash. */
  function PrefixBase(prefix: string): string {
    var n := ToLower(NormalizePathPrefix(prefix));
    if EndsWith(n, "/") then n[..|n| - 1] else n
  }

  /** `pathMatchesPrefix`. */
  predicate PathMatchesPrefix(pathname: string, prefix: string) {
    var base := PrefixBase(prefix);
    StartsWith(pathname, base) && (|pathname| == |base| || pathname[|base|] == '/')
  }

  /** A path matches a prefix exactly when it is the base or continues the
      base with a slash. */
  lemma PathMatchesPrefixIff(pathname: string, prefix: string)
    ensures PathMatchesPrefix(pathname, prefix) <==>
            pathname == PrefixBase(prefix) || StartsWith(pathname, PrefixBase(prefix) + "/")
  {
    var base := PrefixBase(prefix);
    if StartsWith(pathname, base + "/") {
      assert pathname[..|base|] == (base + "/")[..|base|];
      assert pathname[|base|] == (base + "/")[|base|];
    }
    if PathMatchesPrefix(pathname, prefix) && |pathname| > |base| {
      assert pathname[..|base| + 1] == pathname[..|base|] + [pathname[|base|]];
    }
  }

  /** Gluing more characters onto the base without a slash is rejected. */
  lemma ConcatenationIsNotAPrefixMatch(prefix: string, extra: string)
    requires |extra| > 0 && extra[0] != '/'
    ensures !PathMatchesPrefix(PrefixBase(prefix) + extra, prefix)
  {
    var base := PrefixBase(prefix);
    assert (base + extra)[|base|] == extra[0];
  }

  /** The path compared: the URL's path, or "/" when it is empty. */
  function RawPath(pathname: string): (raw: string)
    ensures |raw| > 0
    ensures |pathname| > 0 ==> raw == pathname
  {
    if |pathname| > 0 then pathname else "/"
  }

  /** `safeNormalizePathname`: "/" for an empty path, then decoded when
      decoding succeeds, and lower-cased. */
  function SafeNormalizePathname(pathname: string, decode: string -> Option<string>): (r: string)
    ensures NoUpper(r)
    ensures decode(RawPath(pathname)).Some? ==> r == ToLower(decode(RawPath(pathname)).value)
    ensures decode(RawPath(pathname)).None? ==> r == ToLower(RawPath(pathname))
  {
    var raw := RawPath(pathname);
    ToLowerHasNoUpper(raw);
    match decode(raw)
    case Some(d) => ToLowerHasNoUpper(d); ToLower(d)
    case None => ToLower(raw)
  }

  /** A lower-case path with nothing to decode is compared as it is, and an
      empty one as "/". */
  lemma PlainPathUnchanged(pathname: string, decode: string -> Option<string>)
    requires NoUpper(RawPath(pathname))
    requires decode(RawPath(pathname)) == Some(RawPath(pathname)) || decode(RawPath(pathname)).None?
    ensures SafeNormalizePathname(pathname, decode) == RawPath(pathname)
    ensures pathname == "" ==> SafeNormalizePathname(pathname, decode) == "/"
  {
    ToLowerOfNoUpper(RawPath(pathname));
  }

  /** One allowlist entry after `trim()`; a non-string entry becomes "". */
  function CleanEntry(e: Option<string>): string {
    if e.Some? then Trim(e.value) else ""
  }

  predicate NonEmpty(s: string) {
    s != ""
  }

  /** Every entry trimmed, in order. */
  function Trimmed(entries: seq<Option<string>>): (r: seq<string>)
    ensures |r| == |entries| && forall i :: 0 <= i < |entries| ==> r[i] == CleanEntry(entries[i])
  {
    seq(|entries|, i requires 0 <= i < |entries| => CleanEntry(entries[i]))
  }

  /** The path allowlist after trimming and dropping what is left empty. */
  function CleanAllowlist(entries: seq<Option<string>>): (r: seq<string>)
    ensures forall x :: x in r <==> x != "" && exists i :: 0 <= i < |entries| && CleanEntry(entries[i]) == x
  {
    var trimmed := Trimmed(entries);
    assert forall x :: x in trimmed <==> exists i :: 0 <= i < |entries| && CleanEntry(entries[i]) == x by {
      forall x | x in trimmed ensures exists i :: 0 <= i < |entries| && CleanEntry(entries[i]) == x {
        var i :| 0 <= i < |trimmed| && trimmed[i] == x;
      }
      forall x | exists i :: 0 <= i < |entries| && CleanEntry(entries[i]) == x ensures x in trimmed {
        var i :| 0 <= i < |entries| && CleanEntry(entries[i]) == x;
        assert trimmed[i] == x;
      }
    }
    Filter(NonEmpty, trimmed)
  }

  /** The cleaned list keeps the configured order, so the rejection message
      lists the entries as written: cleaning a concatenation cleans each
      part, and one entry survives exactly when it is not empty once
      trimmed. */
  lemma CleanAllowlistInOrder(a: seq<Option<string>>, b: seq<Option<string>>)
    ensures CleanAllowlist(a + b) == CleanAllowlist(a) + CleanAllowlist(b)
    ensures |a| == 1 ==> CleanAllowlist(a) == (if CleanEntry(a[0]) != "" then [CleanEntry(a[0])] else [])
  {
    TrimmedAppend(a, b);
    FilterAppend(NonEmpty, Trimmed(a), Trimmed(b));
    if |a| == 1 {
      assert Trimmed(a) == [] + [CleanEntry(a[0])];
      FilterSnoc(NonEmpty, [], CleanEntry(a[0]));
    }
  }

  lemma TrimmedAppend(a: seq<Option<string>>, b: seq<Option<string>>)
    ensures Trimmed(a + b) == Trimmed(a) + Trimmed(b)
  {
    var l, r := Trimmed(a + b), Trimmed(a) + Trimmed(b);
    assert |l| == |r|;
    forall i | 0 <= i < |l| ensures l[i] == r[i] {
      if i < |a| {
        assert (a + b)[i] == a[i];
      } else {
        assert (a + b)[i] == b[i - |a|];
      }
    }
  }

  /** Trimming a blank string leaves nothing. */
  lemma TrimBlank(s: string)
    requires IsBlank(s)
    ensures Trim(s) == ""
  {
    BlankIffAllSpace(s);
  }

  /** The pattern as compared: lower-cased, then trimmed. */
  function CleanPattern(d: DomainConfig): string {
    Trim(ToLower(d.pattern))
  }

  /** The entry decides for this host: its pattern is not blank and matches. */
  predicate Governs(d: DomainConfig, hostname: string) {
    CleanPattern(d) != "" && MatchesHostPattern(hostname, CleanPattern(d))
  }

  predicate AnyPrefixMatches(pathname: string, prefixes: seq<string>) {
    exists i :: 0 <= i < |prefixes| && PathMatchesPrefix(pathname, prefixes[i])
  }

  /** What the domain loop concludes. */
  datatype Verdict =
    | Allowed
    | PathRejected(pattern: string, allowlist: seq<string>)
    | NoDomain

  /** The verdict of an entry that governs the host. */
  function EntryVerdict(d: DomainConfig, pathname: string): Verdict {
    var allow := CleanAllowlist(d.pathAllowlist.GetOr([]));
    if |allow| == 0 || AnyPrefixMatches(pathname, allow) then Allowed else PathRejected(d.pattern, allow)
  }

  /** The loop shared by `isAllowedDomain` and `validateUrl`. */
  function Decide(domains: seq<DomainConfig>, hostname: string, pathname: string): Verdict
    decreases |domains|
  {
    if |domains| == 0 then NoDomain
    else if Governs(domains[0], hostname) then EntryVerdict(domains[0], pathname)
    else Decide(domains[1..], hostname, pathname)
  }

  /** The first entry whose pattern matches decides, whatever follows it:
      a path rejection there is final even if a later entry would allow. */
  lemma {:induction false} FirstGoverningEntryDecides(domains: seq<DomainConfig>, hostname: string, pathname: string, k: nat)
    requires k < |domains| && Governs(domains[k], hostname)
    requires forall j :: 0 <= j < k ==> !Governs(domains[j], hostname)
    ensures Decide(domains, hostname, pathname) == EntryVerdict(domains[k], pathname)
    decreases k
  {
    if k > 0 {
      assert !Governs(domains[0], hostname);
      FirstGoverningEntryDecides(domains[1..], hostname, pathname, k - 1);
    }
  }

  /** Without a governing entry nothing is allowed. */
  lemma {:induction false} NoGoverningEntryRejects(domains: seq<DomainConfig>, hostname: string, pathname: string)
    requires forall j :: 0 <= j < |domains| ==> !Governs(domains[j], hostname)
    ensures Decide(domains, hostname, pathname) == NoDomain
    decreases |domains|
  {
    if |domains| > 0 {
      assert !Governs(domains[0], hostname);
      NoGoverningEntryRejects(domains[1..], hostname, pathname);
    }
  }

  lemma SpaceStaysBlankLowered(s: string)
    requires IsBlank(s)
    ensures Trim(ToLower(s)) == ""
  {
    BlankIffAllSpace(s);
    var lowered := ToLower(s);
    assert AllSpace(lowered) by {
      forall i | 0 <= i < |lowered| ensures IsSpace(lowered[i]) {
        assert IsSpace(s[i]);
      }
    }
    BlankIffAllSpace(lowered);
  }

  /** An entry with a blank pattern is passed over. */
  lemma BlankPatternSkipped(d: DomainConfig, rest: seq<DomainConfig>, hostname: string, pathname: string)
    requires IsBlank(d.pattern)
    ensures !Governs(d, hostname)
    ensures Decide([d] + rest, hostname, pathname) == Decide(rest, hostname, pathname)
  {
    SpaceStaysBlankLowered(d.pattern);
    assert CleanPattern(d) == "";
    assert ([d] + rest)[1..] == rest;
  }

  /** An allowlist that is empty after cleaning opens the whole host. */
  lemma BlankAllowlistAllowsHost(d: DomainConfig, pathname: string)
    requires forall i :: 0 <= i < |d.pathAllowlist.GetOr([])| ==>
               d.pathAllowlist.GetOr([])[i].None? || IsBlank(d.pathAllowlist.GetOr([])[i].value)
    ensures EntryVerdict(d, pathname) == Allowed
  {
    var entries := d.pathAllowlist.GetOr([]);
    forall i | 0 <= i < |entries| ensures CleanEntry(entries[i]) == "" {
      if entries[i].Some? {
        TrimBlank(entries[i].value);
      }
    }
    HeadIsMember(CleanAllowlist(entries));
  }

  lemma HeadIsMember<T>(xs: seq<T>)
    ensures |xs| > 0 ==> xs[0] in xs
  {
  }

  /** Host and normalized path of a parsed URL. */
  function HostOf(u: ParsedUrl): string {
    Trim(ToLower(u.hostname))
  }

  function PathOf(u: ParsedUrl, env: UrlEnv): string {
    SafeNormalizePathname(u.pathname, env.decode)
  }

  /** `isAllowedDomain`: a malformed URL throws. */
  function IsAllowedDomain(url: string, config: SourcesConfig, env: UrlEnv): (r: Result<bool>)
    ensures r.Err? <==> env.parse(url).None?
    ensures r.Ok? ==> (r.value <==> Decide(Domains(config), HostOf(env.parse(url).value), PathOf(env.parse(url).value, env)) == Allowed)
  {
    match env.parse(url)
    case None => Err("Invalid URL")
    case Some(u) => Ok(Decide(Domains(config), HostOf(u), PathOf(u, env)) == Allowed)
  }

  datatype Validation = Validation(valid: bool, error: Option<string>)

  /** `getAllowedDomains`: every configured pattern as written. */
  function AllowedPatterns(domains: seq<DomainConfig>): (r: seq<string>)
    ensures |r| == |domains| && forall i :: 0 <= i < |domains| ==> r[i] == domains[i].pattern
  {
    seq(|domains|, i requires 0 <= i < |domains| => domains[i].pattern)
  }

  function PathRejectedHead(url: string, pattern: string): string {
    "URL '" + url + "' é permitida apenas para caminhos específicos em '" + pattern + "': "
  }

  /** The error for a governed host whose path is not allowlisted. */
  function PathRejectedMessage(url: string, pattern: string, allow: seq<string>): string {
    PathRejectedHead(url, pattern) + Join(allow, ", ")
  }

  /** The error for a host no entry governs. */
  function NotOfficialMessage(url: string, patterns: seq<string>): string {
    "URL '" + url + "' não é um domínio oficial permitido. Domínios permitidos: " + Join(patterns, ", ")
  }

  /** `validateUrl`. The not-official message lists the patterns through
      `getAllowedDomains`, whose throw escapes. */
  function ValidateUrl(url: string, config: SourcesConfig, env: UrlEnv): (r: Result<Validation>)
    ensures r.Ok? ==> (r.value.error.Some? <==> !r.value.valid)
    ensures env.parse(url).None? ==> r == Ok(Validation(false, Some("URL inválida: \"" + url + "\"")))
    ensures r.Err? <==> env.parse(url).Some? && GetAllowedDomains(config).Err?
    ensures r.Err? ==> r.message == GetAllowedDomains(config).message
    ensures env.parse(url).Some? && Decide(Domains(config), HostOf(env.parse(url).value), PathOf(env.parse(url).value, env)) == NoDomain &&
            GetAllowedDomains(config).Ok? ==>
              r == Ok(Validation(false, Some(NotOfficialMessage(url, AllowedPatterns(Domains(config))))))
  {
    match env.parse(url)
    case None => Ok(Validation(false, Some("URL inválida: \"" + url + "\"")))
    case Some(u) =>
      match Decide(Domains(config), HostOf(u), PathOf(u, env))
      case Allowed => Ok(Validation(true, None))
      case PathRejected(pattern, allow) => Ok(Validation(false, Some(PathRejectedMessage(url, pattern, allow))))
      case NoDomain =>
        match GetAllowedDomains(config)
        case Err(e) => Err(e)
        case Ok(patterns) => Ok(Validation(false, Some(NotOfficialMessage(url, patterns))))
  }

  /** For a well-formed URL, validation and the yes/no check agree; a
      malformed one is an error for the check and a refusal for validation. */
  lemma ValidateAgreesWithIsAllowed(url: string, config: SourcesConfig, env: UrlEnv)
    ensures env.parse(url).Some? && ValidateUrl(url, config, env).Ok? ==>
              IsAllowedDomain(url, config, env) == Ok(ValidateUrl(url, config, env).value.valid)
    ensures env.parse(url).Some? && ValidateUrl(url, config, env).Err? ==> IsAllowedDomain(url, config, env) == Ok(false)
    ensures env.parse(url).None? ==> IsAllowedDomain(url, config, env).Err? && !ValidateUrl(url, config, env).value.valid
  {
  }

  /** A rejection by path names the governing entry's cleaned allowlist. */
  lemma PathRejectionNamesAllowlist(url: string, config: SourcesConfig, env: UrlEnv, k: nat, i: nat)
    requires env.parse(url).Some?
    requires k < |Domains(config)| && Governs(Domains(config)[k], HostOf(env.parse(url).value))
    requires forall j :: 0 <= j < k ==> !Governs(Domains(config)[j], HostOf(env.parse(url).value))
    requires EntryVerdict(Domains(config)[k], PathOf(env.parse(url).value, env)).PathRejected?
    requires i < |CleanAllowlist(Domains(config)[k].pathAllowlist.GetOr([]))|
    ensures ValidateUrl(url, config, env).Ok? && !ValidateUrl(url, config, env).value.valid
    ensures Contains(ValidateUrl(url, config, env).value.error.value, CleanAllowlist(Domains(config)[k].pathAllowlist.GetOr([]))[i])
  {
    var u := env.parse(url).value;
    var d := Domains(config)[k];
    var allow := CleanAllowlist(d.pathAllowlist.GetOr([]));
    FirstGoverningEntryDecides(Domains(config), HostOf(u), PathOf(u, env), k);
    assert Decide(Domains(config), HostOf(u), PathOf(u, env)) == PathRejected(d.pattern, allow);
    assert ValidateUrl(url, config, env) == Ok(Validation(false, Some(PathRejectedMessage(url, d.pattern, allow))));
    MessageListsEach(url, d.pattern, allow, i);
  }

  lemma EndsWithTrans(s: string, a: string, b: string)
    requires EndsWith(s, a) && EndsWith(a, b)
    ensures EndsWith(s, b)
  {
    assert s[|s| - |b|..] == s[|s| - |a|..][|a| - |b|..];
  }

  /** The patterns of the built-in configuration, in order. */
  const DEFAULT_PATTERNS: seq<string> := ["*.gov.br", "*.fazenda.gov.br", "dfe-portal.svrs.rs.gov.br", "confaz.fazenda.gov.br"]

  /** Written in lower case, without surrounding blanks. */
  predicate PlainPattern(p: string) {
    NoUpper(p) && (|p| > 0 ==> !IsSpace(p[0]) && !IsSpace(p[|p| - 1]))
  }

  lemma PlainPatternClean(p: string)
    requires PlainPattern(p)
    ensures Trim(ToLower(p)) == p
  {
    ToLowerOfNoUpper(p);
    TrimNoop(p);
  }

  /** Entries carrying the built-in patterns, in order, without path restrictions. */
  predicate BuiltInShape(domains: seq<DomainConfig>) {
    |domains| == |DEFAULT_PATTERNS| &&
    forall k :: 0 <= k < |domains| ==>
      domains[k].pattern == DEFAULT_PATTERNS[k] && PlainPattern(domains[k].pattern) && domains[k].pathAllowlist.None?
  }

  lemma PlainEntryGoverns(d: DomainConfig, host: string)
    requires PlainPattern(d.pattern) && d.pattern != ""
    ensures Governs(d, host) <==> MatchesHostPattern(host, d.pattern)
  {
    PlainPatternClean(d.pattern);
  }

  lemma WildcardPatternsUnderGovBr(host: string)
    ensures MatchesHostPattern(host, "*.gov.br") <==> EndsWith(host, ".gov.br")
    ensures MatchesHostPattern(host, "*.fazenda.gov.br") ==> EndsWith(host, ".gov.br")
  {
    assert StartsWith("*.gov.br", "*.") && "*.gov.br"[1..] == ".gov.br";
    assert StartsWith("*.fazenda.gov.br", "*.") && "*.fazenda.gov.br"[1..] == ".fazenda.gov.br";
    if EndsWith(host, ".fazenda.gov.br") {
      assert EndsWith(".fazenda.gov.br", ".gov.br");
      EndsWithTrans(host, ".fazenda.gov.br", ".gov.br");
    }
  }

  lemma ExactPatternUnderGovBr(host: string, p: string)
    requires !StartsWith(p, "*.") && EndsWith(p, ".gov.br")
    ensures MatchesHostPattern(host, p) ==> EndsWith(host, ".gov.br")
  {
  }

  /** Every built-in pattern lies under gov.br, and the first one covers it. */
  lemma BuiltInPatternsUnderGovBr(host: string, k: nat)
    requires k < |DEFAULT_PATTERNS|
    ensures MatchesHostPattern(host, DEFAULT_PATTERNS[k]) ==> EndsWith(host, ".gov.br")
    ensures k == 0 ==> (MatchesHostPattern(host, DEFAULT_PATTERNS[k]) <==> EndsWith(host, ".gov.br"))
  {
    WildcardPatternsUnderGovBr(host);
    if k == 2 {
      var p := DEFAULT_PATTERNS[2];
      assert p[..2][0] == 'd' && p[|p| - 7..] == ".gov.br";
      ExactPatternUnderGovBr(host, p);
    } else if k == 3 {
      var p := DEFAULT_PATTERNS[3];
      assert p[..2][0] == 'c' && p[|p| - 7..] == ".gov.br";
      ExactPatternUnderGovBr(host, p);
    }
  }

  lemma ShapeGoverns(domains: seq<DomainConfig>, host: string)
    requires BuiltInShape(domains)
    ensures (exists k :: 0 <= k < |domains| && Governs(domains[k], host)) ==> EndsWith(host, ".gov.br")
    ensures EndsWith(host, ".gov.br") ==> Governs(domains[0], host)
  {
    forall k | 0 <= k < |domains| ensures Governs(domains[k], host) ==> EndsWith(host, ".gov.br") {
      assert domains[k].pattern == DEFAULT_PATTERNS[k] && DEFAULT_PATTERNS[k] != "";
      PlainEntryGoverns(domains[k], host);
      BuiltInPatternsUnderGovBr(host, k);
    }
    assert domains[0].pattern == DEFAULT_PATTERNS[0] && DEFAULT_PATTERNS[0] != "";
    PlainEntryGoverns(domains[0], host);
    BuiltInPatternsUnderGovBr(host, 0);
  }

  predicate HostChar(c: char) {
    ('a' <= c <= 'z') || c == '.' || c == '*' || c == '-'
  }

  lemma HostCharsPlain(p: string)
    requires forall i :: 0 <= i < |p| ==> HostChar(p[i])
    ensures PlainPattern(p)
  {
  }

  lemma DefaultPatternPlain(k: nat)
    requires k < |DEFAULT_PATTERNS|
    ensures PlainPattern(DEFAULT_PATTERNS[k])
  {
    if k == 0 {
      HostCharsPlain("*.gov.br");
    } else if k == 1 {
      HostCharsPlain("*.fazenda.gov.br");
    } else if k == 2 {
      HostCharsPlain("dfe-portal.svrs.rs.gov.br");
    } else {
      HostCharsPlain("confaz.fazenda.gov.br");
    }
  }

  /** The built-in configuration has that shape, and `getAllowedDomains` lists its patterns. */
  lemma DefaultShape()
    ensures BuiltInShape(Domains(DEFAULT_CONFIG)) && GetAllowedDomains(DEFAULT_CONFIG) == Ok(DEFAULT_PATTERNS)
  {
    var ds := Domains(DEFAULT_CONFIG);
    assert |ds| == 4;
    assert forall k :: 0 <= k < |ds| ==> ds[k].pattern == DEFAULT_PATTERNS[k] && ds[k].pathAllowlist.None?;
    forall k | 0 <= k < |ds| ensures PlainPattern(ds[k].pattern) {
      DefaultPatternPlain(k);
    }
    assert AllowedPatterns(ds) == DEFAULT_PATTERNS;
  }

  /** The decision over the built-in entries. */
  lemma BuiltInAllows(domains: seq<DomainConfig>, host: string, path: string)
    requires BuiltInShape(domains)
    ensures Decide(domains, host, path) == (if EndsWith(host, ".gov.br") then Allowed else NoDomain)
  {
    ShapeGoverns(domains, host);
    if EndsWith(host, ".gov.br") {
      FirstGoverningEntryDecides(domains, host, path, 0);
      assert domains[0].pathAllowlist.None?;
      assert CleanAllowlist([]) == [];
    } else {
      NoGoverningEntryRejects(domains, host, path);
    }
  }

  /** Any configuration with the built-in entries allows exactly the hosts
      under gov.br, whatever the path, and refuses any other host with the
      list of built-in patterns. */
  lemma BuiltInPolicy(url: string, config: SourcesConfig, env: UrlEnv)
    requires env.parse(url).Some?
    requires BuiltInShape(Domains(config)) && GetAllowedDomains(config) == Ok(DEFAULT_PATTERNS)
    ensures IsAllowedDomain(url, config, env) == Ok(EndsWith(HostOf(env.parse(url).value), ".gov.br"))
    ensures !EndsWith(HostOf(env.parse(url).value), ".gov.br") ==>
              ValidateUrl(url, config, env) == Ok(Validation(false, Some(NotOfficialMessage(url, DEFAULT_PATTERNS))))
  {
    var u := env.parse(url).value;
    BuiltInAllows(Domains(config), HostOf(u), PathOf(u, env));
  }

  /** So without a configuration file, exactly the gov.br hosts are allowed. */
  lemma DefaultConfigAllowsGovBr(url: string, env: UrlEnv)
    requires env.parse(url).Some?
    ensures IsAllowedDomain(url, DEFAULT_CONFIG, env) == Ok(EndsWith(HostOf(env.parse(url).value), ".gov.br"))
    ensures !EndsWith(HostOf(env.parse(url).value), ".gov.br") ==>
              ValidateUrl(url, DEFAULT_CONFIG, env) == Ok(Validation(false, Some(NotOfficialMessage(url, DEFAULT_PATTERNS))))
  {
    DefaultShape();
    BuiltInPolicy(url, DEFAULT_CONFIG, env);
  }

  lemma MessageListsEach(url: string, pattern: string, allow: seq<string>, i: nat)
    requires i < |allow|
    ensures Contains(PathRejectedMessage(url, pattern, allow), allow[i])
  {
    var head := PathRejectedHead(url, pattern);
    var msg := PathRejectedMessage(url, pattern, allow);
    JoinContainsEach(allow, ", ", i);
    assert msg[|head|..|msg|] == Join(allow, ", ");
    ContainsInfix(msg, |head|, |msg|, allow[i]);
  }

  /** A rule of the path tables: a needle, the type and the optional portal. */
  datatype TypeRule = TypeRule(needle: string, docType: string, portalId: Option<string>)

  /** The document type and portal found in a URL; both absent is `{}`. */
  datatype UrlDocType = UrlDocType(docType: Option<string>, portalId: Option<string>)

  const NO_TYPE := UrlDocType(None, None)

  /** Path rules tried on SVRS hosts, most specific first. */
  const SVRS_RULES: seq<TypeRule> := [
    TypeRule("/nfabi/", "nfeab", Some("nfeab-svrs")),
    TypeRule("/nfe/", "nfe", Some("nfe-svrs")),
    TypeRule("/nfce/", "nfce", Some("nfce-svrs")),
    TypeRule("/cte/", "cte", Some("cte-svrs")),
    TypeRule("/mdfe/", "mdfe", Some("mdfe-svrs")),
    TypeRule("/bpe/", "bpe", Some("bpe-svrs")),
    TypeRule("/nf3e/", "nf3e", Some("nf3e-svrs")),
    TypeRule("/dce/", "dce", Some("dce-svrs")),
    TypeRule("/nfgas/", "nfgas", Some("nfgas-svrs")),
    TypeRule("/cff/", "cff", Some("cff-svrs")),
    TypeRule("/nff/", "nff", Some("nff-svrs")),
    TypeRule("/nfag/", "nfag", Some("nfag-svrs")),
    TypeRule("/pes/", "pes", Some("pes-svrs")),
    TypeRule("/nfcom/", "nfcom", Some("nfcom-svrs")),
    TypeRule("/one/", "one", Some("one-svrs")),
    TypeRule("/difal/", "difal", Some("difal-svrs"))]

  /** Path rules tried on any host. Each source test `includes("/x") ||
      includes("x")` is `includes("x")`, since the first implies the second. */
  const PATH_RULES: seq<TypeRule> := [
    TypeRule("nfabi", "nfeab", Some("nfeab-svrs")),
    TypeRule("nfce", "nfce", None),
    TypeRule("nf3e", "nf3e", Some("nf3e-svrs")),
    TypeRule("nfcom", "nfcom", Some("nfcom-svrs")),
    TypeRule("nfag", "nfag", Some("nfag-svrs")),
    TypeRule("nfgas", "nfgas", Some("nfgas-svrs")),
    TypeRule("nff", "nff", Some("nff-svrs")),
    TypeRule("nfe", "nfe", None),
    TypeRule("cte", "cte", None),
    TypeRule("mdfe", "mdfe", None),
    TypeRule("bpe", "bpe", Some("bpe-svrs")),
    TypeRule("dce", "dce", Some("dce-svrs")),
    TypeRule("cff", "cff", Some("cff-svrs")),
    TypeRule("pes", "pes", Some("pes-svrs")),
    TypeRule("one", "one", Some("one-svrs")),
    TypeRule("difal", "difal", Some("difal-svrs")),
    TypeRule("confaz", "confaz", Some("confaz"))]

  /** `includes("/x") || includes("x")` is `includes("x")`. */
  lemma SlashedNeedleIsRedundant(s: string, x: string)
    ensures Contains(s, "/" + x) || Contains(s, x) <==> Contains(s, x)
  {
    if Contains(s, "/" + x) {
      ContainsIff(s, "/" + x);
      var k :| OccursAt(s, "/" + x, k);
      assert s[k + 1..k + 1 + |x|] == ("/" + x)[1..];
      assert OccursAt(s, x, k + 1);
      ContainsWitness(s, x, k + 1);
    }
  }

  /** The first rule whose needle the path contains. */
  function FirstRule(rules: seq<TypeRule>, pathname: string): (r: Option<TypeRule>)
    ensures r.None? <==> forall i :: 0 <= i < |rules| ==> !Contains(pathname, rules[i].needle)
    ensures r.Some? ==> exists i :: 0 <= i < |rules| && rules[i] == r.value && Contains(pathname, rules[i].needle) &&
                                    forall j :: 0 <= j < i ==> !Contains(pathname, rules[j].needle)
    decreases |rules|
  {
    if |rules| == 0 then None
    else if Contains(pathname, rules[0].needle) then Some(rules[0])
    else
      var r := FirstRule(rules[1..], pathname);
      assert forall i :: 1 <= i < |rules| ==> rules[i] == rules[1..][i - 1];
      r
  }

  function FromRule(r: Option<TypeRule>): UrlDocType {
    match r
    case Some(rule) => UrlDocType(Some(rule.docType), rule.portalId)
    case None => NO_TYPE
  }

  /** `extractDocumentTypeFromUrl`: host markers first, then the SVRS path
      rules on SVRS hosts, then the general path rules; `{}` for a malformed
      URL or when nothing matches. */
  function ExtractDocumentTypeFromUrl(url: string, env: UrlEnv): (r: UrlDocType)
    ensures env.parse(url).None? ==> r == NO_TYPE
    ensures env.parse(url).Some? ==>
              var host := ToLower(env.parse(url).value.hostname);
              var path := ToLower(env.parse(url).value.pathname);
              if Contains(host, "nfe.fazenda.gov.br") then r == UrlDocType(Some("nfe"), Some("nfe"))
              else if Contains(host, "confaz.fazenda.gov.br") then r == UrlDocType(Some("confaz"), Some("confaz"))
              else if Contains(host, "svrs.rs.gov.br") && FirstRule(SVRS_RULES, path).Some? then
                r == FromRule(FirstRule(SVRS_RULES, path))
              else r == FromRule(FirstRule(PATH_RULES, path))
  {
    match env.parse(url)
    case None => NO_TYPE
    case Some(u) => TypeFrom(ToLower(u.hostname), ToLower(u.pathname), SVRS_RULES, PATH_RULES)
  }

  /** The chain of `extractDocumentTypeFromUrl` over a lower-cased host and
      path, with the SVRS and the general rule tables as parameters. */
  function TypeFrom(host: string, path: string, svrs: seq<TypeRule>, general: seq<TypeRule>): UrlDocType {
    if Contains(host, "nfe.fazenda.gov.br") then UrlDocType(Some("nfe"), Some("nfe"))
    else if Contains(host, "confaz.fazenda.gov.br") then UrlDocType(Some("confaz"), Some("confaz"))
    else if Contains(host, "svrs.rs.gov.br") && FirstRule(svrs, path).Some? then FromRule(FirstRule(svrs, path))
    else FromRule(FirstRule(general, path))
  }

  lemma TypeFromNoneIff(host: string, path: string, svrs: seq<TypeRule>, general: seq<TypeRule>)
    ensures TypeFrom(host, path, svrs, general).docType.None? <==>
              !Contains(host, "nfe.fazenda.gov.br") && !Contains(host, "confaz.fazenda.gov.br") &&
              (forall i :: 0 <= i < |general| ==> !Contains(path, general[i].needle)) &&
              (Contains(host, "svrs.rs.gov.br") ==> forall i :: 0 <= i < |svrs| ==> !Contains(path, svrs[i].needle))
  {
    FromRuleNone(FirstRule(svrs, path));
    FromRuleNone(FirstRule(general, path));
  }

  /** No type is found exactly when the URL is malformed, or the host
      carries no marker and no rule needle for that host occurs in the
      path. */
  lemma ExtractDocumentTypeNoneIff(url: string, env: UrlEnv)
    ensures ExtractDocumentTypeFromUrl(url, env).docType.None? <==>
              env.parse(url).None? ||
              (!Contains(ToLower(env.parse(url).value.hostname), "nfe.fazenda.gov.br") &&
               !Contains(ToLower(env.parse(url).value.hostname), "confaz.fazenda.gov.br") &&
               (forall i :: 0 <= i < |PATH_RULES| ==> !Contains(ToLower(env.parse(url).value.pathname), PATH_RULES[i].needle)) &&
               (Contains(ToLower(env.parse(url).value.hostname), "svrs.rs.gov.br") ==>
                  forall i :: 0 <= i < |SVRS_RULES| ==> !Contains(ToLower(env.parse(url).value.pathname), SVRS_RULES[i].needle)))
  {
    if env.parse(url).Some? {
      TypeFromNoneIff(ToLower(env.parse(url).value.hostname), ToLower(env.parse(url).value.pathname), SVRS_RULES, PATH_RULES);
    }
  }

  lemma FromRuleNone(r: Option<TypeRule>)
    ensures FromRule(r).docType.None? <==> r.None?
  {
  }

  /** The national NF-e host wins over any path. */
  lemma NfeHostBeatsPath(url: string, env: UrlEnv)
    requires env.parse(url).Some? && Contains(ToLower(env.parse(url).value.hostname), "nfe.fazenda.gov.br")
    ensures ExtractDocumentTypeFromUrl(url, env) == UrlDocType(Some("nfe"), Some("nfe"))
  {
  }

  /** "nfabi" is tried before "nfe": on a host without markers, a path
      naming "nfabi" is the NF-e ABI type even though it also contains "nf". */
  lemma NfabiBeforeNfe(url: string, env: UrlEnv)
    requires env.parse(url).Some?
    requires !Contains(ToLower(env.parse(url).value.hostname), "nfe.fazenda.gov.br")
    requires !Contains(ToLower(env.parse(url).value.hostname), "confaz.fazenda.gov.br")
    requires !Contains(ToLower(env.parse(url).value.hostname), "svrs.rs.gov.br")
    requires Contains(ToLower(env.parse(url).value.pathname), "nfabi")
    ensures ExtractDocumentTypeFromUrl(url, env) == UrlDocType(Some("nfeab"), Some("nfeab-svrs"))
  {
    assert PATH_RULES[0].needle == "nfabi";
  }

  /** On SVRS hosts "/nfabi/" is tried before "/nfe/". */
  lemma SvrsNfabiBeforeNfe(url: string, env: UrlEnv)
    requires env.parse(url).Some?
    requires !Contains(ToLower(env.parse(url).value.hostname), "nfe.fazenda.gov.br")
    requires !Contains(ToLower(env.parse(url).value.hostname), "confaz.fazenda.gov.br")
    requires Contains(ToLower(env.parse(url).value.hostname), "svrs.rs.gov.br")
    requires Contains(ToLower(env.parse(url).value.pathname), "/nfabi/")
    ensures ExtractDocumentTypeFromUrl(url, env) == UrlDocType(Some("nfeab"), Some("nfeab-svrs"))
  {
    assert SVRS_RULES[0].needle == "/nfabi/";
  }

  /** `documentTypeMap`: normalized document type to portal id. */
  const DOCUMENT_TYPE_MAP: seq<(string, string)> := [
    ("nfe", "nfe-svrs"), ("nfce", "nfce-svrs"), ("cte", "cte-svrs"), ("mdfe", "mdfe-svrs"),
    ("confaz", "confaz"), ("bpe", "bpe-svrs"), ("nf3e", "nf3e-svrs"), ("dce", "dce-svrs"),
    ("nfgas", "nfgas-svrs"), ("cff", "cff-svrs"), ("nff", "nff-svrs"), ("nfag", "nfag-svrs"),
    ("pes", "pes-svrs"), ("nfcom", "nfcom-svrs"), ("one", "one-svrs"), ("nfeab", "nfeab-svrs"),
    ("difal", "difal-svrs")]

  const DEFAULT_PORTAL_ID := "nfe-svrs"

  /** The value of the first entry with the key. */
  function Lookup(table: seq<(string, string)>, key: string): (r: Option<string>)
    ensures r.Some? ==> (key, r.value) in table
    ensures r.Some? ==> exists i :: 0 <= i < |table| && table[i] == (key, r.value) &&
                                    forall j :: 0 <= j < i ==> table[j].0 != key
    ensures r.None? ==> forall i :: 0 <= i < |table| ==> table[i].0 != key
    decreases |table|
  {
    if |table| == 0 then None
    else if table[0].0 == key then Some(table[0].1)
    else
      var r := Lookup(table[1..], key);
      assert forall i :: 1 <= i < |table| ==> table[i] == table[1..][i - 1];
      r
  }

  /** Drops `_` and `-`, as `replace(/[_-]/g, "")` does. */
  function DropSeparators(s: string): (r: string)
    ensures forall c :: c in r <==> c in s && c != '_' && c != '-'
    decreases |s|
  {
    if |s| == 0 then ""
    else
      var rest := DropSeparators(s[1..]);
      assert forall c :: c in s <==> c == s[0] || c in s[1..];
      if s[0] == '_' || s[0] == '-' then rest else [s[0]] + rest
  }

  predicate NotSeparator(c: char) {
    c != '_' && c != '-'
  }

  /** Dropping separators keeps every other character, in order: it is the
      filter that removes `_` and `-`. */
  lemma {:induction false} DropSeparatorsIsFilter(s: string)
    ensures DropSeparators(s) == Filter(NotSeparator, s)
    decreases |s|
  {
    if |s| > 0 {
      DropSeparatorsIsFilter(s[1..]);
    }
  }

  /** The type key: lower-cased, separators dropped. */
  function NormalizeDocType(t: string): string {
    DropSeparators(ToLower(t))
  }

  /** The portal id a document type names, when it is non-empty and known. */
  function MappedPortal(documentType: Option<string>): (r: Option<string>)
    ensures r.Some? ==> documentType.Some? && (NormalizeDocType(documentType.value), r.value) in DOCUMENT_TYPE_MAP
  {
    if documentType.Some? && documentType.value != "" then Lookup(DOCUMENT_TYPE_MAP, NormalizeDocType(documentType.value))
    else None
  }

  /** The first portal with the given id. */
  function FindPortal(portals: seq<PortalConfig>, id: string): (r: Option<PortalConfig>)
    ensures r.Some? ==> r.value in portals && r.value.id == id
    ensures r.Some? ==> exists i :: 0 <= i < |portals| && portals[i] == r.value &&
                                    forall j :: 0 <= j < i ==> portals[j].id != id
    ensures r.None? ==> forall i :: 0 <= i < |portals| ==> portals[i].id != id
    decreases |portals|
  {
    if |portals| == 0 then None
    else if portals[0].id == id then Some(portals[0])
    else
      var r := FindPortal(portals[1..], id);
      assert forall i :: 1 <= i < |portals| ==> portals[i] == portals[1..][i - 1];
      r
  }

  function UrlOf(p: Option<PortalConfig>): Option<string> {
    if p.Some? then Some(p.value.urlBase) else None
  }

  /** `getOfficialSiteUrl`: the portal with the given id, else the portal the
      document type maps to, else the SVRS NF-e portal, else nothing. */
  function GetOfficialSiteUrl(documentType: Option<string>, portalId: Option<string>, config: SourcesConfig): (r: Option<string>)
    ensures config.portals.None? ==> r.None?
    ensures r.Some? ==> exists p :: p in config.portals.value && p.urlBase == r.value
  {
    match config.portals
    case None => None
    case Some(portals) =>
      var byId := if portalId.Some? && portalId.value != "" then FindPortal(portals, portalId.value) else None;
      var mapped := MappedPortal(documentType);
      var byType := if mapped.Some? then FindPortal(portals, mapped.value) else None;
      if byId.Some? then UrlOf(byId)
      else if byType.Some? then UrlOf(byType)
      else UrlOf(FindPortal(portals, DEFAULT_PORTAL_ID))
  }

  /** The resolution order: a non-empty portal id that is configured wins;
      otherwise a document type that maps to a configured portal; otherwise
      the SVRS NF-e portal, also when the type is empty, unknown or maps to a
      portal that is not configured. A portal found gives the base URL of the
      first configured portal with that id. */
  lemma OfficialSiteOrder(documentType: Option<string>, portalId: Option<string>, portals: seq<PortalConfig>, k: nat)
    ensures var r := GetOfficialSiteUrl(documentType, portalId, SourcesConfig(None, Some(portals)));
            portalId.Some? && portalId.value != "" && k < |portals| && portals[k].id == portalId.value &&
            (forall j :: 0 <= j < k ==> portals[j].id != portalId.value) ==>
              r == Some(portals[k].urlBase)
    ensures var r := GetOfficialSiteUrl(documentType, portalId, SourcesConfig(None, Some(portals)));
            var m := MappedPortal(documentType);
            (portalId.None? || portalId.value == "" || FindPortal(portals, portalId.value).None?) &&
            m.Some? && k < |portals| && portals[k].id == m.value && (forall j :: 0 <= j < k ==> portals[j].id != m.value) ==>
              r == Some(portals[k].urlBase)
    ensures var r := GetOfficialSiteUrl(documentType, portalId, SourcesConfig(None, Some(portals)));
            var m := MappedPortal(documentType);
            (portalId.None? || portalId.value == "" || FindPortal(portals, portalId.value).None?) &&
            (m.None? || FindPortal(portals, m.value).None?) ==>
              r == UrlOf(FindPortal(portals, DEFAULT_PORTAL_ID))
    ensures var r := GetOfficialSiteUrl(documentType, portalId, SourcesConfig(None, Some(portals)));
            r.None? <==>
              (portalId.None? || portalId.value == "" || FindPortal(portals, portalId.value).None?) &&
              (MappedPortal(documentType).None? || FindPortal(portals, MappedPortal(documentType).value).None?) &&
              FindPortal(portals, DEFAULT_PORTAL_ID).None?
  {
    FirstPortalFound(portals, portalId.GetOr(""), k);
    FirstPortalFound(portals, MappedPortal(documentType).GetOr(""), k);
  }

  /** The first portal with an id is the one `FindPortal` returns. */
  lemma {:induction false} FirstPortalFound(portals: seq<PortalConfig>, id: string, k: nat)
    ensures k < |portals| && portals[k].id == id && (forall j :: 0 <= j < k ==> portals[j].id != id) ==>
              FindPortal(portals, id) == Some(portals[k])
    decreases k
  {
    if k < |portals| && portals[k].id == id && (forall j :: 0 <= j < k ==> portals[j].id != id) && k > 0 {
      assert portals[0].id != id;
      assert forall j :: 0 <= j < k - 1 ==> portals[1..][j] == portals[j + 1];
      FirstPortalFound(portals[1..], id, k - 1);
    }
  }
}
