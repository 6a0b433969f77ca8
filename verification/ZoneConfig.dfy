/** Which DNS credential answers for a domain: zones, their lookup, and what a
    validated configuration guarantees. */
module ZoneConfig {
  import opened Prelude
  import opened Text

  const WILDCARD := "*."

  type Zones = map<string, string>

  datatype Zone = Zone(name: string, credential: string)

  datatype Certificate = Certificate(name: string, domains: seq<string>, keyType: string, credential: string)

  /** Credentials map a name to a provider; a hook lists the certificates it is for. */
  datatype Config = Config(
    credentials: map<string, string>,
    zones: seq<Zone>,
    certificates: seq<Certificate>,
    hooks: seq<seq<string>>)

  datatype ConfigError =
    | BadCredential | BadZone(zone: string) | BadName(name: string) | NoDomains(cert: string) | BadKeyType(cert: string)
    | UnknownCredential(cert: string) | Uncovered(domain: string) | BadHook

  predicate SupportedKeyType(keyType: string) {
    keyType in ["ec256", "ec384", "rsa2048", "rsa3072", "rsa4096"]
  }

  /** The domain is the zone or lies below it. */
  predicate Covers(zone: string, domain: string) {
    domain == zone || HasSuffix(domain, "." + zone)
  }

  // ---------------------------------------------------------------------
  // Lookup
  // ---------------------------------------------------------------------

  /** The part of a domain after its first dot. */
  function Parent(domain: string): (r: Option<string>)
    ensures r.None? ==> '.' !in domain
    ensures r.Some? ==> |r.value| < |domain|
  {
    if domain == "" then None
    else if domain[0] == '.' then Some(domain[1..])
    else Parent(domain[1..])
  }

  /** Independent of any map order: the first zone on the way up from the domain. */
  function Nearest(domain: string, zones: Zones): (r: Option<string>)
    ensures r.Some? ==> r.value in zones && r.value != ""
    decreases |domain|
  {
    if domain != "" && domain in zones then Some(domain)
    else if Parent(domain).None? then None
    else Nearest(Parent(domain).value, zones)
  }

  /** The credential of the nearest zone, or the empty text. */
  function NearestCredential(domain: string, zones: Zones): string {
    var zone := Nearest(domain, zones);
    if zone.None? then "" else zones[zone.value]
  }

  lemma {:induction false} ParentShape(domain: string)
    requires Parent(domain).Some?
    ensures var k := |domain| - |Parent(domain).value| - 1;
      k >= 0 && domain[k] == '.' && domain[k + 1..] == Parent(domain).value && '.' !in domain[..k]
  {
    if domain[0] != '.' {
      ParentShape(domain[1..]);
      var k := |domain| - |Parent(domain).value| - 1;
      assert domain[..k] == [domain[0]] + domain[1..][..k - 1];
    }
  }

  lemma SuffixShape(zone: string, domain: string)
    ensures HasSuffix(domain, "." + zone) <==>
      var k := |domain| - |zone| - 1; k >= 0 && domain[k] == '.' && domain[k + 1..] == zone
  {
  }

  /** A zone other than the domain itself covers it exactly when it covers the domain's parent. */
  lemma CoversParent(zone: string, domain: string)
    requires zone != domain
    ensures Covers(zone, domain) <==> Parent(domain).Some? && Covers(zone, Parent(domain).value)
  {
  }

  /** Two zones of the same length that cover a domain are the same zone. */
  lemma SameLengthSameZone(a: string, b: string, domain: string)
    requires Covers(a, domain) && Covers(b, domain) && |a| == |b|
    ensures a == b
  {
    SuffixShape(a, domain);
    SuffixShape(b, domain);
  }

  /** The longest zone that covers the domain. */
  ghost predicate IsLongest(zone: string, domain: string, zones: Zones) {
    && zone != "" && zone in zones && Covers(zone, domain)
    && forall other :: other in zones && Covers(other, domain) ==> |other| <= |zone|
  }

  /** Walking up from the domain finds the longest covering zone, if any zone covers it. */
  lemma {:induction false} NearestIsLongest(domain: string, zones: Zones)
    ensures var zone := Nearest(domain, zones);
      && (zone.Some? ==> IsLongest(zone.value, domain, zones))
      && (zone.None? ==> forall other :: other in zones && Covers(other, domain) ==> other == "")
    decreases |domain|
  {
    if domain != "" && domain in zones {
      forall other | Covers(other, domain) ensures |other| <= |domain| {
        SuffixShape(other, domain);
      }
    } else {
      forall other | other in zones && other != "" ensures
        Covers(other, domain) <==> Parent(domain).Some? && Covers(other, Parent(domain).value) {
        CoversParent(other, domain);
      }
      if Parent(domain).Some? {
        NearestIsLongest(Parent(domain).value, zones);
      }
    }
  }

  /** The map is visited in any order; the longest match so far is kept. */
  method FindZone(domain: string, zones: Zones) returns (value: string)
    ensures value == NearestCredential(domain, zones)
  {
    var best := "";
    value := "";
    var rest := zones.Keys;
    while rest != {}
      invariant rest <= zones.Keys
      invariant best == "" ==> value == ""
      invariant best != "" ==> best in zones && Covers(best, domain) && value == zones[best]
      invariant forall z :: z in zones.Keys - rest && Covers(z, domain) ==> |z| <= |best|
      decreases rest
    {
      var zone :| zone in rest;
      if (domain == zone || HasSuffix(domain, "." + zone)) && |zone| > |best| {
        best, value := zone, zones[zone];
      }
      rest := rest - {zone};
    }
    NearestIsLongest(domain, zones);
    if best != "" {
      SameLengthSameZone(best, Nearest(domain, zones).value, domain);
    }
  }

  // ---------------------------------------------------------------------
  // Configuration
  // ---------------------------------------------------------------------

  function NormalZone(name: string): string {
    TrimSuffix(ToLower(name), ".")
  }

  /** Zones by normal name; of two zones with the same name the later one counts. */
  function ZoneMap(zones: seq<Zone>): Zones {
    FirstZones(zones, |zones|)
  }

  /** The map of the first `n` zones. */
  function FirstZones(zones: seq<Zone>, n: nat): Zones
    requires n <= |zones|
  {
    if n == 0 then map[]
    else FirstZones(zones, n - 1)[NormalZone(zones[n - 1].name) := zones[n - 1].credential]
  }

  ghost predicate CredentialsValid(credentials: map<string, string>) {
    forall name :: name in credentials ==> name != "" && credentials[name] != ""
  }

  ghost predicate ZoneValid(c: Config, z: Zone) {
    NormalZone(z.name) != "" && z.credential in c.credentials
  }

  ghost predicate CertificateValid(c: Config, cert: Certificate) {
    && cert.domains != []
    && (cert.keyType == "" || SupportedKeyType(cert.keyType))
    && (cert.credential == "" || cert.credential in c.credentials)
    && (cert.credential == "" ==>
          forall d :: d in cert.domains ==> NearestCredential(TrimPrefix(d, WILDCARD), ZoneMap(c.zones)) != "")
  }

  ghost predicate NamesValid(certificates: seq<Certificate>) {
    && (forall i :: 0 <= i < |certificates| ==> certificates[i].name != "")
    && (forall i, j :: 0 <= i < j < |certificates| ==> certificates[i].name != certificates[j].name)
  }

  ghost predicate HookValid(c: Config, hook: seq<string>) {
    forall name :: name in hook ==> exists i :: 0 <= i < |c.certificates| && c.certificates[i].name == name
  }

  /** What validation promises about credentials, zones, certificates and hooks. */
  ghost predicate Valid(c: Config) {
    && CredentialsValid(c.credentials)
    && (forall i :: 0 <= i < |c.zones| ==> ZoneValid(c, c.zones[i]))
    && NamesValid(c.certificates)
    && (forall i :: 0 <= i < |c.certificates| ==> CertificateValid(c, c.certificates[i]))
    && (forall i :: 0 <= i < |c.hooks| ==> HookValid(c, c.hooks[i]))
  }

  method ValidateCredentials(c: Config) returns (error: Option<ConfigError>)
    ensures error.None? <==> CredentialsValid(c.credentials)
  {
    var rest := c.credentials.Keys;
    while rest != {}
      invariant rest <= c.credentials.Keys
      invariant forall name :: name in c.credentials.Keys - rest ==> name != "" && c.credentials[name] != ""
      decreases rest
    {
      var name :| name in rest;
      if name == "" || c.credentials[name] == "" {
        return Some(BadCredential);
      }
      rest := rest - {name};
    }
    error := None;
  }

  method ValidateZones(c: Config) returns (error: Option<ConfigError>, zones: Zones)
    ensures error.None? <==> forall i :: 0 <= i < |c.zones| ==> ZoneValid(c, c.zones[i])
    ensures error.None? ==> zones == ZoneMap(c.zones)
  {
    zones := map[];
    var i := 0;
    while i < |c.zones|
      invariant 0 <= i <= |c.zones| && zones == FirstZones(c.zones, i)
      invariant forall k :: 0 <= k < i ==> ZoneValid(c, c.zones[k])
    {
      var z := c.zones[i];
      var name := NormalZone(z.name);
      if name == "" || z.credential !in c.credentials {
        assert !ZoneValid(c, c.zones[i]);
        return Some(BadZone(z.name)), zones;
      }
      assert ZoneValid(c, z);
      zones := zones[name := z.credential];
      i := i + 1;
    }
    error := None;
  }

  method ValidateCertificate(c: Config, cert: Certificate, zones: Zones) returns (error: Option<ConfigError>)
    requires zones == ZoneMap(c.zones)
    ensures error.None? <==> CertificateValid(c, cert)
  {
    if |cert.domains| == 0 {
      return Some(NoDomains(cert.name));
    }
    if cert.keyType != "" && !SupportedKeyType(cert.keyType) {
      return Some(BadKeyType(cert.name));
    }
    if cert.credential != "" && cert.credential !in c.credentials {
      return Some(UnknownCredential(cert.name));
    }
    var i := 0;
    while i < |cert.domains|
      invariant 0 <= i <= |cert.domains|
      invariant forall k :: 0 <= k < i && cert.credential == "" ==>
        NearestCredential(TrimPrefix(cert.domains[k], WILDCARD), zones) != ""
    {
      var credential := FindZone(TrimPrefix(cert.domains[i], WILDCARD), zones);
      if credential == "" && cert.credential == "" {
        assert cert.domains[i] in cert.domains;
        return Some(Uncovered(cert.domains[i]));
      }
      i := i + 1;
    }
    error := None;
  }

  method ValidateCertificates(c: Config, zones: Zones) returns (error: Option<ConfigError>, names: set<string>)
    requires zones == ZoneMap(c.zones)
    ensures error.None? <==>
      NamesValid(c.certificates) && forall i :: 0 <= i < |c.certificates| ==> CertificateValid(c, c.certificates[i])
    ensures error.None? ==> names == set i | 0 <= i < |c.certificates| :: c.certificates[i].name
  {
    names := {};
    var i := 0;
    while i < |c.certificates|
      invariant 0 <= i <= |c.certificates|
      invariant names == set k | 0 <= k < i :: c.certificates[k].name
      invariant NamesValid(c.certificates[..i])
      invariant forall k :: 0 <= k < i ==> CertificateValid(c, c.certificates[k])
    {
      var cert := c.certificates[i];
      if cert.name == "" || cert.name in names {
        return Some(BadName(cert.name)), names;
      }
      error := ValidateCertificate(c, cert, zones);
      if error.Some? {
        return;
      }
      names := names + {cert.name};
      i := i + 1;
    }
    assert c.certificates[..i] == c.certificates;
    error := None;
  }

  method ValidateHooks(c: Config, names: set<string>) returns (error: Option<ConfigError>)
    requires names == set i | 0 <= i < |c.certificates| :: c.certificates[i].name
    ensures error.None? <==> forall i :: 0 <= i < |c.hooks| ==> HookValid(c, c.hooks[i])
  {
    var i := 0;
    while i < |c.hooks|
      invariant 0 <= i <= |c.hooks|
      invariant forall k :: 0 <= k < i ==> HookValid(c, c.hooks[k])
    {
      var j := 0;
      while j < |c.hooks[i]|
        invariant 0 <= j <= |c.hooks[i]|
        invariant forall k :: 0 <= k < j ==> c.hooks[i][k] in names
      {
        if c.hooks[i][j] !in names {
          assert c.hooks[i][j] in c.hooks[i];
          return Some(BadHook);
        }
        j := j + 1;
      }
      i := i + 1;
    }
    error := None;
  }

  /** Validation accepts exactly the valid configurations. */
  method Validate(c: Config) returns (error: Option<ConfigError>)
    ensures error.None? <==> Valid(c)
  {
    error := ValidateCredentials(c);
    if error.Some? {
      return;
    }
    var zones: Zones;
    error, zones := ValidateZones(c);
    if error.Some? {
      return;
    }
    var names: set<string>;
    error, names := ValidateCertificates(c, zones);
    if error.Some? {
      return;
    }
    error := ValidateHooks(c, names);
  }

  /** The name of the credential that answers for a domain of a certificate. */
  function CredentialName(c: Config, cert: Certificate, domain: string): string {
    if cert.credential != "" then cert.credential
    else NearestCredential(TrimPrefix(ToLower(domain), WILDCARD), ZoneMap(c.zones))
  }

  method CollectZones(configured: seq<Zone>) returns (zones: Zones)
    ensures zones == ZoneMap(configured)
  {
    zones := map[];
    var i := 0;
    while i < |configured|
      invariant 0 <= i <= |configured| && zones == FirstZones(configured, i)
    {
      zones := zones[NormalZone(configured[i].name) := configured[i].credential];
      i := i + 1;
    }
  }

  method CredentialForDomain(c: Config, cert: Certificate, domain: string)
    returns (name: string, provider: Option<string>)
    ensures name == CredentialName(c, cert, domain)
    ensures provider == if name in c.credentials then Some(c.credentials[name]) else None
    ensures cert.credential != "" ==> name == cert.credential
    ensures cert.credential == "" ==>
      var looked := TrimPrefix(ToLower(domain), "*.");
      forall zone :: IsLongest(zone, looked, ZoneMap(c.zones)) ==> name == ZoneMap(c.zones)[zone]
  {
    forall zone | cert.credential == "" && IsLongest(zone, TrimPrefix(ToLower(domain), WILDCARD), ZoneMap(c.zones)) {
      LongestZoneServes(c, cert, domain, zone);
    }
    name := cert.credential;
    if name == "" {
      var zones := CollectZones(c.zones);
      name := FindZone(TrimPrefix(ToLower(domain), WILDCARD), zones);
    }
    provider := if name in c.credentials then Some(c.credentials[name]) else None;
  }

  // ---------------------------------------------------------------------
  // What validation guarantees
  // ---------------------------------------------------------------------

  predicate IsLower(s: string) {
    ToLower(s) == s
  }

  /** The configured zone behind an entry of the zone map. */
  function ZoneSource(zones: seq<Zone>, z: string): (r: nat)
    requires z in ZoneMap(zones)
    ensures r < |zones| && NormalZone(zones[r].name) == z && zones[r].credential == ZoneMap(zones)[z]
  {
    FirstSource(zones, |zones|, z)
  }

  function FirstSource(zones: seq<Zone>, n: nat, z: string): (r: nat)
    requires n <= |zones| && z in FirstZones(zones, n)
    ensures r < n && NormalZone(zones[r].name) == z && zones[r].credential == FirstZones(zones, n)[z]
  {
    if z == NormalZone(zones[n - 1].name) then n - 1 else FirstSource(zones, n - 1, z)
  }

  lemma ZoneMapIsLower(zones: seq<Zone>)
    ensures forall z :: z in ZoneMap(zones) ==> IsLower(z)
  {
    forall z | z in ZoneMap(zones) ensures IsLower(z) {
      NormalZoneIsLower(zones[ZoneSource(zones, z)].name);
    }
  }

  lemma NormalZoneIsLower(name: string)
    ensures IsLower(NormalZone(name))
  {
  }

  lemma LowerKeepsCover(zone: string, domain: string)
    requires IsLower(zone) && Covers(zone, domain)
    ensures Covers(zone, ToLower(domain))
  {
  }

  lemma LowerTrim(domain: string)
    ensures TrimPrefix(ToLower(domain), WILDCARD) == ToLower(TrimPrefix(domain, WILDCARD))
  {
  }

  /** A domain some zone covers gets a credential that is not empty, the credential of a zone. */
  lemma CoveredHasCredential(c: Config, zone: string, domain: string)
    requires Valid(c) && zone != "" && zone in ZoneMap(c.zones) && Covers(zone, domain)
    ensures NearestCredential(domain, ZoneMap(c.zones)) in c.credentials
  {
    NearestIsLongest(domain, ZoneMap(c.zones));
    var nearest := Nearest(domain, ZoneMap(c.zones)).value;
    assert ZoneValid(c, c.zones[ZoneSource(c.zones, nearest)]);
  }

  /** Main result: a configuration is valid if and only if credentials and
      their providers have names, zones have names and known credentials,
      certificates have distinct names, domains, a supported key type and
      either a known credential or none and a zone above every domain, and
      hooks name certificates. */
  lemma ValidIff(c: Config)
    ensures Valid(c) <==>
      && (forall name :: name in c.credentials ==> name != "" && c.credentials[name] != "")
      && (forall i :: 0 <= i < |c.zones| ==>
            NormalZone(c.zones[i].name) != "" && c.zones[i].credential in c.credentials)
      && (forall i :: 0 <= i < |c.certificates| ==> c.certificates[i].name != "")
      && (forall i, j :: 0 <= i < j < |c.certificates| ==> c.certificates[i].name != c.certificates[j].name)
      && (forall i :: 0 <= i < |c.certificates| ==>
            && |c.certificates[i].domains| > 0
            && c.certificates[i].keyType in {"", "ec256", "ec384", "rsa2048", "rsa3072", "rsa4096"}
            && if c.certificates[i].credential != "" then c.certificates[i].credential in c.credentials
               else forall d :: d in c.certificates[i].domains ==> ZoneAbove(c, TrimPrefix(d, "*.")))
      && (forall i, name :: 0 <= i < |c.hooks| && name in c.hooks[i] ==>
            exists k :: 0 <= k < |c.certificates| && c.certificates[k].name == name)
  {
    if CredentialsValid(c.credentials) && forall i :: 0 <= i < |c.zones| ==> ZoneValid(c, c.zones[i]) {
      forall i | 0 <= i < |c.certificates|
        ensures CertificateValid(c, c.certificates[i]) <==>
          && |c.certificates[i].domains| > 0
          && c.certificates[i].keyType in {"", "ec256", "ec384", "rsa2048", "rsa3072", "rsa4096"}
          && if c.certificates[i].credential != "" then c.certificates[i].credential in c.credentials
             else forall d :: d in c.certificates[i].domains ==> ZoneAbove(c, TrimPrefix(d, "*."))
      {
        forall d: string { CoveredIff(c, TrimPrefix(d, WILDCARD)); }
      }
    }
  }

  /** A configured zone is the domain or lies above it. */
  ghost predicate ZoneAbove(c: Config, domain: string) {
    exists j :: 0 <= j < |c.zones| && Covers(NormalZone(c.zones[j].name), domain)
  }

  lemma CoveredIff(c: Config, domain: string)
    requires CredentialsValid(c.credentials) && forall i :: 0 <= i < |c.zones| ==> ZoneValid(c, c.zones[i])
    ensures NearestCredential(domain, ZoneMap(c.zones)) != "" <==> ZoneAbove(c, domain)
  {
    var zones := ZoneMap(c.zones);
    NearestIsLongest(domain, zones);
    if Nearest(domain, zones).Some? {
      var j := ZoneSource(c.zones, Nearest(domain, zones).value);
      assert ZoneValid(c, c.zones[j]) && Covers(NormalZone(c.zones[j].name), domain);
    }
    if j :| 0 <= j < |c.zones| && Covers(NormalZone(c.zones[j].name), domain) {
      assert ZoneValid(c, c.zones[j]);
      ZoneIsMapped(c.zones, |c.zones|, j);
    }
  }

  lemma {:induction false} ZoneIsMapped(zones: seq<Zone>, n: nat, j: nat)
    requires j < n <= |zones|
    ensures NormalZone(zones[j].name) in FirstZones(zones, n)
    decreases n
  {
    if j < n - 1 {
      ZoneIsMapped(zones, n - 1, j);
    }
  }

  /** Main result: in a valid configuration every domain of every certificate
      has a credential, although validation looks domains up as they are
      written and issuance looks them up in lower case. */
  lemma ValidatedDomainsResolve(c: Config, i: nat, domain: string)
    requires Valid(c) && i < |c.certificates| && domain in c.certificates[i].domains
    ensures CredentialName(c, c.certificates[i], domain) in c.credentials
  {
    var cert, zones := c.certificates[i], ZoneMap(c.zones);
    assert CertificateValid(c, cert);
    if cert.credential == "" {
      var name := TrimPrefix(domain, WILDCARD);
      NearestIsLongest(name, zones);
      var zone := Nearest(name, zones).value;
      ZoneMapIsLower(c.zones);
      LowerKeepsCover(zone, name);
      LowerTrim(domain);
      CoveredHasCredential(c, zone, ToLower(name));
    }
  }

  /** A certificate's own credential serves all its domains, whatever zones cover them. */
  lemma OwnCredentialServes(c: Config, cert: Certificate, domain: string)
    requires cert.credential != ""
    ensures CredentialName(c, cert, domain) == cert.credential
  {
  }

  /** Without a credential of its own, a certificate is served by the longest zone that covers the domain. */
  lemma LongestZoneServes(c: Config, cert: Certificate, domain: string, zone: string)
    requires cert.credential == "" && IsLongest(zone, TrimPrefix(ToLower(domain), WILDCARD), ZoneMap(c.zones))
    ensures CredentialName(c, cert, domain) == ZoneMap(c.zones)[zone]
  {
    var name := TrimPrefix(ToLower(domain), WILDCARD);
    NearestIsLongest(name, ZoneMap(c.zones));
    SameLengthSameZone(zone, Nearest(name, ZoneMap(c.zones)).value, name);
  }

  // ---------------------------------------------------------------------
  // Setting up providers
  // ---------------------------------------------------------------------

  /** Setting up providers takes the wildcard off a domain before the lookup,
      and the lookup takes off a wildcard once more. */
  predicate ProviderFound(c: Config, cert: Certificate, domain: string) {
    CredentialName(c, cert, TrimPrefix(domain, WILDCARD)) in c.credentials
  }

  ghost predicate AllProvidersFound(c: Config) {
    forall i, d :: 0 <= i < |c.certificates| && d in c.certificates[i].domains ==>
      ProviderFound(c, c.certificates[i], d)
  }

  /** A zone that is itself a wildcard, with no zone for what it stands above. */
  ghost predicate LoneWildcard(zones: Zones, z: string) {
    z in zones && HasPrefix(z, WILDCARD) && forall other :: other in zones ==> !Covers(other, z[2..])
  }

  /** A zone that covers a name with a wildcard is that name or covers the rest of it. */
  lemma CoversRest(zone: string, name: string)
    requires HasPrefix(name, WILDCARD) && Covers(zone, name)
    ensures zone == name || Covers(zone, name[2..])
  {
    if zone != name {
      SuffixShape(zone, name);
      SuffixShape(zone, name[2..]);
      var k := |name| - |zone| - 1;
      assert name[0] == '*' && name[1] == '.';
      if k >= 2 {
        assert name[2..][k - 2] == '.' && name[2..][k - 1..] == zone;
      }
    }
  }

  lemma ZoneNamesAreValid(c: Config)
    requires Valid(c)
    ensures forall z :: z in ZoneMap(c.zones) ==> z != "" && ZoneMap(c.zones)[z] in c.credentials
  {
    forall z | z in ZoneMap(c.zones) ensures z != "" && ZoneMap(c.zones)[z] in c.credentials {
      assert ZoneValid(c, c.zones[ZoneSource(c.zones, z)]);
    }
  }

  /** In a valid configuration a credential is found exactly where a zone covers the name. */
  lemma FoundIffCovered(c: Config, name: string)
    requires Valid(c)
    ensures NearestCredential(name, ZoneMap(c.zones)) in c.credentials
       <==> exists z :: z in ZoneMap(c.zones) && Covers(z, name)
  {
    var zones := ZoneMap(c.zones);
    ZoneNamesAreValid(c);
    NearestIsLongest(name, zones);
    if Nearest(name, zones).Some? {
      assert Nearest(name, zones).value in zones && Covers(Nearest(name, zones).value, name);
    }
  }

  /** Main result: for a domain of a certificate in a valid configuration the
      provider is found if and only if the certificate names its own credential
      or what the wildcard is taken off is not itself a wildcard zone that stands alone. */
  lemma ProviderFoundIff(c: Config, i: nat, domain: string)
    requires Valid(c) && i < |c.certificates| && domain in c.certificates[i].domains
    ensures ProviderFound(c, c.certificates[i], domain) <==>
      c.certificates[i].credential != "" || !LoneWildcard(ZoneMap(c.zones), ToLower(TrimPrefix(domain, WILDCARD)))
  {
    var cert, zones := c.certificates[i], ZoneMap(c.zones);
    assert CertificateValid(c, cert);
    if cert.credential == "" {
      var written := TrimPrefix(domain, WILDCARD);
      var name := ToLower(written);
      FoundIffCovered(c, TrimPrefix(name, WILDCARD));
      NearestIsLongest(written, zones);
      var zone := Nearest(written, zones).value;
      ZoneMapIsLower(c.zones);
      LowerKeepsCover(zone, written);
      if HasPrefix(name, WILDCARD) {
        CoversRest(zone, name);
      }
    }
  }

  ghost predicate NoLoneWildcards(zones: Zones) {
    forall z :: z in zones ==> !LoneWildcard(zones, z)
  }

  /** Whatever certificates are configured, all their providers are found. */
  ghost predicate ServesAny(c: Config) {
    forall certificates: seq<Certificate> :: Valid(With(c, certificates)) ==> AllProvidersFound(With(c, certificates))
  }

  lemma FoundWithoutLoneWildcards(c: Config)
    requires Valid(c) && NoLoneWildcards(ZoneMap(c.zones))
    ensures AllProvidersFound(c)
  {
    forall i: nat, d | i < |c.certificates| && d in c.certificates[i].domains
      ensures ProviderFound(c, c.certificates[i], d)
    {
      ProviderFoundIff(c, i, d);
    }
  }

  /** Main result: with given credentials and zones, every valid set of
      certificates gets its providers if and only if no wildcard zone stands alone. */
  lemma ProvidersFoundIff(c: Config)
    requires Valid(c)
    ensures ServesAny(c) <==> NoLoneWildcards(ZoneMap(c.zones))
  {
    if NoLoneWildcards(ZoneMap(c.zones)) {
      forall certificates: seq<Certificate> | Valid(With(c, certificates))
        ensures AllProvidersFound(With(c, certificates))
      {
        FoundWithoutLoneWildcards(With(c, certificates));
      }
    } else {
      var z :| z in ZoneMap(c.zones) && LoneWildcard(ZoneMap(c.zones), z);
      LoneWildcardServesNotAll(c, z);
    }
  }

  lemma LoneWildcardServesNotAll(c: Config, z: string)
    requires Valid(c) && LoneWildcard(ZoneMap(c.zones), z)
    ensures !ServesAny(c)
  {
    LoneWildcardTrips(c, z);
    var home := [Certificate("home", [WILDCARD + z], "", "")];
    var d := With(c, home);
    assert d.certificates[0].domains[0] in d.certificates[0].domains;
    assert !AllProvidersFound(d);
  }

  /** The same credentials and zones with other certificates. */
  function With(c: Config, certificates: seq<Certificate>): Config {
    c.(certificates := certificates, hooks := [])
  }

  /** A certificate for anything below a lone wildcard zone is accepted, and its provider is not found. */
  lemma LoneWildcardTrips(c: Config, z: string)
    requires Valid(c) && LoneWildcard(ZoneMap(c.zones), z)
    ensures var d := With(c, [Certificate("home", [WILDCARD + z], "", "")]);
      Valid(d) && !ProviderFound(d, d.certificates[0], WILDCARD + z)
  {
    var zones, cert := ZoneMap(c.zones), Certificate("home", [WILDCARD + z], "", "");
    var d := With(c, [cert]);
    ZoneNamesAreValid(c);
    ZoneMapIsLower(c.zones);
    assert TrimPrefix(WILDCARD + z, WILDCARD) == z;
    NearestIsLongest(z, zones);
    assert Covers(z, z);
    assert NearestCredential(z, zones) in c.credentials && NearestCredential(z, zones) != "" by {
      FoundIffCovered(c, z);
      assert ZoneValid(c, c.zones[ZoneSource(c.zones, Nearest(z, zones).value)]);
    }
    assert CertificateValid(d, cert);
    forall i | 0 <= i < |d.zones| ensures ZoneValid(d, d.zones[i]) {
      assert ZoneValid(c, c.zones[i]);
    }
    ProviderFoundIff(d, 0, WILDCARD + z);
  }

  /** A valid configuration with a wildcard zone alone, and a certificate whose provider is not found. */
  lemma LoneWildcardZone()
    ensures var home := Certificate("home", ["*.*.com"], "", "");
      var c := Config(map["dns" := "cloudflare"], [Zone("*.com", "dns")], [home], []);
      Valid(c) && !ProviderFound(c, c.certificates[0], "*.*.com")
  {
    var none := Config(map["dns" := "cloudflare"], [Zone("*.com", "dns")], [], []);
    assert ToLower("*.com") == "*.com";
    assert NormalZone("*.com") == "*.com" by {
      assert "*.com"[4] == 'm';
      assert "*.com"[4..] == "m";
    }
    assert ZoneMap(none.zones) == map["*.com" := "dns"] by {
      assert FirstZones(none.zones, 0) == map[];
      assert FirstZones(none.zones, 1) == map["*.com" := "dns"];
    }
    assert "*.com"[2..] == "com" && !HasSuffix("com", "." + "*.com");
    assert LoneWildcard(ZoneMap(none.zones), "*.com");
    LoneWildcardTrips(none, "*.com");
    assert WILDCARD + "*.com" == "*.*.com";
  }
}
