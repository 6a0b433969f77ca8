/** Whether a certificate has to be issued again: the drift test and the renewal window. */
module ConfigurationDrift {
  import opened Prelude
  import opened Text
  import opened CertificateArtifacts
  import T = IssuanceTables

  datatype Decision = Issue | Leave | CannotTell(error: string)

  /** What the clock shows, and the key in the stored certificate, when a certificate is looked at. */
  datatype Look = Look(now: int, stored: Result<PublicKey, string>)

  function NameSet(domains: seq<string>): set<string> {
    set d | d in domains :: ToLower(d)
  }

  function IssuedKeyType(key: PublicKey): string {
    match key
    case Ecdsa(bits) => if bits == 256 then "ec256" else if bits == 384 then "ec384" else ""
    case Rsa(bits) => "rsa" + Decimal(bits)
    case OtherKey => ""
  }

  method Normalized(domains: seq<string>) returns (names: set<string>)
    ensures names == NameSet(domains)
  {
    names := {};
    for i := 0 to |domains|
      invariant names == NameSet(domains[..i])
    {
      assert domains[..i + 1] == domains[..i] + [domains[i]];
      names := names + {ToLower(domains[i])};
    }
    assert domains[..|domains|] == domains;
  }

  /** Equal sizes and one inclusion make the sets equal. */
  method SameDomains(a: seq<string>, b: seq<string>) returns (same: bool)
    ensures same <==> (set d | d in a :: ToLower(d)) == (set d | d in b :: ToLower(d))
  {
    var left := Normalized(a);
    var right := Normalized(b);
    if |left| != |right| {
      return false;
    }
    var rest := left;
    while rest != {}
      invariant rest <= left && left - rest <= right
      decreases rest
    {
      var domain :| domain in rest;
      if domain !in right {
        return false;
      }
      rest := rest - {domain};
    }
    assert left <= right;
    SubsetOfSameSize(left, right);
    same := true;
  }

  lemma SubsetOfSameSize<T>(a: set<T>, b: set<T>)
    requires a <= b && |a| == |b|
    ensures a == b
  {
    if b - a != {} {
      var x :| x in b - a;
      SubsetSize(a, b - {x});
    }
  }

  /** The key type of the current version: recorded, or read from the stored
      certificate for versions older than that column. */
  function KnownKeyType(v: T.Version, stored: Result<PublicKey, string>): Result<string, string> {
    var keyType :=
      if v.keyType != "" then Ok(v.keyType)
      else if stored.Err? then Err(stored.error)
      else Ok(IssuedKeyType(stored.value));
    if keyType.Ok? && keyType.value == "" then Err("unsupported issued public key") else keyType
  }

  /** The names differ, or the key type is known and differs. */
  predicate Drifted(c: T.Terms, v: T.Version, stored: Result<PublicKey, string>) {
    || NameSet(c.domains) != NameSet(v.domains)
    || (KnownKeyType(v, stored).Ok? && KnownKeyType(v, stored).value != c.keyType)
  }

  method Drift(c: T.Terms, v: Option<T.Version>, stored: Result<PublicKey, string>) returns (r: Result<bool, string>)
    ensures r == Ok(true) <==> v.Some? && Drifted(c, v.value, stored)
    ensures r.Err? <==> v.Some? && NameSet(c.domains) == NameSet(v.value.domains) && KnownKeyType(v.value, stored).Err?
  {
    if v.None? {
      return Ok(false);
    }
    var same := SameDomains(c.domains, v.value.domains);
    if !same {
      return Ok(true);
    }
    var keyType := v.value.keyType;
    if keyType == "" {
      if stored.Err? {
        return Err(stored.error);
      }
      keyType := IssuedKeyType(stored.value);
    }
    if keyType == "" {
      return Err("unsupported issued public key");
    }
    r := Ok(keyType != c.keyType);
  }

  /** The certificate is what was asked for. */
  predicate Matches(c: T.Terms, v: T.Version, stored: Result<PublicKey, string>) {
    NameSet(c.domains) == NameSet(v.domains) && KnownKeyType(v, stored) == Ok(c.keyType)
  }

  predicate InWindow(c: T.Terms, v: T.Version, now: int) {
    v.notAfter - now < c.renewBefore
  }

  /** There is no version, or it is inside its renewal window, or not what is asked for. */
  predicate IsDue(c: T.Terms, v: Option<T.Version>, look: Look) {
    v.None? || InWindow(c, v.value, look.now) || Drifted(c, v.value, look.stored)
  }

  /** The decision of one reconciliation. A certificate is issued exactly when
      it is due, and left alone exactly when it is outside its window and what is asked for. */
  method Decide(c: T.Terms, v: Option<T.Version>, look: Look) returns (d: Decision)
    ensures d == Issue <==> IsDue(c, v, look)
    ensures d == Issue <==>
      || v.None?
      || v.value.notAfter - look.now < c.renewBefore
      || NameSet(c.domains) != NameSet(v.value.domains)
      || (if v.value.keyType != "" then v.value.keyType != c.keyType
          else look.stored.Ok? && IssuedKeyType(look.stored.value) !in {"", c.keyType})
    ensures d == Leave <==> v.Some? && !InWindow(c, v.value, look.now) && Matches(c, v.value, look.stored)
  {
    var due := v.None? || v.value.notAfter - look.now < c.renewBefore;
    if !due {
      var drift := Drift(c, v, look.stored);
      if drift.Err? {
        return CannotTell(drift.error);
      }
      due := drift.value;
    }
    d := if due then Issue else Leave;
  }

  /** A key of the configured type. */
  predicate HasKeyType(key: PublicKey, keyType: string) {
    || (keyType == "ec256" && key == Ecdsa(256))
    || (keyType == "ec384" && key == Ecdsa(384))
    || (keyType == "rsa2048" && key == Rsa(2048))
    || (keyType == "rsa3072" && key == Rsa(3072))
    || (keyType == "rsa4096" && key == Rsa(4096))
  }

  /** An issued key is given the configured name of a type exactly if it is of
      that type, for each of the supported types; elliptic curves of other
      sizes and other kinds of keys are given no name. */
  lemma KeyTypeIsRecognized(key: PublicKey, keyType: string)
    ensures HasKeyType(key, keyType) ==> IssuedKeyType(key) == keyType && keyType != ""
    ensures keyType in {"ec256", "ec384", "rsa2048", "rsa3072", "rsa4096"} && IssuedKeyType(key) == keyType ==>
      HasKeyType(key, keyType)
    ensures key.OtherKey? || (key.Ecdsa? && key.bits !in {256, 384}) ==> IssuedKeyType(key) == ""
  {
    if key.Rsa? {
      forall bits: nat | IssuedKeyType(key) == "rsa" + Decimal(bits) ensures key.bits == bits {
        assert Decimal(key.bits) == IssuedKeyType(key)[3..] == Decimal(bits);
        DecimalIsInjective(key.bits, bits);
      }
      RsaNames();
      assert IssuedKeyType(key)[0] == 'r';
    }
  }

  lemma RsaNames()
    ensures "rsa2048" == "rsa" + Decimal(2048)
    ensures "rsa3072" == "rsa" + Decimal(3072)
    ensures "rsa4096" == "rsa" + Decimal(4096)
  {
  }

  /** The version that saving an issued certificate records. */
  function VersionOf(name: string, cert: Cert, createdAt: int): T.Version {
    T.Version(name, createdAt, cert.notAfter, cert.domains, IssuedKeyType(cert.key))
  }
}
