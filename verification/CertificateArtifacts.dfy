/** Turning what the certificate authority returns into the stored artifacts:
    parsing PEM, removing duplicates from the chain and printing it again. */
module CertificateArtifacts {
  import opened Prelude
  import opened Text

  newtype Byte = n: int | 0 <= n < 256

  type Der = seq<Byte>

  datatype PublicKey = Ecdsa(bits: nat) | Rsa(bits: nat) | OtherKey

  datatype Cert = Cert(raw: Der, domains: seq<string>, notAfter: int, key: PublicKey)

  datatype Block = Block(kind: string, hasHeaders: bool, bytes: Der)

  datatype Resource = Resource(certificate: string, issuer: string)

  datatype Artifacts = Artifacts(certificate: Cert, leaf: string, chain: string, fullChain: string)

  const BEGIN := "-----BEGIN CERTIFICATE-----"
  const CERTIFICATE := "CERTIFICATE"

  /** The PEM and X.509 libraries. `body` is an encoded certificate without its final line break. */
  datatype Codec = Codec(body: Der -> string, decode: string -> Option<(Block, string)>, parse: Der -> Option<Cert>)

  /** What is assumed of them: a printed block starts with its marker and ends
      in something other than white space; decoding it, whatever follows on the
      next line, gives back the block and what follows; decoding consumes
      text; and a parsed certificate keeps its bytes. */
  ghost predicate Lawful(codec: Codec) {
    && (forall d {:trigger codec.body(d)} :: BEGIN <= codec.body(d) && !IsSpace(codec.body(d)[|codec.body(d)| - 1]))
    && (forall d :: codec.decode(codec.body(d)) == Some((Block(CERTIFICATE, false, d), "")))
    && (forall d, tail {:trigger codec.decode(codec.body(d) + ("\n" + tail))} ::
          codec.decode(codec.body(d) + ("\n" + tail)) == Some((Block(CERTIFICATE, false, d), tail)))
    && (forall t :: codec.decode(t).Some? ==> |codec.decode(t).value.1| < |t|)
    && (forall d :: codec.parse(d).Some? ==> codec.parse(d).value.raw == d)
  }

  function Encode(codec: Codec, d: Der): string {
    codec.body(d) + "\n"
  }

  function Print(codec: Codec, certs: seq<Cert>): string {
    if certs == [] then "" else Encode(codec, certs[0].raw) + Print(codec, certs[1..])
  }

  lemma {:induction false} TrimRightShortens(s: string)
    ensures TrimRight(s) <= s
  {
    if s != "" && IsSpace(s[|s| - 1]) {
      TrimRightShortens(s[..|s| - 1]);
    }
  }

  lemma {:induction false} TrimLeftShortens(s: string)
    ensures |TrimLeft(s)| <= |s|
  {
    if s != "" && IsSpace(s[0]) {
      TrimLeftShortens(s[1..]);
    }
  }

  lemma TrimShortens(s: string)
    ensures |TrimSpace(s)| <= |s|
  {
    TrimLeftShortens(s);
    TrimRightShortens(TrimLeft(s));
  }

  /** One block off the front of a text, or the reason why there is none. */
  datatype Front = Blank | Bad(reason: string) | One(cert: Cert, rest: string)

  function NextCertificate(codec: Codec, data: string): (r: Front)
    requires Lawful(codec)
    ensures r.One? ==> |r.rest| < |data| && codec.parse(r.cert.raw) == Some(r.cert)
  {
    var text := TrimSpace(data);
    TrimShortens(data);
    if text == "" then Blank
    else if !HasPrefix(text, BEGIN) then Bad("expected certificate PEM block")
    else
      var decoded := codec.decode(text);
      if decoded.None? || decoded.value.0.kind != CERTIFICATE || decoded.value.0.hasHeaders then
        Bad("invalid certificate PEM block")
      else
        var cert := codec.parse(decoded.value.0.bytes);
        if cert.None? then Bad("invalid certificate") else One(cert.value, decoded.value.1)
  }

  function Parse(codec: Codec, data: string): (r: Result<seq<Cert>, string>)
    requires Lawful(codec)
    ensures r.Ok? ==> forall c :: c in r.value ==> codec.parse(c.raw) == Some(c)
    decreases |data|
  {
    match NextCertificate(codec, data)
    case Blank => Ok([])
    case Bad(reason) => Err(reason)
    case One(cert, rest) =>
      var others := Parse(codec, rest);
      if others.Err? then others else Ok([cert] + others.value)
  }

  function Prepend(certs: seq<Cert>, r: Result<seq<Cert>, string>): Result<seq<Cert>, string> {
    if r.Err? then r else Ok(certs + r.value)
  }

  lemma PrependOneMore(codec: Codec, certs: seq<Cert>, c: Cert, rest: string)
    requires Lawful(codec)
    ensures Prepend(certs + [c], Parse(codec, rest)) == Prepend(certs, Prepend([c], Parse(codec, rest)))
  {
    var r := Parse(codec, rest);
    if r.Ok? {
      assert certs + [c] + r.value == certs + ([c] + r.value);
    }
  }

  method ParseCertificatePem(codec: Codec, text: string) returns (r: Result<seq<Cert>, string>)
    requires Lawful(codec)
    ensures r == Parse(codec, text)
  {
    var data, certificates: seq<Cert> := text, [];
    assert Parse(codec, text).Ok? ==> [] + Parse(codec, text).value == Parse(codec, text).value;
    while |TrimSpace(data)| > 0
      invariant Parse(codec, text) == Prepend(certificates, Parse(codec, data))
      decreases |data|
    {
      ghost var before := data;
      TrimShortens(data);
      data := TrimSpace(data);
      if !HasPrefix(data, BEGIN) {
        return Err("expected certificate PEM block");
      }
      var decoded := codec.decode(data);
      if decoded.None? || decoded.value.0.kind != CERTIFICATE || decoded.value.0.hasHeaders {
        return Err("invalid certificate PEM block");
      }
      var cert := codec.parse(decoded.value.0.bytes);
      if cert.None? {
        return Err("invalid certificate");
      }
      assert NextCertificate(codec, before) == One(cert.value, decoded.value.1);
      certificates := certificates + [cert.value];
      data := decoded.value.1;
      PrependOneMore(codec, certificates[..|certificates| - 1], cert.value, data);
      assert certificates == certificates[..|certificates| - 1] + [cert.value];
    }
    assert TrimSpace(data) == "";
    assert certificates + [] == certificates;
    r := Ok(certificates);
  }

  // ---------------------------------------------------------------------
  // Parsing undoes printing
  // ---------------------------------------------------------------------

  lemma {:induction false} TrimRightOfConcat(a: string, b: string)
    requires TrimRight(b) != ""
    ensures TrimRight(a + b) == a + TrimRight(b)
  {
    if IsSpace(b[|b| - 1]) {
      assert (a + b)[..|a + b| - 1] == a + b[..|b| - 1];
      TrimRightOfConcat(a, b[..|b| - 1]);
    }
  }

  lemma {:induction false} TrimRightTwice(s: string)
    ensures TrimRight(TrimRight(s)) == TrimRight(s)
  {
    if s != "" && IsSpace(s[|s| - 1]) {
      TrimRightTwice(s[..|s| - 1]);
    }
  }

  /** A text that starts with a block marker is only trimmed on the right. */
  lemma MarkedTrim(s: string)
    requires BEGIN <= s
    ensures TrimSpace(s) == TrimRight(s)
  {
  }

  lemma PrintIsMarked(codec: Codec, certs: seq<Cert>)
    requires Lawful(codec) && certs != []
    ensures BEGIN <= Print(codec, certs)
  {
  }

  /** Trimming one printed certificate takes off its line break. */
  lemma TrimOne(codec: Codec, d: Der)
    requires Lawful(codec)
    ensures TrimRight(Encode(codec, d)) == codec.body(d)
  {
  }

  lemma TrimMore(codec: Codec, d: Der, rest: string)
    requires TrimRight(rest) != ""
    ensures TrimRight(Encode(codec, d) + rest) == codec.body(d) + ("\n" + TrimRight(rest))
  {
    TrimRightOfConcat(Encode(codec, d), rest);
  }

  /** Trimming a printed list takes off its last line break. */
  lemma {:induction false} TrimPrint(codec: Codec, certs: seq<Cert>)
    requires Lawful(codec) && certs != []
    ensures var rest := TrimRight(Print(codec, certs[1..]));
      TrimRight(Print(codec, certs)) ==
        if certs[1..] == [] then codec.body(certs[0].raw) else codec.body(certs[0].raw) + ("\n" + rest)
    ensures BEGIN <= TrimRight(Print(codec, certs))
  {
    var body := codec.body(certs[0].raw);
    if certs[1..] == [] {
      assert Print(codec, certs) == Encode(codec, certs[0].raw) + "";
      TrimOne(codec, certs[0].raw);
    } else {
      TrimPrint(codec, certs[1..]);
      TrimMore(codec, certs[0].raw, Print(codec, certs[1..]));
      var trimmed := body + ("\n" + TrimRight(Print(codec, certs[1..])));
      assert trimmed[..|body|] == body;
    }
  }

  /** Parsing does not see trailing white space of a printed list. */
  lemma ParseTrimmed(codec: Codec, certs: seq<Cert>)
    requires Lawful(codec) && certs != []
    ensures Parse(codec, TrimRight(Print(codec, certs))) == Parse(codec, Print(codec, certs))
  {
    var s := Print(codec, certs);
    TrimPrint(codec, certs);
    PrintIsMarked(codec, certs);
    MarkedTrim(s);
    MarkedTrim(TrimRight(s));
    TrimRightTwice(s);
    ParseIgnoresSpace(codec, TrimRight(s), s);
  }

  /** Only the trimmed text counts. */
  lemma ParseIgnoresSpace(codec: Codec, a: string, b: string)
    requires Lawful(codec) && TrimSpace(a) == TrimSpace(b)
    ensures Parse(codec, a) == Parse(codec, b)
  {
    assert NextCertificate(codec, a) == NextCertificate(codec, b);
  }

  /** The first block of a printed list is its first certificate. */
  lemma FirstOfPrint(codec: Codec, certs: seq<Cert>)
    requires Lawful(codec) && certs != [] && codec.parse(certs[0].raw) == Some(certs[0])
    ensures NextCertificate(codec, Print(codec, certs)) == One(certs[0], TrimRight(Print(codec, certs[1..])))
  {
    var body := codec.body(certs[0].raw);
    PrintIsMarked(codec, certs);
    MarkedTrim(Print(codec, certs));
    TrimPrint(codec, certs);
    if certs[1..] == [] {
      assert Print(codec, certs[1..]) == "";
      assert codec.decode(body) == Some((Block(CERTIFICATE, false, certs[0].raw), ""));
    } else {
      var rest := TrimRight(Print(codec, certs[1..]));
      assert codec.decode(body + ("\n" + rest)) == Some((Block(CERTIFICATE, false, certs[0].raw), rest));
    }
  }

  lemma ParseNext(codec: Codec, data: string, c: Cert, rest: string)
    requires Lawful(codec) && NextCertificate(codec, data) == One(c, rest)
    ensures Parse(codec, data) == Prepend([c], Parse(codec, rest))
  {
  }

  /** Main result: parsing undoes printing. */
  lemma {:induction false} ParsePrint(codec: Codec, certs: seq<Cert>)
    requires Lawful(codec) && forall c :: c in certs ==> codec.parse(c.raw) == Some(c)
    ensures Parse(codec, Print(codec, certs)) == Ok(certs)
    decreases |certs|
  {
    if certs != [] {
      var first, rest := certs[0], certs[1..];
      assert certs == [first] + rest && first in certs && forall c :: c in rest ==> c in certs;
      ParsePrint(codec, rest);
      ParseRest(codec, rest);
      ParseFirst(codec, first, rest);
    }
  }

  lemma ParseFirst(codec: Codec, first: Cert, rest: seq<Cert>)
    requires Lawful(codec) && codec.parse(first.raw) == Some(first)
    ensures Parse(codec, Print(codec, [first] + rest)) == Prepend([first], Parse(codec, TrimRight(Print(codec, rest))))
  {
    assert ([first] + rest)[1..] == rest;
    FirstOfPrint(codec, [first] + rest);
    ParseNext(codec, Print(codec, [first] + rest), first, TrimRight(Print(codec, rest)));
  }

  lemma ParseRest(codec: Codec, rest: seq<Cert>)
    requires Lawful(codec) && forall c :: c in rest ==> codec.parse(c.raw) == Some(c)
    ensures Parse(codec, TrimRight(Print(codec, rest))) == Parse(codec, Print(codec, rest))
  {
    if rest == [] {
      assert TrimRight(Print(codec, rest)) == Print(codec, rest);
    } else {
      ParseTrimmed(codec, rest);
    }
  }

  /** `data` is, up to white space around each block, one certificate block
      without headers after the other, and these are their certificates. */
  ghost predicate Reads(codec: Codec, data: string, certs: seq<Cert>)
    decreases |certs|
  {
    var text := TrimSpace(data);
    if certs == [] then text == ""
    else
      && "-----BEGIN CERTIFICATE-----" <= text && codec.decode(text).Some?
      && codec.decode(text).value.0 == Block("CERTIFICATE", false, certs[0].raw)
      && codec.parse(certs[0].raw) == Some(certs[0])
      && Reads(codec, codec.decode(text).value.1, certs[1..])
  }

  /** Main result: parsing accepts exactly such texts, and gives their certificates. */
  lemma {:induction false} ParseIff(codec: Codec, data: string, certs: seq<Cert>)
    requires Lawful(codec)
    ensures Parse(codec, data) == Ok(certs) <==> Reads(codec, data, certs)
    decreases |data|
  {
    var front := NextCertificate(codec, data);
    if front.One? {
      ParseNext(codec, data, front.cert, front.rest);
      if certs != [] {
        ParseIff(codec, front.rest, certs[1..]);
        assert certs == [certs[0]] + certs[1..];
      }
      if Parse(codec, data) == Ok(certs) {
        assert certs[0] == front.cert && Parse(codec, front.rest) == Ok(certs[1..]);
      }
    }
  }

  // ---------------------------------------------------------------------
  // Normalization
  // ---------------------------------------------------------------------

  /** The certificates whose bytes were not seen, each at its first occurrence. */
  function Unseen(certs: seq<Cert>, seen: set<Der>): seq<Cert> {
    if certs == [] then []
    else if certs[0].raw in seen then Unseen(certs[1..], seen)
    else [certs[0]] + Unseen(certs[1..], seen + {certs[0].raw})
  }

  function Normalize(codec: Codec, resource: Option<Resource>): Result<Artifacts, string>
    requires Lawful(codec)
  {
    if resource.None? then Err("ACME response contained no certificate")
    else
      var certificates := Parse(codec, resource.value.certificate);
      if certificates.Err? then Err(certificates.error)
      else if certificates.value == [] then Err("ACME response contained no certificate")
      else
        var leaf := certificates.value[0];
        var issuers :=
          if |certificates.value| > 1 then Ok(certificates.value[1..]) else Parse(codec, resource.value.issuer);
        if issuers.Err? then Err(issuers.error)
        else
          var chain := Print(codec, Unseen(issuers.value, {leaf.raw}));
          Ok(Artifacts(leaf, Encode(codec, leaf.raw), chain, Encode(codec, leaf.raw) + chain))
  }

  method NormalizeCertificateArtifacts(codec: Codec, resource: Option<Resource>) returns (r: Result<Artifacts, string>)
    requires Lawful(codec)
    ensures r == Normalize(codec, resource)
  {
    if resource.None? {
      return Err("ACME response contained no certificate");
    }
    var certificates := ParseCertificatePem(codec, resource.value.certificate);
    if certificates.Err? {
      return Err(certificates.error);
    }
    if |certificates.value| == 0 {
      return Err("ACME response contained no certificate");
    }
    var leaf, issuers := certificates.value[0], certificates.value[1..];
    if |issuers| == 0 {
      var separate := ParseCertificatePem(codec, resource.value.issuer);
      if separate.Err? {
        return Err(separate.error);
      }
      issuers := separate.value;
    }
    var encoded := Encode(codec, leaf.raw);
    var chain := PrintUnseen(codec, issuers, {leaf.raw});
    r := Ok(Artifacts(leaf, encoded, chain, encoded + chain));
  }

  /** The loop over the issuers. */
  method PrintUnseen(codec: Codec, issuers: seq<Cert>, leaf: set<Der>) returns (chain: string)
    ensures chain == Print(codec, Unseen(issuers, leaf))
  {
    var seen := leaf;
    chain := "";
    var i := 0;
    while i < |issuers|
      invariant 0 <= i <= |issuers|
      invariant chain + Print(codec, Unseen(issuers[i..], seen)) == Print(codec, Unseen(issuers, leaf))
    {
      var issuer := issuers[i];
      assert issuers[i..][1..] == issuers[i + 1..];
      if issuer.raw !in seen {
        var rest := Unseen(issuers[i + 1..], seen + {issuer.raw});
        assert ([issuer] + rest)[1..] == rest;
        seen := seen + {issuer.raw};
        assert chain + (Encode(codec, issuer.raw) + Print(codec, rest))
            == (chain + Encode(codec, issuer.raw)) + Print(codec, rest);
        chain := chain + Encode(codec, issuer.raw);
      }
      i := i + 1;
    }
    assert issuers[i..] == [];
  }

  /** Where bytes first occur in a list. */
  function FirstIndex(certs: seq<Cert>, raw: Der): nat {
    if certs == [] || certs[0].raw == raw then 0 else 1 + FirstIndex(certs[1..], raw)
  }

  ghost predicate DistinctBytes(certs: seq<Cert>) {
    forall i, j :: 0 <= i < j < |certs| ==> certs[i].raw != certs[j].raw
  }

  predicate HasBytes(certs: seq<Cert>, raw: Der) {
    exists c :: c in certs && c.raw == raw
  }

  /** What is left has exactly the bytes not seen before. */
  lemma {:induction false} UnseenMembers(certs: seq<Cert>, seen: set<Der>)
    ensures forall c :: c in Unseen(certs, seen) ==> c in certs && c.raw !in seen
    ensures forall c :: c in certs && c.raw !in seen ==> HasBytes(Unseen(certs, seen), c.raw)
    decreases |certs|
  {
    if certs != [] {
      var head, tail := certs[0], certs[1..];
      var more := if head.raw in seen then seen else seen + {head.raw};
      UnseenMembers(tail, more);
      assert forall c :: c in certs <==> c == head || c in tail;
      forall c | c in certs && c.raw !in seen ensures HasBytes(Unseen(certs, seen), c.raw) {
        if c.raw == head.raw {
          assert head in Unseen(certs, seen);
        } else {
          var d :| d in Unseen(tail, more) && d.raw == c.raw;
          assert d in Unseen(certs, seen);
        }
      }
    }
  }

  /** `left` is in the order of first occurrence in `certs`. */
  ghost predicate InOrder(certs: seq<Cert>, left: seq<Cert>) {
    forall i, j :: 0 <= i < j < |left| ==> FirstIndex(certs, left[i].raw) < FirstIndex(certs, left[j].raw)
  }

  lemma OrderWithHead(certs: seq<Cert>, rest: seq<Cert>)
    requires certs != [] && InOrder(certs[1..], rest)
    requires forall k :: 0 <= k < |rest| ==> rest[k].raw != certs[0].raw
    ensures InOrder(certs, rest) && InOrder(certs, [certs[0]] + rest)
  {
  }

  /** What is left is in the order of first occurrence, so no bytes are left twice. */
  lemma {:induction false} UnseenInOrder(certs: seq<Cert>, seen: set<Der>)
    ensures InOrder(certs, Unseen(certs, seen))
    decreases |certs|
  {
    if certs != [] {
      var more := if certs[0].raw in seen then seen else seen + {certs[0].raw};
      var rest := Unseen(certs[1..], more);
      UnseenInOrder(certs[1..], more);
      UnseenMembers(certs[1..], more);
      assert forall k :: 0 <= k < |rest| ==> rest[k] in rest;
      OrderWithHead(certs, rest);
    }
  }

  lemma UnseenIsDistinct(certs: seq<Cert>, seen: set<Der>)
    ensures DistinctBytes(Unseen(certs, seen))
  {
    UnseenInOrder(certs, seen);
  }

  /** Nothing is left out of a list that has no repetitions and nothing seen. */
  lemma {:induction false} UnseenKeepsAll(certs: seq<Cert>, seen: set<Der>)
    requires forall i :: 0 <= i < |certs| ==> certs[i].raw !in seen
    requires DistinctBytes(certs)
    ensures Unseen(certs, seen) == certs
    decreases |certs|
  {
    if certs != [] {
      assert forall i :: 0 <= i < |certs[1..]| ==> certs[1..][i] == certs[i + 1];
      UnseenKeepsAll(certs[1..], seen + {certs[0].raw});
    }
  }

  /** Removing repetitions twice is removing them once. */
  lemma UnseenTwice(certs: seq<Cert>, seen: set<Der>)
    ensures Unseen(Unseen(certs, seen), seen) == Unseen(certs, seen)
  {
  }

  lemma PrintOne(codec: Codec, leaf: Cert)
    ensures Print(codec, [leaf]) == Encode(codec, leaf.raw)
  {
  }

  lemma PrintMore(codec: Codec, leaf: Cert, chain: seq<Cert>)
    ensures Print(codec, [leaf] + chain) == Encode(codec, leaf.raw) + Print(codec, chain)
  {
  }

  /** A leaf followed by its chain, printed and read back. */
  lemma ReadBack(codec: Codec, leaf: Cert, chain: seq<Cert>)
    requires Lawful(codec) && codec.parse(leaf.raw) == Some(leaf)
    requires forall c :: c in chain ==> codec.parse(c.raw) == Some(c)
    ensures Parse(codec, Encode(codec, leaf.raw)) == Ok([leaf])
    ensures Parse(codec, Encode(codec, leaf.raw) + Print(codec, chain)) == Ok([leaf] + chain)
    ensures Parse(codec, Print(codec, chain)) == Ok(chain)
  {
    PrintOne(codec, leaf);
    PrintMore(codec, leaf, chain);
    ParsePrint(codec, [leaf]);
    ParsePrint(codec, chain);
    ParsePrint(codec, [leaf] + chain);
  }

  /** The chain has the bytes of every issuer but the leaf's once, in order of first occurrence. */
  ghost predicate IsChain(leaf: Cert, issuers: seq<Cert>, chain: seq<Cert>) {
    && DistinctBytes([leaf] + chain)
    && (forall c :: c in chain ==> c in issuers)
    && (forall c :: c in issuers ==> HasBytes([leaf] + chain, c.raw))
    && InOrder(issuers, chain)
  }

  lemma LeafIsDistinct(leaf: Cert, chain: seq<Cert>)
    requires DistinctBytes(chain) && forall c :: c in chain ==> c.raw != leaf.raw
    ensures DistinctBytes([leaf] + chain)
  {
  }

  lemma UnseenIsChain(leaf: Cert, issuers: seq<Cert>)
    ensures IsChain(leaf, issuers, Unseen(issuers, {leaf.raw}))
  {
    var chain := Unseen(issuers, {leaf.raw});
    UnseenMembers(issuers, {leaf.raw});
    UnseenInOrder(issuers, {leaf.raw});
    UnseenIsDistinct(issuers, {leaf.raw});
    LeafIsDistinct(leaf, chain);
    assert leaf in [leaf] + chain && forall d :: d in chain ==> d in [leaf] + chain;
    forall c | c in issuers && c.raw != leaf.raw ensures HasBytes([leaf] + chain, c.raw) {
      var d :| d in chain && d.raw == c.raw;
    }
  }

  /** Main result: the full chain reads back as the leaf followed by the
      chain, and the chain is what it should be. */
  lemma ArtifactsReadBack(codec: Codec, certificates: seq<Cert>, issuers: seq<Cert>, r: Resource)
    requires Lawful(codec)
    requires Parse(codec, r.certificate) == Ok(certificates) && certificates != []
    requires if |certificates| > 1 then issuers == certificates[1..] else Parse(codec, r.issuer) == Ok(issuers)
    ensures Normalize(codec, Some(r)).Ok?
    ensures var a := Normalize(codec, Some(r)).value; var chain := Unseen(issuers, {certificates[0].raw});
      && a.certificate == certificates[0]
      && Parse(codec, a.leaf) == Ok([a.certificate])
      && Parse(codec, a.chain) == Ok(chain)
      && Parse(codec, a.fullChain) == Ok([a.certificate] + chain)
      && a.fullChain == a.leaf + a.chain
      && IsChain(a.certificate, issuers, chain)
  {
    var leaf := certificates[0];
    UnseenIsChain(leaf, issuers);
    ParsedIssuers(codec, certificates, issuers, r);
    ReadBack(codec, leaf, Unseen(issuers, {leaf.raw}));
  }

  lemma ParsedIssuers(codec: Codec, certificates: seq<Cert>, issuers: seq<Cert>, r: Resource)
    requires Lawful(codec) && Parse(codec, r.certificate) == Ok(certificates) && certificates != []
    requires if |certificates| > 1 then issuers == certificates[1..] else Parse(codec, r.issuer) == Ok(issuers)
    ensures codec.parse(certificates[0].raw) == Some(certificates[0])
    ensures forall c :: c in issuers ==> codec.parse(c.raw) == Some(c)
  {
  }

  lemma ReadableIff(codec: Codec, data: string)
    requires Lawful(codec)
    ensures Parse(codec, data).Ok? <==> exists certs :: Reads(codec, data, certs)
    ensures Parse(codec, data).Ok? ==> Reads(codec, data, Parse(codec, data).value)
  {
    if Parse(codec, data).Ok? {
      ParseIff(codec, data, Parse(codec, data).value);
    }
    if certs :| Reads(codec, data, certs) {
      ParseIff(codec, data, certs);
    }
  }

  /** Main result: normalization succeeds exactly if the response has a
      certificate, its certificates can be read, there is one, and, if it is
      alone, the separate issuers can be read. */
  lemma NormalizeIff(codec: Codec, resource: Option<Resource>)
    requires Lawful(codec)
    ensures Normalize(codec, resource).Ok? <==>
      && resource.Some?
      && exists certs :: certs != [] && Reads(codec, resource.value.certificate, certs)
           && (|certs| == 1 ==> exists issuers :: Reads(codec, resource.value.issuer, issuers))
  {
    if resource.Some? {
      ReadableIff(codec, resource.value.certificate);
      ReadableIff(codec, resource.value.issuer);
      var certificates := Parse(codec, resource.value.certificate);
      forall certs | Reads(codec, resource.value.certificate, certs) ensures certificates == Ok(certs) {
        ParseIff(codec, resource.value.certificate, certs);
      }
      if certificates.Ok? {
        assert Reads(codec, resource.value.certificate, certificates.value);
      }
    }
  }

  lemma NormalizedParts(codec: Codec, resource: Option<Resource>) returns (certificates: seq<Cert>, issuers: seq<Cert>)
    requires Lawful(codec) && Normalize(codec, resource).Ok?
    ensures resource.Some? && certificates != [] && Parse(codec, resource.value.certificate) == Ok(certificates)
    ensures if |certificates| > 1 then issuers == certificates[1..]
            else Parse(codec, resource.value.issuer) == Ok(issuers)
  {
    certificates := Parse(codec, resource.value.certificate).value;
    issuers := if |certificates| > 1 then certificates[1..] else Parse(codec, resource.value.issuer).value;
  }

  /** Main result: normalization is a fixed point. Normalizing a full chain
      again, with no separate issuers, gives the same artifacts. */
  lemma NormalizeTwice(codec: Codec, resource: Option<Resource>)
    requires Lawful(codec) && Normalize(codec, resource).Ok?
    ensures var a := Normalize(codec, resource).value;
      Normalize(codec, Some(Resource(a.fullChain, ""))) == Ok(a)
  {
    var certificates, issuers := NormalizedParts(codec, resource);
    ArtifactsReadBack(codec, certificates, issuers, resource.value);
    var a := Normalize(codec, resource).value;
    var chain := Unseen(issuers, {a.certificate.raw});
    UnseenTwice(issuers, {a.certificate.raw});
    assert ([a.certificate] + chain)[1..] == chain;
    assert Parse(codec, "") == Ok([]);
  }
}
