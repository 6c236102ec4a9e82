/** Building and verifying did:plc operations (`plc.rs`). Hashing, ECDSA and multibase are parameters. */
module Plc {
  import opened Octets
  import opened Wrappers
  import opened Cbor
  import opened PlcOps
  import TextCoding
  import opened Shamir

  /** A raw signature, key or digest. */
  type Raw = seq<Octet>

  /**
   * The library calls: SHA-256; decoding of a multibase text; and for each curve whether bytes parse as a signature,
   * whether it is low-S, and whether a SEC1 key parses and verifies it.
   */
  datatype Crypto = Crypto(
    sha: Bytes -> Block,
    multibase: string -> Option<Raw>,
    p256Parses: Raw -> bool, p256LowS: Raw -> bool, p256Verifies: (Raw, Bytes, Raw) -> bool,
    k256Parses: Raw -> bool, k256LowS: Raw -> bool, k256Verifies: (Raw, Bytes, Raw) -> bool)

  // ---- identifiers ----

  /** CIDv1, dag-cbor, sha-256, 32 bytes. */
  function CidPrefix(): (p: Raw)
    ensures |p| == 4
  {
    [OfValue(0x01), OfValue(0x71), OfValue(0x12), OfValue(0x20)]
  }

  function CidOf(hash: Block): string {
    "b" + TextCoding.Encode(TextCoding.Base32Lower, CidPrefix() + hash)
  }

  /** `compute_cid`. */
  function ComputeCid(c: Crypto, signed: Bytes): string {
    CidOf(c.sha(signed))
  }

  /** `is_valid_cidv1_dag_cbor_sha256`. */
  predicate IsValidCid(cid: string) {
    && cid != "" && cid[0] == 'b'
    && var raw := TextCoding.Decode(TextCoding.Base32Lower, cid[1..]);
       raw.Some? && |raw.value| == 36 && raw.value[..4] == CidPrefix()
  }

  /** The check passes exactly the CIDs of digests. */
  lemma ValidCidIff(cid: string)
    ensures IsValidCid(cid) <==> exists hash: Block :: cid == CidOf(hash)
  {
    hide TextCoding.Encode, TextCoding.Decode, CidPrefix;
    var a := TextCoding.Base32Lower;
    if IsValidCid(cid) {
      var raw := TextCoding.Decode(a, cid[1..]).value;
      var hash: Block := raw[4..];
      assert raw == CidPrefix() + hash;
      TextCoding.DecodedIsEncoded(a, cid[1..], raw);
      assert cid == CidOf(hash);
    }
    if hash: Block :| cid == CidOf(hash) {
      TextCoding.EncodedDecodes(a, CidPrefix() + hash);
      assert cid[1..] == TextCoding.Encode(a, CidPrefix() + hash);
      assert (CidPrefix() + hash)[..4] == CidPrefix();
    }
  }

  /** A CID is the letter b and the base32 of the octets 0x01, 0x71, 0x12 and 0x20 and the digest. */
  lemma CidReads(h: Block)
    ensures CidOf(h) != "" && CidOf(h)[0] == 'b'
    ensures var raw := TextCoding.Decode(TextCoding.Base32Lower, CidOf(h)[1..]);
            && raw.Some? && |raw.value| == 36 && raw.value[4..] == h
            && Value(raw.value[0]) == 0x01 && Value(raw.value[1]) == 0x71
            && Value(raw.value[2]) == 0x12 && Value(raw.value[3]) == 0x20
  {
    hide TextCoding.Encode, TextCoding.Decode, OfValue, Value;
    TextCoding.EncodedDecodes(TextCoding.Base32Lower, CidPrefix() + h);
    assert CidOf(h)[1..] == TextCoding.Encode(TextCoding.Base32Lower, CidPrefix() + h);
    ValueOfValue(0x01);
    ValueOfValue(0x71);
    ValueOfValue(0x12);
    ValueOfValue(0x20);
  }

  /** Equal CIDs mean equal digests. */
  lemma CidBindsHash(h: Block, k: Block)
    ensures CidOf(h) == CidOf(k) <==> h == k
  {
    hide TextCoding.Encode, CidPrefix;
    var a := TextCoding.Base32Lower;
    if CidOf(h) == CidOf(k) {
      TextCoding.EncodedDecodes(a, CidPrefix() + h);
      TextCoding.EncodedDecodes(a, CidPrefix() + k);
      assert CidOf(h)[1..] == TextCoding.Encode(a, CidPrefix() + h)
             && CidOf(k)[1..] == TextCoding.Encode(a, CidPrefix() + k);
      assert h == (CidPrefix() + h)[4..] == (CidPrefix() + k)[4..] == k;
    }
  }

  /** The DID of a genesis operation: 24 base32 characters of its hash. */
  function DidOf(hash: Block): string {
    TextCoding.EncodedLength(TextCoding.Base32Lower, hash);
    "did:plc:" + TextCoding.Encode(TextCoding.Base32Lower, hash)[..24]
  }

  /**
   * The DID is the base32 text of the first 120 bits of the hash, and tells two hashes apart exactly when those
   * differ.
   */
  lemma DidIsPrefix(h: Block, k: Block)
    ensures DidOf(h) == "did:plc:" + TextCoding.Encode(TextCoding.Base32Lower, h[..15]) && |DidOf(h)| == 32
    ensures DidOf(h) == DidOf(k) <==> h[..15] == k[..15]
  {
    hide TextCoding.Encode;
    var a := TextCoding.Base32Lower;
    DidText(h);
    DidText(k);
    TextCoding.EncodedDecodes(a, h[..15]);
    TextCoding.EncodedDecodes(a, k[..15]);
    assert DidOf(h)[8..] == TextCoding.Encode(a, h[..15]) && DidOf(k)[8..] == TextCoding.Encode(a, k[..15]);
  }

  lemma DidText(h: Block)
    ensures |TextCoding.Encode(TextCoding.Base32Lower, h[..15])| == 24
    ensures DidOf(h) == "did:plc:" + TextCoding.Encode(TextCoding.Base32Lower, h[..15])
  {
    hide TextCoding.Encode;
    var a := TextCoding.Base32Lower;
    TextCoding.EncodedLength(a, h[..15]);
    assert h == h[..15] + h[15..];
    TextCoding.EncodeSplits(a, h[..15], h[15..]);
  }

  // ---- signatures ----

  const KEY_PREFIX := "did:key:"

  /**
   * `verify_signature_with_key`: the key's multicodec prefix picks the curve; either wants a parsing low-S signature.
   */
  predicate VerifyWithKey(c: Crypto, key: string, message: Bytes, sig: Raw) {
    && KEY_PREFIX <= key
    && var multikey := c.multibase(key[|KEY_PREFIX|..]);
       && multikey.Some? && |multikey.value| >= 2
       && var (prefix, sec1) := (multikey.value[..2], multikey.value[2..]);
          if prefix == [OfValue(0x80), OfValue(0x24)] then
            c.p256Parses(sig) && c.p256LowS(sig) && c.p256Verifies(sec1, message, sig)
          else
            prefix == [OfValue(0xe7), OfValue(0x01)] && c.k256Parses(sig) && c.k256LowS(sig)
              && c.k256Verifies(sec1, message, sig)
  }

  type Signer = Bytes -> Result<Raw, CryptoError>

  /** What a builder takes from a signing callback: 64 bytes that parse as a low-S P-256 signature. */
  predicate Usable(c: Crypto, sig: Result<Raw, CryptoError>) {
    sig.Ok? && |sig.value| == 64 && c.p256Parses(sig.value) && c.p256LowS(sig.value)
  }

  method ObtainSignature(c: Crypto, sign: Signer, message: Bytes) returns (r: Result<Raw, CryptoError>)
    ensures r == if sign(message).Err? || Usable(c, sign(message)) then sign(message) else Err(PlcOperation)
    ensures r.Ok? <==> sign(message).Ok? && |sign(message).value| == 64 && c.p256Parses(sign(message).value)
                       && c.p256LowS(sign(message).value)
    ensures r.Ok? ==> r == sign(message)
  {
    var sig := sign(message);
    if sig.Err? {
      return sig;
    }
    if |sig.value| != 64 {
      return Err(PlcOperation);
    }
    if !c.p256Parses(sig.value) {
      return Err(PlcOperation);
    }
    if !c.p256LowS(sig.value) {
      return Err(PlcOperation);
    }
    return sig;
  }

  function SigText(sig: Raw): string {
    TextCoding.Encode(TextCoding.Base64Url, sig)
  }

  function SigBytes(text: string): Option<Raw> {
    TextCoding.Decode(TextCoding.Base64Url, text)
  }

  // ---- JSON objects ----

  datatype Json = JNull | JText(text: string) | JArray(items: seq<Json>) | JObject(members: map<string, Json>)

  /** The member names an operation's object can have; any other is `Other`. */
  datatype Name =
    Sig | PrevName | Type | Services | AlsoKnownAs | RotationKeys | VerificationMethods | Other(name: string)

  type Submitted = map<Name, Json>

  function TextsJson(xs: seq<string>): Json {
    JArray(seq(|xs|, i requires 0 <= i < |xs| => JText(xs[i])))
  }

  predicate IsTexts(j: Json) {
    j.JArray? && forall i :: 0 <= i < |j.items| ==> j.items[i].JText?
  }

  function TextsOf(j: Json): seq<string>
    requires IsTexts(j)
  {
    seq(|j.items|, i requires 0 <= i < |j.items| => j.items[i].text)
  }

  function MethodsJson(m: map<string, string>): Json {
    JObject(map k | k in m :: JText(m[k]))
  }

  predicate IsMethods(j: Json) {
    j.JObject? && forall k :: k in j.members ==> j.members[k].JText?
  }

  function MethodsOf(j: Json): map<string, string>
    requires IsMethods(j)
  {
    map k | k in j.members :: j.members[k].text
  }

  function ServiceJson(s: Service): Json {
    JObject(map["type" := JText(s.kind), "endpoint" := JText(s.endpoint)])
  }

  /** A service may carry members beyond its two, which are dropped. */
  predicate IsService(j: Json) {
    j.JObject? && "type" in j.members && j.members["type"].JText? && "endpoint" in j.members
      && j.members["endpoint"].JText?
  }

  function ServiceOf(j: Json): Service
    requires IsService(j)
  {
    Service(j.members["type"].text, j.members["endpoint"].text)
  }

  function ServicesJson(m: map<string, Service>): Json {
    JObject(map k | k in m :: ServiceJson(m[k]))
  }

  predicate IsServices(j: Json) {
    j.JObject? && forall k :: k in j.members ==> IsService(j.members[k])
  }

  function ServicesOf(j: Json): map<string, Service>
    requires IsServices(j)
  {
    map k | k in j.members :: ServiceOf(j.members[k])
  }

  /** `serde_json::to_string` of a signed operation. */
  function OpJson(s: SignedOp): Submitted {
    map[Sig := JText(s.sig), PrevName := if s.op.prev.None? then JNull else JText(s.op.prev.value),
        Type := JText(s.op.kind), Services := ServicesJson(s.op.services), AlsoKnownAs := TextsJson(s.op.alsoKnownAs),
        RotationKeys := TextsJson(s.op.rotationKeys), VerificationMethods := MethodsJson(s.op.verificationMethods)]
  }

  /** `serde_json::from_str`: every field but `prev` must be there, and nothing else may. */
  predicate IsOp(j: Submitted) {
    && (forall n :: n in j ==> !n.Other?)
    && Sig in j && j[Sig].JText? && Type in j && j[Type].JText?
    && (PrevName in j ==> j[PrevName].JNull? || j[PrevName].JText?)
    && Services in j && IsServices(j[Services]) && AlsoKnownAs in j && IsTexts(j[AlsoKnownAs])
    && RotationKeys in j && IsTexts(j[RotationKeys]) && VerificationMethods in j && IsMethods(j[VerificationMethods])
  }

  function OpOf(j: Submitted): SignedOp
    requires IsOp(j)
  {
    SignedOp(j[Sig].text,
             Op(if PrevName in j && j[PrevName].JText? then Some(j[PrevName].text) else None, j[Type].text,
                ServicesOf(j[Services]), TextsOf(j[AlsoKnownAs]), TextsOf(j[RotationKeys]),
                MethodsOf(j[VerificationMethods])))
  }

  lemma JsonRoundTrip(s: SignedOp)
    ensures IsOp(OpJson(s)) && OpOf(OpJson(s)) == s
  {
    hide ServicesJson, IsServices, ServicesOf, MethodsJson, IsMethods, MethodsOf, TextsJson, IsTexts, TextsOf;
    ServicesRoundTrip(s.op.services);
    MethodsRoundTrip(s.op.verificationMethods);
    TextsRoundTrip(s.op.alsoKnownAs);
    TextsRoundTrip(s.op.rotationKeys);
  }

  /** Each member of the object holds the field of its name. */
  lemma OpJsonNames(s: SignedOp)
    ensures var j := OpJson(s);
            && j.Keys == {Sig, PrevName, Type, Services, AlsoKnownAs, RotationKeys, VerificationMethods}
            && j[Sig] == JText(s.sig) && j[Type] == JText(s.op.kind)
            && j[PrevName] == (if s.op.prev.None? then JNull else JText(s.op.prev.value))
            && IsTexts(j[AlsoKnownAs]) && TextsOf(j[AlsoKnownAs]) == s.op.alsoKnownAs
            && IsTexts(j[RotationKeys]) && TextsOf(j[RotationKeys]) == s.op.rotationKeys
            && IsServices(j[Services]) && ServicesOf(j[Services]) == s.op.services
            && IsMethods(j[VerificationMethods]) && MethodsOf(j[VerificationMethods]) == s.op.verificationMethods
  {
    hide ServicesJson, IsServices, ServicesOf, MethodsJson, IsMethods, MethodsOf, TextsJson, IsTexts, TextsOf;
    ServicesRoundTrip(s.op.services);
    MethodsRoundTrip(s.op.verificationMethods);
    TextsRoundTrip(s.op.alsoKnownAs);
    TextsRoundTrip(s.op.rotationKeys);
  }

  lemma ServiceRoundTrip(s: Service)
    ensures IsService(ServiceJson(s)) && ServiceOf(ServiceJson(s)) == s
  {
    assert |"type"| != |"endpoint"|;
  }

  lemma ServicesRoundTrip(m: map<string, Service>)
    ensures IsServices(ServicesJson(m)) && ServicesOf(ServicesJson(m)) == m
  {
    hide ServiceJson, IsService, ServiceOf;
    forall k | k in m ensures IsService(ServiceJson(m[k])) && ServiceOf(ServiceJson(m[k])) == m[k] {
      ServiceRoundTrip(m[k]);
    }
  }

  lemma MethodsRoundTrip(m: map<string, string>)
    ensures IsMethods(MethodsJson(m)) && MethodsOf(MethodsJson(m)) == m
  {}

  lemma TextsRoundTrip(xs: seq<string>)
    ensures IsTexts(TextsJson(xs)) && TextsOf(TextsJson(xs)) == xs
  {}

  function TombstoneJson(s: SignedTombstone): Submitted {
    map[Sig := JText(s.sig), PrevName := JText(s.op.prev), Type := JText(s.op.kind)]
  }

  predicate IsTombstone(j: Submitted) {
    j.Keys == {Sig, PrevName, Type} && j[Sig].JText? && j[PrevName].JText? && j[Type].JText?
  }

  function TombstoneOf(j: Submitted): SignedTombstone
    requires IsTombstone(j)
  {
    SignedTombstone(j[Sig].text, Tombstone(j[PrevName].text, j[Type].text))
  }

  // ---- verifying operations ----

  ghost function OpMessage(op: Op): Bytes {
    BytesOf(OpTokens(op))
  }

  datatype Curve = P256 | Secp256k1

  /**
   * `key` is the did:key text of a public key of `curve`: its SEC1 bytes behind the multicodec prefix 0x1200 or 0xe7.
   */
  ghost predicate IsKeyText(c: Crypto, key: string, curve: Curve, sec1: Raw) {
    var prefix := match curve
                  case P256 => [OfValue(0x80), OfValue(0x24)]
                  case Secp256k1 => [OfValue(0xe7), OfValue(0x01)];
    exists text :: key == "did:key:" + text && c.multibase(text) == Some(prefix + sec1)
  }

  /** A parsing low-S signature that the public key verifies. */
  predicate CurveVerifies(c: Crypto, curve: Curve, sec1: Raw, message: Bytes, sig: Raw) {
    match curve
    case P256 => c.p256Parses(sig) && c.p256LowS(sig) && c.p256Verifies(sec1, message, sig)
    case Secp256k1 => c.k256Parses(sig) && c.k256LowS(sig) && c.k256Verifies(sec1, message, sig)
  }

  /** Some listed key, of either curve, verifies the signature. */
  ghost predicate SignedBySome(c: Crypto, keys: seq<string>, message: Bytes, sig: Raw) {
    exists i, curve, sec1 ::
      0 <= i < |keys| && IsKeyText(c, keys[i], curve, sec1) && CurveVerifies(c, curve, sec1, message, sig)
  }

  /** A P-256 key that verifies the signature is listed. */
  ghost predicate ListsSigner(c: Crypto, keys: seq<string>, message: Bytes, sig: Raw) {
    exists i, sec1 :: 0 <= i < |keys| && IsKeyText(c, keys[i], P256, sec1) && c.p256Verifies(sec1, message, sig)
  }

  /** The check of one key picks the curve the key's text is of. */
  lemma VerifiesIff(c: Crypto, key: string, message: Bytes, sig: Raw)
    ensures VerifyWithKey(c, key, message, sig) <==>
              exists curve, sec1 :: IsKeyText(c, key, curve, sec1) && CurveVerifies(c, curve, sec1, message, sig)
  {
    hide OfValue;
    PrefixesDiffer();
    if VerifyWithKey(c, key, message, sig) {
      var text := key[|KEY_PREFIX|..];
      var bytes := c.multibase(text).value;
      assert key == "did:key:" + text && bytes == bytes[..2] + bytes[2..];
      var curve := if bytes[..2] == [OfValue(0x80), OfValue(0x24)] then P256 else Secp256k1;
      assert IsKeyText(c, key, curve, bytes[2..]) && CurveVerifies(c, curve, bytes[2..], message, sig);
    }
    if curve, sec1 :| IsKeyText(c, key, curve, sec1) && CurveVerifies(c, curve, sec1, message, sig) {
      KeyTextVerifies(c, key, curve, sec1, message, sig);
    }
  }

  lemma PrefixesDiffer()
    ensures OfValue(0x80) != OfValue(0xe7)
  {}

  lemma KeyTextVerifies(c: Crypto, key: string, curve: Curve, sec1: Raw, message: Bytes, sig: Raw)
    requires IsKeyText(c, key, curve, sec1) && CurveVerifies(c, curve, sec1, message, sig)
    ensures VerifyWithKey(c, key, message, sig)
  {
    hide OfValue;
    PrefixesDiffer();
    var text :| key == "did:key:" + text && c.multibase(text).Some? && |c.multibase(text).value| >= 2
                && c.multibase(text).value[2..] == sec1;
    assert key[|KEY_PREFIX|..] == text;
  }

  lemma NoKeysSign(c: Crypto)
    ensures forall message, sig :: !SignedBySome(c, [], message, sig)
  {}

  lemma SignedIff(c: Crypto, keys: seq<string>, message: Bytes, sig: Raw)
    ensures SignedBySome(c, keys, message, sig)
            <==> exists i :: 0 <= i < |keys| && VerifyWithKey(c, keys[i], message, sig)
  {
    hide VerifyWithKey, IsKeyText, CurveVerifies;
    forall i | 0 <= i < |keys|
      ensures VerifyWithKey(c, keys[i], message, sig) <==>
                exists curve, sec1 :: IsKeyText(c, keys[i], curve, sec1) && CurveVerifies(c, curve, sec1, message, sig)
    {
      VerifiesIff(c, keys[i], message, sig);
    }
  }

  /** Keys of no other type count. */
  lemma OtherKeysVerifyNothing(c: Crypto, keys: seq<string>, message: Bytes, sig: Raw)
    requires forall i, curve, sec1 :: 0 <= i < |keys| ==> !IsKeyText(c, keys[i], curve, sec1)
    ensures !SignedBySome(c, keys, message, sig)
  {}

  lemma SignerVerifies(c: Crypto, keys: seq<string>, message: Bytes, sig: Raw)
    requires Usable(c, Ok(sig)) && ListsSigner(c, keys, message, sig)
    ensures SignedBySome(c, keys, message, sig)
  {
    hide IsKeyText;
    var i, sec1 :| 0 <= i < |keys| && IsKeyText(c, keys[i], P256, sec1) && c.p256Verifies(sec1, message, sig);
    assert CurveVerifies(c, P256, sec1, message, sig);
  }

  /** What `verify_plc_operation` accepts. */
  ghost predicate OpAccepted(c: Crypto, j: Submitted, keys: seq<string>) {
    && IsOp(j) && OpOf(j).op.kind == "plc_operation" && SigBytes(OpOf(j).sig).Some?
    && SignedBySome(c, keys, OpMessage(OpOf(j).op), SigBytes(OpOf(j).sig).value)
  }

  datatype VerifiedOp = VerifiedOp(did: Option<string>, cid: string, op: Op)

  /** The DID, for a genesis only, and the CID, both of the signed bytes; and the fields as signed. */
  ghost function Verified(c: Crypto, s: SignedOp): VerifiedOp {
    var hash := c.sha(BytesOf(SignedTokens(s)));
    VerifiedOp(if s.op.prev.None? then Some(DidOf(hash)) else None, CidOf(hash), s.op)
  }

  /** `verify_plc_operation`. */
  method VerifyPlcOperation(c: Crypto, j: Submitted, keys: seq<string>) returns (r: Result<VerifiedOp, CryptoError>)
    ensures r.Ok? <==> OpAccepted(c, j, keys)
    ensures r.Ok? ==> r.value == Verified(c, OpOf(j))
    ensures r.Err? ==> r.error == PlcOperation
  {
    hide VerifyWithKey, SignedBySome, IsOp, OpOf, OpTokens, SignedTokens, BytesOf, SigBytes, DidOf, CidOf;
    if keys == [] {
      NoKeysSign(c);
      return Err(PlcOperation);
    }
    if !IsOp(j) {
      return Err(PlcOperation);
    }
    var s := OpOf(j);
    if s.op.kind != "plc_operation" {
      return Err(PlcOperation);
    }
    var sig := SigBytes(s.sig);
    if sig.None? {
      return Err(PlcOperation);
    }
    var message := EncodeOp(s.op);
    var keyErrors: seq<nat> := [];
    SignedIff(c, keys, message, sig.value);
    for i := 0 to |keys|
      invariant forall k :: 0 <= k < i ==> !VerifyWithKey(c, keys[k], message, sig.value)
    {
      if VerifyWithKey(c, keys[i], message, sig.value) {
        var signed := EncodeSignedOp(s);
        var hash := c.sha(signed);
        var did := if s.op.prev.None? then Some(DidOf(hash)) else None;
        return Ok(VerifiedOp(did, ComputeCid(c, signed), s.op));
      }
      keyErrors := keyErrors + [i];
    }
    return Err(PlcOperation);
  }

  datatype VerifiedGenesis = VerifiedGenesis(did: string, pdsEndpoint: Option<string>, op: Op)

  /** `verify_genesis_op`: against the one key the caller chose. */
  method VerifyGenesisOp(c: Crypto, j: Submitted, key: string) returns (r: Result<VerifiedGenesis, CryptoError>)
    ensures r.Ok? <==> OpAccepted(c, j, [key]) && OpOf(j).op.prev.None?
    ensures r.Ok? ==>
              var op := OpOf(j).op;
              var pds := if "atproto_pds" in op.services then Some(op.services["atproto_pds"].endpoint) else None;
              r.value == VerifiedGenesis(Verified(c, OpOf(j)).did.value, pds, op)
    ensures r.Err? ==> r.error == PlcOperation
  {
    hide VerifyWithKey, SignedBySome, IsOp, OpOf, OpTokens, SignedTokens, BytesOf, SigBytes, DidOf, CidOf;
    if !IsOp(j) {
      return Err(PlcOperation);
    }
    var s := OpOf(j);
    if s.op.prev.Some? {
      return Err(PlcOperation);
    }
    if s.op.kind != "plc_operation" {
      return Err(PlcOperation);
    }
    var sig := SigBytes(s.sig);
    if sig.None? {
      return Err(PlcOperation);
    }
    var message := EncodeOp(s.op);
    SignedIff(c, [key], message, sig.value);
    assert [key][0] == key;
    if !VerifyWithKey(c, key, message, sig.value) {
      return Err(PlcOperation);
    }
    var signed := EncodeSignedOp(s);
    var endpoint := if "atproto_pds" in s.op.services then Some(s.op.services["atproto_pds"].endpoint) else None;
    return Ok(VerifiedGenesis(DidOf(c.sha(signed)), endpoint, s.op));
  }

  // ---- building operations ----

  /** An operation around a usable signature of its unsigned bytes, as the builders assemble it. */
  ghost function SignedWith(sign: Signer, op: Op): SignedOp
    requires sign(OpMessage(op)).Ok?
  {
    SignedOp(SigText(sign(OpMessage(op)).value), op)
  }

  method SignOp(c: Crypto, op: Op, sign: Signer) returns (r: Result<(Bytes, Submitted), CryptoError>)
    ensures r.Ok? <==> Usable(c, sign(OpMessage(op)))
    ensures r.Ok? ==> r.value == (BytesOf(SignedTokens(SignedWith(sign, op))), OpJson(SignedWith(sign, op)))
    ensures r.Err? && sign(OpMessage(op)).Ok? ==> r.error == PlcOperation
  {
    hide Usable, OpTokens, SignedTokens, BytesOf, OpJson, SigText;
    var message := EncodeOp(op);
    var sig := ObtainSignature(c, sign, message);
    assert sig.Ok? <==> Usable(c, sign(message)) by { UsableIsOk(c, sign(message)); }
    if sig.Err? {
      return Err(sig.error);
    }
    var signed := SignedOp(SigText(sig.value), op);
    var bytes := EncodeSignedOp(signed);
    return Ok((bytes, OpJson(signed)));
  }

  lemma UsableIsOk(c: Crypto, sig: Result<Raw, CryptoError>)
    ensures Usable(c, sig) ==> sig.Ok?
  {}

  /** What a builder returns: the DID of a genesis or the CID of any other operation, and its JSON. */
  datatype Outcome = Outcome(id: string, json: Submitted)

  /** `build_did_plc_rotation_op`. */
  method BuildRotationOp(c: Crypto, prev: string, rotationKeys: seq<string>, methods: map<string, string>,
                         alsoKnownAs: seq<string>, services: map<string, Service>, sign: Signer)
    returns (r: Result<Outcome, CryptoError>)
    ensures var op := Op(Some(prev), "plc_operation", services, alsoKnownAs, rotationKeys, methods);
            && (r.Ok? <==> Usable(c, sign(OpMessage(op))))
            && (r.Ok? ==> r.value == Outcome(Verified(c, SignedWith(sign, op)).cid, OpJson(SignedWith(sign, op))))
  {
    hide Usable, OpTokens, SignedTokens, BytesOf, OpJson, SigText, CidOf;
    var op := Op(Some(prev), "plc_operation", services, alsoKnownAs, rotationKeys, methods);
    var signed := SignOp(c, op, sign);
    if signed.Err? {
      return Err(signed.error);
    }
    return Ok(Outcome(ComputeCid(c, signed.value.0), signed.value.1));
  }

  function GenesisOp(rotationKeys: seq<string>, signingKey: string, handle: string, endpoint: string): Op {
    Op(None, "plc_operation", map["atproto_pds" := Service("AtprotoPersonalDataServer", endpoint)], ["at://" + handle],
       rotationKeys, map["atproto" := signingKey])
  }

  /** The genesis builders: one to five rotation keys in the caller's order. */
  method BuildGenesisOp(c: Crypto, rotationKeys: seq<string>, signingKey: string, handle: string, endpoint: string,
                        sign: Signer)
    returns (r: Result<Outcome, CryptoError>)
    ensures var op := Op(prev := None, kind := "plc_operation",
                         services := map["atproto_pds" :=
                           Service(kind := "AtprotoPersonalDataServer", endpoint := endpoint)],
                         alsoKnownAs := ["at://" + handle], rotationKeys := rotationKeys,
                         verificationMethods := map["atproto" := signingKey]);
            && (r.Ok? <==> 1 <= |rotationKeys| <= 5 && Usable(c, sign(OpMessage(op))))
            && (r.Ok? ==> r.value == Outcome(Verified(c, SignedWith(sign, op)).did.value, OpJson(SignedWith(sign, op))))
  {
    hide Usable, OpTokens, SignedTokens, BytesOf, OpJson, SigText, DidOf;
    if rotationKeys == [] || |rotationKeys| > 5 {
      return Err(PlcOperation);
    }
    var op := GenesisOp(rotationKeys, signingKey, handle, endpoint);
    var signed := SignOp(c, op, sign);
    if signed.Err? {
      return Err(signed.error);
    }
    return Ok(Outcome(DidOf(c.sha(signed.value.0)), signed.value.1));
  }

  // ---- tombstones ----

  function TombstoneMessage(t: Tombstone): Bytes {
    BytesOf(TombstoneTokens(t))
  }

  ghost predicate TombstoneAccepted(c: Crypto, j: Submitted, keys: seq<string>) {
    && IsTombstone(j) && TombstoneOf(j).op.kind == "plc_tombstone" && IsValidCid(TombstoneOf(j).op.prev)
    && SigBytes(TombstoneOf(j).sig).Some?
    && SignedBySome(c, keys, TombstoneMessage(TombstoneOf(j).op), SigBytes(TombstoneOf(j).sig).value)
  }

  datatype VerifiedTombstone = VerifiedTombstone(cid: string, prev: string)

  function TombstoneCid(c: Crypto, s: SignedTombstone): string {
    ComputeCid(c, BytesOf(SignedTombstoneTokens(s)))
  }

  /** `verify_plc_tombstone_op`. */
  method VerifyPlcTombstoneOp(c: Crypto, j: Submitted,
                              keys: seq<string>) returns (r: Result<VerifiedTombstone, CryptoError>)
    ensures r.Ok? <==> TombstoneAccepted(c, j, keys)
    ensures r.Ok? ==> r.value == VerifiedTombstone(TombstoneCid(c, TombstoneOf(j)), TombstoneOf(j).op.prev)
    ensures r.Err? ==> r.error == PlcOperation
  {
    hide VerifyWithKey, SignedBySome, BytesOf, SigBytes, CidOf, IsValidCid;
    if keys == [] {
      NoKeysSign(c);
      return Err(PlcOperation);
    }
    if !IsTombstone(j) {
      return Err(PlcOperation);
    }
    var s := TombstoneOf(j);
    if s.op.kind != "plc_tombstone" {
      return Err(PlcOperation);
    }
    if !IsValidCid(s.op.prev) {
      return Err(PlcOperation);
    }
    var sig := SigBytes(s.sig);
    if sig.None? {
      return Err(PlcOperation);
    }
    var message := BytesOf(TombstoneTokens(s.op));
    var keyErrors: seq<nat> := [];
    SignedIff(c, keys, message, sig.value);
    for i := 0 to |keys|
      invariant forall k :: 0 <= k < i ==> !VerifyWithKey(c, keys[k], message, sig.value)
    {
      if VerifyWithKey(c, keys[i], message, sig.value) {
        return Ok(VerifiedTombstone(ComputeCid(c, BytesOf(SignedTombstoneTokens(s))), s.op.prev));
      }
      keyErrors := keyErrors + [i];
    }
    return Err(PlcOperation);
  }

  /** `build_did_plc_tombstone_op`. */
  method BuildTombstoneOp(c: Crypto, prev: string, sign: Signer) returns (r: Result<Outcome, CryptoError>)
    ensures var t := Tombstone(prev, "plc_tombstone");
            && (r.Ok? <==> IsValidCid(prev) && Usable(c, sign(TombstoneMessage(t))))
            && (r.Ok? ==>
                  var s := SignedTombstone(SigText(sign(TombstoneMessage(t)).value), t);
                  r.value == Outcome(TombstoneCid(c, s), TombstoneJson(s)))
  {
    hide Usable, BytesOf, SigText, CidOf, IsValidCid, TombstoneJson;
    if !IsValidCid(prev) {
      return Err(PlcOperation);
    }
    var t := Tombstone(prev, "plc_tombstone");
    var message := BytesOf(TombstoneTokens(t));
    var sig := ObtainSignature(c, sign, message);
    UsableIsOk(c, sign(message));
    if sig.Err? {
      return Err(sig.error);
    }
    var s := SignedTombstone(SigText(sig.value), t);
    return Ok(Outcome(ComputeCid(c, BytesOf(SignedTombstoneTokens(s))), TombstoneJson(s)));
  }

  // ---- the pairs agree ----

  /** A built operation is accepted exactly when some listed key verifies the signature, wherever it stands. */
  lemma BuiltOpAcceptedIff(c: Crypto, sign: Signer, op: Op, keys: seq<string>)
    requires op.kind == "plc_operation" && sign(OpMessage(op)).Ok?
    ensures IsOp(OpJson(SignedWith(sign, op))) && OpOf(OpJson(SignedWith(sign, op))) == SignedWith(sign, op)
    ensures OpAccepted(c, OpJson(SignedWith(sign, op)), keys)
            <==> SignedBySome(c, keys, OpMessage(op), sign(OpMessage(op)).value)
  {
    hide IsOp, OpOf, OpJson, SignedBySome, OpMessage, TextCoding.Encode, TextCoding.Decode;
    JsonRoundTrip(SignedWith(sign, op));
    TextCoding.EncodedDecodes(TextCoding.Base64Url, sign(OpMessage(op)).value);
  }

  /** Rotation: what the builder returns, the verifier accepts with the same CID, `prev` and fields. */
  method RotateThenVerify(c: Crypto, prev: string, rotationKeys: seq<string>, methods: map<string, string>,
                          alsoKnownAs: seq<string>, services: map<string, Service>, sign: Signer, keys: seq<string>)
    returns (built: Result<Outcome, CryptoError>, verified: Result<VerifiedOp, CryptoError>)
    ensures var op := Op(Some(prev), "plc_operation", services, alsoKnownAs, rotationKeys, methods);
            built.Ok? ==>
              && sign(OpMessage(op)).Ok?
              && (verified.Ok? <==> SignedBySome(c, keys, OpMessage(op), sign(OpMessage(op)).value))
              && (ListsSigner(c, keys, OpMessage(op), sign(OpMessage(op)).value) ==> verified.Ok?)
              && (verified.Ok? ==> verified.value == VerifiedOp(None, built.value.id, op))
  {
    hide OpMessage, OpJson, OpOf, IsOp, OpAccepted, SignedBySome, ListsSigner;
    built := BuildRotationOp(c, prev, rotationKeys, methods, alsoKnownAs, services, sign);
    verified := Err(PlcOperation);
    ghost var op := Op(Some(prev), "plc_operation", services, alsoKnownAs, rotationKeys, methods);
    if built.Ok? {
      UsableIsOk(c, sign(OpMessage(op)));
      BuiltOpAcceptedIff(c, sign, op, keys);
      if ListsSigner(c, keys, OpMessage(op), sign(OpMessage(op)).value) {
        SignerVerifies(c, keys, OpMessage(op), sign(OpMessage(op)).value);
      }
      verified := VerifyPlcOperation(c, built.value.json, keys);
    }
  }

  /** Genesis: the same for the DID, against any one key. */
  method GenesisThenVerify(c: Crypto, rotationKeys: seq<string>, signingKey: string, handle: string, endpoint: string,
                           sign: Signer, key: string)
    returns (built: Result<Outcome, CryptoError>, verified: Result<VerifiedGenesis, CryptoError>)
    ensures var op := GenesisOp(rotationKeys, signingKey, handle, endpoint);
            built.Ok? ==>
              && sign(OpMessage(op)).Ok?
              && (verified.Ok? <==> SignedBySome(c, [key], OpMessage(op), sign(OpMessage(op)).value))
              && (ListsSigner(c, [key], OpMessage(op), sign(OpMessage(op)).value) ==> verified.Ok?)
              && (verified.Ok? ==> verified.value == VerifiedGenesis(built.value.id, Some(endpoint), op))
  {
    hide OpMessage, OpJson, OpOf, IsOp, OpAccepted, SignedBySome, ListsSigner;
    built := BuildGenesisOp(c, rotationKeys, signingKey, handle, endpoint, sign);
    verified := Err(PlcOperation);
    ghost var op := GenesisOp(rotationKeys, signingKey, handle, endpoint);
    if built.Ok? {
      UsableIsOk(c, sign(OpMessage(op)));
      BuiltOpAcceptedIff(c, sign, op, [key]);
      if ListsSigner(c, [key], OpMessage(op), sign(OpMessage(op)).value) {
        SignerVerifies(c, [key], OpMessage(op), sign(OpMessage(op)).value);
      }
      verified := VerifyGenesisOp(c, built.value.json, key);
    }
  }

  lemma BuiltTombstoneAcceptedIff(c: Crypto, t: Tombstone, sig: Raw, keys: seq<string>)
    requires t.kind == "plc_tombstone" && IsValidCid(t.prev)
    ensures var j := TombstoneJson(SignedTombstone(SigText(sig), t));
            && IsTombstone(j) && TombstoneOf(j) == SignedTombstone(SigText(sig), t)
            && (TombstoneAccepted(c, j, keys) <==> SignedBySome(c, keys, TombstoneMessage(t), sig))
  {
    hide IsValidCid, SignedBySome, TombstoneMessage, TextCoding.Encode, TextCoding.Decode;
    TextCoding.EncodedDecodes(TextCoding.Base64Url, sig);
  }

  /** Tombstone: the same for the CID and `prev`; the CID any operation gets will do for `prev`. */
  method TombstoneThenVerify(c: Crypto, prev: string, sign: Signer, keys: seq<string>)
    returns (built: Result<Outcome, CryptoError>, verified: Result<VerifiedTombstone, CryptoError>)
    ensures var message := TombstoneMessage(Tombstone(prev, "plc_tombstone"));
            built.Ok? ==>
              && sign(message).Ok?
              && (verified.Ok? <==> SignedBySome(c, keys, message, sign(message).value))
              && (ListsSigner(c, keys, message, sign(message).value) ==> verified.Ok?)
              && (verified.Ok? ==> verified.value == VerifiedTombstone(built.value.id, prev))
  {
    hide TombstoneMessage, TombstoneJson, TombstoneOf, IsTombstone, TombstoneAccepted, SignedBySome, ListsSigner,
      IsValidCid;
    built := BuildTombstoneOp(c, prev, sign);
    verified := Err(PlcOperation);
    ghost var t := Tombstone(prev, "plc_tombstone");
    if built.Ok? {
      UsableIsOk(c, sign(TombstoneMessage(t)));
      BuiltTombstoneAcceptedIff(c, t, sign(TombstoneMessage(t)).value, keys);
      if ListsSigner(c, keys, TombstoneMessage(t), sign(TombstoneMessage(t)).value) {
        SignerVerifies(c, keys, TombstoneMessage(t), sign(TombstoneMessage(t)).value);
      }
      verified := VerifyPlcTombstoneOp(c, built.value.json, keys);
    }
  }

  /** Every CID the verifiers and builders compute is one a tombstone may name. */
  lemma ComputedCidsAreValid(c: Crypto, s: SignedOp, t: SignedTombstone)
    ensures IsValidCid(Verified(c, s).cid) && IsValidCid(TombstoneCid(c, t))
  {
    hide IsValidCid, CidOf, DidOf;
    ValidCidIff(Verified(c, s).cid);
    ValidCidIff(TombstoneCid(c, t));
  }

  /** Nothing submitted passes both as an operation and as a tombstone, under any keys. */
  lemma NeverBoth(c: Crypto, j: Submitted, keys: seq<string>, keys': seq<string>)
    ensures !(OpAccepted(c, j, keys) && TombstoneAccepted(c, j, keys'))
  {
    if OpAccepted(c, j, keys) {
      assert Services in j.Keys;
    }
  }

  /** A verified CID pins the whole signed operation, up to its digest. */
  lemma CidPinsOp(c: Crypto, s: SignedOp, r: SignedOp)
    requires Sized(s) && Sized(r)
    requires c.sha(BytesOf(SignedTokens(s))) == c.sha(BytesOf(SignedTokens(r))) ==>
             BytesOf(SignedTokens(s)) == BytesOf(SignedTokens(r))
    ensures Verified(c, s).cid == Verified(c, r).cid <==> s == r
  {
    hide BytesOf, SignedTokens, Sized, CidOf, DidOf;
    CidBindsHash(c.sha(BytesOf(SignedTokens(s))), c.sha(BytesOf(SignedTokens(r))));
    BytesCoverFields(s, r);
  }
}
