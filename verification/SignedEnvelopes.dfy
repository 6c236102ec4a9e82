/**
 * The length-prefixed bytes that wallets sign: OAuth consent, account deletion and sovereign sessions
 * (`oauth_consent.rs`, `account_delete.rs`, `sovereign_session.rs`).
 */
module SignedEnvelopes {
  import opened Separators
  import opened Octets
  import opened Wrappers

  /** Text as its UTF-8 bytes, one character to a byte. */
  type Utf8 = string

  type Digest = s: seq<byte> | |s| == 32 witness seq(32, _ => 0)

  // ---- decimal and hexadecimal ----

  function DigitChar(d: nat): (c: char)
    requires d < 16
    ensures c == "0123456789abcdef"[d]
  {
    if d < 10 then '0' + d as char else 'a' + (d - 10) as char
  }

  lemma DigitCharInjective(d: nat, e: nat)
    requires d < 16 && e < 16
    ensures DigitChar(d) == DigitChar(e) <==> d == e
    ensures DigitChar(d) != ':' && DigitChar(d) != '-'
  {}

  /** `to_string` of an unsigned number. */
  function Decimal(n: nat): (s: string)
    ensures s != ""
    decreases n
  {
    (if n < 10 then "" else Decimal(n / 10)) + [DigitChar(n % 10)]
  }

  lemma {:induction false} DecimalInjective(m: nat, n: nat)
    requires Decimal(m) == Decimal(n)
    ensures m == n
    decreases m
  {
    hide DigitChar;
    var (s, t) := (Decimal(m), Decimal(n));
    assert s[|s| - 1] == DigitChar(m % 10) && t[|t| - 1] == DigitChar(n % 10);
    DigitCharInjective(m % 10, n % 10);
    assert s[..|s| - 1] == t[..|t| - 1];
    if m >= 10 && n >= 10 {
      assert s[..|s| - 1] == Decimal(m / 10) && t[..|t| - 1] == Decimal(n / 10);
      DecimalInjective(m / 10, n / 10);
    }
  }

  lemma {:induction false} DecimalPlain(n: nat)
    ensures ':' !in Decimal(n) && '-' !in Decimal(n)
    decreases n
  {
    hide DigitChar;
    DigitCharInjective(n % 10, 0);
    if n >= 10 {
      DecimalPlain(n / 10);
    }
  }

  /** `to_string` of an `i64`. */
  function IntText(i: int): string {
    if i < 0 then "-" + Decimal(-i) else Decimal(i)
  }

  lemma IntTextInjective(i: int, j: int)
    requires IntText(i) == IntText(j)
    ensures i == j
  {
    hide Decimal;
    var (m, n) := (if i < 0 then -i else i, if j < 0 then -j else j);
    DecimalPlain(m);
    DecimalPlain(n);
    assert i < 0 ==> '-' in IntText(i) && IntText(i)[1..] == Decimal(m);
    assert j < 0 ==> '-' in IntText(j) && IntText(j)[1..] == Decimal(n);
    DecimalInjectiveIf(m, n);
  }

  lemma DecimalInjectiveIf(m: nat, n: nat)
    ensures Decimal(m) == Decimal(n) ==> m == n
  {
    if Decimal(m) == Decimal(n) {
      DecimalInjective(m, n);
    }
  }

  /** `to_hex`. */
  function Hex(s: seq<byte>): (t: string)
    ensures |t| == 2 * |s|
    decreases |s|
  {
    if s == [] then "" else [DigitChar(s[0] / 16), DigitChar(s[0] % 16)] + Hex(s[1..])
  }

  lemma {:induction false} HexInjective(s: seq<byte>, t: seq<byte>)
    requires Hex(s) == Hex(t)
    ensures s == t
    decreases |s|
  {
    hide DigitChar;
    if s != [] {
      var (h, k) := (Hex(s), Hex(t));
      assert h[0] == DigitChar(s[0] / 16) && h[1] == DigitChar(s[0] % 16) && h[2..] == Hex(s[1..]);
      assert k[0] == DigitChar(t[0] / 16) && k[1] == DigitChar(t[0] % 16) && k[2..] == Hex(t[1..]);
      DigitCharInjective(s[0] / 16, t[0] / 16);
      DigitCharInjective(s[0] % 16, t[0] % 16);
      HexInjective(s[1..], t[1..]);
      assert s[0] == 16 * (s[0] / 16) + s[0] % 16;
    }
  }

  predicate IsDecimal(s: string) {
    forall i :: 0 <= i < |s| ==> '0' <= s[i] <= '9'
  }

  /** The number decimal digits stand for. */
  function OfDecimal(s: string): nat
    requires IsDecimal(s)
    decreases |s|
  {
    if s == "" then 0 else 10 * OfDecimal(s[..|s| - 1]) + (s[|s| - 1] - '0') as nat
  }

  /** Decimal digits stand for the number, with no leading zero. */
  lemma {:induction false} DecimalReads(n: nat)
    ensures IsDecimal(Decimal(n)) && OfDecimal(Decimal(n)) == n && (n > 0 ==> Decimal(n)[0] != '0')
    decreases n
  {
    hide OfDecimal, IsDecimal, DigitChar;
    NoDigits();
    if n >= 10 {
      DecimalReads(n / 10);
      DigitReads(Decimal(n / 10), n % 10);
      assert Decimal(n)[0] == Decimal(n / 10)[0];
    } else {
      DigitReads("", n);
    }
  }

  lemma NoDigits()
    ensures IsDecimal("") && OfDecimal("") == 0
  {}

  lemma DigitReads(s: string, d: nat)
    requires IsDecimal(s) && d < 10
    ensures IsDecimal(s + [DigitChar(d)]) && OfDecimal(s + [DigitChar(d)]) == 10 * OfDecimal(s) + d
    ensures d > 0 ==> DigitChar(d) != '0'
  {
    assert (s + [DigitChar(d)])[..|s|] == s;
  }

  /** A number's text is its decimal digits, behind a minus sign when it is negative. */
  lemma IntTextReads(i: int)
    ensures var t := IntText(i);
            if i < 0 then t[0] == '-' && IsDecimal(t[1..]) && OfDecimal(t[1..]) == -i
            else IsDecimal(t) && OfDecimal(t) == i
  {
    hide Decimal;
    DecimalReads(if i < 0 then -i else i);
    if i < 0 { assert IntText(i)[1..] == Decimal(-i); }
  }

  /** Two digits for every byte, the high half first. */
  lemma {:induction false} HexDigits(s: seq<byte>, i: nat)
    requires i < |s|
    ensures Hex(s)[2 * i] == "0123456789abcdef"[s[i] / 16] && Hex(s)[2 * i + 1] == "0123456789abcdef"[s[i] % 16]
    decreases i
  {
    if i > 0 {
      HexDigits(s[1..], i - 1);
    }
  }

  // ---- fields ----

  datatype Field = Field(name: Utf8, value: Utf8)

  /** `name:length:value` and a newline. */
  function FieldBytes(f: Field): Utf8 {
    f.name + ":" + Decimal(|f.value|) + ":" + f.value + "\n"
  }

  function Bytes(fields: seq<Field>): Utf8
    decreases |fields|
  {
    if fields == [] then "" else Bytes(fields[..|fields| - 1]) + FieldBytes(fields[|fields| - 1])
  }

  /** The loop of every encoder. */
  method EncodeFields(fields: seq<Field>) returns (encoded: Utf8)
    ensures encoded == Bytes(fields)
  {
    hide Decimal;
    encoded := "";
    for i := 0 to |fields|
      invariant encoded == Bytes(fields[..i])
    {
      ghost var before := encoded;
      var f := fields[i];
      encoded := encoded + f.name;
      encoded := encoded + ":";
      encoded := encoded + Decimal(|f.value|);
      encoded := encoded + ":";
      encoded := encoded + f.value;
      encoded := encoded + "\n";
      assert encoded == before + FieldBytes(f);
      assert fields[..i + 1][..i] == fields[..i];
    }
    assert fields[..|fields|] == fields;
  }

  /** Names hold no colon. */
  ghost predicate Named(fields: seq<Field>) {
    forall i :: 0 <= i < |fields| ==> ':' !in fields[i].name
  }

  lemma FirstField(f: Field, rest: Utf8, g: Field, rest': Utf8)
    requires ':' !in f.name && ':' !in g.name && FieldBytes(f) + rest == FieldBytes(g) + rest'
    ensures f == g && rest == rest'
  {
    hide Decimal;
    var (fv, gv) := (f.value + "\n" + rest, g.value + "\n" + rest');
    var (fl, gl) := (Decimal(|f.value|), Decimal(|g.value|));
    assert FieldBytes(f) + rest == f.name + ":" + (fl + ":" + fv);
    assert FieldBytes(g) + rest' == g.name + ":" + (gl + ":" + gv);
    SplitsOneWay(':', f.name, fl + ":" + fv, g.name, gl + ":" + gv);
    DecimalPlain(|f.value|);
    DecimalPlain(|g.value|);
    SplitsOneWay(':', fl, fv, gl, gv);
    DecimalInjective(|f.value|, |g.value|);
    assert f.value == fv[..|f.value|] == gv[..|g.value|] == g.value;
    assert rest == fv[|f.value| + 1..] == gv[|g.value| + 1..] == rest';
  }

  lemma {:induction false} BytesFront(fields: seq<Field>)
    requires fields != []
    ensures Bytes(fields) == FieldBytes(fields[0]) + Bytes(fields[1..])
    decreases |fields|
  {
    hide FieldBytes;
    var n := |fields| - 1;
    var (init, last) := (fields[..n], FieldBytes(fields[n]));
    assert Bytes(fields) == Bytes(init) + last;
    if n == 0 {
      assert fields[1..] == [];
    } else {
      var tail := fields[1..];
      assert init[1..] == tail[..n - 1] && tail[n - 1] == fields[n];
      assert Bytes(tail) == Bytes(tail[..n - 1]) + last;
      hide Bytes;
      BytesFront(init);
      assert FieldBytes(fields[0]) + Bytes(init[1..]) + last == FieldBytes(fields[0]) + (Bytes(init[1..]) + last);
    }
  }

  lemma FieldNotEmpty(f: Field)
    ensures FieldBytes(f) != ""
  {}

  /** Equal bytes, equal fields: no two field lists share an encoding, whatever their values hold. */
  lemma {:induction false} BytesInjective(fields: seq<Field>, others: seq<Field>)
    requires Named(fields) && Named(others) && Bytes(fields) == Bytes(others)
    ensures fields == others
    decreases |fields|
  {
    hide FieldBytes;
    if fields != [] { BytesFront(fields); FieldNotEmpty(fields[0]); }
    if others != [] { BytesFront(others); FieldNotEmpty(others[0]); }
    hide Bytes;
    assert Bytes([]) == "" by { EmptyBytes(); }
    if fields != [] && others != [] {
      FirstField(fields[0], Bytes(fields[1..]), others[0], Bytes(others[1..]));
      BytesInjective(fields[1..], others[1..]);
      assert fields == [fields[0]] + fields[1..] && others == [others[0]] + others[1..];
    }
  }

  lemma EmptyBytes()
    ensures Bytes([]) == ""
  {}

  // ---- reading the bytes back ----

  /** Where a character first stands. */
  function First(b: Utf8, c: char): Option<nat>
    decreases |b|
  {
    if b == "" then None
    else if b[0] == c then Some(0)
    else
      var later := First(b[1..], c);
      if later.None? then None else Some(later.value + 1)
  }

  lemma {:induction false} FirstIs(a: Utf8, c: char, r: Utf8)
    requires c !in a
    ensures First(a + [c] + r, c) == Some(|a|)
    decreases |a|
  {
    if a != "" {
      assert a[0] in a && (a + [c] + r)[1..] == a[1..] + [c] + r;
      FirstIs(a[1..], c, r);
    }
  }

  /** A name up to a colon, a decimal length up to a colon, that many bytes, a newline; and what follows. */
  function ReadField(b: Utf8): (r: Option<(Field, Utf8)>)
    ensures r.Some? ==> |r.value.1| < |b|
  {
    if First(b, ':').None? || First(b, ':').value >= |b| then None
    else
      var i := First(b, ':').value;
      var rest := b[i + 1..];
      if First(rest, ':').None? || First(rest, ':').value >= |rest|
         || !IsDecimal(rest[..First(rest, ':').value]) then None
      else
        var j := First(rest, ':').value;
        var (n, body) := (OfDecimal(rest[..j]), rest[j + 1..]);
        if |body| <= n || body[n] != '\n' then None
        else Some((Field(name := b[..i], value := body[..n]), body[n + 1..]))
  }

  function ReadFields(b: Utf8): Option<seq<Field>>
    decreases |b|
  {
    if b == "" then Some([])
    else
      var first := ReadField(b);
      if first.None? then None
      else
        var more := ReadFields(first.value.1);
        if more.None? then None else Some([first.value.0] + more.value)
  }

  lemma FieldReads(f: Field, rest: Utf8)
    requires ':' !in f.name
    ensures ReadField(FieldBytes(f) + rest) == Some((f, rest))
  {
    hide Decimal, First, OfDecimal, IsDecimal;
    var b := FieldBytes(f) + rest;
    var digits := Decimal(|f.value|);
    var after := f.value + "\n" + rest;
    DecimalReads(|f.value|);
    DecimalPlain(|f.value|);
    assert b == f.name + [':'] + (digits + [':'] + after);
    FirstIs(f.name, ':', digits + [':'] + after);
    FirstIs(digits, ':', after);
    var tail := b[|f.name| + 1..];
    assert b[..|f.name|] == f.name && tail == digits + [':'] + after;
    assert tail[..|digits|] == digits && tail[|digits| + 1..] == after;
    assert after[..|f.value|] == f.value && after[|f.value| + 1..] == rest;
  }

  /** Reading returns the fields that were written. */
  lemma {:induction false} FieldsRead(fields: seq<Field>)
    requires Named(fields)
    ensures ReadFields(Bytes(fields)) == Some(fields)
    decreases |fields|
  {
    hide FieldBytes, ReadField, Bytes;
    if fields == [] {
      EmptyBytes();
    } else {
      BytesFront(fields);
      FieldNotEmpty(fields[0]);
      FieldReads(fields[0], Bytes(fields[1..]));
      FieldsRead(fields[1..]);
      assert fields == [fields[0]] + fields[1..];
    }
  }

  /** Fields with these names have names that differ. */
  lemma NamesDiffer(fields: seq<Field>, names: seq<Utf8>)
    requires |fields| == |names| && forall i :: 0 <= i < |names| ==> fields[i].name == names[i]
    requires names in {CONSENT_NAMES, PROOF_NAMES}
    ensures forall i, j :: 0 <= i < j < |fields| ==> fields[i].name != fields[j].name
  {
    assert "did"[0] == 'd' && "key"[0] == 'k' && "aud"[0] == 'a';
    assert "domain"[0] == 'd' && "method"[0] == 'm' && "client"[0] == 'c';
  }

  /** The value of the first field of that name. */
  function Lookup(fields: seq<Field>, name: Utf8): Option<Utf8>
    decreases |fields|
  {
    if fields == [] then None else if fields[0].name == name then Some(fields[0].value) else Lookup(fields[1..], name)
  }

  /** The bytes read as fields of just these names, in this order. */
  predicate ReadsNamed(b: Utf8, names: seq<Utf8>) {
    && ReadFields(b).Some? && |ReadFields(b).value| == |names|
    && forall i :: 0 <= i < |names| ==> ReadFields(b).value[i].name == names[i]
  }

  function Says(b: Utf8, name: Utf8): Option<Utf8> {
    if ReadFields(b).None? then None else Lookup(ReadFields(b).value, name)
  }

  lemma {:induction false} LookupAt(fields: seq<Field>, i: nat)
    requires i < |fields| && forall k :: 0 <= k < i ==> fields[k].name != fields[i].name
    ensures Lookup(fields, fields[i].name) == Some(fields[i].value)
    decreases i
  {
    if i > 0 {
      LookupAt(fields[1..], i - 1);
    }
  }

  // ---- the three envelopes ----

  datatype Consent = Consent(server: Utf8, account: Utf8, key: Utf8, request: Utf8, client: Utf8, decision: Utf8,
                             scope: Utf8, timestamp: int, nonce: Utf8)

  /** Account deletion and sovereign sessions bind the same things. */
  datatype Proof = Proof(server: Utf8, account: Utf8, key: Utf8, timestamp: int, nonce: Utf8)

  const CONSENT_DOMAIN := "org.obsign.custos.oauth-consent.v1"
  const DELETE_DOMAIN := "org.obsign.custos.account-delete.v1"
  const SESSION_DOMAIN := "org.obsign.custos.sovereign-session.v1"

  function ConsentFields(sha: Utf8 -> Digest, c: Consent): seq<Field> {
    [Field("domain", CONSENT_DOMAIN), Field("aud", c.server), Field("method", "POST"),
     Field("path", "/oauth/authorize/approve"), Field("did", c.account), Field("key", c.key),
     Field("request", c.request), Field("client", c.client), Field("decision", c.decision),
     Field("scopeHash", Hex(sha(c.scope))), Field("timestamp", IntText(c.timestamp)), Field("nonce", c.nonce)]
  }

  function ProofFields(domain: Utf8, path: Utf8, p: Proof): seq<Field> {
    [Field("domain", domain), Field("aud", p.server), Field("method", "POST"), Field("path", path),
     Field("did", p.account), Field("key", p.key), Field("timestamp", IntText(p.timestamp)), Field("nonce", p.nonce)]
  }

  function DeleteFields(p: Proof): seq<Field> {
    ProofFields(DELETE_DOMAIN, "/xrpc/com.atproto.server.deleteAccount", p)
  }

  function SessionFields(p: Proof): seq<Field> {
    ProofFields(SESSION_DOMAIN, "/v1/sessions/sovereign", p)
  }

  const CONSENT_NAMES := ["domain", "aud", "method", "path", "did", "key", "request", "client", "decision",
                         "scopeHash", "timestamp", "nonce"]
  const PROOF_NAMES := ["domain", "aud", "method", "path", "did", "key", "timestamp", "nonce"]

  /** The bytes, read back, say what a consent binds under the names of its fields. */
  predicate SaysConsent(b: Utf8, sha: Utf8 -> Digest, c: Consent) {
    && ReadsNamed(b, CONSENT_NAMES)
    && Says(b, "domain") == Some("org.obsign.custos.oauth-consent.v1") && Says(b, "aud") == Some(c.server)
    && Says(b, "method") == Some("POST") && Says(b, "path") == Some("/oauth/authorize/approve")
    && Says(b, "did") == Some(c.account) && Says(b, "key") == Some(c.key) && Says(b, "request") == Some(c.request)
    && Says(b, "client") == Some(c.client) && Says(b, "decision") == Some(c.decision)
    && Says(b, "scopeHash") == Some(Hex(sha(c.scope))) && Says(b, "timestamp") == Some(IntText(c.timestamp))
    && Says(b, "nonce") == Some(c.nonce)
  }

  predicate SaysProof(b: Utf8, domain: Utf8, path: Utf8, p: Proof) {
    && ReadsNamed(b, PROOF_NAMES)
    && Says(b, "domain") == Some(domain) && Says(b, "aud") == Some(p.server)
    && Says(b, "method") == Some("POST") && Says(b, "path") == Some(path)
    && Says(b, "did") == Some(p.account) && Says(b, "key") == Some(p.key)
    && Says(b, "timestamp") == Some(IntText(p.timestamp)) && Says(b, "nonce") == Some(p.nonce)
  }

  lemma ConsentReads(sha: Utf8 -> Digest, c: Consent)
    ensures SaysConsent(Bytes(ConsentFields(sha, c)), sha, c)
  {
    hide Bytes, ReadFields, IntText, Hex, Lookup;
    ConsentNamed(sha, c);
    var f := ConsentFields(sha, c);
    FieldsRead(f);
    NamesDiffer(f, CONSENT_NAMES);
    forall i | 0 <= i < |f| ensures Lookup(f, f[i].name) == Some(f[i].value) { LookupAt(f, i); }
    assert f[1].name == "aud" && f[2].name == "method" && f[3].name == "path" && f[4].name == "did"
           && f[5].name == "key";
    assert f[6].name == "request" && f[7].name == "client" && f[8].name == "decision" && f[9].name == "scopeHash";
    assert f[10].name == "timestamp" && f[11].name == "nonce";
  }

  lemma ProofReads(domain: Utf8, path: Utf8, p: Proof)
    ensures SaysProof(Bytes(ProofFields(domain, path, p)), domain, path, p)
  {
    hide Bytes, ReadFields, IntText, Lookup;
    ProofNamed(domain, path, p);
    var f := ProofFields(domain, path, p);
    FieldsRead(f);
    NamesDiffer(f, PROOF_NAMES);
    forall i | 0 <= i < |f| ensures Lookup(f, f[i].name) == Some(f[i].value) { LookupAt(f, i); }
    assert f[1].name == "aud" && f[2].name == "method" && f[3].name == "path" && f[4].name == "did"
           && f[5].name == "key";
    assert f[6].name == "timestamp" && f[7].name == "nonce";
  }

  method EncodeOAuthConsentEnvelope(sha: Utf8 -> Digest, c: Consent) returns (encoded: Utf8)
    ensures encoded == Bytes(ConsentFields(sha, c))
    ensures SaysConsent(encoded, sha, c)
  {
    hide SaysConsent;
    ConsentReads(sha, c);
    encoded := EncodeFields(ConsentFields(sha, c));
  }

  method EncodeAccountDeleteEnvelope(p: Proof) returns (encoded: Utf8)
    ensures encoded == Bytes(DeleteFields(p))
    ensures SaysProof(encoded, "org.obsign.custos.account-delete.v1", "/xrpc/com.atproto.server.deleteAccount", p)
  {
    hide SaysProof;
    ProofReads(DELETE_DOMAIN, "/xrpc/com.atproto.server.deleteAccount", p);
    encoded := EncodeFields(DeleteFields(p));
  }

  method EncodeSovereignSessionEnvelope(p: Proof) returns (encoded: Utf8)
    ensures encoded == Bytes(SessionFields(p))
    ensures SaysProof(encoded, "org.obsign.custos.sovereign-session.v1", "/v1/sessions/sovereign", p)
  {
    hide SaysProof;
    ProofReads(SESSION_DOMAIN, "/v1/sessions/sovereign", p);
    encoded := EncodeFields(SessionFields(p));
  }

  lemma ConsentNamed(sha: Utf8 -> Digest, c: Consent)
    ensures Named(ConsentFields(sha, c)) && |ConsentFields(sha, c)| == 12
    ensures ConsentFields(sha, c)[0] == Field("domain", CONSENT_DOMAIN)
  {}

  lemma ProofNamed(domain: Utf8, path: Utf8, p: Proof)
    ensures Named(ProofFields(domain, path, p)) && |ProofFields(domain, path, p)| == 8
    ensures ProofFields(domain, path, p)[0] == Field("domain", domain)
  {}

  /** Consent bytes determine everything they bind; the scope through its hash. */
  lemma ConsentBinds(sha: Utf8 -> Digest, a: Consent, b: Consent)
    ensures Bytes(ConsentFields(sha, a)) == Bytes(ConsentFields(sha, b))
            <==> a.(scope := b.scope) == b && sha(a.scope) == sha(b.scope)
  {
    if Bytes(ConsentFields(sha, a)) == Bytes(ConsentFields(sha, b)) {
      ConsentNamed(sha, a);
      ConsentNamed(sha, b);
      BytesInjective(ConsentFields(sha, a), ConsentFields(sha, b));
      hide Bytes;
      ConsentFieldsBind(sha, a, b);
    }
  }

  lemma ConsentFieldsBind(sha: Utf8 -> Digest, a: Consent, b: Consent)
    requires ConsentFields(sha, a) == ConsentFields(sha, b)
    ensures a.(scope := b.scope) == b && sha(a.scope) == sha(b.scope)
  {
    hide Hex, IntText;
    var (f, g) := (ConsentFields(sha, a), ConsentFields(sha, b));
    assert f[1] == g[1] && f[4] == g[4] && f[5] == g[5] && f[6] == g[6] && f[7] == g[7] && f[8] == g[8]
           && f[11] == g[11];
    assert f[9] == g[9] && f[10] == g[10];
    HexInjective(sha(a.scope), sha(b.scope));
    IntTextInjective(a.timestamp, b.timestamp);
  }

  /** Deletion and session bytes determine everything they bind. */
  lemma ProofBinds(domain: Utf8, path: Utf8, a: Proof, b: Proof)
    ensures Bytes(ProofFields(domain, path, a)) == Bytes(ProofFields(domain, path, b)) <==> a == b
  {
    if Bytes(ProofFields(domain, path, a)) == Bytes(ProofFields(domain, path, b)) {
      ProofNamed(domain, path, a);
      ProofNamed(domain, path, b);
      var (f, g) := (ProofFields(domain, path, a), ProofFields(domain, path, b));
      BytesInjective(f, g);
      hide Bytes, IntText;
      assert f[1] == g[1] && f[4] == g[4] && f[5] == g[5] && f[6] == g[6] && f[7] == g[7];
      IntTextInjective(a.timestamp, b.timestamp);
    }
  }

  /** No bytes serve two surfaces. */
  lemma SurfacesAreDisjoint(sha: Utf8 -> Digest, c: Consent, d: Proof, s: Proof)
    ensures Bytes(ConsentFields(sha, c)) != Bytes(DeleteFields(d))
    ensures Bytes(ConsentFields(sha, c)) != Bytes(SessionFields(s))
    ensures Bytes(DeleteFields(d)) != Bytes(SessionFields(s))
  {
    hide ConsentFields, ProofFields, Bytes;
    ConsentNamed(sha, c);
    ProofNamed(DELETE_DOMAIN, "/xrpc/com.atproto.server.deleteAccount", d);
    ProofNamed(SESSION_DOMAIN, "/v1/sessions/sovereign", s);
    assert DELETE_DOMAIN[18] != SESSION_DOMAIN[18];
    if Bytes(ConsentFields(sha, c)) == Bytes(DeleteFields(d)) {
      BytesInjective(ConsentFields(sha, c), DeleteFields(d));
    }
    if Bytes(ConsentFields(sha, c)) == Bytes(SessionFields(s)) {
      BytesInjective(ConsentFields(sha, c), SessionFields(s));
    }
    if Bytes(DeleteFields(d)) == Bytes(SessionFields(s)) {
      BytesInjective(DeleteFields(d), SessionFields(s));
    }
  }
}
