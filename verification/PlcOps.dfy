/** did:plc operations and their canonical DAG-CBOR (`plc.rs`, the serialization types). */
module PlcOps {
  import opened Wrappers
  import opened Cbor
  import opened CanonicalOrder

  datatype Service = Service(kind: string, endpoint: string)

  /** `UnsignedPlcOp`. */
  datatype Op = Op(prev: Option<string>, kind: string, services: map<string, Service>, alsoKnownAs: seq<string>,
                   rotationKeys: seq<string>, verificationMethods: map<string, string>)

  /** `SignedPlcOp`: the same fields and a signature. */
  datatype SignedOp = SignedOp(sig: string, op: Op)

  /** `UnsignedPlcTombstoneOp`. */
  datatype Tombstone = Tombstone(prev: string, kind: string)

  /** `SignedPlcTombstoneOp`. */
  datatype SignedTombstone = SignedTombstone(sig: string, op: Tombstone)

  // ---- tokens ----

  function Texts(xs: seq<string>): (ts: seq<Token>)
    ensures |ts| == |xs|
  {
    seq(|xs|, i requires 0 <= i < |xs| => Text(xs[i]))
  }

  function ListTokens(xs: seq<string>): seq<Token> {
    [ArrayHead(|xs|)] + Texts(xs)
  }

  function MethodEntries(keys: seq<string>, m: map<string, string>): seq<Token>
    requires forall k :: k in keys ==> k in m
    decreases |keys|
  {
    if keys == [] then [] else [Text(keys[0]), Text(m[keys[0]])] + MethodEntries(keys[1..], m)
  }

  ghost function MethodTokens(m: map<string, string>): seq<Token> {
    var keys := Canonical(m.Keys);
    [MapHead(|keys|)] + MethodEntries(keys, m)
  }

  function ServiceEntry(name: string, s: Service): seq<Token> {
    [Text(name), MapHead(2), Text("type"), Text(s.kind), Text("endpoint"), Text(s.endpoint)]
  }

  function ServiceEntries(keys: seq<string>, m: map<string, Service>): seq<Token>
    requires forall k :: k in keys ==> k in m
    decreases |keys|
  {
    if keys == [] then [] else ServiceEntry(keys[0], m[keys[0]]) + ServiceEntries(keys[1..], m)
  }

  ghost function ServiceTokens(m: map<string, Service>): seq<Token> {
    var keys := Canonical(m.Keys);
    [MapHead(|keys|)] + ServiceEntries(keys, m)
  }

  function Prev(prev: Option<string>): Token {
    if prev.None? then Null else Text(prev.value)
  }

  ghost function FieldTokens(op: Op): seq<Token> {
    [Text("prev"), Prev(op.prev), Text("type"), Text(op.kind), Text("services")] + (ServiceTokens(op.services)
    + ([Text("alsoKnownAs")] + (ListTokens(op.alsoKnownAs)
    + ([Text("rotationKeys")] + (ListTokens(op.rotationKeys)
    + ([Text("verificationMethods")] + MethodTokens(op.verificationMethods)))))))
  }

  ghost function OpTokens(op: Op): seq<Token> {
    [MapHead(6)] + FieldTokens(op)
  }

  ghost function SignedTokens(s: SignedOp): seq<Token> {
    [MapHead(7), Text("sig"), Text(s.sig)] + FieldTokens(s.op)
  }

  function TombstoneTokens(t: Tombstone): seq<Token> {
    [MapHead(2), Text("prev"), Text(t.prev), Text("type"), Text(t.kind)]
  }

  function SignedTombstoneTokens(s: SignedTombstone): seq<Token> {
    [MapHead(3), Text("sig"), Text(s.sig), Text("prev"), Text(s.op.prev), Text("type"), Text(s.op.kind)]
  }

  /** The fields a serializer writes, in order: names, and the tokens of their values. */
  type Fields = seq<(string, seq<Token>)>

  function Written(fields: Fields): seq<Token> {
    if fields == [] then [] else [Text(fields[0].0)] + (fields[0].1 + Written(fields[1..]))
  }

  function Names(fields: Fields): (names: seq<string>)
    ensures |names| == |fields|
  {
    seq(|fields|, i requires 0 <= i < |fields| => fields[i].0)
  }

  /** A struct of several fields is a map that writes them in the canonical order of its keys. */
  ghost predicate IsCanonicalStruct(ts: seq<Token>, fields: Fields) {
    && ts == [MapHead(|fields|)] + Written(fields)
    && Ascending(Names(fields))
  }

  ghost function OpFields(op: Op): Fields {
    [("prev", [Prev(op.prev)]), ("type", [Text(op.kind)]), ("services", ServiceTokens(op.services)),
     ("alsoKnownAs", ListTokens(op.alsoKnownAs)), ("rotationKeys", ListTokens(op.rotationKeys)),
     ("verificationMethods", MethodTokens(op.verificationMethods))]
  }

  function TombstoneFields(t: Tombstone): Fields {
    [("prev", [Text(t.prev)]), ("type", [Text(t.kind)])]
  }

  function SignedFields(sig: string, fields: Fields): Fields {
    [("sig", [Text(sig)])] + fields
  }

  function ServiceFields(s: Service): Fields {
    [("type", [Text(s.kind)]), ("endpoint", [Text(s.endpoint)])]
  }

  lemma WrittenFront(name: string, value: seq<Token>, rest: Fields)
    ensures Written([(name, value)] + rest) == [Text(name)] + (value + Written(rest))
  {
    assert ([(name, value)] + rest)[1..] == rest;
  }

  lemma OpWritten(op: Op)
    ensures Written(OpFields(op)) == FieldTokens(op)
  {
    hide ListTokens, MethodTokens, ServiceTokens;
    var f := OpFields(op);
    forall k | 0 <= k < 6 ensures Written(f[k..]) == [Text(f[k].0)] + (f[k].1 + Written(f[k + 1..])) {
      assert f[k..] == [f[k]] + f[k + 1..];
      WrittenFront(f[k].0, f[k].1, f[k + 1..]);
    }
    assert f[0..] == f && f[6..] == [];
    assert Written(f[5..]) == [Text("verificationMethods")] + MethodTokens(op.verificationMethods);
  }

  lemma ShortWritten(a: string, x: Token, b: string, y: Token)
    ensures Written([(a, [x]), (b, [y])]) == [Text(a), x, Text(b), y]
  {
    assert [(a, [x]), (b, [y])] == [(a, [x])] + [(b, [y])] && [(b, [y])] == [(b, [y])] + [];
    WrittenFront(a, [x], [(b, [y])]);
    WrittenFront(b, [y], []);
  }

  lemma PrevBeforeType()
    ensures Less("prev", "type")
  {
    assert ByteLess("prev", "type") by {
      assert "prev"[0] < "type"[0];
    }
  }

  lemma OpNamesAscend()
    ensures Ascending(["prev", "type", "services", "alsoKnownAs", "rotationKeys", "verificationMethods"])
  {
    hide ByteLess;
    PrevBeforeType();
  }

  lemma SignedNamesAscend()
    ensures Ascending(["sig", "prev", "type", "services", "alsoKnownAs", "rotationKeys", "verificationMethods"])
  {
    hide ByteLess;
    PrevBeforeType();
  }

  lemma ShortNamesAscend()
    ensures Ascending(["type", "endpoint"]) && Ascending(["prev", "type"]) && Ascending(["sig", "prev", "type"])
  {
    hide ByteLess;
    PrevBeforeType();
  }

  /** What the serializers write for operations, tombstones and services are structs in canonical order. */
  lemma FieldsAscend(s: SignedOp, t: SignedTombstone, name: string, service: Service)
    ensures IsCanonicalStruct(OpTokens(s.op), OpFields(s.op))
    ensures IsCanonicalStruct(SignedTokens(s), SignedFields(s.sig, OpFields(s.op)))
    ensures IsCanonicalStruct(TombstoneTokens(t.op), TombstoneFields(t.op))
    ensures IsCanonicalStruct(SignedTombstoneTokens(t), SignedFields(t.sig, TombstoneFields(t.op)))
    ensures IsCanonicalStruct(ServiceEntry(name, service)[1..], ServiceFields(service))
  {
    OpNamesAscend();
    SignedNamesAscend();
    ShortNamesAscend();
    hide Written, Ascending, FieldTokens, ServiceTokens, ListTokens, MethodTokens;
    OpWritten(s.op);
    WrittenFront("sig", [Text(s.sig)], OpFields(s.op));
    ShortWritten("prev", Text(t.op.prev), "type", Text(t.op.kind));
    WrittenFront("sig", [Text(t.sig)], TombstoneFields(t.op));
    ShortWritten("type", Text(service.kind), "endpoint", Text(service.endpoint));
    assert Names(OpFields(s.op)) == ["prev", "type", "services", "alsoKnownAs", "rotationKeys", "verificationMethods"];
    assert Names(SignedFields(s.sig, OpFields(s.op)))
           == ["sig", "prev", "type", "services", "alsoKnownAs", "rotationKeys", "verificationMethods"];
    assert Names(TombstoneFields(t.op)) == ["prev", "type"];
    assert Names(SignedFields(t.sig, TombstoneFields(t.op))) == ["sig", "prev", "type"];
    assert Names(ServiceFields(service)) == ["type", "endpoint"];
  }

  // ---- the order, seen from the bytes ----

  lemma {:induction false} PrefixOrder(p: Bytes, a: Bytes, b: Bytes)
    ensures ByteLess(p + a, p + b) <==> ByteLess(a, b)
    decreases |p|
  {
    if p == "" {
      assert p + a == a && p + b == b;
    } else {
      assert (p + a)[1..] == p[1..] + a && (p + b)[1..] == p[1..] + b;
      PrefixOrder(p[1..], a, b);
    }
  }

  lemma {:induction false} BeOrder(m: nat, n: nat, k: nat, a: Bytes, b: Bytes)
    requires m < n < Pow256(k)
    ensures ByteLess(Be(m, k) + a, Be(n, k) + b)
    decreases k
  {
    hide ByteLess;
    var (x, y) := ([(m % 256) as char] + a, [(n % 256) as char] + b);
    var (p, q) := (Be(m / 256, k - 1), Be(n / 256, k - 1));
    assert Be(m, k) + a == p + x && Be(n, k) + b == q + y;
    if m / 256 < n / 256 {
      BeOrder(m / 256, n / 256, k - 1, x, y);
    } else {
      FirstByteOrder(x, y);
      PrefixOrder(p, x, y);
    }
  }

  lemma FirstByteOrder(a: Bytes, b: Bytes)
    requires a != "" && b != "" && a[0] < b[0]
    ensures ByteLess(a, b)
  {}

  lemma ExtraMonotone(m: nat, n: nat)
    requires m < n
    ensures Extra(m) <= Extra(n)
    ensures Extra(m) < Extra(n) ==> (if Extra(m) == 0 then m else Info(Extra(m))) < Info(Extra(n))
  {}

  lemma HeadOrder(m: nat, n: nat, a: Bytes, b: Bytes)
    requires m < n < TWO64
    ensures ByteLess(Head(3, m) + a, Head(3, n) + b)
  {
    hide ByteLess, Be, Pow256;
    ExtraMonotone(m, n);
    var (x, y) := (Head(3, m) + a, Head(3, n) + b);
    if x[0] < y[0] {
      FirstByteOrder(x, y);
    } else {
      var k := Extra(n);
      ExtraHolds(n);
      assert Extra(m) == k && k > 0;
      BeOrder(m, n, k, a, b);
      assert x == [x[0]] + (Be(m, k) + a) && y == [x[0]] + (Be(n, k) + b);
      PrefixOrder([x[0]], Be(m, k) + a, Be(n, k) + b);
    }
  }

  /**
   * Shorter first, then bytewise (section 4.2.3 of RFC 8949) is the bytewise order of the encoded keys (section 4.2.1):
   * for text keys the two canonical orders agree.
   */
  lemma OrderIsEncodedOrder(a: string, b: string)
    requires |a| < TWO64 && |b| < TWO64
    ensures Less(a, b) <==> ByteLess(TokenBytes(Text(a)), TokenBytes(Text(b)))
  {
    hide ByteLess, Head;
    if |a| == |b| {
      PrefixOrder(Head(3, |a|), a, b);
    } else if |a| < |b| {
      HeadOrder(|a|, |b|, a, b);
    } else {
      HeadOrder(|b|, |a|, b, a);
      ByteLessTotal(TokenBytes(Text(a)), TokenBytes(Text(b)));
    }
  }

  // ---- decoding ----

  function TakeTexts(ts: seq<Token>, n: nat): Option<(seq<string>, seq<Token>)> {
    if |ts| < n || exists i :: 0 <= i < n && !ts[i].Text? then None
    else Some((seq(n, i requires 0 <= i < n => ts[i].text), ts[n..]))
  }

  function TakeList(ts: seq<Token>): Option<(seq<string>, seq<Token>)> {
    if ts == [] || !ts[0].ArrayHead? then None else TakeTexts(ts[1..], ts[0].count)
  }

  function TakeMethodEntries(ts: seq<Token>, n: nat): Option<(map<string, string>, seq<Token>)>
    decreases n
  {
    if n == 0 then Some((map[], ts))
    else if |ts| < 2 || !ts[0].Text? || !ts[1].Text? then None
    else
      var more := TakeMethodEntries(ts[2..], n - 1);
      if more.None? then None else Some((more.value.0[ts[0].text := ts[1].text], more.value.1))
  }

  function TakeMethods(ts: seq<Token>): Option<(map<string, string>, seq<Token>)> {
    if ts == [] || !ts[0].MapHead? then None else TakeMethodEntries(ts[1..], ts[0].count)
  }

  function TakeServiceEntries(ts: seq<Token>, n: nat): Option<(map<string, Service>, seq<Token>)>
    decreases n
  {
    if n == 0 then Some((map[], ts))
    else if |ts| < 6 || !ts[0].Text? || !ts[3].Text? || !ts[5].Text? then None
    else if ts[..6] != ServiceEntry(ts[0].text, Service(ts[3].text, ts[5].text)) then None
    else
      var more := TakeServiceEntries(ts[6..], n - 1);
      if more.None? then None else Some((more.value.0[ts[0].text := Service(ts[3].text, ts[5].text)], more.value.1))
  }

  function TakeServices(ts: seq<Token>): Option<(map<string, Service>, seq<Token>)> {
    if ts == [] || !ts[0].MapHead? then None else TakeServiceEntries(ts[1..], ts[0].count)
  }

  function DecodeFields(ts: seq<Token>): Option<Op> {
    if |ts| < 5 || ts[0] != Text("prev") || !(ts[1].Null? || ts[1].Text?) || ts[2] != Text("type") || !ts[3].Text?
       || ts[4] != Text("services") then None
    else
      var services := TakeServices(ts[5..]);
      if services.None? then None
      else
        DecodeAliases(Op(if ts[1].Null? then None else Some(ts[1].text), ts[3].text, services.value.0, [], [], map[]),
                      services.value.1)
  }

  function DecodeAliases(op: Op, ts: seq<Token>): Option<Op> {
    if ts == [] || ts[0] != Text("alsoKnownAs") then None
    else
      var list := TakeList(ts[1..]);
      if list.None? then None else DecodeKeys(op.(alsoKnownAs := list.value.0), list.value.1)
  }

  function DecodeKeys(op: Op, ts: seq<Token>): Option<Op> {
    if ts == [] || ts[0] != Text("rotationKeys") then None
    else
      var list := TakeList(ts[1..]);
      if list.None? then None else DecodeMethods(op.(rotationKeys := list.value.0), list.value.1)
  }

  function DecodeMethods(op: Op, ts: seq<Token>): Option<Op> {
    if ts == [] || ts[0] != Text("verificationMethods") then None
    else
      var methods := TakeMethods(ts[1..]);
      if methods.None? || methods.value.1 != [] then None else Some(op.(verificationMethods := methods.value.0))
  }

  /** Reads an unsigned operation back from its bytes. */
  function DecodeOp(b: Bytes): Option<Op> {
    var ts := Tokens(b);
    if ts.None? || ts.value == [] || ts.value[0] != MapHead(6) then None else DecodeFields(ts.value[1..])
  }

  /** Reads a signed operation back from its bytes. */
  function DecodeSignedOp(b: Bytes): Option<SignedOp> {
    var ts := Tokens(b);
    if ts.None? || |ts.value| < 3 || ts.value[0] != MapHead(7) || ts.value[1] != Text("sig")
      || !ts.value[2].Text? then None
    else
      var op := DecodeFields(ts.value[3..]);
      if op.None? then None else Some(SignedOp(ts.value[2].text, op.value))
  }

  // ---- the round trip ----

  lemma ListTaken(xs: seq<string>, rest: seq<Token>)
    ensures TakeList(ListTokens(xs) + rest) == Some((xs, rest))
  {
    var body := Texts(xs) + rest;
    assert (ListTokens(xs) + rest)[1..] == body;
    assert body[|xs|..] == rest;
    forall i | 0 <= i < |xs| ensures body[i] == Text(xs[i]) {
      assert body[i] == Texts(xs)[i];
    }
    assert TakeTexts(body, |xs|).value.0 == xs;
  }

  function Restrict<V>(keys: seq<string>, m: map<string, V>): map<string, V>
    requires forall k :: k in keys ==> k in m
  {
    map k | k in keys :: m[k]
  }

  lemma RestrictFront<V>(keys: seq<string>, m: map<string, V>)
    requires keys != [] && forall k :: k in keys ==> k in m
    ensures Restrict(keys, m) == Restrict(keys[1..], m)[keys[0] := m[keys[0]]]
  {
    assert forall k :: k in keys <==> k == keys[0] || k in keys[1..];
  }

  lemma {:induction false} MethodEntriesTaken(keys: seq<string>, m: map<string, string>, rest: seq<Token>)
    requires forall k :: k in keys ==> k in m
    ensures TakeMethodEntries(MethodEntries(keys, m) + rest, |keys|) == Some((Restrict(keys, m), rest))
    decreases |keys|
  {
    hide Restrict;
    var ts := MethodEntries(keys, m) + rest;
    if keys == [] {
      assert ts == rest;
      assert Restrict<string>([], m) == map[] by { NothingRestricted(m); }
    } else {
      MethodEntriesTaken(keys[1..], m, rest);
      assert ts[2..] == MethodEntries(keys[1..], m) + rest;
      RestrictFront(keys, m);
    }
  }

  lemma NothingRestricted<V>(m: map<string, V>)
    ensures Restrict([], m) == map[]
  {}

  lemma OneServiceTaken(name: string, s: Service, tail: seq<Token>, n: nat)
    requires TakeServiceEntries(tail, n).Some?
    ensures var more := TakeServiceEntries(tail, n).value;
            TakeServiceEntries(ServiceEntry(name, s) + tail, n + 1) == Some((more.0[name := s], more.1))
  {
    var (entry, ts) := (ServiceEntry(name, s), ServiceEntry(name, s) + tail);
    assert ts[..6] == entry && ts[6..] == tail;
    assert ts[0] == entry[0] && ts[3] == entry[3] && ts[5] == entry[5];
  }

  lemma {:induction false} ServiceEntriesTaken(keys: seq<string>, m: map<string, Service>, rest: seq<Token>)
    requires forall k :: k in keys ==> k in m
    ensures TakeServiceEntries(ServiceEntries(keys, m) + rest, |keys|) == Some((Restrict(keys, m), rest))
    decreases |keys|
  {
    hide Restrict, ServiceEntry;
    if keys == [] {
      assert ServiceEntries(keys, m) + rest == rest;
      NothingRestricted(m);
    } else {
      var (entry, tail) := (ServiceEntry(keys[0], m[keys[0]]), ServiceEntries(keys[1..], m) + rest);
      ServiceEntriesTaken(keys[1..], m, rest);
      assert ServiceEntries(keys, m) + rest == entry + tail;
      hide TakeServiceEntries;
      OneServiceTaken(keys[0], m[keys[0]], tail, |keys| - 1);
      RestrictFront(keys, m);
    }
  }

  lemma RestrictAll<V>(keys: seq<string>, m: map<string, V>)
    requires Orders(keys, m.Keys)
    ensures Restrict(keys, m) == m
  {}

  lemma MethodsTaken(m: map<string, string>, rest: seq<Token>)
    ensures TakeMethods(MethodTokens(m) + rest) == Some((m, rest))
  {
    hide TakeMethodEntries, MethodEntries, Restrict;
    var keys := Canonical(m.Keys);
    assert (MethodTokens(m) + rest)[1..] == MethodEntries(keys, m) + rest;
    MethodEntriesTaken(keys, m, rest);
    RestrictAll(keys, m);
  }

  lemma ServicesTaken(m: map<string, Service>, rest: seq<Token>)
    ensures TakeServices(ServiceTokens(m) + rest) == Some((m, rest))
  {
    hide TakeServiceEntries, ServiceEntries, Restrict;
    var keys := Canonical(m.Keys);
    assert (ServiceTokens(m) + rest)[1..] == ServiceEntries(keys, m) + rest;
    ServiceEntriesTaken(keys, m, rest);
    RestrictAll(keys, m);
  }

  lemma FieldsDecode(op: Op)
    ensures DecodeFields(FieldTokens(op)) == Some(op)
  {
    hide TakeServices, TakeList, TakeMethods, ServiceTokens, ListTokens, MethodTokens;
    var methods := MethodTokens(op.verificationMethods);
    var t3 := [Text("verificationMethods")] + methods;
    var t2 := [Text("rotationKeys")] + (ListTokens(op.rotationKeys) + t3);
    var t1 := [Text("alsoKnownAs")] + (ListTokens(op.alsoKnownAs) + t2);
    ServicesTaken(op.services, t1);
    ListTaken(op.alsoKnownAs, t2);
    ListTaken(op.rotationKeys, t3);
    MethodsTaken(op.verificationMethods, []);
    assert methods + [] == methods;
    assert t3[1..] == methods && t2[1..] == ListTokens(op.rotationKeys) + t3
           && t1[1..] == ListTokens(op.alsoKnownAs) + t2;
    assert FieldTokens(op)[5..] == ServiceTokens(op.services) + t1;
  }

  /** Lengths fit a 64-bit head, as every length in the source does. */
  ghost predicate Sized(s: SignedOp) {
    AllFit(SignedTokens(s)) && AllFit(OpTokens(s.op))
  }

  /** The decoders return the operation that was encoded. */
  lemma OpRoundTrip(s: SignedOp)
    requires Sized(s)
    ensures DecodeOp(BytesOf(OpTokens(s.op))) == Some(s.op)
    ensures DecodeSignedOp(BytesOf(SignedTokens(s))) == Some(s)
  {
    hide DecodeFields, FieldTokens, BytesOf, Tokens;
    BytesTokens(OpTokens(s.op));
    BytesTokens(SignedTokens(s));
    FieldsDecode(s.op);
    assert OpTokens(s.op)[1..] == FieldTokens(s.op) && SignedTokens(s)[3..] == FieldTokens(s.op);
  }

  /** Equal bytes mean equal operations, so a signature over them covers every field. */
  lemma BytesCoverFields(s: SignedOp, r: SignedOp)
    requires Sized(s) && Sized(r)
    ensures BytesOf(OpTokens(s.op)) == BytesOf(OpTokens(r.op)) <==> s.op == r.op
    ensures BytesOf(SignedTokens(s)) == BytesOf(SignedTokens(r)) <==> s == r
  {
    hide OpTokens, SignedTokens, BytesOf, Sized;
    OpRoundTrip(s);
    OpRoundTrip(r);
  }

  ghost predicate TombstoneSized(s: SignedTombstone) {
    AllFit(SignedTombstoneTokens(s)) && AllFit(TombstoneTokens(s.op))
  }

  /** The same for tombstones; and no operation's bytes are a tombstone's. */
  lemma TombstoneBytesCoverFields(s: SignedTombstone, r: SignedTombstone, o: SignedOp)
    requires TombstoneSized(s) && TombstoneSized(r) && Sized(o)
    ensures BytesOf(TombstoneTokens(s.op)) == BytesOf(TombstoneTokens(r.op)) <==> s.op == r.op
    ensures BytesOf(SignedTombstoneTokens(s)) == BytesOf(SignedTombstoneTokens(r)) <==> s == r
    ensures BytesOf(TombstoneTokens(s.op)) != BytesOf(OpTokens(o.op))
  {
    hide BytesOf, Tokens, FieldTokens;
    BytesTokens(TombstoneTokens(s.op));
    BytesTokens(TombstoneTokens(r.op));
    BytesTokens(SignedTombstoneTokens(s));
    BytesTokens(SignedTombstoneTokens(r));
    BytesTokens(OpTokens(o.op));
    TombstoneTokensInjective(s, r);
    assert OpTokens(o.op)[0] == MapHead(6) && TombstoneTokens(s.op)[0] == MapHead(2);
  }

  lemma TombstoneTokensInjective(s: SignedTombstone, r: SignedTombstone)
    ensures TombstoneTokens(s.op) == TombstoneTokens(r.op) ==> s.op == r.op
    ensures SignedTombstoneTokens(s) == SignedTombstoneTokens(r) ==> s == r
  {
    var (a, b, c, d) := (TombstoneTokens(s.op), TombstoneTokens(r.op), SignedTombstoneTokens(s),
      SignedTombstoneTokens(r));
    assert a[2] == Text(s.op.prev) && a[4] == Text(s.op.kind) && b[2] == Text(r.op.prev) && b[4] == Text(r.op.kind);
    assert c[2] == Text(s.sig) && c[4] == Text(s.op.prev) && c[6] == Text(s.op.kind);
    assert d[2] == Text(r.sig) && d[4] == Text(r.op.prev) && d[6] == Text(r.op.kind);
  }

  // ---- encoding ----

  /** The keys of a map as its iterator yields them. */
  method Entries(s: set<string>) returns (names: seq<string>)
    ensures forall i, j :: 0 <= i < j < |names| ==> names[i] != names[j]
    ensures forall k :: k in names <==> k in s
  {
    names := [];
    var rest := s;
    while rest != {}
      invariant forall k :: k in s <==> k in names || k in rest
      invariant forall k :: k in names ==> k !in rest
      invariant forall i, j :: 0 <= i < j < |names| ==> names[i] != names[j]
    {
      var k :| k in rest;
      names, rest := names + [k], rest - {k};
    }
  }

  /** Collected and sorted: the canonical order. */
  method SortedEntries(s: set<string>) returns (keys: seq<string>)
    ensures keys == Canonical(s)
  {
    var names := Entries(s);
    keys := Sort(names);
    assert (set k | k in names) == s;
    CanonicalIff(keys, s);
  }

  /** Emitting one entry before the rest. */
  lemma Emitted(out: Bytes, entry: seq<Token>, tail: seq<Token>)
    ensures out + BytesOf(entry + tail) == (out + BytesOf(entry)) + BytesOf(tail)
  {
    hide BytesOf;
    BytesOfAppend(entry, tail);
  }

  lemma EmittedHead(n: nat, tail: seq<Token>)
    ensures TokenBytes(MapHead(n)) + BytesOf(tail) == BytesOf([MapHead(n)] + tail)
    ensures BytesOf([]) == ""
  {
    hide TokenBytes;
    assert ([MapHead(n)] + tail)[1..] == tail;
  }

  /** `CanonicalMap::serialize` over services: collect, sort, then emit entry by entry. */
  method SerializeServices(m: map<string, Service>) returns (out: Bytes)
    ensures out == BytesOf(ServiceTokens(m))
  {
    hide TokenBytes, ServiceEntry, BytesOf, Canonical;
    var keys := SortedEntries(m.Keys);
    out := TokenBytes(MapHead(|keys|));
    EmittedHead(|keys|, ServiceEntries(keys, m));
    assert keys[0..] == keys;
    for i := 0 to |keys|
      invariant out + BytesOf(ServiceEntries(keys[i..], m)) == BytesOf(ServiceTokens(m))
    {
      var entry := ServiceEntry(keys[i], m[keys[i]]);
      assert keys[i..][1..] == keys[i + 1..];
      Emitted(out, entry, ServiceEntries(keys[i + 1..], m));
      out := out + BytesOf(entry);
    }
  }

  /** The same over verification methods. */
  method SerializeMethods(m: map<string, string>) returns (out: Bytes)
    ensures out == BytesOf(MethodTokens(m))
  {
    hide TokenBytes, BytesOf, Canonical;
    var keys := SortedEntries(m.Keys);
    out := TokenBytes(MapHead(|keys|));
    EmittedHead(|keys|, MethodEntries(keys, m));
    assert keys[0..] == keys;
    for i := 0 to |keys|
      invariant out + BytesOf(MethodEntries(keys[i..], m)) == BytesOf(MethodTokens(m))
    {
      var entry := [Text(keys[i]), Text(m[keys[i]])];
      assert keys[i..][1..] == keys[i + 1..];
      Emitted(out, entry, MethodEntries(keys[i + 1..], m));
      out := out + BytesOf(entry);
    }
  }

  /** The fields an unsigned and a signed operation share. */
  method SerializeFields(op: Op) returns (out: Bytes)
    ensures out == BytesOf(FieldTokens(op))
  {
    hide BytesOf, ServiceTokens, MethodTokens, ListTokens;
    var services := SerializeServices(op.services);
    var methods := SerializeMethods(op.verificationMethods);
    var first := [Text("prev"), Prev(op.prev), Text("type"), Text(op.kind), Text("services")];
    out := BytesOf(first) + services + BytesOf([Text("alsoKnownAs")]) + BytesOf(ListTokens(op.alsoKnownAs))
    + BytesOf([Text("rotationKeys")]) + BytesOf(ListTokens(op.rotationKeys)) + BytesOf([Text("verificationMethods")])
      + methods;
    ghost var t3 := [Text("verificationMethods")] + MethodTokens(op.verificationMethods);
    ghost var t2 := [Text("rotationKeys")] + (ListTokens(op.rotationKeys) + t3);
    ghost var t1 := [Text("alsoKnownAs")] + (ListTokens(op.alsoKnownAs) + t2);
    BytesOfAppend([Text("verificationMethods")], MethodTokens(op.verificationMethods));
    BytesOfAppend(ListTokens(op.rotationKeys), t3);
    BytesOfAppend([Text("rotationKeys")], ListTokens(op.rotationKeys) + t3);
    BytesOfAppend(ListTokens(op.alsoKnownAs), t2);
    BytesOfAppend([Text("alsoKnownAs")], ListTokens(op.alsoKnownAs) + t2);
    BytesOfAppend(ServiceTokens(op.services), t1);
    BytesOfAppend(first, ServiceTokens(op.services) + t1);
  }

  /** `into_writer` of an unsigned operation. */
  method EncodeOp(op: Op) returns (out: Bytes)
    ensures out == BytesOf(OpTokens(op))
  {
    hide BytesOf, FieldTokens;
    var fields := SerializeFields(op);
    out := BytesOf([MapHead(6)]) + fields;
    BytesOfAppend([MapHead(6)], FieldTokens(op));
  }

  /** `into_writer` of a signed operation. */
  method EncodeSignedOp(s: SignedOp) returns (out: Bytes)
    ensures out == BytesOf(SignedTokens(s))
  {
    hide BytesOf, FieldTokens;
    var fields := SerializeFields(s.op);
    out := BytesOf([MapHead(7), Text("sig"), Text(s.sig)]) + fields;
    BytesOfAppend([MapHead(7), Text("sig"), Text(s.sig)], FieldTokens(s.op));
  }
}
