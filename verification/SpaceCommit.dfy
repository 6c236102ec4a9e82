/** What a space commit signs: the length-prefixed context of `space.rs`. */
module SpaceCommit {
  import opened Octets
  import opened Wrappers

  type Bytes = seq<byte>

  /** Space URI, author and revision as UTF-8, and the fresh key the commit draws. */
  datatype Context = Context(space: Bytes, author: Bytes, rev: Bytes, ikm: Bytes)

  /** `atproto-space-v1`. */
  const CTX_DOMAIN: Bytes := [97, 116, 112, 114, 111, 116, 111, 45, 115, 112, 97, 99, 101, 45, 118, 49]

  function Fields(c: Context): (fields: seq<Bytes>)
    ensures |fields| == 4
  {
    [c.space, c.author, c.rev, c.ikm]
  }

  /** A big-endian `u16` length and the field. */
  function FieldBytes(f: Bytes): Bytes
    requires |f| < 65536
  {
    [|f| / 256, |f| % 256] + f
  }

  predicate Fits(fields: seq<Bytes>) {
    forall i :: 0 <= i < |fields| ==> |fields[i]| < 65536
  }

  function AllBytes(fields: seq<Bytes>): Bytes
    requires Fits(fields)
    decreases |fields|
  {
    if fields == [] then [] else AllBytes(fields[..|fields| - 1]) + FieldBytes(fields[|fields| - 1])
  }

  /** `encode_space_commit_ctx`: a field longer than the prefix can say is refused. */
  method EncodeSpaceCommitCtx(c: Context) returns (r: Result<Bytes, CryptoError>)
    ensures r == if Fits(Fields(c)) then Ok(CTX_DOMAIN + AllBytes(Fields(c))) else Err(Space)
    ensures r.Ok? <==> |c.space| < 65536 && |c.author| < 65536 && |c.rev| < 65536 && |c.ikm| < 65536
    ensures r.Ok? ==> ReadContext(r.value) == Some(c)
  {
    hide ReadContext, Fits;
    FitsIff(c);
    r := EncodeAll(Fields(c));
    if r.Ok? {
      ReadIff(c, r.value);
    }
  }

  /** The loop over the fields. */
  method EncodeAll(fields: seq<Bytes>) returns (r: Result<Bytes, CryptoError>)
    ensures r == if Fits(fields) then Ok(CTX_DOMAIN + AllBytes(fields)) else Err(Space)
  {
    var out: Bytes := CTX_DOMAIN;
    for i := 0 to |fields|
      invariant Fits(fields[..i]) && out == CTX_DOMAIN + AllBytes(fields[..i])
    {
      if |fields[i]| >= 65536 {
        return Err(Space);
      }
      assert fields[..i + 1][..i] == fields[..i];
      assert out + FieldBytes(fields[i]) == CTX_DOMAIN + (AllBytes(fields[..i]) + FieldBytes(fields[i]));
      out := out + [|fields[i]| / 256, |fields[i]| % 256];
      out := out + fields[i];
    }
    assert fields[..|fields|] == fields;
    return Ok(out);
  }

  lemma {:induction false} BytesFront(fields: seq<Bytes>)
    requires Fits(fields) && fields != []
    ensures AllBytes(fields) == FieldBytes(fields[0]) + AllBytes(fields[1..])
    decreases |fields|
  {
    hide FieldBytes;
    var n := |fields| - 1;
    if n == 0 {
      assert fields[..0] == [] && fields[1..] == [];
    } else {
      var tail := fields[1..];
      BytesFront(fields[..n]);
      assert fields[..n][1..] == tail[..n - 1] && tail[n - 1] == fields[n];
    }
  }

  lemma FirstField(f: Bytes, rest: Bytes, g: Bytes, rest': Bytes)
    requires |f| < 65536 && |g| < 65536 && FieldBytes(f) + rest == FieldBytes(g) + rest'
    ensures f == g && rest == rest'
  {
    var (a, b) := (FieldBytes(f) + rest, FieldBytes(g) + rest');
    assert a[0] == |f| / 256 && a[1] == |f| % 256 && b[0] == |g| / 256 && b[1] == |g| % 256;
    assert |f| == |g|;
    assert f == a[2..2 + |f|] == b[2..2 + |g|] == g;
    assert rest == a[2 + |f|..] == b[2 + |g|..] == rest';
  }

  lemma {:induction false} AllBytesInjective(fields: seq<Bytes>, others: seq<Bytes>)
    requires Fits(fields) && Fits(others) && |fields| == |others| && AllBytes(fields) == AllBytes(others)
    ensures fields == others
    decreases |fields|
  {
    hide FieldBytes, AllBytes;
    if fields != [] {
      BytesFront(fields);
      BytesFront(others);
      FirstField(fields[0], AllBytes(fields[1..]), others[0], AllBytes(others[1..]));
      AllBytesInjective(fields[1..], others[1..]);
      assert fields == [fields[0]] + fields[1..] && others == [others[0]] + others[1..];
    }
  }

  /** Two contexts are signed over the same bytes only when they are the same. */
  lemma ContextBinds(c: Context, d: Context)
    requires Fits(Fields(c)) && Fits(Fields(d))
    ensures CTX_DOMAIN + AllBytes(Fields(c)) == CTX_DOMAIN + AllBytes(Fields(d)) <==> c == d
  {
    hide AllBytes;
    var (a, b) := (AllBytes(Fields(c)), AllBytes(Fields(d)));
    if CTX_DOMAIN + a == CTX_DOMAIN + b {
      assert a == (CTX_DOMAIN + a)[16..] == (CTX_DOMAIN + b)[16..] == b;
      AllBytesInjective(Fields(c), Fields(d));
      var (f, g) := (Fields(c), Fields(d));
      assert f[0] == g[0] && f[1] == g[1] && f[2] == g[2] && f[3] == g[3];
    }
  }

  // ---- reading the bytes back ----

  /** A field behind its length, and what follows. */
  function TakeField(b: Bytes): Option<(Bytes, Bytes)> {
    if |b| < 2 then None
    else
      var end := 2 + 256 * b[0] as int + b[1] as int;
      if |b| < end then None else Some((b[2..end], b[end..]))
  }

  /** The text "atproto-space-v1", then space, author, revision and key, and nothing more. */
  function ReadContext(b: Bytes): Option<Context> {
    if |b| < 16 || (exists i :: 0 <= i < 16 && b[i] != "atproto-space-v1"[i] as int) then None
    else
      var space := TakeField(b[16..]);
      if space.None? then None
      else
        var author := TakeField(space.value.1);
        if author.None? then None
        else
          var rev := TakeField(author.value.1);
          if rev.None? then None
          else
            var ikm := TakeField(rev.value.1);
            if ikm.None? || ikm.value.1 != [] then None
            else Some(Context(space := space.value.0, author := author.value.0, rev := rev.value.0, ikm := ikm.value.0))
  }

  lemma FieldTaken(f: Bytes, rest: Bytes)
    requires |f| < 65536
    ensures TakeField(FieldBytes(f) + rest) == Some((f, rest))
  {
    var b := FieldBytes(f) + rest;
    assert b[0] == |f| / 256 && b[1] == |f| % 256;
    assert b[2..2 + |f|] == f && b[2 + |f|..] == rest;
  }

  lemma TakenField(b: Bytes)
    requires TakeField(b).Some?
    ensures |TakeField(b).value.0| < 65536 && b == FieldBytes(TakeField(b).value.0) + TakeField(b).value.1
  {}

  lemma FitsIff(c: Context)
    ensures Fits(Fields(c)) <==> |c.space| < 65536 && |c.author| < 65536 && |c.rev| < 65536 && |c.ikm| < 65536
  {
    var f := Fields(c);
    assert f[0] == c.space && f[1] == c.author && f[2] == c.rev && f[3] == c.ikm;
  }

  lemma FourFields(c: Context)
    requires |c.space| < 65536 && |c.author| < 65536 && |c.rev| < 65536 && |c.ikm| < 65536
    ensures Fits(Fields(c)) && AllBytes(Fields(c))
         == FieldBytes(c.space) + (FieldBytes(c.author) + (FieldBytes(c.rev) + (FieldBytes(c.ikm) + [])))
  {
    hide FieldBytes;
    var f := Fields(c);
    FitsIff(c);
    BytesFront(f);
    BytesFront(f[1..]);
    BytesFront(f[2..]);
    BytesFront(f[3..]);
    var none: seq<Bytes> := f[3..][1..];
    assert f[1..][1..] == f[2..] && f[2..][1..] == f[3..] && none == [];
  }

  lemma DomainIsText()
    ensures |CTX_DOMAIN| == |"atproto-space-v1"| == 16
    ensures forall i :: 0 <= i < 16 ==> CTX_DOMAIN[i] == "atproto-space-v1"[i] as int
  {}

  /** The bytes read as a context exactly when they are its encoding. */
  lemma ReadIff(c: Context, b: Bytes)
    ensures ReadContext(b) == Some(c) <==> Fits(Fields(c)) && b == CTX_DOMAIN + AllBytes(Fields(c))
  {
    hide TakeField, FieldBytes, AllBytes, Fields, Fits;
    DomainIsText();
    FitsIff(c);
    if Fits(Fields(c)) && b == CTX_DOMAIN + AllBytes(Fields(c)) {
      FourFields(c);
      assert b[16..] == AllBytes(Fields(c));
      FieldTaken(c.ikm, []);
      FieldTaken(c.rev, FieldBytes(c.ikm) + []);
      FieldTaken(c.author, FieldBytes(c.rev) + (FieldBytes(c.ikm) + []));
      FieldTaken(c.space, FieldBytes(c.author) + (FieldBytes(c.rev) + (FieldBytes(c.ikm) + [])));
    }
    if ReadContext(b) == Some(c) {
      ReadParts(c, b);
      FourFields(c);
      assert b[..16] == CTX_DOMAIN && b == b[..16] + b[16..];
    }
  }

  lemma ReadParts(c: Context, b: Bytes)
    requires ReadContext(b) == Some(c)
    ensures |c.space| < 65536 && |c.author| < 65536 && |c.rev| < 65536 && |c.ikm| < 65536
    ensures b[16..] == FieldBytes(c.space) + (FieldBytes(c.author) + (FieldBytes(c.rev) + (FieldBytes(c.ikm) + [])))
  {
    hide TakeField, FieldBytes;
    var space := TakeField(b[16..]).value;
    TakenField(b[16..]);
    var author := TakeField(space.1).value;
    TakenField(space.1);
    var rev := TakeField(author.1).value;
    TakenField(author.1);
    TakenField(rev.1);
  }
}
