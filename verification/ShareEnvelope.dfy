/** Self-describing shares and their two text forms (`shamir.rs`, from the envelope on). SHA-256 is a parameter. */
module ShareEnvelope {
  import opened AsciiCase
  import opened Octets
  import opened Wrappers
  import opened Shamir
  import opened GF256
  import Fields
  import opened Mnemonic
  import TextCoding

  type u32 = x: int | 0 <= x < 0x1_0000_0000

  type Hash = seq<Octet> -> Block

  datatype Envelope = Envelope(version: Octet, setId: u32, index: Octet, payload: Block)

  const VERSION2 := Octet(false, false, false, false, false, false, true, false)

  predicate WellFormed(e: Envelope) {
    e.version == VERSION2 && 1 <= Value(e.index) <= 3
  }

  // ---- the 42 bytes ----

  /** `to_be_bytes`. */
  function ToBe(x: u32): (b: seq<Octet>)
    ensures |b| == 4
  {
    var x3 := x / 256;
    var x2 := x3 / 256;
    [OfValue(x2 / 256), OfValue(x2 % 256), OfValue(x3 % 256), OfValue(x % 256)]
  }

  function FromBe(b: seq<Octet>): u32
    requires |b| == 4
  {
    256 * (256 * (256 * Value(b[0]) + Value(b[1])) + Value(b[2])) + Value(b[3])
  }

  lemma BeIff(x: u32, b: seq<Octet>)
    requires |b| == 4
    ensures FromBe(b) == x <==> b == ToBe(x)
  {
    hide Value, OfValue;
    forall i | 0 <= i < 4 { OfValueValue(b[i]); }
    var x3 := x / 256;
    var x2 := x3 / 256;
    var b1 := 256 * Value(b[0]) + Value(b[1]);
    var b2 := 256 * b1 + Value(b[2]);
    LastDigit(b2, Value(b[3]), x);
    LastDigit(b1, Value(b[2]), x3);
    LastDigit(Value(b[0]), Value(b[1]), x2);
    ValueOfValue(x2 / 256);
    ValueOfValue(x2 % 256);
    ValueOfValue(x3 % 256);
    ValueOfValue(x % 256);
    assert b == [b[0], b[1], b[2], b[3]];
  }

  lemma LastDigit(q: nat, d: byte, x: nat)
    ensures 256 * q + d == x <==> q == x / 256 && d == x % 256
  {}

  function Preimage(e: Envelope): (b: seq<Octet>)
    ensures |b| == 38
  {
    [e.version] + ToBe(e.setId) + [e.index] + e.payload
  }

  function Checksum(sha: Hash, preimage: seq<Octet>): (c: seq<Octet>)
    ensures |c| == 4
  {
    sha(preimage)[..4]
  }

  function Image(sha: Hash, e: Envelope): (b: seq<Octet>)
    ensures |b| == 42
  {
    Preimage(e) + Checksum(sha, Preimage(e))
  }

  /** Version, set id with its most significant octet first, index, payload, and the start of the hash of those. */
  lemma ImageLayout(sha: Hash, e: Envelope)
    ensures var b := Image(sha, e);
            && b[0] == e.version && FromBe(b[1..5]) == e.setId && b[5] == e.index && b[6..38] == e.payload
            && b[38..] == sha(b[..38])[..4]
  {
    hide ToBe, FromBe;
    var b := Image(sha, e);
    BeIff(e.setId, ToBe(e.setId));
    assert b[1..5] == ToBe(e.setId) && b[..38] == Preimage(e);
  }

  /** Copies `from` into `into` at `at`, as `copy_from_slice` does. */
  method CopyInto(into: array<Octet>, at: nat, from: seq<Octet>)
    requires at + |from| <= into.Length
    modifies into
    ensures into[..] == old(into[..at]) + from + old(into[at + |from|..])
  {
    for i := 0 to |from|
      invariant into[..] == old(into[..at]) + from[..i] + old(into[at + i..])
    {
      into[at + i] := from[i];
    }
  }

  /** `to_bytes`, over the buffer `preimage` fills. */
  method ToBytes(sha: Hash, e: Envelope) returns (out: array<Octet>)
    ensures fresh(out) && out[..] == Image(sha, e)
  {
    hide ToBe;
    var buf := new Octet[38](_ => e.index);
    buf[0] := e.version;
    CopyInto(buf, 1, ToBe(e.setId));
    CopyInto(buf, 6, e.payload);
    assert buf[..] == Preimage(e);
    var preimage := buf[..];
    out := new Octet[42](_ => e.index);
    CopyInto(out, 0, preimage);
    CopyInto(out, 38, Checksum(sha, preimage));
  }

  /** `from_bytes`: length, version, checksum and index are checked in that order. */
  function FromBytes(sha: Hash, bytes: seq<Octet>): Result<Envelope, CryptoError> {
    if |bytes| != 42 then Err(ShareFormat)
    else if bytes[0] != VERSION2 then Err(ShareVersion)
    else if bytes[38..] != Checksum(sha, bytes[..38]) then Err(ShareChecksum)
    else if Value(bytes[5]) == 0 || Value(bytes[5]) > 3 then Err(ShareFormat)
    else Ok(Envelope(bytes[0], FromBe(bytes[1..5]), bytes[5], bytes[6..38]))
  }

  /** Exactly the images of version-2 envelopes with an index of 1 to 3 are accepted, as what they are images of. */
  lemma FromBytesIff(sha: Hash, bytes: seq<Octet>, e: Envelope)
    ensures FromBytes(sha, bytes) == Ok(e) <==> WellFormed(e) && bytes == Image(sha, e)
  {
    hide ToBe, FromBe, Value, Checksum;
    if FromBytes(sha, bytes) == Ok(e) {
      BeIff(e.setId, bytes[1..5]);
      assert bytes[..38] == [bytes[0]] + bytes[1..5] + [bytes[5]] + bytes[6..38];
      assert bytes == bytes[..38] + bytes[38..];
    }
    if WellFormed(e) && bytes == Image(sha, e) {
      assert bytes[..38] == Preimage(e) && bytes[38..] == Checksum(sha, Preimage(e));
      assert bytes[1..5] == ToBe(e.setId) && bytes[6..38] == e.payload;
      BeIff(e.setId, bytes[1..5]);
    }
  }

  // ---- base32 text ----

  /** `to_ascii_uppercase` of the characters that are not whitespace. */
  function Normalize(t: string): string
    decreases |t|
  {
    if t == "" then "" else (if IsSpace(t[0]) then "" else [Upper(t[0])]) + Normalize(t[1..])
  }

  function EncodeShare(sha: Hash, e: Envelope): string {
    TextCoding.Encode(TextCoding.Base32Upper, Image(sha, e))
  }

  function DecodeShare(sha: Hash, t: string): Result<Envelope, CryptoError> {
    var bytes := TextCoding.Decode(TextCoding.Base32Upper, Normalize(t));
    if bytes.None? then Err(ShareFormat) else FromBytes(sha, bytes.value)
  }

  /** `t` is `s` with whitespace put in anywhere and letters in either case. */
  predicate Copies(t: string, s: string)
    decreases |t|
  {
    if t == "" then s == ""
    else if IsSpace(t[0]) then Copies(t[1..], s)
    else s != "" && SameLetter(t[0], s[0]) && Copies(t[1..], s[1..])
  }

  lemma {:induction false} CopiesIff(t: string, s: string)
    requires forall i :: 0 <= i < |s| ==> Upper(s[i]) == s[i]
    ensures Copies(t, s) <==> Normalize(t) == s
    decreases |t|
  {
    hide Upper, IsSpace, SameLetter;
    if t != "" {
      if IsSpace(t[0]) {
        CopiesIff(t[1..], s);
        assert "" + Normalize(t[1..]) == Normalize(t[1..]);
      } else if s != "" {
        CopiesIff(t[1..], s[1..]);
        FoldIff(t[0], s[0]);
        assert s == [s[0]] + s[1..];
        var n := Normalize(t);
        assert n[0] == Upper(t[0]) && n[1..] == Normalize(t[1..]);
      }
    }
  }

  lemma SymbolsAreUpper(s: string)
    requires TextCoding.InAlphabet(TextCoding.Base32Upper, s)
    ensures forall i :: 0 <= i < |s| ==> Upper(s[i]) == s[i]
  {
    forall i | 0 <= i < |s| ensures Upper(s[i]) == s[i] {
      assert TextCoding.ValueOf(TextCoding.Base32Upper, s[i]).Some?;
    }
  }

  /** A text decodes to a share exactly when it copies that share's base32, case and whitespace aside. */
  lemma DecodeShareIff(sha: Hash, t: string, e: Envelope)
    ensures DecodeShare(sha, t) == Ok(e) <==> WellFormed(e) && Copies(t, EncodeShare(sha, e))
  {
    hide FromBytes, TextCoding.Encode, TextCoding.Decode, TextCoding.InAlphabet, Image;
    var a := TextCoding.Base32Upper;
    FromBytesIff(sha, Image(sha, e), e);
    TextCoding.DecodeIffEncode(a, Normalize(t), Image(sha, e));
    TextCoding.EncodedLength(a, Image(sha, e));
    SymbolsAreUpper(EncodeShare(sha, e));
    CopiesIff(t, EncodeShare(sha, e));
    var bytes := TextCoding.Decode(a, Normalize(t));
    if bytes.Some? {
      FromBytesIff(sha, bytes.value, e);
    }
  }

  // ---- the phrase ----

  function EncodeShareWords(sha: Hash, table: seq<string>, e: Envelope): string
    requires |table| == 256
  {
    BytesToWords(table, Image(sha, e))
  }

  method DecodeShareWords(sha: Hash, table: seq<string>, phrase: string) returns (r: Result<Envelope, CryptoError>)
    requires IsWordlist(table)
    ensures forall e :: r == Ok(e) <==> WellFormed(e) && Spells(table, phrase, Image(sha, e))
  {
    hide FromBytes, Image;
    var bytes := WordsToBytes(table, phrase);
    if bytes.Err? {
      forall e ensures !Spells(table, phrase, Image(sha, e)) {
        UnknownWordSpellsNothing(table, phrase, Image(sha, e));
      }
      return Err(bytes.error);
    }
    forall e ensures FromBytes(sha, bytes.value) == Ok(e) <==> WellFormed(e) && Spells(table, phrase, Image(sha, e)) {
      FromBytesIff(sha, bytes.value, e);
      if Spells(table, phrase, Image(sha, e)) {
        SpellsOne(table, phrase, bytes.value, Image(sha, e));
      }
    }
    r := FromBytes(sha, bytes.value);
  }

  // ---- splitting and combining ----

  /** The envelope of the share at `x` of a split. */
  function EnvelopeAt(secret: Block, coeffs: Block, setId: u32, x: Octet): Envelope {
    Envelope(VERSION2, setId, x, PointAt(Aes(), secret, coeffs, x))
  }

  method SplitSecretIntoEnvelopes(secret: Block, setId: u32, random: Option<Block>)
    returns (r: Result<(Envelope, Envelope, Envelope), CryptoError>)
    ensures random.None? ==> r == Err(SecretSharing)
    ensures random.Some? ==>
              r == Ok((EnvelopeAt(secret, random.value, setId, INDEX1), EnvelopeAt(secret, random.value, setId, INDEX2),
                       EnvelopeAt(secret, random.value, setId, INDEX3)))
  {
    hide PointAt, Aes;
    var shares := SplitSecret(secret, random);
    if shares.Err? {
      return Err(shares.error);
    }
    var (a, b, c) := shares.value;
    r := Ok((Envelope(VERSION2, setId, a.index, a.data), Envelope(VERSION2, setId, b.index, b.data),
             Envelope(VERSION2, setId, c.index, c.data)));
  }

  function ShareOf(e: Envelope): Share {
    Share(e.index, e.payload)
  }

  /** `combine_envelopes`: another version or another split is refused before any interpolation. */
  method CombineEnvelopes(a: Envelope, b: Envelope) returns (r: Result<Block, CryptoError>)
    ensures a.version != VERSION2 || b.version != VERSION2 ==> r == Err(ShareVersion)
    ensures a.version == b.version == VERSION2 && (a.setId != b.setId || !Combinable(ShareOf(a), ShareOf(b))) ==>
              r == Err(SecretReconstruction)
    ensures a.version == b.version == VERSION2 && a.setId == b.setId && Combinable(ShareOf(a), ShareOf(b)) ==>
              r == Ok(Interpolate(Aes(), ShareOf(a), ShareOf(b)))
  {
    if a.version != VERSION2 || b.version != VERSION2 {
      return Err(ShareVersion);
    }
    if a.setId != b.setId {
      return Err(SecretReconstruction);
    }
    r := CombineShares(ShareOf(a), ShareOf(b));
  }

  // ---- end to end ----

  datatype Custody = Text(text: string) | Phrase(phrase: string)

  /** What a person holds is a copy of the envelope in one of its forms. */
  ghost predicate Renders(sha: Hash, table: seq<string>, held: Custody, e: Envelope)
    requires |table| == 256
  {
    match held
    case Text(t) => Copies(t, EncodeShare(sha, e))
    case Phrase(p) => Spells(table, p, Image(sha, e))
  }

  method Read(sha: Hash, table: seq<string>, held: Custody) returns (r: Result<Envelope, CryptoError>)
    requires IsWordlist(table)
    ensures forall e :: r == Ok(e) <==> WellFormed(e) && Renders(sha, table, held, e)
  {
    hide Copies, EncodeShare, Image, DecodeShare;
    match held {
      case Text(t) =>
        forall e ensures DecodeShare(sha, t) == Ok(e) <==> WellFormed(e) && Copies(t, EncodeShare(sha, e)) {
          DecodeShareIff(sha, t, e);
        }
        r := DecodeShare(sha, t);
      case Phrase(p) => r := DecodeShareWords(sha, table, p);
    }
  }

  /**
   * Two copies, each base32 or a phrase, of distinct shares of one split give its secret back; copies of shares from
   * splits with different set ids are refused.
   */
  method Recover(sha: Hash, table: seq<string>, first: Custody, second: Custody,
                 ghost secret: Block, ghost coeffs: Block, ghost setId: u32, ghost x: Octet,
                 ghost secret': Block, ghost coeffs': Block, ghost setId': u32, ghost y: Octet)
    returns (r: Result<Block, CryptoError>)
    requires IsWordlist(table) && 1 <= Value(x) <= 3 && 1 <= Value(y) <= 3
    requires Renders(sha, table, first, EnvelopeAt(secret, coeffs, setId, x))
    requires Renders(sha, table, second, EnvelopeAt(secret', coeffs', setId', y))
    ensures secret == secret' && coeffs == coeffs' && setId == setId' && x != y ==> r == Ok(secret)
    ensures setId != setId' || x == y ==> r == Err(SecretReconstruction)
  {
    hide Renders, PointAt, Interpolate, Value, Aes, Fields.FieldLaws;
    var a := Read(sha, table, first);
    var b := Read(sha, table, second);
    assert a == Ok(EnvelopeAt(secret, coeffs, setId, x)) && b == Ok(EnvelopeAt(secret', coeffs', setId', y));
    r := CombineEnvelopes(a.value, b.value);
    if x != y {
      AesIsField();
      SplitThenCombine(Aes(), secret, coeffs, x, y);
    }
  }

  /** What the encoders produce is such a copy. */
  lemma EncodersRender(sha: Hash, table: seq<string>, e: Envelope)
    requires IsWordlist(table)
    ensures Renders(sha, table, Text(EncodeShare(sha, e)), e)
    ensures Renders(sha, table, Phrase(EncodeShareWords(sha, table, e)), e)
  {
    hide Image;
    var s := EncodeShare(sha, e);
    TextCoding.EncodedLength(TextCoding.Base32Upper, Image(sha, e));
    SymbolsAreUpper(s);
    NormalizeSymbols(s);
    CopiesIff(s, s);
    RenderedSpells(table, Image(sha, e));
  }

  lemma {:induction false} NormalizeSymbols(s: string)
    requires TextCoding.InAlphabet(TextCoding.Base32Upper, s)
    ensures Normalize(s) == s
    decreases |s|
  {
    if s != "" {
      assert TextCoding.ValueOf(TextCoding.Base32Upper, s[0]).Some?;
      assert TextCoding.InAlphabet(TextCoding.Base32Upper, s[1..]);
      NormalizeSymbols(s[1..]);
    }
  }
}
