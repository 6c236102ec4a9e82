/** Length padding of notification bodies through base64url (`hpke.rs`). */
module Padding {
  import opened Octets
  import opened Wrappers
  import TextCoding

  /** `PADDING_BUCKETS`. */
  const BUCKETS: seq<nat> := [1024, 2048, 3584]

  /** The smallest bucket that holds the body, if one does. */
  function BucketFor(n: nat): (r: Option<nat>)
    ensures r.Some? ==> n <= r.value && r.value in BUCKETS && forall b :: b in BUCKETS && n <= b ==> r.value <= b
    ensures r.None? ==> forall b :: b in BUCKETS ==> b < n
  {
    if n <= 1024 then Some(1024) else if n <= 2048 then Some(2048) else if n <= 3584 then Some(3584) else None
  }

  /** `pad_len_for_bucket`. */
  function PadLenForBucket(n: nat): Option<nat> {
    if BucketFor(n).None? then None else Some(BucketFor(n).value - n)
  }

  /** `base64url_len`. */
  function Base64UrlLen(n: nat): nat {
    n / 3 * 4 + if n % 3 == 0 then 0 else if n % 3 == 1 then 2 else 3
  }

  /** It is the length of the unpadded encoding itself. */
  lemma LenOfEncoding(s: seq<Octet>)
    ensures |TextCoding.Encode(TextCoding.Base64Url, s)| == Base64UrlLen(|s|)
  {
    TextCoding.EncodedLength(TextCoding.Base64Url, s);
    var (n, m) := (|s| / 3, |s| % 3);
    assert |s| == 3 * n + m;
    FillOfOctets(n, m);
    hide TextCoding.Encode, TextCoding.Fill;
  }

  lemma FillOfOctets(n: nat, m: nat)
    requires m < 3
    ensures TextCoding.Fill(8 * (3 * n + m), 6) == if m == 0 then 0 else if m == 1 then 4 else 2
  {
    assert 8 * (3 * n + m) == 6 * (4 * n) + 8 * m;
    assert (6 * (4 * n) + 8 * m) % 6 == (8 * m) % 6;
  }

  /** How much `pad` more octets lengthen the encoding. */
  function Growth(ct: nat, pad: nat): (g: int) {
    Base64UrlLen(ct + pad) - Base64UrlLen(ct)
  }

  lemma LenIsCeiling(n: nat)
    ensures Base64UrlLen(n) == (4 * n + 2) / 3
  {
    var q := n / 3;
    assert n == 3 * q + n % 3;
    assert (4 * n + 2) / 3 == 4 * q + (4 * (n % 3) + 2) / 3;
  }

  /** One more octet costs one or two characters. */
  lemma GrowthStep(ct: nat, pad: nat)
    ensures Growth(ct, pad) + 1 <= Growth(ct, pad + 1) <= Growth(ct, pad) + 2
    ensures Growth(ct, 0) == 0
  {
    hide Base64UrlLen;
    LenIsCeiling(ct + pad);
    LenIsCeiling(ct + pad + 1);
  }

  lemma {:induction false} GrowthMonotone(ct: nat, p: nat, q: nat)
    requires p <= q
    ensures Growth(ct, p) + (q - p) <= Growth(ct, q)
    decreases q
  {
    hide Base64UrlLen;
    if p < q {
      GrowthStep(ct, q - 1);
      GrowthMonotone(ct, p, q - 1);
    }
  }

  /** Three quarters of a budget, rounded down, always fit. */
  lemma ThreeQuartersFit(ct: nat, budget: nat)
    ensures Growth(ct, budget * 3 / 4) <= budget
  {
    hide Base64UrlLen;
    var p := budget * 3 / 4;
    LenIsCeiling(ct + p);
    LenIsCeiling(ct);
    assert 4 * p <= 3 * budget;
    assert (4 * (ct + p) + 2) / 3 <= (4 * ct + 3 * budget + 2) / 3 == (4 * ct + 2) / 3 + budget;
  }

  /** `pad` is the largest pad whose growth stays within the budget. */
  ghost predicate IsLargestPad(ct: nat, budget: nat, pad: nat) {
    Growth(ct, pad) <= budget && forall p: nat :: p > pad ==> Growth(ct, p) > budget
  }

  /** Where the largest pad lands: on the bucket or one under, at three quarters of the budget or more. */
  lemma LargestPadLands(ct: nat, budget: nat, pad: nat)
    requires IsLargestPad(ct, budget, pad)
    ensures budget - 1 <= Growth(ct, pad) <= budget
    ensures budget * 3 / 4 <= pad <= budget
  {
    hide Base64UrlLen, Growth;
    GrowthStep(ct, pad);
    ThreeQuartersFit(ct, budget);
    GrowthStep(ct, 0);
    GrowthMonotone(ct, 0, pad);
  }

  /** `plaintext_pad_len`. */
  method PlaintextPadLen(ct: nat, serialized: nat) returns (r: Option<nat>)
    ensures r.None? <==> serialized > 3584
    ensures r.Some? ==> IsLargestPad(ct, BucketFor(serialized).value - serialized, r.value)
  {
    var room := PadLenForBucket(serialized);
    if room.None? {
      return None;
    }
    var budget := room.value;
    var base := Base64UrlLen(ct);
    var pad := budget;
    hide Base64UrlLen;
    GrowthStep(ct, 0);
    forall p: nat | p > budget ensures Growth(ct, p) > budget {
      GrowthMonotone(ct, 0, p);
    }
    while pad > 0 && Base64UrlLen(ct + pad) - base > budget
      invariant forall p: nat :: p > pad ==> Growth(ct, p) > budget
    {
      pad := pad - 1;
    }
    return Some(pad);
  }

  /** The padded body stays in its bucket, short of it by one at most, and padding it again adds nothing. */
  lemma PaddedBodyIsStable(ct: nat, serialized: nat, pad: nat, again: nat)
    requires serialized <= 3584 && IsLargestPad(ct, BucketFor(serialized).value - serialized, pad)
    ensures var body := serialized + Growth(ct, pad);
            && BucketFor(serialized).value - 1 <= body <= BucketFor(serialized).value
            && BucketFor(body) == BucketFor(serialized)
            && (IsLargestPad(ct + pad, BucketFor(body).value - body, again) <==> again == 0)
  {
    hide Base64UrlLen;
    var bucket := BucketFor(serialized).value;
    LargestPadLands(ct, bucket - serialized, pad);
    GrowthStep(ct + pad, 0);
    var room := bucket - (serialized + Growth(ct, pad));
    forall p: nat {:trigger Growth(ct + pad, p)} | p > 0 ensures Growth(ct + pad, p) > room {
      assert Growth(ct, pad + p) > bucket - serialized;
      assert Growth(ct, pad + p) == Growth(ct, pad) + Growth(ct + pad, p);
    }
  }
}
