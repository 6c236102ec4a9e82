/** The incremental multiset hash of a permissioned repo (`space.rs`) and its upkeep by record writes. */
module LtHash {
  import opened Separators
  import opened Octets
  import opened Wrappers

  type u16 = x: int | 0 <= x < 65536

  const LANES := 1024

  type Lanes = s: seq<u16> | |s| == LANES witness seq(LANES, _ => 0)

  type StateBytes = s: seq<byte> | |s| == 2 * LANES witness seq(2 * LANES, _ => 0)

  /** The first 2048 octets of BLAKE3's output for an element. */
  type Xof = string -> StateBytes

  function ZeroLanes(): Lanes {
    seq(LANES, _ => 0)
  }

  // ---- octets and lanes ----

  /** `from_le_bytes`. */
  function FromLe(low: byte, high: byte): u16 {
    low as int + 256 * high as int
  }

  function LanesOf(b: StateBytes): Lanes {
    seq(LANES, i requires 0 <= i < LANES => FromLe(b[2 * i], b[2 * i + 1]))
  }

  function BytesOf(l: Lanes): StateBytes {
    seq(2 * LANES, i requires 0 <= i < 2 * LANES => if i % 2 == 0 then l[i / 2] % 256 else l[i / 2] / 256)
  }

  lemma LanesOfBytes(l: Lanes)
    ensures LanesOf(BytesOf(l)) == l
  {
    var b := BytesOf(l);
    forall k | 0 <= k < LANES ensures LanesOf(b)[k] == l[k] {
      assert b[2 * k] == l[k] % 256 && b[2 * k + 1] == l[k] / 256;
    }
  }

  lemma BytesOfLanes(b: StateBytes)
    ensures BytesOf(LanesOf(b)) == b
  {
    var l := LanesOf(b);
    forall i | 0 <= i < 2 * LANES ensures BytesOf(l)[i] == b[i] {
      var k := i / 2;
      LaneBytes(b[2 * k], b[2 * k + 1], l[k]);
    }
  }

  /** The persisted state determines the lanes and the other way around. */
  lemma StateIff(b: StateBytes, l: Lanes)
    ensures LanesOf(b) == l <==> BytesOf(l) == b
  {
    hide LanesOf, BytesOf;
    LanesOfBytes(l);
    BytesOfLanes(b);
  }

  lemma LaneBytes(low: byte, high: byte, lane: u16)
    requires lane == FromLe(low, high)
    ensures low == lane % 256 && high == lane / 256
  {}

  function Expand(xof: Xof, e: string): Lanes {
    LanesOf(xof(e))
  }

  /** Lane `i` of an element: the little-endian number in two octets of its output. */
  function XofLane(xof: Xof, e: string, i: nat): int
    requires i < LANES
  {
    xof(e)[2 * i] as int + 256 * xof(e)[2 * i + 1] as int
  }

  lemma ExpandedLane(xof: Xof, e: string)
    ensures forall i :: 0 <= i < LANES ==> Expand(xof, e)[i] == XofLane(xof, e, i)
  {}

  // ---- operations ----

  datatype Op = Add(e: string) | Remove(e: string)

  /** `wrapping_add` and `wrapping_sub`. */
  function ApplyLane(op: Op, lane: u16, x: u16): u16 {
    if op.Add? then (lane as int + x) % 65536 else (lane as int - x) % 65536
  }

  function Apply(xof: Xof, l: Lanes, op: Op): Lanes {
    seq(LANES, i requires 0 <= i < LANES => ApplyLane(op, l[i], Expand(xof, op.e)[i]))
  }

  function ApplyAll(xof: Xof, l: Lanes, ops: seq<Op>): Lanes
    decreases |ops|
  {
    if ops == [] then l else Apply(xof, ApplyAll(xof, l, ops[..|ops| - 1]), ops[|ops| - 1])
  }

  class Hash {
    const lanes: array<u16>
    const xof: Xof

    ghost predicate Valid() {
      lanes.Length == LANES
    }

    function Value(): Lanes
      requires Valid()
      reads lanes
    {
      lanes[..]
    }

    /** `new`. */
    constructor (xof: Xof)
      ensures Valid() && fresh(lanes) && this.xof == xof && Value() == ZeroLanes()
    {
      this.xof := xof;
      lanes := new u16[LANES](_ => 0);
    }

    /** The lanes of a state. */
    constructor FromState(xof: Xof, state: StateBytes)
      ensures Valid() && fresh(lanes) && this.xof == xof && Value() == LanesOf(state)
    {
      this.xof := xof;
      lanes := new u16[LANES](_ => 0);
      new;
      for i := 0 to LANES
        invariant lanes[..i] == LanesOf(state)[..i]
      {
        lanes[i] := FromLe(state[2 * i], state[2 * i + 1]);
      }
      assert lanes[..] == LanesOf(state);
    }

    /** `add`. */
    method Add(e: string)
      requires Valid()
      modifies lanes
      ensures Value() == Apply(xof, old(Value()), Op.Add(e))
      ensures forall i :: 0 <= i < LANES ==> lanes[i] == (old(lanes[i]) + XofLane(xof, e, i)) % 65536
    {
      hide Expand, XofLane;
      ExpandedLane(xof, e);
      ghost var op := Op.Add(e);
      var expanded := Expand(xof, e);
      for i := 0 to LANES
        invariant forall k :: 0 <= k < i ==> lanes[k] == ApplyLane(op, old(lanes[k]), expanded[k])
        invariant forall k :: i <= k < LANES ==> lanes[k] == old(lanes[k])
      {
        lanes[i] := (lanes[i] as int + expanded[i]) % 65536;
      }
      assert lanes[..] == Apply(xof, old(Value()), op);
    }

    /** `remove`. */
    method Remove(e: string)
      requires Valid()
      modifies lanes
      ensures Value() == Apply(xof, old(Value()), Op.Remove(e))
      ensures forall i :: 0 <= i < LANES ==> lanes[i] == (old(lanes[i]) - XofLane(xof, e, i)) % 65536
    {
      hide Expand, XofLane;
      ExpandedLane(xof, e);
      ghost var op := Op.Remove(e);
      var expanded := Expand(xof, e);
      for i := 0 to LANES
        invariant forall k :: 0 <= k < i ==> lanes[k] == ApplyLane(op, old(lanes[k]), expanded[k])
        invariant forall k :: i <= k < LANES ==> lanes[k] == old(lanes[k])
      {
        lanes[i] := (lanes[i] as int - expanded[i]) % 65536;
      }
      assert lanes[..] == Apply(xof, old(Value()), op);
    }

    /** `state`. */
    method State() returns (out: array<byte>)
      requires Valid()
      ensures fresh(out) && out.Length == 2 * LANES && out[..] == BytesOf(Value())
    {
      out := new byte[2 * LANES](_ => 0);
      for i := 0 to LANES
        invariant out[..2 * i] == BytesOf(Value())[..2 * i]
      {
        out[2 * i] := lanes[i] % 256;
        out[2 * i + 1] := lanes[i] / 256;
        assert out[..2 * i + 2] == out[..2 * i] + [out[2 * i], out[2 * i + 1]];
      }
      assert out[..] == out[..2 * LANES];
    }

    /** `is_empty`. */
    method IsEmpty() returns (empty: bool)
      requires Valid()
      ensures empty <==> Value() == ZeroLanes()
    {
      var i := 0;
      while i < LANES && lanes[i] == 0
        invariant i <= LANES && forall k :: 0 <= k < i ==> lanes[k] == 0
      {
        i := i + 1;
      }
      return i == LANES;
    }
  }

  /** `from_state`: only states of the right length. */
  method FromState(xof: Xof, state: seq<byte>) returns (r: Result<Hash, CryptoError>)
    ensures if |state| != 2 * LANES then r == Err(Space)
            else r.Ok? && r.value.Valid() && fresh(r.value) && fresh(r.value.lanes) && r.value.xof == xof
                 && BytesOf(r.value.Value()) == state
  {
    if |state| != 2 * LANES {
      return Err(Space);
    }
    var hash := new Hash.FromState(xof, state);
    StateIff(state, hash.Value());
    return Ok(hash);
  }

  // ---- the state depends only on the net multiset ----

  /** How often `e` was added, less how often it was removed. */
  function Net(ops: seq<Op>, e: string): int
    decreases |ops|
  {
    if ops == [] then 0
    else Net(ops[..|ops| - 1], e) + (if ops[|ops| - 1].e != e then 0 else if ops[|ops| - 1].Add? then 1 else -1)
  }

  /** What the operations add to a lane, before reduction. */
  function NetLane(xof: Xof, ops: seq<Op>, i: nat): int
    requires i < LANES
    decreases |ops|
  {
    if ops == [] then 0
    else
      var (op, rest) := (ops[|ops| - 1], NetLane(xof, ops[..|ops| - 1], i));
      if op.Add? then rest + XofLane(xof, op.e, i) else rest - XofLane(xof, op.e, i)
  }

  lemma ModularStep(a: int, x: int, n: int)
    requires a == n % 65536
    ensures (a + x) % 65536 == (n + x) % 65536 && (a - x) % 65536 == (n - x) % 65536
  {
    var q := n / 65536;
    assert n == 65536 * q + a;
  }

  lemma {:induction false} LaneIsNet(xof: Xof, l: Lanes, ops: seq<Op>, i: nat)
    requires i < LANES
    ensures ApplyAll(xof, l, ops)[i] == (l[i] + NetLane(xof, ops, i)) % 65536
    decreases |ops|
  {
    hide Expand, XofLane;
    if ops != [] {
      var init := ops[..|ops| - 1];
      LaneIsNet(xof, l, init, i);
      ExpandedLane(xof, ops[|ops| - 1].e);
      ModularStep(ApplyAll(xof, l, init)[i], XofLane(xof, ops[|ops| - 1].e, i), l[i] + NetLane(xof, init, i));
    }
  }

  /** The operations on other elements. */
  function Without(ops: seq<Op>, e: string): (r: seq<Op>)
    ensures |r| <= |ops| && (|r| == |ops| ==> forall i :: 0 <= i < |ops| ==> ops[i].e != e)
    decreases |ops|
  {
    if ops == [] then []
    else Without(ops[..|ops| - 1], e) + if ops[|ops| - 1].e == e then [] else [ops[|ops| - 1]]
  }

  lemma {:induction false} WithoutNet(ops: seq<Op>, e: string, d: string)
    ensures Net(Without(ops, e), d) == if d == e then 0 else Net(ops, d)
    decreases |ops|
  {
    if ops != [] {
      var (init, last) := (ops[..|ops| - 1], ops[|ops| - 1]);
      WithoutNet(init, e, d);
      if last.e != e {
        assert Without(ops, e)[..|Without(init, e)|] == Without(init, e);
      } else {
        assert Without(ops, e) == Without(init, e);
      }
    }
  }

  /** One element's share of a lane is its net count times its expansion. */
  lemma {:induction false} WithoutLane(xof: Xof, ops: seq<Op>, e: string, i: nat)
    requires i < LANES
    ensures NetLane(xof, ops, i) == NetLane(xof, Without(ops, e), i) + Net(ops, e) * XofLane(xof, e, i)
    decreases |ops|
  {
    hide XofLane;
    if ops != [] {
      var (init, last, x) := (ops[..|ops| - 1], ops[|ops| - 1], XofLane(xof, e, i));
      WithoutLane(xof, init, e, i);
      OneMore(Net(init, e), x);
      if last.e != e {
        assert Without(ops, e)[..|Without(init, e)|] == Without(init, e);
      } else {
        assert Without(ops, e) == Without(init, e);
      }
    }
  }

  lemma OneMore(n: int, x: int)
    ensures (n + 1) * x == n * x + x && (n - 1) * x == n * x - x
  {}

  ghost predicate SameNet(a: seq<Op>, b: seq<Op>) {
    forall e :: Net(a, e) == Net(b, e)
  }

  lemma {:induction false} SameNetLane(xof: Xof, a: seq<Op>, b: seq<Op>, i: nat)
    requires SameNet(a, b) && i < LANES
    ensures NetLane(xof, a, i) == NetLane(xof, b, i)
    decreases |a| + |b|
  {
    hide XofLane, NetLane;
    if a != [] || b != [] {
      var e := if a != [] then a[0].e else b[0].e;
      WithoutLane(xof, a, e, i);
      WithoutLane(xof, b, e, i);
      forall d ensures Net(Without(a, e), d) == Net(Without(b, e), d) {
        WithoutNet(a, e, d);
        WithoutNet(b, e, d);
        assert Net(a, d) == Net(b, d);
      }
      assert Net(a, e) == Net(b, e);
      SameNetLane(xof, Without(a, e), Without(b, e), i);
    }
  }

  /** Any two histories with the same net multiset leave the same state. */
  lemma StateIsNetMultiset(xof: Xof, l: Lanes, a: seq<Op>, b: seq<Op>)
    requires SameNet(a, b)
    ensures ApplyAll(xof, l, a) == ApplyAll(xof, l, b)
  {
    hide ApplyAll, NetLane;
    forall i | 0 <= i < LANES ensures ApplyAll(xof, l, a)[i] == ApplyAll(xof, l, b)[i] {
      LaneIsNet(xof, l, a, i);
      LaneIsNet(xof, l, b, i);
      SameNetLane(xof, a, b, i);
    }
  }

  /** Adding an element to the empty hash leaves its output as the state. */
  lemma AddedAlone(xof: Xof, e: string)
    ensures BytesOf(Apply(xof, ZeroLanes(), Op.Add(e))) == xof(e)
  {
    BytesOfLanes(xof(e));
    hide BytesOf;
    assert Apply(xof, ZeroLanes(), Op.Add(e)) == LanesOf(xof(e));
  }

  /** Removing an element right after adding it restores the lanes. */
  lemma RemoveUndoesAdd(xof: Xof, l: Lanes, e: string)
    ensures Apply(xof, Apply(xof, l, Op.Add(e)), Op.Remove(e)) == l
  {
    hide Expand;
    forall i | 0 <= i < LANES ensures Apply(xof, Apply(xof, l, Op.Add(e)), Op.Remove(e))[i] == l[i] {
      var x := Expand(xof, e)[i];
      ModularStep((l[i] as int + x) % 65536, x, l[i] as int + x);
    }
  }

  // ---- records ----

  datatype Path = Path(collection: string, rkey: string)

  /** `format_set_hash_element`. */
  function Element(p: Path, cid: string): string {
    p.collection + "/" + p.rkey + "/" + cid
  }

  /** With collections and CIDs free of slashes an element names one record version, whatever its key holds. */
  lemma ElementInjective(p: Path, cid: string, q: Path, cid': string)
    requires '/' !in p.collection && '/' !in q.collection && '/' !in cid && '/' !in cid'
    requires Element(p, cid) == Element(q, cid')
    ensures p == q && cid == cid'
  {
    assert Element(p, cid) == p.collection + "/" + (p.rkey + "/" + cid);
    assert Element(q, cid') == q.collection + "/" + (q.rkey + "/" + cid');
    SplitsOneWay('/', p.collection, p.rkey + "/" + cid, q.collection, q.rkey + "/" + cid');
    SplitsOneWay('/', p.rkey, cid, q.rkey, cid');
  }

  type Records = map<Path, string>

  /** Every record path once, in some order. */
  ghost predicate Lists(records: Records, paths: seq<Path>) {
    && (forall p :: p in paths <==> p in records)
    && (forall i, j :: 0 <= i < j < |paths| ==> paths[i] != paths[j])
  }

  function AddsOf(records: Records, paths: seq<Path>): (ops: seq<Op>)
    requires forall p :: p in paths ==> p in records
  {
    seq(|paths|, i requires 0 <= i < |paths| => Op.Add(Element(paths[i], records[paths[i]])))
  }

  /** The lanes are those of rehashing the records from scratch, in whatever order. */
  ghost predicate IsRehash(xof: Xof, l: Lanes, records: Records) {
    forall paths {:trigger Lists(records, paths)} :: Lists(records, paths) ==>
      l == ApplyAll(xof, ZeroLanes(), AddsOf(records, paths))
  }

  /** The records' share of lane `i`, each through the output for "collection/rkey/cid". */
  function LaneSum(xof: Xof, records: Records, paths: seq<Path>, i: nat): int
    requires i < LANES && forall p :: p in paths ==> p in records
    decreases |paths|
  {
    if paths == [] then 0
    else
      var p := paths[|paths| - 1];
      LaneSum(xof, records, paths[..|paths| - 1], i) + XofLane(xof, p.collection + "/" + p.rkey + "/" + records[p], i)
  }

  /** Two octets of the state for each lane: the sum over the records, in whatever order, modulo 65536. */
  ghost predicate SumsRecords(xof: Xof, state: seq<byte>, records: Records) {
    && |state| == 2 * LANES
    && forall paths, i {:trigger Lists(records, paths), state[2 * i]} :: Lists(records, paths) && 0 <= i < LANES ==>
         state[2 * i] as int + 256 * state[2 * i + 1] as int == LaneSum(xof, records, paths, i) % 65536
  }

  lemma {:induction false} LaneSumIsNet(xof: Xof, records: Records, paths: seq<Path>, i: nat)
    requires i < LANES && forall p :: p in paths ==> p in records
    ensures NetLane(xof, AddsOf(records, paths), i) == LaneSum(xof, records, paths, i)
    decreases |paths|
  {
    hide XofLane;
    if paths != [] {
      var init := paths[..|paths| - 1];
      LaneSumIsNet(xof, records, init, i);
      assert AddsOf(records, paths)[..|init|] == AddsOf(records, init);
    }
  }

  /** A rehashed state is the sum of the records' outputs. */
  lemma RehashSums(xof: Xof, state: StateBytes, records: Records)
    requires IsRehash(xof, LanesOf(state), records)
    ensures SumsRecords(xof, state, records)
  {
    hide NetLane, LaneSum, ApplyAll, AddsOf;
    forall paths, i | Lists(records, paths) && 0 <= i < LANES
      ensures state[2 * i] as int + 256 * state[2 * i + 1] as int == LaneSum(xof, records, paths, i) % 65536
    {
      LaneIsNet(xof, ZeroLanes(), AddsOf(records, paths), i);
      LaneSumIsNet(xof, records, paths, i);
    }
  }

  /** The paths of the records with this element. */
  function Holders(records: Records, e: string): set<Path> {
    set p | p in records && Element(p, records[p]) == e
  }

  lemma HoldersAdd(records: Records, p: Path, cid: string, e: string)
    requires p !in records
    ensures |Holders(records[p := cid], e)| == |Holders(records, e)| + if Element(p, cid) == e then 1 else 0
  {
    hide Element;
    assert Holders(records[p := cid], e) == Holders(records, e) + if Element(p, cid) == e then {p} else {};
  }

  lemma HoldersDrop(records: Records, p: Path, e: string)
    ensures |Holders(records, e)|
         == |Holders(records - {p}, e)| + if p in records && Element(p, records[p]) == e then 1 else 0
  {
    hide Element, Holders;
    if p in records {
      HoldersAdd(records - {p}, p, records[p], e);
      assert (records - {p})[p := records[p]] == records;
    } else {
      assert records - {p} == records;
    }
  }

  lemma {:induction false} NetOfListing(records: Records, paths: seq<Path>, e: string)
    requires Lists(records, paths)
    ensures Net(AddsOf(records, paths), e) == |Holders(records, e)|
    decreases |paths|
  {
    hide Element, Holders;
    if paths == [] {
      NoHolders(records, e);
    } else {
      var (init, last) := (paths[..|paths| - 1], paths[|paths| - 1]);
      var fewer := records - {last};
      ListingInit(records, paths);
      NetOfListing(fewer, init, e);
      HoldersDrop(records, last, e);
      var ops := AddsOf(records, paths);
      assert ops[..|init|] == AddsOf(fewer, init);
      assert ops[|init|] == Op.Add(Element(last, records[last]));
    }
  }

  lemma NoHolders(records: Records, e: string)
    requires Lists(records, [])
    ensures Holders(records, e) == {}
  {}

  lemma ListingInit(records: Records, paths: seq<Path>)
    requires Lists(records, paths) && paths != []
    ensures Lists(records - {paths[|paths| - 1]}, paths[..|paths| - 1])
  {
    var (init, last) := (paths[..|paths| - 1], paths[|paths| - 1]);
    assert forall p :: p in paths <==> p in init || p == last;
  }

  lemma {:induction false} ListingExists(records: Records) returns (paths: seq<Path>)
    ensures Lists(records, paths)
    decreases |records|
  {
    if records == map[] {
      paths := [];
    } else {
      var p :| p in records;
      var rest := ListingExists(records - {p});
      paths := rest + [p];
    }
  }

  /** The operations a write to `p` applies: the old version out, the new one in. */
  function WriteOps(records: Records, p: Path, cid: Option<string>): seq<Op> {
    (if p in records then [Op.Remove(Element(p, records[p]))] else [])
    + (if cid.Some? then [Op.Add(Element(p, cid.value))] else [])
  }

  function Written(records: Records, p: Path, cid: Option<string>): Records {
    if cid.Some? then records[p := cid.value] else records - {p}
  }

  lemma HoldersAfterWrite(records: Records, p: Path, cid: Option<string>, e: string)
    ensures |Holders(Written(records, p, cid), e)| == |Holders(records, e)| + Net(WriteOps(records, p, cid), e)
  {
    hide Element, Holders, Net;
    HoldersDrop(records, p, e);
    if cid.Some? {
      HoldersAdd(records - {p}, p, cid.value, e);
      assert (records - {p})[p := cid.value] == records[p := cid.value];
    }
    var removes := if p in records then [Op.Remove(Element(p, records[p]))] else [];
    var adds := if cid.Some? then [Op.Add(Element(p, cid.value))] else [];
    NetAppend(removes, adds, e);
    NetShort(removes, e);
    NetShort(adds, e);
  }

  lemma NetShort(ops: seq<Op>, e: string)
    ensures ops == [] ==> Net(ops, e) == 0
    ensures |ops| == 1 ==> Net(ops, e) == if ops[0].e != e then 0 else if ops[0].Add? then 1 else -1
  {}

  lemma {:induction false} NetAppend(a: seq<Op>, b: seq<Op>, e: string)
    ensures Net(a + b, e) == Net(a, e) + Net(b, e)
    decreases |b|
  {
    if b == [] {
      assert a + b == a;
    } else {
      assert (a + b)[..|a + b| - 1] == a + b[..|b| - 1];
      NetAppend(a, b[..|b| - 1], e);
    }
  }

  lemma {:induction false} ApplyAllAppend(xof: Xof, l: Lanes, a: seq<Op>, b: seq<Op>)
    ensures ApplyAll(xof, l, a + b) == ApplyAll(xof, ApplyAll(xof, l, a), b)
    decreases |b|
  {
    hide Apply;
    if b == [] {
      assert a + b == a;
    } else {
      assert (a + b)[..|a + b| - 1] == a + b[..|b| - 1];
      ApplyAllAppend(xof, l, a, b[..|b| - 1]);
    }
  }

  /** One write keeps the incrementally maintained lanes equal to a rehash of the records. */
  lemma WriteKeepsRehash(xof: Xof, l: Lanes, records: Records, p: Path, cid: Option<string>)
    requires IsRehash(xof, l, records)
    ensures IsRehash(xof, ApplyAll(xof, l, WriteOps(records, p, cid)), Written(records, p, cid))
  {
    hide ApplyAll, Net, Holders;
    var (ops, records') := (WriteOps(records, p, cid), Written(records, p, cid));
    hide WriteOps, Written;
    var paths := ListingExists(records);
    var history := AddsOf(records, paths) + ops;
    ApplyAllAppend(xof, ZeroLanes(), AddsOf(records, paths), ops);
    forall paths' | Lists(records', paths')
      ensures ApplyAll(xof, l, ops) == ApplyAll(xof, ZeroLanes(), AddsOf(records', paths'))
    {
      forall e ensures Net(history, e) == Net(AddsOf(records', paths'), e) {
        NetAppend(AddsOf(records, paths), ops, e);
        NetOfListing(records, paths, e);
        NetOfListing(records', paths', e);
        HoldersAfterWrite(records, p, cid, e);
      }
      StateIsNetMultiset(xof, ZeroLanes(), history, AddsOf(records', paths'));
    }
  }

  lemma NothingListed(records: Records, paths: seq<Path>)
    requires Lists(records, paths)
    ensures paths != [] ==> paths[0] in records
  {}

  /** No records, no state: the lanes of an emptied repo are all zero. */
  lemma EmptyIsZero(xof: Xof, l: Lanes, records: Records)
    ensures records == map[] ==> (IsRehash(xof, l, records) <==> l == ZeroLanes())
  {
    if records == map[] {
      assert Lists(records, []);
      forall paths | Lists(records, paths) ensures paths == [] {
        NothingListed(records, paths);
      }
      assert ApplyAll(xof, ZeroLanes(), AddsOf(records, [])) == ZeroLanes();
    }
  }

  // ---- batches of writes ----

  datatype Action = Create | Put | Update | Delete

  /** A write whose value, unless it deletes, has been encoded to a block with this CID. */
  datatype Write = Write(action: Action, path: Path, cid: string)

  datatype WriteError = RecordAlreadyExists | RecordNotFound

  function NewCid(w: Write): Option<string> {
    if w.action == Delete then None else Some(w.cid)
  }

  function Refusal(records: Records, w: Write): Option<WriteError> {
    if w.action == Create && w.path in records then Some(RecordAlreadyExists)
    else if w.action in {Update, Delete} && w.path !in records then Some(RecordNotFound)
    else None
  }

  function Extended(records: Records, w: Write): Result<Records, WriteError> {
    if Refusal(records, w).Some? then Err(Refusal(records, w).value) else Ok(Written(records, w.path, NewCid(w)))
  }

  /** The records once a batch is through, or the first refusal in it. */
  function Outcome(records: Records, writes: seq<Write>): Result<Records, WriteError>
    decreases |writes|
  {
    if writes == [] then Ok(records)
    else
      var before := Outcome(records, writes[..|writes| - 1]);
      if before.Err? then before else Extended(before.value, writes[|writes| - 1])
  }

  lemma {:induction false} OutcomeErrs(records: Records, writes: seq<Write>, i: nat)
    requires i <= |writes| && Outcome(records, writes[..i]).Err?
    ensures Outcome(records, writes) == Outcome(records, writes[..i])
    decreases |writes|
  {
    if i == |writes| {
      assert writes[..i] == writes;
    } else {
      var init := writes[..|writes| - 1];
      assert init[..i] == writes[..i];
      OutcomeErrs(records, init, i);
    }
  }

  /** The last write to a path. */
  function LastWrite(writes: seq<Write>, p: Path): Option<Write>
    decreases |writes|
  {
    if writes == [] then None
    else if writes[|writes| - 1].path == p then Some(writes[|writes| - 1])
    else LastWrite(writes[..|writes| - 1], p)
  }

  /** The CID a path has after the writes: that of the last one to it, if it was not a delete, or what it had. */
  function CidAfter(records: Records, writes: seq<Write>, p: Path): Option<string> {
    match LastWrite(writes, p)
    case None => if p in records then Some(records[p]) else None
    case Some(w) => if w.action == Delete then None else Some(w.cid)
  }

  /** A create finds nothing, an update or a delete finds something; a put does either way. */
  predicate Allowed(records: Records, before: seq<Write>, w: Write) {
    match w.action
    case Create => CidAfter(records, before, w.path).None?
    case Put => true
    case Update => CidAfter(records, before, w.path).Some?
    case Delete => CidAfter(records, before, w.path).Some?
  }

  ghost predicate AllAllowed(records: Records, writes: seq<Write>) {
    forall i :: 0 <= i < |writes| ==> Allowed(records, writes[..i], writes[i])
  }

  /** The records hold what the last write to each path left. */
  ghost predicate HoldsLast(records: Records, writes: seq<Write>, after: Records) {
    forall p :: CidAfter(records, writes, p) == if p in after then Some(after[p]) else None
  }

  /** The first write that is not allowed gives the error: a create found something, or nothing was there to change. */
  ghost predicate RefusedFor(records: Records, writes: seq<Write>, error: WriteError) {
    exists i :: 0 <= i < |writes| && AllAllowed(records, writes[..i]) && !Allowed(records, writes[..i], writes[i])
                && error == if writes[i].action == Create then RecordAlreadyExists else RecordNotFound
  }

  lemma AllowedInit(records: Records, writes: seq<Write>)
    requires writes != []
    ensures var (init, last) := (writes[..|writes| - 1], writes[|writes| - 1]);
            AllAllowed(records, writes) <==> AllAllowed(records, init) && Allowed(records, init, last)
  {
    hide Allowed;
    var init := writes[..|writes| - 1];
    assert forall i {:trigger writes[i]} :: 0 <= i < |init| ==> init[..i] == writes[..i] && init[i] == writes[i];
    forall i | 0 <= i < |init| && AllAllowed(records, writes) ensures Allowed(records, init[..i], init[i]) {
      assert Allowed(records, writes[..i], writes[i]);
    }
  }

  lemma RefusedInit(records: Records, writes: seq<Write>, error: WriteError)
    requires writes != [] && RefusedFor(records, writes[..|writes| - 1], error)
    ensures RefusedFor(records, writes, error) && !AllAllowed(records, writes)
  {
    hide Allowed;
    var init := writes[..|writes| - 1];
    var i :| 0 <= i < |init| && AllAllowed(records, init[..i]) && !Allowed(records, init[..i], init[i])
             && error == if init[i].action == Create then RecordAlreadyExists else RecordNotFound;
    assert init[..i] == writes[..i] && init[i] == writes[i];
  }

  lemma ExtendedHolds(records: Records, init: seq<Write>, before: Records, last: Write)
    requires HoldsLast(records, init, before)
    ensures Allowed(records, init, last) <==> Refusal(before, last).None?
    ensures Refusal(before, last).None? ==> HoldsLast(records, init + [last], Written(before, last.path, NewCid(last)))
  {
    assert CidAfter(records, init, last.path) == if last.path in before then Some(before[last.path]) else None;
    hide CidAfter;
    forall p
      ensures CidAfter(records, init + [last], p) == if p == last.path then NewCid(last) else CidAfter(records, init, p)
    {
      CidAfterOne(records, init, last, p);
    }
  }

  lemma CidAfterOne(records: Records, init: seq<Write>, last: Write, p: Path)
    ensures CidAfter(records, init + [last], p) == if p == last.path then NewCid(last) else CidAfter(records, init, p)
  {
    assert (init + [last])[..|init|] == init;
  }

  /**
   * A batch goes through exactly when every write is allowed where it stands, and then the last write to a path
   * counts.
   */
  lemma {:induction false} OutcomeIff(records: Records, writes: seq<Write>)
    ensures Outcome(records, writes).Ok? <==> AllAllowed(records, writes)
    ensures Outcome(records, writes).Ok? ==> HoldsLast(records, writes, Outcome(records, writes).value)
    ensures Outcome(records, writes).Err? ==> RefusedFor(records, writes, Outcome(records, writes).error)
    decreases |writes|
  {
    hide Allowed, HoldsLast, RefusedFor, AllAllowed, Written;
    if writes == [] {
      NoWrites(records);
    } else {
      var (init, last) := (writes[..|writes| - 1], writes[|writes| - 1]);
      assert writes == init + [last];
      OutcomeIff(records, init);
      AllowedInit(records, writes);
      if Outcome(records, init).Err? {
        RefusedInit(records, writes, Outcome(records, init).error);
      } else {
        ExtendedHolds(records, init, Outcome(records, init).value, last);
        LastRefused(records, init, last);
      }
    }
  }

  lemma NoWrites(records: Records)
    ensures AllAllowed(records, []) && HoldsLast(records, [], records)
  {}

  lemma LastRefused(records: Records, init: seq<Write>, last: Write)
    requires AllAllowed(records, init)
    ensures !Allowed(records, init, last) ==>
              RefusedFor(records, init + [last], if last.action == Create then RecordAlreadyExists else RecordNotFound)
  {
    hide Allowed, AllAllowed;
    assert (init + [last])[..|init|] == init && (init + [last])[|init|] == last;
  }

  class SpaceRepo {
    var records: Records
    var state: Option<seq<byte>>
    const xof: Xof

    /** No head without records, and a head's state is the rehash of its records. */
    ghost predicate Valid()
      reads this
    {
      if records == map[] then state.None?
      else state.Some? && |state.value| == 2 * LANES && IsRehash(xof, LanesOf(state.value), records)
    }

    constructor (xof: Xof)
      ensures Valid() && this.xof == xof && records == map[]
    {
      this.xof, records, state := xof, map[], None;
    }

    /** `apply_space_writes`, from the stored state to the stored state; a refused batch leaves everything as it was. */
    method ApplySpaceWrites(writes: seq<Write>) returns (r: Result<(), WriteError>)
      requires Valid()
      modifies this
      ensures Valid()
      ensures var outcome := Outcome(old(records), writes);
              if outcome.Ok? then r == Ok(()) && records == outcome.value
              else r == Err(outcome.error) && records == old(records) && state == old(state)
      ensures r.Ok? <==> AllAllowed(old(records), writes)
      ensures r.Ok? ==> HoldsLast(old(records), writes, records)
      ensures r.Err? ==> RefusedFor(old(records), writes, r.error)
      ensures r.Ok? && records != map[] ==> state.Some? && SumsRecords(xof, state.value, records)
      ensures r.Ok? && records == map[] ==> state == None
    {
      hide AllAllowed, HoldsLast, RefusedFor, SumsRecords;
      OutcomeIff(records, writes);
      hide Written, Refusal, IsRehash, LanesOf;
      var hash := LoadHash();
      var rows := records;
      for i := 0 to |writes|
        invariant hash.Valid() && fresh(hash) && fresh(hash.lanes) && hash.xof == xof
        invariant records == old(records) && state == old(state)
        invariant Outcome(records, writes[..i]) == Ok(rows)
        invariant IsRehash(xof, hash.Value(), rows)
      {
        var w := writes[i];
        assert writes[..i + 1][..i] == writes[..i];
        if Refusal(rows, w).Some? {
          OutcomeErrs(records, writes, i + 1);
          return Err(Refusal(rows, w).value);
        }
        rows := FoldWrite(hash, rows, w);
      }
      assert writes[..|writes|] == writes;
      StoreHash(hash, rows);
      if records != map[] {
        RehashSums(xof, state.value, records);
      }
      return Ok(());
    }

    method LoadHash() returns (hash: Hash)
      requires Valid()
      ensures hash.Valid() && fresh(hash) && fresh(hash.lanes) && hash.xof == xof
      ensures IsRehash(xof, hash.Value(), records)
    {
      hide IsRehash, LanesOf;
      if state.Some? {
        var resumed := FromState(xof, state.value);
        hash := resumed.value;
        StateIff(state.value, hash.Value());
      } else {
        hash := new Hash(xof);
        EmptyIsZero(xof, ZeroLanes(), records);
      }
    }

    method FoldWrite(hash: Hash, rows: Records, w: Write) returns (rows': Records)
      requires hash.Valid() && Refusal(rows, w).None? && IsRehash(hash.xof, hash.Value(), rows)
      modifies hash.lanes
      ensures rows' == Written(rows, w.path, NewCid(w))
      ensures IsRehash(hash.xof, hash.Value(), rows')
    {
      hide IsRehash, Element, Apply;
      ghost var before := hash.Value();
      WriteKeepsRehash(hash.xof, before, rows, w.path, NewCid(w));
      ghost var ops := WriteOps(rows, w.path, NewCid(w));
      ApplyShort(hash.xof, before, ops);
      if w.path in rows {
        hash.Remove(Element(w.path, rows[w.path]));
      }
      if w.action != Delete {
        hash.Add(Element(w.path, w.cid));
      }
      rows' := if w.action == Delete then rows - {w.path} else rows[w.path := w.cid];
    }

    method StoreHash(hash: Hash, rows: Records)
      requires hash.Valid() && IsRehash(xof, hash.Value(), rows)
      modifies this
      ensures Valid() && records == rows
    {
      hide IsRehash, LanesOf, BytesOf;
      var bytes := hash.State();
      StateIff(bytes[..], hash.Value());
      records := rows;
      state := if rows == map[] then None else Some(bytes[..]);
    }
  }

  lemma ApplyShort(xof: Xof, l: Lanes, ops: seq<Op>)
    ensures ops == [] ==> ApplyAll(xof, l, ops) == l
    ensures |ops| == 1 ==> ApplyAll(xof, l, ops) == Apply(xof, l, ops[0])
    ensures |ops| == 2 ==> ApplyAll(xof, l, ops) == Apply(xof, Apply(xof, l, ops[0]), ops[1])
  {
    hide Apply;
    if |ops| == 2 {
      assert ops[..1][..0] == [] && ops[..1][0] == ops[0];
    } else if |ops| == 1 {
      assert ops[..0] == [];
    }
  }
}
