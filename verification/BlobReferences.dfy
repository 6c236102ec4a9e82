/** Which blob CIDs an account's records link, and how often: the walk the collector takes as truth (`blob_gc.rs`). */
module BlobReferences {
  import opened Wrappers
  import opened CanonicalOrder
  import BlobGc

  type Cid = string

  datatype Json =
    | Null
    | Bool(b: bool)
    | Number(n: int)
    | Str(s: string)
    | Arr(items: seq<Json>)
    | Obj(fields: seq<(string, Json)>)

  /** The single-key object `{"$link": "<cid>"}`. */
  predicate IsLink(v: Json) {
    v.Obj? && |v.fields| == 1 && v.fields[0].0 == "$link" && v.fields[0].1.Str?
  }

  function LinkTo(c: Cid): Json {
    Obj([("$link", Str(c))])
  }

  // ---- the links of a value ----

  function Links(v: Json): multiset<Cid>
    decreases v, Arity(v) + 1
  {
    if IsLink(v) then multiset{v.fields[0].1.s} else ChildLinks(v, Arity(v))
  }

  /** The links of the first `n` children. */
  function ChildLinks(v: Json, n: nat): multiset<Cid>
    requires n <= Arity(v)
    decreases v, n
  {
    if n == 0 then multiset{} else ChildLinks(v, n - 1) + Links(Child(v, n - 1))
  }

  function Arity(v: Json): nat {
    match v
    case Arr(items) => |items|
    case Obj(fields) => |fields|
    case _ => 0
  }

  function Child(v: Json, i: nat): (child: Json)
    requires i < Arity(v)
    ensures child < v
  {
    if v.Arr? then v.items[i] else assert v.fields[i] in v.fields; v.fields[i].1
  }

  /** The value reached from `v` by child positions. */
  function At(v: Json, path: seq<nat>): Option<Json>
    decreases path
  {
    if path == [] then Some(v) else if path[0] < Arity(v) then At(Child(v, path[0]), path[1..]) else None
  }

  /** A CID is tallied exactly when a link object naming it stands somewhere in the value, at any depth. */
  lemma LinkedIff(v: Json, c: Cid)
    ensures c in Links(v) <==> exists path :: At(v, path) == Some(LinkTo(c))
  {
    if c in Links(v) {
      var path := PathToLink(v, c);
    }
    if path :| At(v, path) == Some(LinkTo(c)) {
      LinkAtIsTallied(v, path, c);
    }
  }

  lemma {:induction false} PathToLink(v: Json, c: Cid) returns (path: seq<nat>)
    requires c in Links(v)
    ensures At(v, path) == Some(LinkTo(c))
    decreases v, 0
  {
    if IsLink(v) {
      path := [];
      assert v.fields == [("$link", Str(c))];
    } else {
      var i := ChildWithLink(v, Arity(v), c);
      var rest := PathToLink(Child(v, i), c);
      path := [i] + rest;
      assert path[1..] == rest;
    }
  }

  lemma {:induction false} ChildWithLink(v: Json, n: nat, c: Cid) returns (i: nat)
    requires n <= Arity(v) && c in ChildLinks(v, n)
    ensures i < n && c in Links(Child(v, i))
    decreases n
  {
    if c in Links(Child(v, n - 1)) {
      i := n - 1;
    } else {
      i := ChildWithLink(v, n - 1, c);
    }
  }

  lemma {:induction false} ChildLinksCovers(v: Json, n: nat, i: nat, c: Cid)
    requires i < n <= Arity(v) && c in Links(Child(v, i))
    ensures c in ChildLinks(v, n)
    decreases n
  {
    if i < n - 1 {
      ChildLinksCovers(v, n - 1, i, c);
    }
  }

  lemma {:induction false} LinkAtIsTallied(v: Json, path: seq<nat>, c: Cid)
    requires At(v, path) == Some(LinkTo(c))
    ensures c in Links(v)
    decreases path
  {
    if path != [] {
      var i := path[0];
      assert !IsLink(v);
      LinkAtIsTallied(Child(v, i), path[1..], c);
      ChildLinksCovers(v, Arity(v), i, c);
    }
  }

  // ---- tallying ----

  /** The counts hold exactly what the multiset holds. */
  ghost predicate Tally(counts: map<Cid, nat>, m: multiset<Cid>) {
    forall c :: (c in counts <==> c in m) && (c in counts ==> counts[c] == m[c])
  }

  lemma LinksOf(v: Json)
    ensures Links(v) == if IsLink(v) then multiset{v.fields[0].1.s} else ChildLinks(v, Arity(v))
    ensures ChildLinks(v, 0) == multiset{}
  {}

  lemma NextChildLinks(v: Json, i: nat)
    requires i < Arity(v)
    ensures ChildLinks(v, i + 1) == ChildLinks(v, i) + Links(Child(v, i))
  {}

  lemma TallyOne(counts: map<Cid, nat>, m: multiset<Cid>, c: Cid)
    requires Tally(counts, m)
    ensures Tally(counts[c := (if c in counts then counts[c] else 0) + 1], m + multiset{c})
  {}

  /** `collect_blob_links`. */
  method CollectBlobLinks(v: Json, counts: map<Cid, nat>, ghost m: multiset<Cid>) returns (counts': map<Cid, nat>)
    requires Tally(counts, m)
    ensures Tally(counts', m + Links(v))
    decreases v
  {
    hide Tally, Links, ChildLinks;
    LinksOf(v);
    counts' := counts;
    if IsLink(v) {
      var c := v.fields[0].1.s;
      TallyOne(counts, m, c);
      counts' := counts[c := (if c in counts then counts[c] else 0) + 1];
      return;
    }
    var i := 0;
    assert m + ChildLinks(v, 0) == m;
    while i < Arity(v)
      invariant i <= Arity(v) && Tally(counts', m + ChildLinks(v, i))
    {
      counts' := CollectBlobLinks(Child(v, i), counts', m + ChildLinks(v, i));
      NextChildLinks(v, i);
      assert m + ChildLinks(v, i + 1) == m + ChildLinks(v, i) + Links(Child(v, i));
      i := i + 1;
    }
  }

  // ---- the two surfaces, page by page ----

  /** `RECORD_PAGE_SIZE`. */
  const PAGE := 100

  /** The three columns a page is ordered by; within one collection of the public repo only the last one varies. */
  datatype RowKey = RowKey(space: string, collection: string, rkey: string)

  /** "From the start": it sorts before every real key. */
  const START := RowKey("", "", "")

  /** The row-value comparison of the page query. */
  predicate KeyLess(a: RowKey, b: RowKey) {
    || ByteLess(a.space, b.space)
    || (a.space == b.space && ByteLess(a.collection, b.collection))
    || (a.space == b.space && a.collection == b.collection && ByteLess(a.rkey, b.rkey))
  }

  lemma KeyLessIsStrict(a: RowKey, b: RowKey)
    ensures !(KeyLess(a, b) && KeyLess(b, a)) && !KeyLess(a, a)
  {
    ByteLessTotal(a.space, b.space);
    ByteLessTotal(a.collection, b.collection);
    ByteLessTotal(a.rkey, b.rkey);
  }

  /** A stored record: its key, and its JSON unless its block cannot be read or does not decode. */
  datatype Record = Record(key: RowKey, value: Option<Json>)

  /** Keys ascend strictly from the start. */
  ghost predicate Keyed(rows: seq<Record>) {
    && (forall i :: 0 <= i < |rows| ==> KeyLess(START, rows[i].key))
    && (forall i, j :: 0 <= i < j < |rows| ==> KeyLess(rows[i].key, rows[j].key))
  }

  /** The first `limit` rows whose key is after `cursor`. */
  function PageAfter(rows: seq<Record>, cursor: RowKey, limit: nat): seq<Record>
    decreases |rows|, limit
  {
    if rows == [] || limit == 0 then []
    else if !KeyLess(cursor, rows[0].key) then PageAfter(rows[1..], cursor, limit)
    else [rows[0]] + PageAfter(rows[1..], cursor, limit - 1)
  }

  /** Past the row at `i - 1`, a page is the next stretch of the table. */
  lemma {:induction false} PageIsNextStretch(rows: seq<Record>, i: nat, cursor: RowKey, limit: nat)
    requires Keyed(rows) && i <= |rows| && cursor == Before(rows, i)
    ensures PageAfter(rows, cursor, limit) == rows[i..if i + limit <= |rows| then i + limit else |rows|]
    decreases i
  {
    hide KeyLess;
    if i == 0 {
      PageFromStart(rows, cursor, limit);
    } else if limit != 0 {
      var rest := rows[1..];
      KeyLessIsStrict(rows[0].key, cursor);
      if i == 1 {
        PageFromStart(rest, cursor, limit);
      } else {
        assert Keyed(rest) && rest[i - 2] == rows[i - 1];
        PageIsNextStretch(rest, i - 1, cursor, limit);
      }
      var stop := if i + limit <= |rows| then i + limit else |rows|;
      assert rest[i - 1..stop - 1] == rows[i..stop];
    }
  }

  lemma {:induction false} PageFromStart(rows: seq<Record>, cursor: RowKey, limit: nat)
    requires forall i :: 0 <= i < |rows| ==> KeyLess(cursor, rows[i].key)
    ensures PageAfter(rows, cursor, limit) == rows[..if limit <= |rows| then limit else |rows|]
    decreases |rows|
  {
    if rows != [] && limit != 0 {
      PageFromStart(rows[1..], cursor, limit - 1);
    }
  }

  /** The links of all the rows, provided they decode. */
  function RowLinks(rows: seq<Record>): multiset<Cid>
    decreases |rows|
  {
    if rows == [] then multiset{}
    else
      var last := rows[|rows| - 1].value;
      RowLinks(rows[..|rows| - 1]) + if last.Some? then Links(last.value) else multiset{}
  }

  predicate Decodes(rows: seq<Record>) {
    forall i :: 0 <= i < |rows| ==> rows[i].value.Some?
  }

  /** Counts that began at `m` and have taken in `rows`. */
  ghost predicate Tallied(rows: seq<Record>, counts: map<Cid, nat>, m: multiset<Cid>) {
    Decodes(rows) && Tally(counts, m + RowLinks(rows))
  }

  lemma TalliedNone(counts: map<Cid, nat>, m: multiset<Cid>)
    ensures Tallied([], counts, m) <==> Tally(counts, m)
  {
    assert m + RowLinks([]) == m;
  }

  /** One row that decoded. */
  method TallyRow(row: Record, counts: map<Cid, nat>, ghost done: seq<Record>,
                  ghost m: multiset<Cid>) returns (counts': map<Cid, nat>)
    requires row.value.Some? && Tallied(done, counts, m)
    ensures Tallied(done + [row], counts', m)
  {
    hide Tally, Links;
    counts' := CollectBlobLinks(row.value.value, counts, m + RowLinks(done));
    assert (done + [row])[..|done|] == done;
    assert m + RowLinks(done + [row]) == m + RowLinks(done) + Links(row.value.value);
  }

  /** A page is the next stretch of `rows`: its rows in order, failing at the first that does not decode. */
  method TallyPage(page: seq<Record>, counts: map<Cid, nat>, after: RowKey, ghost rows: seq<Record>, ghost i: nat,
                   ghost m: multiset<Cid>)
    returns (r: Result<map<Cid, nat>, ()>, cursor: RowKey)
    requires i + |page| <= |rows| && page == rows[i..i + |page|]
    requires Tallied(rows[..i], counts, m) && after == Before(rows, i)
    ensures r.Err? ==> !Decodes(rows)
    ensures r.Ok? ==> Tallied(rows[..i + |page|], r.value, m) && cursor == Before(rows, i + |page|)
  {
    hide Tallied;
    var tally := counts;
    cursor := after;
    var j: nat := 0;
    while j < |page|
      invariant j <= |page| && cursor == Before(rows, i + j)
      invariant Tallied(rows[..i + j], tally, m)
    {
      assert page[j] == rows[i + j];
      if page[j].value.None? {
        return Err(()), cursor;
      }
      tally := TallyRow(page[j], tally, rows[..i + j], m);
      assert rows[..i + j] + [page[j]] == rows[..i + j + 1];
      cursor, j := page[j].key, j + 1;
    }
    r := Ok(tally);
  }

  /** The key of the last of the first `i` rows. */
  function Before(rows: seq<Record>, i: nat): RowKey
    requires i <= |rows|
  {
    if i == 0 then START else rows[i - 1].key
  }

  /** The space surface: pages of `PAGE` until one comes back short. Fails exactly when a row does not decode. */
  method CollectSpaceRecords(rows: seq<Record>, counts: map<Cid, nat>,
                             ghost m: multiset<Cid>) returns (r: Result<map<Cid, nat>, ()>)
    requires Keyed(rows) && Tallied([], counts, m)
    ensures r.Ok? ==> Tallied(rows, r.value, m)
    ensures r.Err? ==> !Decodes(rows)
  {
    hide Tallied, PageAfter, Keyed, Decodes, KeyLess;
    var tally, cursor := counts, START;
    ghost var i: nat := 0;
    while true
      invariant i <= |rows| && cursor == Before(rows, i)
      invariant Tallied(rows[..i], tally, m)
      decreases |rows| - i
    {
      PageIsNextStretch(rows, i, cursor, PAGE);
      var page := PageAfter(rows, cursor, PAGE);
      var part;
      part, cursor := TallyPage(page, tally, cursor, rows, i, m);
      if part.Err? {
        return Err(());
      }
      tally, i := part.value, i + |page|;
      if |page| < PAGE {
        assert rows[..i] == rows;
        return Ok(tally);
      }
    }
  }

  /** One collection of the public repo: a page carries a cursor exactly when rows remain behind it. */
  method CollectCollection(rows: seq<Record>, counts: map<Cid, nat>,
                           ghost m: multiset<Cid>) returns (r: Result<map<Cid, nat>, ()>)
    requires Keyed(rows) && Tallied([], counts, m)
    ensures r.Ok? ==> Tallied(rows, r.value, m)
    ensures r.Err? ==> !Decodes(rows)
  {
    hide Tallied, PageAfter, Keyed, Decodes, KeyLess;
    var tally, cursor, more := counts, START, true;
    ghost var i: nat := 0;
    while more
      invariant i <= |rows| && cursor == Before(rows, i)
      invariant !more ==> i == |rows|
      invariant Tallied(rows[..i], tally, m)
      decreases more, |rows| - i
    {
      PageIsNextStretch(rows, i, cursor, PAGE + 1);
      var ahead := PageAfter(rows, cursor, PAGE + 1);
      more := |ahead| > PAGE;
      var page := if more then ahead[..PAGE] else ahead;
      assert page == rows[i..i + |page|];
      var part;
      part, cursor := TallyPage(page, tally, cursor, rows, i, m);
      if part.Err? {
        return Err(());
      }
      tally, i := part.value, i + |page|;
    }
    assert rows[..i] == rows;
    r := Ok(tally);
  }

  // ---- an account ----

  /** A public repo: without a root, with one that cannot be opened and listed, or with its collections. */
  datatype Repo = NoRoot | CannotOpen | Opened(collections: seq<seq<Record>>)

  /** An account's records: its public repo, and its space records. */
  datatype Account = Account(repo: Repo, space: seq<Record>)

  ghost predicate Stored(a: Account) {
    Keyed(a.space) && (a.repo.Opened? ==> forall i :: 0 <= i < |a.repo.collections| ==> Keyed(a.repo.collections[i]))
  }

  predicate Readable(a: Account) {
    && Decodes(a.space) && !a.repo.CannotOpen?
    && (a.repo.Opened? ==> forall i :: 0 <= i < |a.repo.collections| ==> Decodes(a.repo.collections[i]))
  }

  function RepoLinks(collections: seq<seq<Record>>): multiset<Cid>
    decreases |collections|
  {
    if collections == [] then multiset{}
    else RepoLinks(collections[..|collections| - 1]) + RowLinks(collections[|collections| - 1])
  }

  function AccountLinks(a: Account): multiset<Cid> {
    (if a.repo.Opened? then RepoLinks(a.repo.collections) else multiset{}) + RowLinks(a.space)
  }

  /**
   * `collect_referenced_blob_cids`: the tally over both surfaces, every record once; it fails, so that the account is
   * left out of the sweep, exactly when its repo cannot be opened or some record cannot be read.
   */
  method CollectReferencedBlobCids(a: Account) returns (r: Result<map<Cid, nat>, ()>)
    requires Stored(a)
    ensures r.Ok? <==> Readable(a)
    ensures r.Ok? ==> Tally(r.value, AccountLinks(a))
  {
    var counts: map<Cid, nat> := map[];
    ghost var m: multiset<Cid> := multiset{};
    assert Tally(counts, m);
    hide Tally, Keyed, RowLinks, RepoLinks;
    TalliedNone(counts, m);
    if a.repo.CannotOpen? {
      return Err(());
    }
    if a.repo.Opened? {
      var collections := a.repo.collections;
      var part := CollectRepo(collections);
      if part.Err? {
        return Err(());
      }
      counts, m := part.value, RepoLinks(collections);
      TalliedNone(counts, m);
    }
    assert m + RowLinks(a.space) == AccountLinks(a);
    r := CollectSpaceRecords(a.space, counts, m);
  }

  /** The public surface: every collection in turn. */
  method CollectRepo(collections: seq<seq<Record>>) returns (r: Result<map<Cid, nat>, ()>)
    requires forall i :: 0 <= i < |collections| ==> Keyed(collections[i])
    ensures r.Ok? <==> forall i :: 0 <= i < |collections| ==> Decodes(collections[i])
    ensures r.Ok? ==> Tally(r.value, RepoLinks(collections))
  {
    var counts: map<Cid, nat> := map[];
    hide Keyed, RowLinks;
    var i := 0;
    while i < |collections|
      invariant i <= |collections| && Tally(counts, RepoLinks(collections[..i]))
      invariant forall k :: 0 <= k < i ==> Decodes(collections[k])
    {
      TalliedNone(counts, RepoLinks(collections[..i]));
      var part := CollectCollection(collections[i], counts, RepoLinks(collections[..i]));
      if part.Err? {
        return Err(());
      }
      assert collections[..i + 1][..i] == collections[..i];
      counts, i := part.value, i + 1;
    }
    assert collections[..i] == collections;
    r := Ok(counts);
  }

  ghost predicate InRows(rows: seq<Record>, v: Json) {
    exists i :: 0 <= i < |rows| && rows[i].value == Some(v)
  }

  ghost predicate Holds(a: Account, v: Json) {
    || InRows(a.space, v)
    || (a.repo.Opened? && exists i :: 0 <= i < |a.repo.collections| && InRows(a.repo.collections[i], v))
  }

  lemma {:induction false} RowLinksCover(rows: seq<Record>, i: nat, c: Cid)
    requires i < |rows| && rows[i].value.Some? && c in Links(rows[i].value.value)
    ensures c in RowLinks(rows)
    decreases |rows|
  {
    if i < |rows| - 1 {
      RowLinksCover(rows[..|rows| - 1], i, c);
    }
  }

  lemma {:induction false} RepoLinksCover(collections: seq<seq<Record>>, i: nat, c: Cid)
    requires i < |collections| && c in RowLinks(collections[i])
    ensures c in RepoLinks(collections)
    decreases |collections|
  {
    if i < |collections| - 1 {
      RepoLinksCover(collections[..|collections| - 1], i, c);
    }
  }

  lemma RecordLinksAreTallied(a: Account, v: Json, c: Cid)
    requires Holds(a, v) && c in Links(v)
    ensures c in AccountLinks(a)
  {
    if InRows(a.space, v) {
      var i :| 0 <= i < |a.space| && a.space[i].value == Some(v);
      RowLinksCover(a.space, i, c);
    } else {
      var i :| 0 <= i < |a.repo.collections| && InRows(a.repo.collections[i], v);
      var rows := a.repo.collections[i];
      var j :| 0 <= j < |rows| && rows[j].value == Some(v);
      RowLinksCover(rows, j, c);
      RepoLinksCover(a.repo.collections, i, c);
    }
  }

  /**
   * From a link in a record to bytes on disk: when the pass used what the walk returned for account `d`, a stored blob
   * linked at any depth of any record of `d`, public or space, keeps its bytes and a permanent row counting its links.
   */
  lemma LinkedBlobIsKept(a: Account, v: Json, path: seq<nat>, s: BlobGc.Store, mid: BlobGc.Store, s': BlobGc.Store,
                         refs: BlobGc.References, grace: string -> int, failed: set<string>, now: int,
                         gone: set<BlobGc.Key>, k: BlobGc.Key)
    requires Holds(a, v) && At(v, path) == Some(LinkTo(k.cid))
    requires k.did in refs && Tally(refs[k.did], AccountLinks(a)) && k.did !in failed
    requires BlobGc.PathsNamed(s) && k.cid in s.blobs
    requires BlobGc.Reconciled(s, mid, refs, grace, BlobGc.Candidates(s, refs) - failed, failed)
    requires BlobGc.Swept(mid, s', gone)
    requires forall x :: x in gone ==> x in mid.owners && BlobGc.Expired(mid.owners[x], now) && x.did !in failed
    ensures BlobGc.RowAt(s', k) == Some(BlobGc.Owner(AccountLinks(a)[k.cid], None)) && AccountLinks(a)[k.cid] > 0
    ensures BlobGc.Kept(s, s', k.cid)
  {
    hide BlobGc.Reconciled, BlobGc.Swept, BlobGc.Kept;
    LinkAtIsTallied(v, path, k.cid);
    RecordLinksAreTallied(a, v, k.cid);
    BlobGc.PassIsSafe(s, mid, s', refs, grace, failed, now, gone, k);
  }
}
