/**
 * The integrity scrub: every stored file checked against its row, bad ones healed from the mirror (`blob_scrub.rs`).
 */
module BlobScrub {
  import opened Wrappers
  import opened BlobPaths

  type Content = seq<int>

  datatype File = Bytes(content: Content) | Unreadable

  datatype Row = Row(cid: Cid, path: Path, size: int)

  // What the world answers when a row is to be healed.
  datatype Fetch = Found(content: Content) | NoCopy | FetchFails
  datatype Recheck = Present | Gone | RecheckFails
  datatype Write = Written | WriteFails | SyncFails

  /** `SyncFails`: the file was renamed into place and only the directory sync failed. */
  datatype Help = Help(fetch: Fetch, recheck: Recheck, write: Write)

  /** What a pass starts from; `healing` is a mirror with auto-heal on. `hash` is the CID of content. */
  datatype Scene = Scene(hash: Content -> Cid, files: map<Path, File>, healing: bool, help: Cid -> Help)

  datatype Verdict = Verified | Healed | Missing | Corrupted | Skipped

  datatype Stats = Stats(scanned: nat, healed: nat, missing: nat, corrupted: nat, orphans: nat, errors: nat,
                         failed: bool)

  function FileAt(files: map<Path, File>, p: Path): Option<File> {
    if p in files then Some(files[p]) else None
  }

  predicate Verifies(hash: Content -> Cid, row: Row, content: Content) {
    |content| == row.size && hash(content) == row.cid
  }

  predicate Good(hash: Content -> Cid, row: Row, file: Option<File>) {
    file.Some? && file.value.Bytes? && Verifies(hash, row, file.value.content)
  }

  /** The snapshot: CIDs are the primary key, and a row's path is the one its CID names. */
  ghost predicate Listed(rows: seq<Row>) {
    && (forall i :: 0 <= i < |rows| ==> rows[i].path == PlaceOf(rows[i].cid))
    && (forall i, j :: 0 <= i < j < |rows| ==> rows[i].cid != rows[j].cid)
  }

  // ---- what should happen to a row ----

  /** The write of a heal reaches the disk: a verified copy, for a row still there at the recheck. */
  predicate Lands(hash: Content -> Cid, row: Row, h: Help) {
    h.fetch.Found? && Verifies(hash, row, h.fetch.content) && h.recheck == Present && h.write != WriteFails
  }

  function VerdictOf(s: Scene, row: Row): Verdict {
    var file := FileAt(s.files, row.path);
    if Good(s.hash, row, file) then Verified
    else if file == Some(Unreadable) then Skipped
    else if s.healing && Lands(s.hash, row, s.help(row.cid)) && s.help(row.cid).write == Written then Healed
    else if file == None then Missing
    else Corrupted
  }

  /** The heal of a row errs: no transfer, a copy that does not verify, a failed recheck or a failed write. */
  predicate HealErrs(hash: Content -> Cid, row: Row, h: Help) {
    match h.fetch
    case FetchFails => true
    case NoCopy => false
    case Found(content) =>
      !Verifies(hash, row, content) || h.recheck == RecheckFails || (h.recheck == Present && h.write != Written)
  }

  /** The heal of a row is attempted and errs. */
  predicate HealFails(s: Scene, row: Row) {
    s.healing && VerdictOf(s, row) in {Missing, Corrupted} && HealErrs(s.hash, row, s.help(row.cid))
  }

  predicate Rewrites(s: Scene, row: Row) {
    s.healing && VerdictOf(s, row) in {Healed, Missing, Corrupted} && Lands(s.hash, row, s.help(row.cid))
  }

  /** The files once `rows` have been through. */
  function FilesAfter(s: Scene, rows: seq<Row>): map<Path, File>
    decreases |rows|
  {
    if rows == [] then s.files
    else
      FilesWith(s, FilesAfter(s, rows[..|rows| - 1]), rows[|rows| - 1])
  }

  /** One more row through. */
  function FilesWith(s: Scene, files: map<Path, File>, row: Row): map<Path, File> {
    if Rewrites(s, row) then files[PlaceOf(row.cid) := Bytes(s.help(row.cid).fetch.content)] else files
  }

  function Count(s: Scene, rows: seq<Row>, v: Verdict): nat
    decreases |rows|
  {
    if rows == [] then 0 else Count(s, rows[..|rows| - 1], v) + if VerdictOf(s, rows[|rows| - 1]) == v then 1 else 0
  }

  function CountFailedHeals(s: Scene, rows: seq<Row>): nat
    decreases |rows|
  {
    if rows == [] then 0 else CountFailedHeals(s, rows[..|rows| - 1]) + if HealFails(s, rows[|rows| - 1]) then 1 else 0
  }

  /** The tallies once `rows` have been through. */
  function StatsAfter(s: Scene, rows: seq<Row>): Stats {
    Stats(|rows|, Count(s, rows, Healed), Count(s, rows, Missing), Count(s, rows, Corrupted), 0,
          Count(s, rows, Skipped) + CountFailedHeals(s, rows), false)
  }

  function StatsWith(s: Scene, stats: Stats, row: Row): Stats {
    var v := VerdictOf(s, row);
    stats.(scanned := stats.scanned + 1,
           healed := stats.healed + if v == Healed then 1 else 0,
           missing := stats.missing + if v == Missing then 1 else 0,
           corrupted := stats.corrupted + if v == Corrupted then 1 else 0,
           errors := stats.errors + (if v == Skipped then 1 else 0) + if HealFails(s, row) then 1 else 0)
  }

  lemma NoRows(s: Scene)
    ensures FilesAfter(s, []) == s.files && StatsAfter(s, []) == Stats(0, 0, 0, 0, 0, 0, false)
  {}

  lemma OneMoreRow(s: Scene, rows: seq<Row>, i: nat)
    requires i < |rows|
    ensures FilesAfter(s, rows[..i + 1]) == FilesWith(s, FilesAfter(s, rows[..i]), rows[i])
    ensures StatsAfter(s, rows[..i + 1]) == StatsWith(s, StatsAfter(s, rows[..i]), rows[i])
  {
    hide FilesWith, VerdictOf, HealFails;
    assert rows[..i + 1][..i] == rows[..i];
  }

  /** What the walk reports: the visible files. */
  predicate Visible(p: Path) {
    p.name == "" || p.name[0] != '.'
  }

  ghost predicate Walks(files: map<Path, File>, found: seq<Path>) {
    && (forall p :: p in found <==> p in files && Visible(p))
    && (forall i, j :: 0 <= i < j < |found| ==> found[i] != found[j])
  }

  /** The visible files of the snapshot's moment that no listed row names. */
  function Orphans(files: map<Path, File>, cids: set<Cid>): set<Path> {
    set p | p in files && !("." <= p.name) && p.name !in cids
  }

  function Cids(rows: seq<Row>): set<Cid> {
    set r | r in rows :: r.cid
  }

  // ---- the scrub ----

  datatype RowCheck = Fine | Absent | Mismatch

  class Scrubber {
    var files: map<Path, File>
    const hash: Content -> Cid

    constructor (files: map<Path, File>, hash: Content -> Cid)
      ensures this.files == files && this.hash == hash
    {
      this.files, this.hash := files, hash;
    }

    /** `check_row`. */
    method CheckRow(row: Row) returns (r: Result<RowCheck, ()>)
      ensures r.Err? <==> FileAt(files, row.path) == Some(Unreadable)
      ensures r == Ok(Fine) <==> Good(hash, row, FileAt(files, row.path))
      ensures r == Ok(Absent) <==> row.path !in files
    {
      if row.path !in files {
        return Ok(Absent);
      }
      if files[row.path].Unreadable? {
        return Err(());
      }
      var content := files[row.path].content;
      if |content| != row.size || hash(content) != row.cid {
        return Ok(Mismatch);
      }
      return Ok(Fine);
    }

    /** `fetch_verified`. */
    method FetchVerified(row: Row, fetch: Fetch) returns (r: Result<Option<Content>, ()>)
      ensures r.Ok? && r.value.Some? <==> fetch.Found? && Verifies(hash, row, fetch.content)
      ensures r.Ok? && r.value.Some? ==> r.value.value == fetch.content
      ensures r == Ok(None) <==> fetch == NoCopy
    {
      match fetch {
        case FetchFails => return Err(());
        case NoCopy => return Ok(None);
        case Found(content) =>
          if |content| != row.size || hash(content) != row.cid {
            return Err(());
          }
          return Ok(Some(content));
      }
    }

    /** `store_blob`: onto the path the content's own CID names. */
    method StoreBlob(content: Content, write: Write) returns (r: Result<(), ()>)
      modifies this`files
      ensures files == if write == WriteFails then old(files) else old(files)[PlaceOf(hash(content)) := Bytes(content)]
      ensures r.Ok? <==> write == Written
    {
      if write == WriteFails {
        return Err(());
      }
      files := files[PlaceOf(hash(content)) := Bytes(content)];
      return if write == Written then Ok(()) else Err(());
    }

    /** `heal`. */
    method Heal(row: Row, h: Help) returns (r: Result<bool, ()>)
      modifies this`files
      ensures files == if Lands(hash, row, h) then old(files)[PlaceOf(row.cid) := Bytes(h.fetch.content)]
              else old(files)
      ensures r == Ok(true) <==> Lands(hash, row, h) && h.write == Written
      ensures r.Err? <==> HealErrs(hash, row, h)
      ensures r == Ok(false) <==>
                h.fetch.NoCopy? || (h.fetch.Found? && Verifies(hash, row, h.fetch.content) && h.recheck == Gone)
    {
      var fetched := FetchVerified(row, h.fetch);
      if fetched.Err? {
        return Err(());
      }
      if fetched.value.None? {
        return Ok(false);
      }
      if h.recheck == RecheckFails {
        return Err(());
      }
      if h.recheck == Gone {
        return Ok(false);
      }
      var stored := StoreBlob(fetched.value.value, h.write);
      return if stored.Ok? then Ok(true) else Err(());
    }

    /** One row of the pass. */
    method ScrubRow(row: Row, stats: Stats, healing: bool, h: Help, ghost s: Scene) returns (stats': Stats)
      requires s.hash == hash && s.healing == healing && s.help(row.cid) == h
      requires row.path == PlaceOf(row.cid) && FileAt(files, row.path) == FileAt(s.files, row.path)
      modifies this`files
      ensures files == FilesWith(s, old(files), row) && stats' == StatsWith(s, stats, row)
    {
      stats' := stats.(scanned := stats.scanned + 1);
      var check := CheckRow(row);
      if check == Ok(Fine) {
        return;
      }
      if check.Err? {
        return stats'.(errors := stats'.errors + 1);
      }
      if healing {
        var healed := Heal(row, h);
        if healed == Ok(true) {
          return stats'.(healed := stats'.healed + 1);
        }
        if healed.Err? {
          stats' := stats'.(errors := stats'.errors + 1);
        }
      }
      if check.value == Absent {
        stats' := stats'.(missing := stats'.missing + 1);
      } else {
        stats' := stats'.(corrupted := stats'.corrupted + 1);
      }
    }

    /** The first half of a pass. What happens to a row depends only on its own file and answers. */
    method ScrubRows(rows: seq<Row>, healing: bool, help: Cid -> Help, ghost s: Scene) returns (stats: Stats)
      requires s == Scene(hash, files, healing, help) && Listed(rows)
      modifies this`files
      ensures files == FilesAfter(s, rows)
      ensures stats == StatsAfter(s, rows)
    {
      stats := Stats(0, 0, 0, 0, 0, 0, false);
      hide FilesWith, StatsWith, FilesAfter, StatsAfter;
      NoRows(s);
      for i := 0 to |rows|
        invariant files == FilesAfter(s, rows[..i])
        invariant stats == StatsAfter(s, rows[..i])
      {
        UntouchedBefore(s, rows, i);
        stats := ScrubRow(rows[i], stats, healing, help(rows[i].cid), s);
        OneMoreRow(s, rows, i);
      }
      assert rows[..|rows|] == rows;
    }

    /** `walk_blob_files`, in whatever order the directories list. */
    method Walk() returns (found: seq<Path>)
      ensures Walks(files, found)
    {
      found := [];
      var rest := set p | p in files && Visible(p);
      while rest != {}
        invariant forall p :: p in files && Visible(p) <==> p in found || p in rest
        invariant forall p :: p in found ==> p !in rest
        invariant forall i, j :: 0 <= i < j < |found| ==> found[i] != found[j]
      {
        var p :| p in rest;
        found, rest := found + [p], rest - {p};
      }
    }

    /** The orphan half of a pass. */
    method CountOrphans(known: set<Cid>) returns (orphans: nat)
      ensures orphans == |Orphans(files, known)|
    {
      hide OrphansAmong, Orphans, Walks;
      var found := Walk();
      WalkedOrphans(files, found, known);
      orphans := 0;
      for i := 0 to |found|
        invariant orphans == |OrphansAmong(found[..i], known)|
      {
        OrphansGrow(found, i, known);
        if found[i].name !in known {
          orphans := orphans + 1;
        }
      }
      assert found[..|found|] == found;
    }

    /**
     * `run_blob_scrub`. The orphans are the visible files of the start that no row of the snapshot names: what the pass
     * writes is never one.
     */
    method RunBlobScrub(rows: Result<seq<Row>, ()>, healing: bool, help: Cid -> Help,
                        walks: bool) returns (stats: Stats)
      requires rows.Ok? ==> Listed(rows.value)
      modifies this`files
      ensures rows.Err? ==> files == old(files) && stats == Stats(0, 0, 0, 0, 0, 0, true)
      ensures rows.Ok? ==>
                var s := Scene(hash, old(files), healing, help);
                && files == FilesAfter(s, rows.value)
                && stats == StatsAfter(s, rows.value).(
                              orphans := if walks then |Orphans(old(files), Cids(rows.value))| else 0,
                              errors := StatsAfter(s, rows.value).errors + if walks then 0 else 1)
      ensures rows.Ok? ==>
                var s := Scene(hash, old(files), healing, help);
                var (absent, mismatching) := (WithoutFile(s, rows.value), Mismatching(s, rows.value));
                var restored := Restored(s, rows.value);
                && stats.scanned == |rows.value|
                && stats.missing == |absent - restored| && stats.corrupted == |mismatching - restored|
                && stats.healed == |(absent + mismatching) * restored|
                && stats.errors == |Unread(s, rows.value)| + |(absent + mismatching) * Unhealed(s, rows.value)|
                   + if walks then 0 else 1
      ensures rows.Ok? ==>
                var s := Scene(hash, old(files), healing, help);
                && (forall r :: r in rows.value ==>
                      FileAt(files, PlaceOf(r.cid)) ==
                        if r in (WithoutFile(s, rows.value) + Mismatching(s, rows.value)) * Rewritten(s, rows.value)
                        then Some(Bytes(help(r.cid).fetch.content)) else FileAt(old(files), PlaceOf(r.cid)))
                && (forall p :: (forall r :: r in rows.value ==> p != PlaceOf(r.cid)) ==>
                      FileAt(files, p) == FileAt(old(files), p))
    {
      if rows.Err? {
        return Stats(0, 0, 0, 0, 0, 0, true);
      }
      hide StatsAfter, FilesAfter, WithoutFile, Mismatching, Restored, Unread, Unhealed, Rewritten, Listed, FileAt;
      ghost var s := Scene(hash, files, healing, help);
      stats := ScrubRows(rows.value, healing, help, s);
      HealsAddNoOrphans(s, rows.value);
      TalliesCountRows(s, rows.value);
      FilesHoldCopies(s, rows.value);
      if !walks {
        return stats.(errors := stats.errors + 1);
      }
      var orphans := CountOrphans(Cids(rows.value));
      stats := stats.(orphans := orphans);
    }
  }

  function OrphansAmong(found: seq<Path>, cids: set<Cid>): set<Path> {
    set p | p in found && p.name !in cids
  }

  lemma OrphansGrow(found: seq<Path>, i: nat, cids: set<Cid>)
    requires i < |found| && found[i] !in found[..i]
    ensures |OrphansAmong(found[..i + 1], cids)|
         == |OrphansAmong(found[..i], cids)| + if found[i].name in cids then 0 else 1
  {
    assert found[..i + 1] == found[..i] + [found[i]];
    assert OrphansAmong(found[..i + 1], cids)
        == OrphansAmong(found[..i], cids) + if found[i].name in cids then {} else {found[i]};
  }

  /** The walk finds every file once, so its orphans are the orphans. */
  lemma WalkedOrphans(files: map<Path, File>, found: seq<Path>, cids: set<Cid>)
    requires Walks(files, found)
    ensures OrphansAmong(found, cids) == Orphans(files, cids) && OrphansAmong([], cids) == {}
    ensures forall i :: 0 <= i < |found| ==> found[i] !in found[..i]
  {}

  // ---- what the tallies count, row by row ----

  /** The rows with no file. */
  function WithoutFile(s: Scene, rows: seq<Row>): set<Row> {
    set r | r in rows && r.path !in s.files
  }

  /** The rows whose file was read and differs in size or hash. */
  function Mismatching(s: Scene, rows: seq<Row>): set<Row> {
    set r | r in rows && r.path in s.files && s.files[r.path].Bytes?
            && (|s.files[r.path].content| != r.size || s.hash(s.files[r.path].content) != r.cid)
  }

  function Unread(s: Scene, rows: seq<Row>): set<Row> {
    set r | r in rows && r.path in s.files && s.files[r.path].Unreadable?
  }

  /** The rows for which the mirror has a copy of the right size and hash. */
  function Copied(s: Scene, rows: seq<Row>): set<Row> {
    set r | r in rows && s.help(r.cid).fetch.Found? && |s.help(r.cid).fetch.content| == r.size
            && s.hash(s.help(r.cid).fetch.content) == r.cid
  }

  /** With healing on, such a copy reaches the disk while its row is still there. */
  function Rewritten(s: Scene, rows: seq<Row>): set<Row> {
    set r | r in Copied(s, rows) && s.healing && s.help(r.cid).recheck == Present && s.help(r.cid).write != WriteFails
  }

  /** Its write succeeds to the end. */
  function Restored(s: Scene, rows: seq<Row>): set<Row> {
    set r | r in Rewritten(s, rows) && s.help(r.cid).write == Written
  }

  /** With healing on, the transfer fails, its copy does not verify, the recheck fails, or the write does. */
  function Unhealed(s: Scene, rows: seq<Row>): set<Row> {
    set r | r in rows && s.healing && s.help(r.cid).fetch != NoCopy &&
            (r !in Copied(s, rows) || s.help(r.cid).recheck == RecheckFails
             || (s.help(r.cid).recheck == Present && s.help(r.cid).write != Written))
  }

  lemma {:induction false} CountIsSet(s: Scene, rows: seq<Row>, v: Verdict)
    requires Listed(rows)
    ensures Count(s, rows, v) == |set r | r in rows && VerdictOf(s, r) == v|
    decreases |rows|
  {
    hide VerdictOf, Listed;
    if rows != [] {
      var (init, last) := (rows[..|rows| - 1], rows[|rows| - 1]);
      LastIsNew(rows);
      CountIsSet(s, init, v);
      var (some, more) := (set r | r in init && VerdictOf(s, r) == v, set r | r in rows && VerdictOf(s, r) == v);
      if VerdictOf(s, last) == v { assert more == some + {last}; } else { assert more == some; }
    } else {
      assert (set r | r in rows && VerdictOf(s, r) == v) == {};
    }
  }

  lemma {:induction false} FailedHealsAreSet(s: Scene, rows: seq<Row>)
    requires Listed(rows)
    ensures CountFailedHeals(s, rows) == |set r | r in rows && HealFails(s, r)|
    decreases |rows|
  {
    hide HealFails, Listed;
    if rows != [] {
      var (init, last) := (rows[..|rows| - 1], rows[|rows| - 1]);
      LastIsNew(rows);
      FailedHealsAreSet(s, init);
      var (some, more) := (set r | r in init && HealFails(s, r), set r | r in rows && HealFails(s, r));
      if HealFails(s, last) { assert more == some + {last}; } else { assert more == some; }
    } else {
      assert (set r | r in rows && HealFails(s, r)) == {};
    }
  }

  lemma LastIsNew(rows: seq<Row>)
    requires Listed(rows) && rows != []
    ensures rows[|rows| - 1] !in rows[..|rows| - 1] && Listed(rows[..|rows| - 1])
    ensures forall r :: r in rows <==> r in rows[..|rows| - 1] || r == rows[|rows| - 1]
  {
    assert rows == rows[..|rows| - 1] + [rows[|rows| - 1]];
  }

  /** Each tally counts the rows it is named for. */
  lemma TalliesCountRows(s: Scene, rows: seq<Row>)
    requires Listed(rows)
    ensures var (stats, bad) := (StatsAfter(s, rows), WithoutFile(s, rows) + Mismatching(s, rows));
            && stats.scanned == |rows| && stats.healed == |bad * Restored(s, rows)|
            && stats.missing == |WithoutFile(s, rows) - Restored(s, rows)|
            && stats.corrupted == |Mismatching(s, rows) - Restored(s, rows)|
            && stats.errors == |Unread(s, rows)| + |bad * Unhealed(s, rows)|
  {
    hide WithoutFile, Mismatching, Restored, Unread, Unhealed, VerdictOf, HealFails, Count, CountFailedHeals, Listed;
    var bad := WithoutFile(s, rows) + Mismatching(s, rows);
    CountIsSet(s, rows, Healed);
    CountIsSet(s, rows, Missing);
    CountIsSet(s, rows, Corrupted);
    CountIsSet(s, rows, Skipped);
    FailedHealsAreSet(s, rows);
    VerdictsMean(s, rows);
    assert (set r | r in rows && VerdictOf(s, r) == Healed) == bad * Restored(s, rows);
    assert (set r | r in rows && VerdictOf(s, r) == Missing) == WithoutFile(s, rows) - Restored(s, rows);
    assert (set r | r in rows && VerdictOf(s, r) == Corrupted) == Mismatching(s, rows) - Restored(s, rows);
    assert (set r | r in rows && VerdictOf(s, r) == Skipped) == Unread(s, rows);
    assert (set r | r in rows && HealFails(s, r)) == bad * Unhealed(s, rows);
  }

  lemma VerdictsMean(s: Scene, rows: seq<Row>)
    ensures forall r :: r in rows && VerdictOf(s, r) == Healed <==>
                        (r in WithoutFile(s, rows) || r in Mismatching(s, rows)) && r in Restored(s, rows)
    ensures forall r :: r in rows && VerdictOf(s, r) == Missing <==>
                        r in WithoutFile(s, rows) && r !in Restored(s, rows)
    ensures forall r :: r in rows && VerdictOf(s, r) == Corrupted <==>
                        r in Mismatching(s, rows) && r !in Restored(s, rows)
    ensures forall r :: r in rows && VerdictOf(s, r) == Skipped <==> r in Unread(s, rows)
    ensures forall r :: r in rows && HealFails(s, r) <==>
                        (r in WithoutFile(s, rows) || r in Mismatching(s, rows)) && r in Unhealed(s, rows)
  {}

  /** The file of every listed row, and every other file. */
  lemma FilesHoldCopies(s: Scene, rows: seq<Row>)
    requires Listed(rows)
    ensures var (files, bad) := (FilesAfter(s, rows), WithoutFile(s, rows) + Mismatching(s, rows));
            && (forall r :: r in rows ==>
                  FileAt(files, PlaceOf(r.cid)) ==
                    if r in bad * Rewritten(s, rows) then Some(Bytes(s.help(r.cid).fetch.content))
                    else FileAt(s.files, PlaceOf(r.cid)))
            && (forall p :: (forall r :: r in rows ==> p != PlaceOf(r.cid)) ==> FileAt(files, p) == FileAt(s.files, p))
  {
    hide FilesAfter, Listed, WithoutFile, Mismatching, Rewritten, VerdictOf, FileAt;
    forall p | forall r :: r in rows ==> p != PlaceOf(r.cid)
      ensures FileAt(FilesAfter(s, rows), p) == FileAt(s.files, p)
    {
      Untouched(s, rows, p);
    }
    RewritesMean(s, rows);
    forall r | r in rows
      ensures FileAt(FilesAfter(s, rows), PlaceOf(r.cid)) ==
                if Rewrites(s, r) then Some(Bytes(s.help(r.cid).fetch.content)) else FileAt(s.files, PlaceOf(r.cid))
    {
      var i :| 0 <= i < |rows| && rows[i] == r;
      RowAtItsPlace(rows, i);
      FileOfRow(s, rows, i);
    }
  }

  lemma RowAtItsPlace(rows: seq<Row>, i: nat)
    requires Listed(rows) && i < |rows|
    ensures rows[i].path == PlaceOf(rows[i].cid)
  {}

  lemma RewritesMean(s: Scene, rows: seq<Row>)
    ensures forall r :: r in rows && Rewrites(s, r) <==>
                        (r in WithoutFile(s, rows) || r in Mismatching(s, rows)) && r in Rewritten(s, rows)
  {}

  // ---- what a pass promises ----

  /** A path no earlier row names holds what it held at the start. */
  lemma {:induction false} Untouched(s: Scene, rows: seq<Row>, p: Path)
    requires forall r :: r in rows ==> PlaceOf(r.cid) != p
    ensures FileAt(FilesAfter(s, rows), p) == FileAt(s.files, p)
    decreases |rows|
  {
    if rows != [] {
      Untouched(s, rows[..|rows| - 1], p);
    }
  }

  lemma UntouchedBefore(s: Scene, rows: seq<Row>, i: nat)
    requires Listed(rows) && i < |rows|
    ensures FileAt(FilesAfter(s, rows[..i]), rows[i].path) == FileAt(s.files, rows[i].path)
  {
    forall r | r in rows[..i] ensures PlaceOf(r.cid) != rows[i].path {
      var j :| 0 <= j < i && r == rows[j];
    }
    Untouched(s, rows[..i], rows[i].path);
  }

  /** The file of a listed row at the end of a pass: its fresh copy where the heal landed, else what was there. */
  lemma {:induction false} FileOfRow(s: Scene, rows: seq<Row>, i: nat)
    requires Listed(rows) && i < |rows|
    ensures FileAt(FilesAfter(s, rows), rows[i].path)
         == if Rewrites(s, rows[i]) then Some(Bytes(s.help(rows[i].cid).fetch.content))
           else FileAt(s.files, rows[i].path)
    decreases |rows|
  {
    var n := |rows| - 1;
    if i < n {
      FileOfRow(s, rows[..n], i);
      assert rows[n].cid != rows[i].cid;
    } else {
      UntouchedBefore(s, rows, i);
    }
  }

  /**
   * Verified and healed rows end with a file of the row's size and hash; flagged rows do exactly when only a sync
   * failed.
   */
  lemma HealthAfterPass(s: Scene, rows: seq<Row>, i: nat)
    requires Listed(rows) && i < |rows|
    ensures Good(s.hash, rows[i], FileAt(FilesAfter(s, rows), rows[i].path)) <==>
              VerdictOf(s, rows[i]) in {Verified, Healed}
                || (Rewrites(s, rows[i]) && s.help(rows[i].cid).write == SyncFails)
  {
    FileOfRow(s, rows, i);
  }

  /** Whatever a pass wrote verifies against a listed row that was still there when it was written. */
  lemma {:induction false} OnlyVerifiedWrites(s: Scene, rows: seq<Row>, p: Path) returns (i: nat)
    requires Listed(rows) && FileAt(FilesAfter(s, rows), p) != FileAt(s.files, p)
    ensures i < |rows| && rows[i].path == p && s.healing && s.help(rows[i].cid).recheck == Present
    ensures Good(s.hash, rows[i], FileAt(FilesAfter(s, rows), p)) && !Good(s.hash, rows[i], FileAt(s.files, p))
    decreases |rows|
  {
    if exists k :: 0 <= k < |rows| && PlaceOf(rows[k].cid) == p {
      i :| i < |rows| && PlaceOf(rows[i].cid) == p;
      FileOfRow(s, rows, i);
    } else {
      Untouched(s, rows, p);
    }
  }

  /** Every scanned row is in exactly one tally. */
  lemma {:induction false} TalliesPartition(s: Scene, rows: seq<Row>)
    ensures |rows| == Count(s, rows, Verified) + Count(s, rows, Healed) + Count(s, rows, Missing)
                    + Count(s, rows, Corrupted) + Count(s, rows, Skipped)
    decreases |rows|
  {
    if rows != [] {
      TalliesPartition(s, rows[..|rows| - 1]);
    }
  }

  /** A second pass with the mirror out of reach flags exactly what the first could not repair. */
  lemma RescanVerdict(s: Scene, rows: seq<Row>, again: Scene, i: nat)
    requires Listed(rows) && i < |rows|
    requires again.hash == s.hash && !again.healing && again.files == FilesAfter(s, rows)
    ensures VerdictOf(again, rows[i]) ==
              if VerdictOf(s, rows[i]) == Healed || Rewrites(s, rows[i]) then Verified else VerdictOf(s, rows[i])
  {
    FileOfRow(s, rows, i);
  }

  /** Healing writes only at names the snapshot knows. */
  lemma HealsAddNoOrphans(s: Scene, rows: seq<Row>)
    ensures Orphans(FilesAfter(s, rows), Cids(rows)) == Orphans(s.files, Cids(rows))
  {
    forall p: Path | p.name !in Cids(rows) ensures FileAt(FilesAfter(s, rows), p) == FileAt(s.files, p) {
      forall r | r in rows ensures PlaceOf(r.cid) != p {
        assert r.cid in Cids(rows);
      }
      Untouched(s, rows, p);
    }
    assert forall p: Path :: p.name !in Cids(rows) ==> (p in FilesAfter(s, rows) <==> p in s.files);
  }
}
