/**
 * The crawler's page store: an upsert-by-URL table with a write counter, a
 * checkpoint backup every ten counted writes with a retention pass over the
 * backup directory, and a whole-file restore from the newest `.db` backup.
 * The SQLite file is the map `pages` (the committed rows), the backup
 * directory is a map from file name to the snapshot the file holds, and
 * every failure the source catches or lets escape is an input.
 */
module PageStore {
  import opened SeqUtil
  import opened StringOrder

  /** Counted writes between checkpoints. */
  const CHECKPOINT_EVERY: nat := 10
  /** Backups that survive a retention pass. */
  const BACKUP_KEEP: nat := 10
  const BACKUP_PREFIX: string := "onions_backup_"
  const DB_SUFFIX: string := ".db"
  /** The value `save_page` writes into `backup_status`. */
  const ACTIVE: string := "active"

  /** One row of `pages`; the URL is the key. */
  datatype Page = Page(content: string, crawledAt: int, backupStatus: string)

  type Table = map<string, Page>

  /**
   * How the first attempt of `save_page` ends: committed, the upsert raised
   * `OperationalError`, or the commit after the counter increment raised it.
   */
  datatype Attempt = Committed | InsertLocked | CommitLocked

  /** Where `_create_checkpoint_backup` raises, if it does; it swallows every failure. */
  datatype BackupFault = NoBackupFault | CopyFailed | RemoveFailedAt(index: nat)

  datatype SaveResult = Saved | Raised

  /** `get_stats()`: `{"total_pages": n, "status": "healthy"}` or `{"status": "corrupted"}`. */
  datatype Stats = Healthy(totalPages: nat) | Corrupted

  /**
   * Where `recover_from_backup` fails, if it does: the copy, the
   * `sqlite3.connect` of the reopen (the connection stays closed), or a
   * setup statement after it (the new connection stays open).
   */
  datatype RestoreFault = NoRestoreFault | RestoreCopyFailed | ConnectFailed | SetupFailed

  predicate EndsWithDb(n: string) {
    |n| >= |DB_SUFFIX| && n[|n| - |DB_SUFFIX|..] == DB_SUFFIX
  }

  /** `onions_backup_{timestamp}.db` as a file name inside the backup directory. */
  function BackupName(stamp: string): (n: string)
    ensures EndsWithDb(n) && |n| >= |BACKUP_PREFIX| && n[..|BACKUP_PREFIX|] == BACKUP_PREFIX
  {
    var n := BACKUP_PREFIX + stamp + DB_SUFFIX;
    assert n[|n| - |DB_SUFFIX|..] == DB_SUFFIX;
    assert n[..|BACKUP_PREFIX|] == BACKUP_PREFIX;
    n
  }

  /**
   * Time stamps of one fixed width order backups chronologically: a later
   * stamp gives a later name, so the retention pass keeps the newest files.
   */
  lemma BackupNamesFollowStamps(s1: string, s2: string)
    requires |s1| == |s2| && LexLess(s1, s2)
    ensures LexLess(BackupName(s1), BackupName(s2))
  {
    LexSameLength(s1, s2, DB_SUFFIX, DB_SUFFIX);
    LexPrefix(BACKUP_PREFIX, s1 + DB_SUFFIX, s2 + DB_SUFFIX);
    assert BACKUP_PREFIX + s1 + DB_SUFFIX == BACKUP_PREFIX + (s1 + DB_SUFFIX);
    assert BACKUP_PREFIX + s2 + DB_SUFFIX == BACKUP_PREFIX + (s2 + DB_SUFFIX);
  }

  /**
   * `INSERT OR REPLACE` keyed by URL: the row for `url` becomes `p`, every
   * other row stays, and the table grows only when `url` is new.
   */
  function Upsert(t: Table, url: string, p: Page): (r: Table)
    ensures url in r && r[url] == p
    ensures forall u :: u != url ==> (u in r <==> u in t)
    ensures forall u :: u != url && u in t ==> r[u] == t[u]
    ensures |r| == if url in t then |t| else |t| + 1
  {
    t[url := p]
  }

  /**
   * The number of oldest names the retention loop removes from a directory
   * of `n` entries: all but the newest `BACKUP_KEEP`, or fewer when a
   * removal raises at position `index`.
   */
  function RemovedCount(n: nat, fault: BackupFault): (m: nat)
    ensures m <= n && (n > BACKUP_KEEP ==> m <= n - BACKUP_KEEP)
    ensures n <= BACKUP_KEEP ==> m == 0
    ensures n > BACKUP_KEEP && !fault.RemoveFailedAt? ==> m == n - BACKUP_KEEP
  {
    if n <= BACKUP_KEEP then 0
    else match fault
      case RemoveFailedAt(i) => if i < n - BACKUP_KEEP then i else n - BACKUP_KEEP
      case _ => n - BACKUP_KEEP
  }

  /** The directory `d` after the names in `gone` are removed. */
  ghost function Without(d: map<string, Table>, gone: seq<string>): map<string, Table> {
    map x | x in d && x !in gone :: d[x]
  }

  lemma WithoutNothing(d: map<string, Table>, names: seq<string>)
    ensures Without(d, names[..0]) == d
  {
    assert names[..0] == [];
  }

  lemma WithoutStep(d: map<string, Table>, gone: seq<string>, k: string)
    ensures Without(d, gone + [k]) == Without(d, gone) - {k}
  {
  }

  /**
   * The backup directory after `_create_checkpoint_backup`: the snapshot is
   * written under `name` (replacing a file of that name), then the first
   * `RemovedCount` names of `sorted(os.listdir(...))` are removed.
   */
  ghost function AfterBackup(dir: map<string, Table>, snapshot: Table, name: string, fault: BackupFault): map<string, Table> {
    if fault == CopyFailed then dir
    else
      var d := dir[name := snapshot];
      var names := SortedOf(d.Keys);
      Without(d, names[..RemovedCount(|names|, fault)])
  }

  /** The sorted listing has one entry per file. */
  lemma ListingLength(d: map<string, Table>)
    ensures |SortedOf(d.Keys)| == |d.Keys|
  {
    var names := SortedOf(d.Keys);
    StrictlySortedNoDups(names);
    NoDupsCard(names);
    assert Elems(names) == d.Keys;
  }

  /** Removing the first `m` names of a listing of `d` keeps exactly the last `|names| - m`. */
  lemma ListingSuffixKept(d: map<string, Table>, names: seq<string>, m: nat)
    requires NoDups(names) && m <= |names|
    requires forall x :: x in d <==> x in names
    ensures Without(d, names[..m]).Keys == Elems(names[m..])
    ensures |Without(d, names[..m]).Keys| == |names| - m
  {
    var a := Without(d, names[..m]);
    forall x ensures x in a <==> x in names[m..] {
      if x in names[m..] {
        var j :| 0 <= j < |names| - m && names[m..][j] == x;
        assert names[m + j] == x;
        forall k | 0 <= k < m ensures names[..m][k] != x {
          assert names[..m][k] == names[k];
        }
      }
      if x in d && x !in names[..m] {
        var j :| 0 <= j < |names| && names[j] == x;
        assert names[m..][j - m] == x;
      }
    }
    assert NoDups(names[m..]);
    NoDupsCard(names[m..]);
  }

  /** In an ascending listing, every name of the first `m` sorts before every later one. */
  lemma ListingPrefixBelow(names: seq<string>, m: nat, x: string, y: string)
    requires StrictlySorted(names) && m <= |names|
    requires x in names && x !in names[m..] && y in names[m..]
    ensures LexLess(x, y)
  {
    var i :| 0 <= i < |names| && names[i] == x;
    var j :| 0 <= j < |names| - m && names[m..][j] == y;
    assert names[m + j] == y;
  }

  /**
   * Without a failure a checkpoint leaves `min(n, BACKUP_KEEP)` backups, for
   * `n` the entries after the copy, each holding what it held before; every
   * removed name sorts before every kept one.
   */
  lemma RetentionKeepsNewest(dir: map<string, Table>, snapshot: Table, name: string)
    ensures var d := dir[name := snapshot];
      var a := AfterBackup(dir, snapshot, name, NoBackupFault);
      && |a.Keys| == (if |d.Keys| <= BACKUP_KEEP then |d.Keys| else BACKUP_KEEP)
      && (forall x :: x in a ==> x in d && a[x] == d[x])
      && (forall x, y :: x in d && x !in a && y in a ==> LexLess(x, y))
  {
    var d := dir[name := snapshot];
    var names := SortedOf(d.Keys);
    ListingLength(d);
    StrictlySortedNoDups(names);
    var m := RemovedCount(|names|, NoBackupFault);
    ListingSuffixKept(d, names, m);
    forall x, y | x in d && x !in Without(d, names[..m]) && y in Without(d, names[..m])
      ensures LexLess(x, y)
    {
      ListingPrefixBelow(names, m, x, y);
    }
  }

  /** The new backup survives its own retention pass when it is the greatest name. */
  lemma NewestBackupSurvives(dir: map<string, Table>, snapshot: Table, name: string, fault: BackupFault)
    requires fault != CopyFailed
    requires forall x :: x in dir && x != name ==> LexLess(x, name)
    ensures name in AfterBackup(dir, snapshot, name, fault)
    ensures AfterBackup(dir, snapshot, name, fault)[name] == snapshot
  {
    var d := dir[name := snapshot];
    var names := SortedOf(d.Keys);
    ListingLength(d);
    StrictlySortedNoDups(names);
    var m := RemovedCount(|names|, fault);
    forall x | x in names && x != name ensures LexLess(x, name) {
      assert x in dir;
    }
    GreatestIsLast(names, name);
    LastKept(d, names, m);
  }

  /** The last entry of a listing of `d` outlives the removal of fewer than all entries. */
  lemma LastKept(d: map<string, Table>, names: seq<string>, m: nat)
    requires NoDups(names) && m < |names|
    requires forall x :: x in d <==> x in names
    ensures names[|names| - 1] in Without(d, names[..m])
  {
    var last := names[|names| - 1];
    forall k | 0 <= k < m ensures names[..m][k] != last {
      assert names[..m][k] == names[k];
    }
  }

  /** The greatest name of an ascending listing is its last entry. */
  lemma GreatestIsLast(names: seq<string>, name: string)
    requires StrictlySorted(names) && name in names
    requires forall x :: x in names && x != name ==> LexLess(x, name)
    ensures names[|names| - 1] == name
  {
    var last := names[|names| - 1];
    if last != name {
      var k :| 0 <= k < |names| && names[k] == name;
      assert k < |names| - 1;
      LexAsymmetric(last, name);
      assert false;
    }
  }

  class CrawlerDB {
    /** The committed rows of `data/onions.db`. */
    var pages: Table
    var pageCount: nat
    /** The files of `data/backups`, each with the snapshot it holds. */
    var backups: map<string, Table>
    /** Whether `conn` is an open connection. */
    var open: bool

    /**
     * `CrawlerDB()`: connects to the database already holding `existing`,
     * then seeds `page_count` with the row count, or leaves it at 0 when
     * counting raises.
     */
    constructor (existing: Table, dir: map<string, Table>, countFails: bool)
      ensures pages == existing && backups == dir && open
      ensures pageCount == if countFails then 0 else |existing|
    {
      pages := existing;
      backups := dir;
      open := true;
      pageCount := if countFails then 0 else |existing|;
    }

    /**
     * `_create_checkpoint_backup()`: copies the database to a time-stamped
     * file, then removes all but the ten greatest names of the directory in
     * ascending order; a failure at any step ends the pass silently.
     */
    method CreateCheckpointBackup(stamp: string, fault: BackupFault)
      modifies this`backups
      ensures backups == AfterBackup(old(backups), old(pages), BackupName(stamp), fault)
      ensures pages == old(pages) && pageCount == old(pageCount) && open == old(open)
    {
      var name := BackupName(stamp);
      if fault == CopyFailed {
        return;
      }
      backups := backups[name := pages];
      ghost var d := backups;
      var names := SortedNames(backups.Keys);
      ListingLength(d);
      StrictlySortedNoDups(names);
      RemoveOldest(names, fault);
    }

    /**
     * The retention loop of `_create_checkpoint_backup`: removes the listed
     * names in order, all but the last `BACKUP_KEEP`, stopping at the first
     * removal that raises.
     */
    method RemoveOldest(names: seq<string>, fault: BackupFault)
      requires NoDups(names)
      modifies this`backups
      ensures backups == Without(old(backups), names[..RemovedCount(|names|, fault)])
      ensures pages == old(pages) && pageCount == old(pageCount) && open == old(open)
    {
      ghost var d := backups;
      var i := 0;
      WithoutNothing(d, names);
      if |names| > BACKUP_KEEP {
        var stale := names[..|names| - BACKUP_KEEP];
        while i < |stale|
          invariant 0 <= i <= |stale|
          invariant fault.RemoveFailedAt? ==> i <= fault.index
          invariant backups == Without(d, names[..i])
        {
          if fault == RemoveFailedAt(i) {
            break;
          }
          assert names[..i + 1] == names[..i] + [stale[i]];
          WithoutStep(d, names[..i], stale[i]);
          backups := backups - {stale[i]};
          i := i + 1;
        }
      }
      assert i == RemovedCount(|names|, fault);
    }

    /**
     * `save_page(url, html)`, called at time `now`; `attempt` is how the first
     * try ends and `retryOk` whether the single retry succeeds.  A closed
     * connection raises before anything changes.
     */
    method SavePage(url: string, html: string, now: int, attempt: Attempt, retryOk: bool,
                    stamp: string, fault: BackupFault) returns (res: SaveResult)
      modifies this
      ensures open == old(open)
      ensures !old(open) ==>
        res == Raised && pages == old(pages) && pageCount == old(pageCount) && backups == old(backups)
      ensures old(open) && attempt == Committed ==>
        && res == Saved
        && pages == Upsert(old(pages), url, Page(html, now, ACTIVE))
        && pageCount == old(pageCount) + 1
        && backups == if pageCount % CHECKPOINT_EVERY == 0
                      then AfterBackup(old(backups), pages, BackupName(stamp), fault)
                      else old(backups)
      ensures old(open) && attempt != Committed ==>
        && pageCount == old(pageCount) + (if attempt == CommitLocked then 1 else 0)
        && backups == old(backups)
        && (res == Saved <==> retryOk)
        && pages == if retryOk then Upsert(old(pages), url, Page(html, now, ACTIVE)) else old(pages)
    {
      if !open {
        return Raised;
      }
      var row := Page(html, now, ACTIVE);
      if attempt == Committed {
        pages := Upsert(pages, url, row);
        pageCount := pageCount + 1;
        if pageCount % CHECKPOINT_EVERY == 0 {
          CreateCheckpointBackup(stamp, fault);
        }
        return Saved;
      }
      if attempt == CommitLocked {
        pageCount := pageCount + 1;
      }
      if !retryOk {
        return Raised;
      }
      pages := Upsert(pages, url, row);
      return Saved;
    }

    /** `get_stats()`; `queryFails` says whether the count query raises. */
    function GetStats(queryFails: bool): (s: Stats)
      reads this
      ensures s == Corrupted <==> !open || queryFails
      ensures s.Healthy? ==> s.totalPages == |pages|
    {
      if !open || queryFails then Corrupted else Healthy(|pages|)
    }

    /**
     * `close()`: closes an open connection unless a step raises (the error
     * is swallowed); on a closed one it changes nothing.
     */
    method Close(fails: bool)
      modifies this`open
      ensures open == (old(open) && fails)
      ensures pages == old(pages) && pageCount == old(pageCount) && backups == old(backups)
    {
      if open && !fails {
        open := false;
      }
    }
  }

  /** `n` is the greatest `.db` name in the directory. */
  predicate IsLatestDb(dir: map<string, Table>, n: string) {
    n in dir && EndsWithDb(n) && forall m :: m in dir && EndsWithDb(m) && m != n ==> LexLess(m, n)
  }

  /** A directory has at most one greatest `.db` name. */
  lemma LatestDbUnique(dir: map<string, Table>, a: string, b: string)
    requires IsLatestDb(dir, a) && IsLatestDb(dir, b)
    ensures a == b
  {
    if a != b {
      LexAsymmetric(a, b);
    }
  }

  /** The `.db` names of the directory. */
  function DbNames(dir: map<string, Table>): (r: set<string>)
    ensures forall n :: n in r <==> n in dir && EndsWithDb(n)
  {
    set n | n in dir && EndsWithDb(n)
  }

  predicate HasDbBackup(dir: map<string, Table>) {
    exists n :: n in dir && EndsWithDb(n)
  }

  /**
   * `recover_from_backup()` on the store `db`: without a `.db` backup it
   * fails and changes nothing; otherwise it closes the store, copies the
   * greatest `.db` backup over the database and reopens it.  The store is
   * open again unless the copy or the connect failed.  `page_count` is not
   * recounted.
   */
  method RecoverFromBackup(db: CrawlerDB, fault: RestoreFault) returns (ok: bool)
    modifies db
    ensures db.backups == old(db.backups) && db.pageCount == old(db.pageCount)
    ensures ok <==> HasDbBackup(old(db.backups)) && fault == NoRestoreFault
    ensures !HasDbBackup(old(db.backups)) ==> db.pages == old(db.pages) && db.open == old(db.open)
    ensures HasDbBackup(old(db.backups)) ==> db.open == (fault == NoRestoreFault || fault == SetupFailed)
    ensures HasDbBackup(old(db.backups)) && fault == RestoreCopyFailed ==> db.pages == old(db.pages)
    ensures HasDbBackup(old(db.backups)) && fault != RestoreCopyFailed ==>
      exists n :: IsLatestDb(db.backups, n) && db.pages == db.backups[n]
  {
    var dbs := SortedNames(DbNames(db.backups));
    if dbs == [] {
      return false;
    }
    var latest := dbs[|dbs| - 1];
    assert IsLatestDb(db.backups, latest) by {
      StrictlySortedNoDups(dbs);
      forall m | m in db.backups && EndsWithDb(m) && m != latest ensures LexLess(m, latest) {
        var j :| 0 <= j < |dbs| && dbs[j] == m;
        assert j < |dbs| - 1;
      }
    }
    db.Close(false);
    if fault == RestoreCopyFailed {
      return false;
    }
    db.pages := db.backups[latest];
    if fault == ConnectFailed {
      return false;
    }
    db.open := true;
    if fault == SetupFailed {
      return false;
    }
    return true;
  }
}
