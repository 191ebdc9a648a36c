/**
 * The public download gate: a customer presents a link's uuid and receives the files
 * of the purchased product, subject to the link's expiry time and download limit.
 */
module Downloads {
  import opened Tables
  import opened ProductModels
  import opened OrderModels
  import opened Schema

  /** One entry of the returned file list; the fake CDN URL is derived from `filePath`. */
  datatype FileEntry = FileEntry(fileName: string, displayName: string, filePath: string)

  /** The entry for one file; its display name falls back to the file name. */
  function Entry(f: File): (e: FileEntry)
    ensures e.fileName == f.fileName && e.filePath == f.filePath && e.displayName == Label(f)
  {
    FileEntry(f.fileName, Label(f), f.filePath)
  }

  /** The files of a product, in key order. */
  function FilesOf(files: Table<File>, product: nat): (ks: seq<nat>)
    ensures forall i :: 0 <= i < |ks| ==> ks[i] in files.rows && files.rows[ks[i]].product == product
    ensures forall i, j :: 0 <= i < j < |ks| ==> ks[i] < ks[j]
    ensures files.Valid() ==> forall k :: k in files.rows && files.rows[k].product == product ==> k in ks
  {
    files.Keys((f: File) => f.product == product)
  }

  /** The entries for the files at keys `ks`. */
  function Entries(files: Table<File>, ks: seq<nat>): (es: seq<FileEntry>)
    requires forall i :: 0 <= i < |ks| ==> ks[i] in files.rows
    ensures |es| == |ks|
    ensures forall i :: 0 <= i < |ks| ==> es[i] == Entry(files.rows[ks[i]])
  {
    if ks == [] then [] else [Entry(files.rows[ks[0]])] + Entries(files, ks[1..])
  }

  /** The response's file list: one entry per file of the product, in key order. */
  function Listing(files: Table<File>, product: nat): (es: seq<FileEntry>)
    ensures |es| == |FilesOf(files, product)|
    ensures forall i :: 0 <= i < |es| ==> es[i] == Entry(files.rows[FilesOf(files, product)[i]])
  {
    Entries(files, FilesOf(files, product))
  }

  /** The link resolves through its order item to a product, as the foreign keys guarantee. */
  predicate LinkResolves(db: Db, u: Uuid) {
    u in db.links ==>
      db.links[u].item in db.items.rows && db.items.rows[db.links[u].item].product in db.products.rows
  }

  /** The product a resolvable link grants access to. */
  function LinkProduct(db: Db, u: Uuid): (p: nat)
    requires u in db.links && LinkResolves(db, u)
    ensures p in db.products.rows && p == db.items.rows[db.links[u].item].product
  {
    db.items.rows[db.links[u].item].product
  }

  /** The limit of a link, read from its product at request time. */
  function LinkLimit(db: Db, u: Uuid): (limit: int)
    requires u in db.links && LinkResolves(db, u)
    ensures limit == db.products.rows[LinkProduct(db, u)].maxDownloadsPerLink
  {
    db.products.rows[LinkProduct(db, u)].maxDownloadsPerLink
  }

  /** Expiry is strict: a link is still live at the very instant `now == expiresAt`. */
  predicate Expired(link: DownloadLink, now: int) {
    link.expiresAt < now
  }

  /** The gate's answer: the new database, the status, and on success the files and the expiry time. */
  datatype DownloadResult = DownloadResult(db: Db, status: Status, files: seq<FileEntry>, expiresAt: Option<int>)

  /**
   * `CustomerDownloadView.get`: an unknown uuid is 404, then an expired link is 410,
   * then a link at or over its product's limit is 403; only a request passing all
   * three increments the link's counter and lists the product's files.
   */
  function Download(db: Db, u: Uuid, now: int): (r: DownloadResult)
    requires LinkResolves(db, u)
    ensures r.status != Ok ==> r.db == db && r.files == [] && r.expiresAt.None?
    ensures u !in db.links ==> r.status == NotFound
    ensures u in db.links && Expired(db.links[u], now) ==> r.status == Gone
    ensures u in db.links && !Expired(db.links[u], now) && db.links[u].downloadCount >= LinkLimit(db, u)
      ==> r.status == Forbidden
    ensures r.status == Ok <==>
      u in db.links && !Expired(db.links[u], now) && db.links[u].downloadCount < LinkLimit(db, u)
    ensures r.status in {Ok, NotFound, Gone, Forbidden}
    ensures r.status == Ok ==>
      r.db == WithLink(db, u, db.links[u].(downloadCount := db.links[u].downloadCount + 1))
      && r.files == Listing(db.files, LinkProduct(db, u))
      && r.expiresAt == Some(db.links[u].expiresAt)
  {
    if u !in db.links then DownloadResult(db, NotFound, [], None)
    else
      var link := db.links[u];
      if Expired(link, now) then DownloadResult(db, Gone, [], None)
      else if link.downloadCount >= LinkLimit(db, u) then DownloadResult(db, Forbidden, [], None)
      else
        DownloadResult(WithLink(db, u, link.(downloadCount := link.downloadCount + 1)),
                       Ok, Listing(db.files, LinkProduct(db, u)), Some(link.expiresAt))
  }

  /** A download changes one link's counter and nothing else, so the invariant holds. */
  lemma DownloadKeepsConsistent(db: Db, u: Uuid, now: int)
    requires Consistent(db)
    ensures LinkResolves(db, u) && Consistent(Download(db, u, now).db)
  {
    assert ReferencesValid(db);
    DownloadEffect(db, u, now);
    if u in db.links {
      var link := db.links[u].(downloadCount := db.links[u].downloadCount + 1);
      if Download(db, u, now).db != db {
        LinkUpdateKeepsConsistent(db, u, link);
      }
    }
  }

  /** A download either changes nothing or rewrites one link's counter. */
  lemma DownloadEffect(db: Db, u: Uuid, now: int)
    requires LinkResolves(db, u)
    ensures Download(db, u, now).db == db
         || (u in db.links
             && Download(db, u, now).db == WithLink(db, u, db.links[u].(downloadCount := db.links[u].downloadCount + 1)))
  {
  }

  /** The file list has an entry for every file of the product, and only for those. */
  lemma ListingCoversFiles(files: Table<File>, product: nat)
    requires files.Valid()
    ensures forall k :: k in files.rows && files.rows[k].product == product ==>
      Entry(files.rows[k]) in Listing(files, product)
    ensures forall e :: e in Listing(files, product) ==>
      exists k :: k in files.rows && files.rows[k].product == product && e == Entry(files.rows[k])
  {
    var ks := FilesOf(files, product);
    var es := Listing(files, product);
    forall k | k in files.rows && files.rows[k].product == product
      ensures Entry(files.rows[k]) in es
    {
      var i :| 0 <= i < |ks| && ks[i] == k;
      assert es[i] == Entry(files.rows[k]);
    }
    forall e | e in es
      ensures exists k :: k in files.rows && files.rows[k].product == product && e == Entry(files.rows[k])
    {
      var i :| 0 <= i < |es| && es[i] == e;
      assert ks[i] in files.rows;
    }
  }

  /** The keys of a product's files. */
  ghost function Owned(files: Table<File>, product: nat): (ks: set<nat>)
    ensures forall k :: k in ks <==> k in files.rows && files.rows[k].product == product
  {
    set k | k in files.rows && files.rows[k].product == product
  }

  /** The file list has exactly one entry per file of the product. */
  lemma ListingSize(files: Table<File>, product: nat)
    requires files.Valid()
    ensures |Listing(files, product)| == |Owned(files, product)|
  {
    DistinctCount(FilesOf(files, product), Owned(files, product));
  }

  /** A strictly ascending sequence listing exactly the elements of a set has its size. */
  lemma {:induction false} DistinctCount(ks: seq<nat>, s: set<nat>)
    requires forall i, j :: 0 <= i < j < |ks| ==> ks[i] < ks[j]
    requires forall i :: 0 <= i < |ks| ==> ks[i] in s
    requires forall k :: k in s ==> k in ks
    ensures |ks| == |s|
    decreases |ks|
  {
    if ks == [] {
      assert forall k :: k !in s;
    } else {
      var rest := s - {ks[0]};
      forall i | 0 <= i < |ks[1..]|
        ensures ks[1..][i] in rest
      {
        assert ks[1..][i] == ks[i + 1] && ks[0] < ks[i + 1];
      }
      forall k | k in rest
        ensures k in ks[1..]
      {
        var i :| 0 <= i < |ks| && ks[i] == k;
        assert i != 0;
        assert ks[1..][i - 1] == k;
      }
      DistinctCount(ks[1..], rest);
    }
  }

  /** A run of requests for one link at the given times. */
  function RunDownloads(db: Db, u: Uuid, times: seq<int>): (r: (Db, seq<Status>))
    requires LinkResolves(db, u)
    ensures |r.1| == |times|
    decreases |times|
  {
    if times == [] then (db, [])
    else
      var first := Download(db, u, times[0]);
      assert LinkResolves(first.db, u);
      var rest := RunDownloads(first.db, u, times[1..]);
      (rest.0, [first.status] + rest.1)
  }

  /**
   * Requests that all arrive before the link expires: with the counter at `c` and the
   * product's limit `m` (read afresh at every request, and unchanged by downloads), the
   * `i`-th request succeeds exactly when `c + i < m`, and the counter ends at
   * `max(c, min(c + n, m))`. From a fresh link, exactly `m` requests succeed.
   */
  lemma {:induction false} ExactlyMaxDownloads(db: Db, u: Uuid, times: seq<int>)
    requires u in db.links && LinkResolves(db, u)
    requires forall i :: 0 <= i < |times| ==> times[i] <= db.links[u].expiresAt
    ensures var c := db.links[u].downloadCount;
      var m := LinkLimit(db, u);
      var r := RunDownloads(db, u, times);
      (forall i :: 0 <= i < |times| ==> r.1[i] == (if c + i < m then Ok else Forbidden))
      && u in r.0.links
      && r.0.links[u].downloadCount == (if c >= m then c else if c + |times| <= m then c + |times| else m)
    decreases |times|
  {
    if times != [] {
      var c := db.links[u].downloadCount;
      var m := LinkLimit(db, u);
      var first := Download(db, u, times[0]);
      assert first.db.links[u].expiresAt == db.links[u].expiresAt;
      assert first.db.links[u].item == db.links[u].item;
      assert LinkLimit(first.db, u) == m;
      assert first.db.links[u].downloadCount == if c < m then c + 1 else c;
      ExactlyMaxDownloads(first.db, u, times[1..]);
      var rest := RunDownloads(first.db, u, times[1..]);
      forall i | 0 <= i < |times|
        ensures RunDownloads(db, u, times).1[i] == if c + i < m then Ok else Forbidden
      {
        if i > 0 {
          assert RunDownloads(db, u, times).1[i] == rest.1[i - 1];
        }
      }
    }
  }

  /** The same, from a fresh link: `m + 1` requests give `m` successes and then a refusal. */
  lemma FreshLinkAllowsExactlyLimit(db: Db, u: Uuid, times: seq<int>)
    requires u in db.links && LinkResolves(db, u) && db.links[u].downloadCount == 0
    requires LinkLimit(db, u) >= 0 && |times| == LinkLimit(db, u) + 1
    requires forall i :: 0 <= i < |times| ==> times[i] <= db.links[u].expiresAt
    ensures var r := RunDownloads(db, u, times);
      (forall i :: 0 <= i < |times| - 1 ==> r.1[i] == Ok) && r.1[|times| - 1] == Forbidden
      && u in r.0.links && r.0.links[u].downloadCount == LinkLimit(db, u)
  {
    ExactlyMaxDownloads(db, u, times);
  }

  /** An expired link is refused with 410 whatever its counter, because expiry is checked first. */
  lemma ExpiryBeforeLimit(db: Db, u: Uuid, now: int)
    requires u in db.links && LinkResolves(db, u) && db.links[u].expiresAt < now
    ensures Download(db, u, now).status == Gone && Download(db, u, now).db == db
  {
  }

  /** `CustomerDownloadView.get`, incrementing the link's counter in place. */
  method CustomerDownload(db: Database, u: Uuid, now: int)
    returns (status: Status, files: seq<FileEntry>, expiresAt: Option<int>)
    requires LinkResolves(db.State(), u)
    modifies db
    ensures db.State() == Download(old(db.State()), u, now).db
    ensures status == Download(old(db.State()), u, now).status
    ensures files == Download(old(db.State()), u, now).files
    ensures expiresAt == Download(old(db.State()), u, now).expiresAt
  {
    if u !in db.links {
      return NotFound, [], None;
    }
    var link := db.links[u];
    if link.expiresAt < now {
      return Gone, [], None;
    }
    var product := db.items.rows[link.item].product;
    var maxDownloads := db.products.rows[product].maxDownloadsPerLink;
    if link.downloadCount >= maxDownloads {
      return Forbidden, [], None;
    }
    files := Listing(db.files, product);
    db.links := db.links[u := link.(downloadCount := link.downloadCount + 1)];
    status, expiresAt := Ok, Some(link.expiresAt);
  }
}
