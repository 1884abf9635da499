/**
 The disk behind the content-addressed store: version files and blob files are names for inodes, the blobs table
 counts references.  Two names may share an inode, so writing through one name changes what the other reads.
 The SHA-256 digest of a content is modelled as an injective digest: it wraps the content.
 */
module BlobDisk {
  type Bytes = seq<bv8>
  datatype Hash = Sha256(content: Bytes)

  /** A file of a version directory. */
  datatype Path = Path(version: string, rel: string)

  datatype Disk = Disk(files: map<Path, nat>, blobs: map<Hash, nat>, inodes: map<nat, Bytes>, rows: map<Hash, nat>,
                       next: nat)

  /** Names lead to inodes, a blob file holds the content it is named after, and `next` is unused. */
  ghost predicate WellFormed(d: Disk) {
    && (forall p :: p in d.files ==> d.files[p] in d.inodes)
    && (forall h :: h in d.blobs ==> d.blobs[h] in d.inodes && d.inodes[d.blobs[h]] == h.content)
    && (forall i :: i in d.inodes ==> i < d.next)
  }

  /** What a reader sees: the plain map from path to bytes that the store stands for. */
  ghost function View(d: Disk): (v: map<Path, Bytes>)
    requires WellFormed(d)
  {
    map p | p in d.files :: d.inodes[d.files[p]]
  }

  ghost function Users(v: map<Path, Bytes>, h: Hash): set<Path> {
    set p | p in v && v[p] == h.content
  }

  function Count(d: Disk, h: Hash): nat {
    if h in d.rows then d.rows[h] else 0
  }

  ghost predicate RowsBacked(d: Disk) {
    forall h :: h in d.rows ==> d.rows[h] >= 1 && h in d.blobs
  }

  /** How far the reference count of a content exceeds the number of files that have it. */
  ghost function Slack(d: Disk, h: Hash): int
    requires WellFormed(d)
  {
    Count(d, h) - |Users(View(d), h)|
  }

  ghost predicate Counted(d: Disk) {
    WellFormed(d) && forall h :: Slack(d, h) >= 0
  }

  /** The rows whose blob file is missing. */
  function Lost(d: Disk): set<Hash> {
    set h | h in d.rows && h !in d.blobs
  }

  /** A safe disk, except that blob files may have been lost. */
  ghost predicate Healable(d: Disk) {
    Counted(d) && forall h :: h in d.rows ==> d.rows[h] >= 1
  }

  /** What must hold at every instant: no count is below the number of files with that content, and every row has
      its blob file.  In particular a content in use always has a row. */
  ghost predicate CrashSafe(d: Disk) {
    Counted(d) && RowsBacked(d)
  }

  /** What holds when no operation has ever been cut short: every count is exact. */
  ghost predicate Exact(d: Disk) {
    CrashSafe(d) && forall h :: Slack(d, h) == 0
  }

  function One(b: bool): int {
    if b then 1 else 0
  }

  /******* Counting users *******/

  lemma UsersRemove(v: map<Path, Bytes>, p: Path, h: Hash)
    requires p in v
    ensures |Users(v - {p}, h)| == |Users(v, h)| - One(v[p] == h.content)
  {
    if v[p] == h.content {
      assert Users(v - {p}, h) == Users(v, h) - {p};
    } else {
      assert Users(v - {p}, h) == Users(v, h);
    }
  }

  lemma UsersAdd(v: map<Path, Bytes>, p: Path, b: Bytes, h: Hash)
    requires p !in v
    ensures |Users(v[p := b], h)| == |Users(v, h)| + One(b == h.content)
  {
    if b == h.content {
      assert Users(v[p := b], h) == Users(v, h) + {p};
    } else {
      assert Users(v[p := b], h) == Users(v, h);
    }
  }

  /******* Steps: system calls and committed transactions *******/

  function Unlink(d: Disk, p: Path): Disk {
    d.(files := d.files - {p})
  }

  function Link(d: Disk, h: Hash, p: Path): Disk
    requires h in d.blobs
  {
    d.(files := d.files[p := d.blobs[h]])
  }

  /** os.Create: a new empty file, or an existing one truncated in place, shared inode and all. */
  function CreateFile(d: Disk, p: Path): Disk {
    if p in d.files then d.(inodes := d.inodes[d.files[p] := []])
    else d.(files := d.files[p := d.next], inodes := d.inodes[d.next := []], next := d.next + 1)
  }

  /** Writes through an open file: every name of the inode sees it. */
  function WriteFile(d: Disk, p: Path, b: Bytes): Disk
    requires p in d.files
  {
    d.(inodes := d.inodes[d.files[p] := b])
  }

  /** A temporary file, not visible under any modelled name. */
  function WriteTemp(d: Disk, b: Bytes): Disk {
    d.(inodes := d.inodes[d.next := b], next := d.next + 1)
  }

  function RenameToBlob(d: Disk, h: Hash, inode: nat): Disk {
    d.(blobs := d.blobs[h := inode])
  }

  function RemoveBlob(d: Disk, h: Hash): Disk {
    d.(blobs := d.blobs - {h})
  }

  function SetRow(d: Disk, h: Hash, n: nat): Disk {
    d.(rows := d.rows[h := n])
  }

  function DeleteRow(d: Disk, h: Hash): Disk {
    d.(rows := d.rows - {h})
  }

  /******* What each step does to readers and to the counts *******/

  /** From d to d' the readers' view becomes v and the slack of h changes by `delta`, that of other contents not. */
  ghost predicate Shifts(d: Disk, d': Disk, v: map<Path, Bytes>, h: Hash, delta: int) {
    && WellFormed(d) && WellFormed(d')
    && View(d') == v
    && forall g :: Slack(d', g) == Slack(d, g) + if g == h then delta else 0
  }

  /** The same, and afterwards no row lacks its blob file. */
  ghost predicate Moves(d: Disk, d': Disk, v: map<Path, Bytes>, h: Hash, delta: int) {
    Shifts(d, d', v, h, delta) && RowsBacked(d')
  }

  lemma MovesKeepsSafe(d: Disk, d': Disk, v: map<Path, Bytes>, h: Hash, delta: int)
    requires Counted(d) && Moves(d, d', v, h, delta)
    ensures CrashSafe(d') <==> Slack(d, h) + delta >= 0
  {
    assert Slack(d', h) == Slack(d, h) + delta;
  }

  lemma UnlinkStep(d: Disk, p: Path)
    requires WellFormed(d) && RowsBacked(d) && p in d.files
    ensures Moves(d, Unlink(d, p), View(d) - {p}, Sha256(View(d)[p]), 1)
  {
    var d' := Unlink(d, p);
    assert View(d') == View(d) - {p};
    forall g ensures Slack(d', g) == Slack(d, g) + if g == Sha256(View(d)[p]) then 1 else 0 {
      UsersRemove(View(d), p, g);
    }
  }

  lemma LinkStep(d: Disk, h: Hash, p: Path)
    requires WellFormed(d) && RowsBacked(d) && p !in d.files && h in d.blobs
    ensures Moves(d, Link(d, h, p), View(d)[p := h.content], h, -1)
  {
    var d' := Link(d, h, p);
    assert View(d') == View(d)[p := h.content];
    forall g ensures Slack(d', g) == Slack(d, g) + if g == h then -1 else 0 {
      UsersAdd(View(d), p, h.content, g);
    }
  }

  /** The new file has a new inode, so nobody else's bytes change; but its content is empty for now. */
  lemma CreateStep(d: Disk, p: Path)
    requires WellFormed(d) && RowsBacked(d) && p !in d.files
    ensures Moves(d, CreateFile(d, p), View(d)[p := []], Sha256([]), -1)
  {
    var d' := CreateFile(d, p);
    assert View(d') == View(d)[p := []];
    forall g ensures Slack(d', g) == Slack(d, g) + if g == Sha256([]) then -1 else 0 {
      UsersAdd(View(d), p, [], g);
    }
  }

  /** A fresh copy filled so far with the content of h: as if that content had been linked. */
  lemma FillStep(d: Disk, p: Path, h: Hash)
    requires WellFormed(d) && RowsBacked(d) && p !in d.files
    ensures Moves(d, WriteFile(CreateFile(d, p), p, h.content), View(d)[p := h.content], h, -1)
  {
    var d' := WriteFile(CreateFile(d, p), p, h.content);
    assert forall q :: q in d.files ==> d.files[q] != d.next;
    assert View(d') == View(d)[p := h.content];
    forall g ensures Slack(d', g) == Slack(d, g) + if g == h then -1 else 0 {
      UsersAdd(View(d), p, h.content, g);
    }
  }

  /** A temporary file changes nothing that readers or counts see. */
  lemma TempStep(d: Disk, h: Hash)
    requires WellFormed(d)
    ensures var d' := WriteTemp(d, h.content);
      && WellFormed(d') && View(d') == View(d) && (forall g :: Slack(d', g) == Slack(d, g))
      && d.next in d'.inodes && d'.inodes[d.next] == h.content
  {
    assert View(WriteTemp(d, h.content)) == View(d);
  }

  /** The rename also heals a row whose blob file was lost. */
  lemma RenameStep(d: Disk, h: Hash, inode: nat)
    requires WellFormed(d) && inode in d.inodes && d.inodes[inode] == h.content
    ensures Shifts(d, RenameToBlob(d, h, inode), View(d), h, 0)
    ensures Lost(RenameToBlob(d, h, inode)) == Lost(d) - {h}
  {
    assert View(RenameToBlob(d, h, inode)) == View(d);
  }

  lemma RemoveBlobStep(d: Disk, h: Hash)
    requires WellFormed(d) && RowsBacked(d) && h !in d.rows
    ensures Moves(d, RemoveBlob(d, h), View(d), h, 0)
  {
    assert View(RemoveBlob(d, h)) == View(d);
  }

  lemma SetRowStep(d: Disk, h: Hash, n: nat)
    requires WellFormed(d) && n >= 1 && h in d.blobs
    ensures Shifts(d, SetRow(d, h, n), View(d), h, n - Count(d, h)) && Lost(SetRow(d, h, n)) == Lost(d)
    ensures RowsBacked(d) ==> RowsBacked(SetRow(d, h, n))
  {
    assert View(SetRow(d, h, n)) == View(d);
  }

  lemma DeleteRowStep(d: Disk, h: Hash)
    requires WellFormed(d) && RowsBacked(d)
    ensures Moves(d, DeleteRow(d, h), View(d), h, 0 - Count(d, h))
  {
    assert View(DeleteRow(d, h)) == View(d);
  }

  lemma NothingLost(d: Disk)
    requires Healable(d)
    ensures CrashSafe(d) <==> Lost(d) == {}
  {
    assert forall h :: h in d.rows && h !in d.blobs ==> h in Lost(d);
  }
}
