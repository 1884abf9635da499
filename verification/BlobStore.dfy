/**
 The blob store itself: ingest, link and release, one system call or committed transaction after the other.
 The ghost field `trace` records the disk after each of them, so a statement about all of `trace` is a statement
 about a crash at any instant.
 */
module BlobStore {
  import opened BlobDisk

  /** The disks a crash may leave from position n of the trace on are all safe. */
  ghost predicate SafeFrom(trace: seq<Disk>, n: nat) {
    forall i :: n <= i < |trace| ==> CrashSafe(trace[i])
  }

  /** Readers see v whenever a crash comes from position n on. */
  ghost predicate ShownFrom(trace: seq<Disk>, n: nat, v: map<Path, Bytes>) {
    forall i :: n <= i < |trace| ==> WellFormed(trace[i]) && View(trace[i]) == v
  }

  /** A crash leaves the old view, the old view without path p, or the new one. */
  ghost predicate OneOf(d: Disk, v: map<Path, Bytes>, p: Path, b: Bytes) {
    WellFormed(d) && (View(d) == v || View(d) == v - {p} || View(d) == v[p := b])
  }

  /** Readers of other versions see what they saw before. */
  ghost predicate OthersKept(d: Disk, v: map<Path, Bytes>, version: string) {
    WellFormed(d) && SameElsewhere(View(d), v, version)
  }

  ghost predicate SameElsewhere(w: map<Path, Bytes>, v: map<Path, Bytes>, version: string) {
    forall p: Path :: p.version != version ==> (p in w <==> p in v) && (p in v ==> w[p] == v[p])
  }

  /** A crash anywhere from position n on leaves a safe disk and the other versions as they were. */
  ghost predicate ContainedFrom(trace: seq<Disk>, n: nat, v: map<Path, Bytes>, version: string) {
    forall i :: n <= i < |trace| ==> CrashSafe(trace[i]) && OthersKept(trace[i], v, version)
  }

  lemma ContainedChain(t0: seq<Disk>, t1: seq<Disk>, t2: seq<Disk>, v: map<Path, Bytes>, w: map<Path, Bytes>,
                       version: string)
    requires t0 <= t1 <= t2 && SameElsewhere(w, v, version)
    requires ContainedFrom(t1, |t0|, v, version) && ContainedFrom(t2, |t1|, w, version)
    ensures ContainedFrom(t2, |t0|, v, version)
  {
    forall i | |t0| <= i < |t2| ensures CrashSafe(t2[i]) && OthersKept(t2[i], v, version) {
      if i < |t1| {
        assert t2[i] == t1[i];
      }
    }
  }

  lemma OneOfIsContained(trace: seq<Disk>, n: nat, v: map<Path, Bytes>, p: Path, b: Bytes)
    requires SafeFrom(trace, n) && forall i :: n <= i < |trace| ==> OneOf(trace[i], v, p, b)
    ensures ContainedFrom(trace, n, v, p.version)
  {
    forall i | n <= i < |trace| ensures OthersKept(trace[i], v, p.version) {
      assert OneOf(trace[i], v, p, b);
    }
  }

  function WithoutVersion(v: map<Path, Bytes>, version: string): map<Path, Bytes> {
    map p | p in v && p.version != version :: v[p]
  }

  /** How a version file gets its bytes: by a hard link, or by a copy whose writes reach these lengths one after the
      other before the last one completes it. */
  datatype Linking = HardLink | Copied(cuts: seq<nat>)

  function Cut(b: Bytes, n: nat): Bytes {
    if n <= |b| then b[..n] else b
  }

  /** A file that shows q instead of b does not undercut a count. */
  ghost predicate Spare(d: Disk, b: Bytes, q: Bytes)
    requires WellFormed(d)
  {
    q == b || Slack(d, Sha256(q)) >= 1
  }

  /** No partial content of the copy undercuts a count. */
  ghost predicate CopySafe(d: Disk, b: Bytes, cuts: seq<nat>)
    requires WellFormed(d)
  {
    Spare(d, b, []) && forall i :: 0 <= i < |cuts| ==> Spare(d, b, Cut(b, cuts[i]))
  }

  ghost predicate LinkSafe(d: Disk, b: Bytes, linking: Linking)
    requires WellFormed(d)
  {
    linking.HardLink? || CopySafe(d, b, linking.cuts)
  }

  /** From exact counts a copy is safe only for empty content. */
  lemma ExactCopySafe(d: Disk, b: Bytes, cuts: seq<nat>)
    requires Exact(d)
    ensures CopySafe(d, b, cuts) <==> b == []
  {
    if b == [] {
      assert forall i :: 0 <= i < |cuts| ==> Cut(b, cuts[i]) == b;
    }
  }

  /** An entry of an archive, or one that makes the extraction stop. */
  datatype Entry = File(rel: string, data: Bytes) | Refused

  /** The entries before the first refused one. */
  function Accepted(entries: seq<Entry>): (files: seq<(string, Bytes)>)
    ensures |files| <= |entries|
  {
    if entries == [] || entries[0].Refused? then [] else [(entries[0].rel, entries[0].data)] + Accepted(entries[1..])
  }

  function Unpacked(v: map<Path, Bytes>, version: string, entries: seq<(string, Bytes)>): map<Path, Bytes> {
    if entries == [] then v
    else
      var n := |entries| - 1;
      Unpacked(v, version, entries[..n])[Path(version, entries[n].0) := entries[n].1]
  }

  /** The accepted files are the entries up to the first refused one, or all of them. */
  lemma {:induction false} AcceptedPrefix(entries: seq<Entry>)
    ensures var files := Accepted(entries);
      && (forall i :: 0 <= i < |files| ==> entries[i] == File(files[i].0, files[i].1))
      && (|files| < |entries| ==> entries[|files|] == Refused)
      && (|files| == |entries| <==> Refused !in entries)
  {
    if entries != [] && entries[0].File? {
      AcceptedPrefix(entries[1..]);
      assert forall i :: 0 < i < |entries| ==> entries[i] == entries[1..][i - 1];
    }
  }

  /** The last file written under a name stays. */
  lemma {:induction false} LastFileStays(v: map<Path, Bytes>, version: string, files: seq<(string, Bytes)>, i: nat)
    requires i < |files| && forall j :: i < j < |files| ==> files[j].0 != files[i].0
    ensures var r, p := Unpacked(v, version, files), Path(version, files[i].0); p in r && r[p] == files[i].1
  {
    var n := |files| - 1;
    if i < n {
      LastFileStays(v, version, files[..n], i);
    }
  }

  /** Names that are not written stay as they were. */
  lemma {:induction false} OtherFilesStay(v: map<Path, Bytes>, version: string, files: seq<(string, Bytes)>, p: Path)
    requires p.version == version ==> forall i :: 0 <= i < |files| ==> files[i].0 != p.rel
    ensures var r := Unpacked(v, version, files); (p in r <==> p in v) && (p in v ==> r[p] == v[p])
  {
    if files != [] {
      OtherFilesStay(v, version, files[..|files| - 1], p);
    }
  }

  /** The disk differs from a fresh create of p only in the bytes of p. */
  ghost predicate CopyOf(before: Disk, p: Path, d: Disk) {
    p !in before.files && d == CreateFile(before, p).(inodes := d.inodes)
    && d.inodes == CreateFile(before,
                              p).inodes[before.next := if before.next in d.inodes then d.inodes[before.next] else []]
  }

  /** Which of the disks seen during a copy are safe, after the create and i partial writes. */
  ghost predicate Instants(before: Disk, past: seq<Disk>, t: seq<Disk>, b: Bytes, cuts: seq<nat>, i: nat)
    requires WellFormed(before) && i <= |cuts|
  {
    && |t| == |past| + i + 1
    && (CrashSafe(t[|past|]) <==> Spare(before, b, []))
    && forall j :: 0 <= j < i ==> (CrashSafe(t[|past| + 1 + j]) <==> Spare(before, b, Cut(b, cuts[j])))
  }

  lemma InstantsGrow(before: Disk, past: seq<Disk>, t: seq<Disk>, b: Bytes, cuts: seq<nat>, i: nat, d: Disk)
    requires WellFormed(before) && i < |cuts| && Instants(before, past, t, b, cuts, i)
    requires CrashSafe(d) <==> Spare(before, b, Cut(b, cuts[i]))
    ensures Instants(before, past, t + [d], b, cuts, i + 1)
  {
  }

  lemma CopyInstants(before: Disk, past: seq<Disk>, t: seq<Disk>, b: Bytes, cuts: seq<nat>, d: Disk)
    requires WellFormed(before) && Instants(before, past, t, b, cuts, |cuts|) && CrashSafe(d)
    ensures SafeFrom(t + [d], |past|) <==> CopySafe(before, b, cuts)
  {
    var u := t + [d];
    if CopySafe(before, b, cuts) {
      forall i | |past| <= i < |u| ensures CrashSafe(u[i]) {
        if |past| < i < |t| {
          var j := i - |past| - 1;
          assert t[i] == t[|past| + 1 + j] && Spare(before, b, Cut(b, cuts[j]));
        }
      }
    }
    if SafeFrom(u, |past|) {
      assert CrashSafe(u[|past|]);
      forall j | 0 <= j < |cuts| ensures Spare(before, b, Cut(b, cuts[j])) {
        assert u[|past| + 1 + j] == t[|past| + 1 + j] && CrashSafe(u[|past| + 1 + j]);
      }
    }
  }

  /** Ingesting the content itself does not change which partial contents are spare. */
  lemma LinkSafeAfterIngest(d: Disk, d': Disk, h: Hash, linking: Linking)
    requires WellFormed(d) && WellFormed(d') && forall g :: Slack(d', g) == Slack(d, g) + One(g == h)
    ensures LinkSafe(d', h.content, linking) <==> LinkSafe(d, h.content, linking)
  {
    forall q: Bytes ensures Spare(d', h.content, q) <==> Spare(d, h.content, q) {
      if q != h.content {
        assert Sha256(q) != h;
      }
    }
  }

  class Store {
    var files: map<Path, nat>
    var blobs: map<Hash, nat>
    var inodes: map<nat, Bytes>
    var rows: map<Hash, nat>
    var next: nat
    ghost var trace: seq<Disk>

    ghost function Now(): Disk
      reads this
    {
      Disk(files, blobs, inodes, rows, next)
    }

    constructor ()
      ensures Exact(Now()) && View(Now()) == map[]
    {
      files, blobs, inodes, rows, next := map[], map[], map[], map[], 0;
      trace := [];
    }

    /** No reference count has moved relative to the files that have the content. */
    twostate predicate Balanced()
      reads this
    {
      WellFormed(Now()) && WellFormed(old(Now())) && forall h :: Slack(Now(), h) == Slack(old(Now()), h)
    }

    /******* System calls and transactions *******/

    method RemoveFile(p: Path)
      requires WellFormed(Now()) && RowsBacked(Now()) && p in files
      modifies this
      ensures Now() == Unlink(old(Now()), p) && trace == old(trace) + [Now()]
      ensures Moves(old(Now()), Now(), View(old(Now())) - {p}, Sha256(View(old(Now()))[p]), 1)
    {
      UnlinkStep(Now(), p);
      files := files - {p};
      trace := trace + [Now()];
    }

    method CommitRow(h: Hash, n: nat)
      requires WellFormed(Now()) && n >= 1 && h in blobs
      modifies this
      ensures Now() == SetRow(old(Now()), h, n) && trace == old(trace) + [Now()]
      ensures Shifts(old(Now()), Now(), View(old(Now())), h, n - Count(old(Now()), h))
      ensures Lost(Now()) == Lost(old(Now()))
      ensures RowsBacked(old(Now())) ==> RowsBacked(Now())
    {
      SetRowStep(Now(), h, n);
      rows := rows[h := n];
      trace := trace + [Now()];
    }

    method DropRow(h: Hash)
      requires WellFormed(Now()) && RowsBacked(Now())
      modifies this
      ensures Now() == DeleteRow(old(Now()), h) && trace == old(trace) + [Now()]
      ensures Moves(old(Now()), Now(), View(old(Now())), h, 0 - Count(old(Now()), h))
    {
      DeleteRowStep(Now(), h);
      rows := rows - {h};
      trace := trace + [Now()];
    }

    method UnlinkBlob(h: Hash)
      requires WellFormed(Now()) && RowsBacked(Now()) && h !in rows
      modifies this
      ensures Now() == RemoveBlob(old(Now()), h) && trace == old(trace) + [Now()]
      ensures Moves(old(Now()), Now(), View(old(Now())), h, 0)
    {
      RemoveBlobStep(Now(), h);
      blobs := blobs - {h};
      trace := trace + [Now()];
    }

    method CreateTemp(h: Hash) returns (inode: nat)
      requires WellFormed(Now())
      modifies this
      ensures Now() == WriteTemp(old(Now()), h.content) && trace == old(trace) + [Now()]
      ensures inode in inodes && inodes[inode] == h.content
      ensures WellFormed(Now()) && View(Now()) == View(old(Now())) && Balanced()
    {
      TempStep(Now(), h);
      inode := next;
      inodes, next := inodes[inode := h.content], next + 1;
      trace := trace + [Now()];
    }

    method RenameTemp(h: Hash, inode: nat)
      requires WellFormed(Now()) && inode in inodes && inodes[inode] == h.content
      modifies this
      ensures Now() == RenameToBlob(old(Now()), h, inode) && trace == old(trace) + [Now()]
      ensures Shifts(old(Now()), Now(), View(old(Now())), h, 0) && Lost(Now()) == Lost(old(Now())) - {h}
    {
      RenameStep(Now(), h, inode);
      blobs := blobs[h := inode];
      trace := trace + [Now()];
    }

    /******* Reference counts *******/

    /** decrementBlobRef: the row goes first, the blob file after it. */
    method DecrementBlobRef(h: Hash)
      requires CrashSafe(Now()) && (h in rows ==> Slack(Now(), h) >= 1)
      modifies this
      ensures CrashSafe(Now()) && (h !in old(rows) ==> Now() == old(Now()))
      ensures h in old(rows) ==> Moves(old(Now()), Now(), View(old(Now())), h, -1)
      ensures old(trace) <= trace && SafeFrom(trace, |old(trace)|)
      ensures forall i :: |old(trace)| <= i < |trace| ==> View(trace[i]) == View(old(Now()))
    {
      if h !in rows {
        return;
      }
      var ref := rows[h] - 1;
      if ref <= 0 {
        DropRow(h);
        MovesKeepsSafe(old(Now()), Now(), View(old(Now())), h, -1);
        ghost var dropped := Now();
        UnlinkBlob(h);
        MovesKeepsSafe(dropped, Now(), View(dropped), h, 0);
        assert trace == old(trace) + [dropped, Now()];
      } else {
        CommitRow(h, ref);
        MovesKeepsSafe(old(Now()), Now(), View(old(Now())), h, -1);
      }
    }

    /** releaseBlobLink: the file goes first, its reference after it. */
    method ReleaseBlobLink(p: Path)
      requires CrashSafe(Now())
      modifies this
      ensures CrashSafe(Now()) && View(Now()) == View(old(Now())) - {p} && Balanced()
      ensures old(trace) <= trace && SafeFrom(trace, |old(trace)|)
      ensures forall i :: |old(trace)| <= i < |trace| ==> View(trace[i]) == View(old(Now())) - {p}
    {
      if p !in files {
        return;
      }
      var h := Sha256(inodes[files[p]]);
      RemoveFile(p);
      MovesKeepsSafe(old(Now()), Now(), View(old(Now())) - {p}, h, 1);
      DecrementBlobRef(h);
    }
    /******* Ingest and link *******/

    /** writeBlobFile: an existing blob file is kept, a missing one is restored by write and rename, even
        under a row. */
    method WriteBlobFile(h: Hash)
      requires Healable(Now())
      modifies this
      ensures Shifts(old(Now()), Now(), View(old(Now())), h, 0) && Healable(Now())
      ensures Lost(Now()) == Lost(old(Now())) - {h}
      ensures h in blobs && rows == old(rows) && (h in old(blobs) ==> Now() == old(Now()))
      ensures old(trace) <= trace && (CrashSafe(old(Now())) ==> SafeFrom(trace, |old(trace)|))
      ensures ShownFrom(trace, |old(trace)|, View(old(Now())))
    {
      if h in blobs {
        return;
      }
      var inode := CreateTemp(h);
      ghost var temp := Now();
      assert Lost(temp) == Lost(old(Now()));
      RenameTemp(h, inode);
      assert trace == old(trace) + [temp, Now()];
    }

    /** ingestBlob: the blob file is in place before the row is committed.  A row whose blob file was lost gets it back:
        afterwards only the other lost files are missing, and if there is none, the disk is safe. */
    method IngestBlob(data: Bytes) returns (h: Hash)
      requires Healable(Now())
      modifies this
      ensures h == Sha256(data) && h in blobs
      ensures Shifts(old(Now()), Now(), View(old(Now())), h, 1) && Healable(Now())
      ensures Lost(Now()) == Lost(old(Now())) - {h}
      ensures Lost(old(Now())) <= {h} ==> CrashSafe(Now())
      ensures old(trace) <= trace && (CrashSafe(old(Now())) ==> SafeFrom(trace, |old(trace)|))
      ensures ShownFrom(trace, |old(trace)|, View(old(Now())))
    {
      h := Sha256(data);
      var ref := if h in rows then rows[h] else 0;
      WriteBlobFile(h);
      CommitRow(h, ref + 1);
      NothingLost(Now());
      NothingLost(old(Now()));
    }

    method CreateEmpty(p: Path)
      requires CrashSafe(Now()) && p !in files
      modifies this
      ensures Now() == CreateFile(old(Now()), p) && trace == old(trace) + [Now()]
      ensures Moves(old(Now()), Now(), View(old(Now()))[p := []], Sha256([]), -1)
      ensures CrashSafe(Now()) <==> Slack(old(Now()), Sha256([])) >= 1
    {
      CreateStep(Now(), p);
      MovesKeepsSafe(Now(), CreateFile(Now(), p), View(Now())[p := []], Sha256([]), -1);
      files, inodes, next := files[p := next], inodes[next := []], next + 1;
      trace := trace + [Now()];
    }

    /** One write through the open copy: from here on the file shows the content of g. */
    method Fill(g: Hash, p: Path, ghost before: Disk)
      requires Counted(before) && RowsBacked(before) && p !in before.files
      requires WellFormed(Now()) && p in files && CopyOf(before, p, Now())
      modifies this
      ensures Moves(before, Now(), View(before)[p := g.content], g, -1) && CopyOf(before, p, Now()) && p in files
      ensures trace == old(trace) + [Now()] && (CrashSafe(Now()) <==> Slack(before, g) >= 1)
    {
      FillStep(before, p, g);
      assert Now().inodes[files[p] := g.content] == BlobDisk.WriteFile(CreateFile(before, p), p, g.content).inodes;
      MovesKeepsSafe(before, BlobDisk.WriteFile(CreateFile(before, p), p, g.content), View(before)[p := g.content], g,
                     -1);
      inodes := inodes[files[p] := g.content];
      trace := trace + [Now()];
    }

    /** copyBlobFile into a free name: create, then write in parts. A crash between two writes leaves a partial file. */
    method CopyBlobFile(h: Hash, p: Path, cuts: seq<nat>)
      requires CrashSafe(Now()) && p !in files && Slack(Now(), h) >= 1
      modifies this
      ensures Moves(old(Now()), Now(), View(old(Now()))[p := h.content], h, -1) && CrashSafe(Now())
      ensures |trace| == |old(trace)| + |cuts| + 2 && old(trace) <= trace
      ensures SafeFrom(trace, |old(trace)|) <==> CopySafe(old(Now()), h.content, cuts)
    {
      ghost var before, past := Now(), trace;
      CreateEmpty(p);
      for i := 0 to |cuts|
        invariant p in files && CopyOf(before, p, Now()) && WellFormed(Now())
        invariant past <= trace && Instants(before, past, trace, h.content, cuts, i)
      {
        ghost var t := trace;
        Fill(Sha256(Cut(h.content, cuts[i])), p, before);
        InstantsGrow(before, past, t, h.content, cuts, i, Now());
      }
      ghost var t := trace;
      Fill(h, p, before);
      CopyInstants(before, past, t, h.content, cuts, Now());
    }

    /** linkBlobToVersion: the name is freed, then hard-linked, or copied where the file system refuses the link. */
    method LinkBlobToVersion(h: Hash, p: Path, linking: Linking)
      requires CrashSafe(Now()) && h in blobs && Slack(Now(), h) >= 1
      modifies this
      ensures CrashSafe(Now()) && View(Now()) == View(old(Now()))[p := h.content]
      ensures old(trace) <= trace && trace != old(trace)
      ensures linking.HardLink? ==> SafeFrom(trace, |old(trace)|)
      ensures p !in old(files) ==> Moves(old(Now()), Now(), View(old(Now()))[p := h.content], h, -1)
      ensures p !in old(files) && linking.HardLink? ==> trace == old(trace) + [Now()]
      ensures p !in old(files) ==> (SafeFrom(trace, |old(trace)|) <==> LinkSafe(old(Now()), h.content, linking))
    {
      if p in files {
        ghost var content := View(Now())[p];
        RemoveFile(p);
        MovesKeepsSafe(old(Now()), Now(), View(old(Now())) - {p}, Sha256(content), 1);
      }
      LinkOrCopy(h, p, linking);
    }

    method LinkOrCopy(h: Hash, p: Path, linking: Linking)
      requires CrashSafe(Now()) && p !in files && h in blobs && Slack(Now(), h) >= 1
      modifies this
      ensures Moves(old(Now()), Now(), View(old(Now()))[p := h.content], h, -1) && CrashSafe(Now())
      ensures old(trace) <= trace && trace != old(trace)
      ensures SafeFrom(trace, |old(trace)|) <==> LinkSafe(old(Now()), h.content, linking)
      ensures linking.HardLink? ==> trace == old(trace) + [Now()]
    {
      if linking.HardLink? {
        LinkStep(Now(), h, p);
        MovesKeepsSafe(Now(), Link(Now(), h, p), View(Now())[p := h.content], h, -1);
        files := files[p := blobs[h]];
        trace := trace + [Now()];
      } else {
        CopyBlobFile(h, p, linking.cuts);
      }
    }

    /******* Whole operations *******/

    /** writeVersionBlob: the path reads the new bytes, no other path changes, and no count moves.
        With hard links every crash on the way leaves a safe disk that shows the old file, no file, or the new one. With
        copies, exactly when no partial content undercuts a count; from exact counts, exactly for empty content. */
    method WriteVersionBlob(p: Path, data: Bytes, linking: Linking)
      requires CrashSafe(Now())
      modifies this
      ensures CrashSafe(Now()) && View(Now()) == View(old(Now()))[p := data] && Balanced()
      ensures old(trace) <= trace
      ensures linking.HardLink? ==> forall i :: |old(trace)| <= i < |trace| ==>
        OneOf(trace[i], View(old(Now())), p, data)
      ensures SafeFrom(trace, |old(trace)|) <==> LinkSafe(old(Now()), data, linking)
      ensures Exact(old(Now())) ==> (SafeFrom(trace, |old(trace)|) <==> linking.HardLink? || data == [])
    {
      ghost var v := View(Now());
      var h := ReleaseAndIngest(p, data);
      ghost var ingested := trace;
      LinkSafeAfterIngest(old(Now()), Now(), h, linking);
      LinkBlobToVersion(h, p, linking);
      assert (v - {p})[p := data] == v[p := data];
      CombineTraces(old(trace), ingested, trace);
      if linking.Copied? && Exact(old(Now())) {
        ExactCopySafe(old(Now()), data, linking.cuts);
      }
      if linking.HardLink? {
        CombineViews(old(trace), ingested, trace, v, p, data);
      }
    }

    /** The old link is gone and the new content is counted once more than it is used. */
    method ReleaseAndIngest(p: Path, data: Bytes) returns (h: Hash)
      requires CrashSafe(Now())
      modifies this
      ensures CrashSafe(Now()) && View(Now()) == View(old(Now())) - {p} && h == Sha256(data) && h in blobs
      ensures forall g :: Slack(Now(), g) == Slack(old(Now()), g) + One(g == h)
      ensures old(trace) <= trace && SafeFrom(trace, |old(trace)|)
      ensures forall i :: |old(trace)| <= i < |trace| ==> View(trace[i]) == View(old(Now())) - {p}
    {
      ReleaseBlobLink(p);
      ghost var released := trace;
      h := IngestBlob(data);
      CombineTraces(old(trace), released, trace);
    }

    /** The same, as seen by the other versions: whatever happens on the way, they keep their files. */
    method WriteFile(p: Path, data: Bytes, linking: Linking)
      requires CrashSafe(Now())
      modifies this
      ensures CrashSafe(Now()) && View(Now()) == View(old(Now()))[p := data] && Balanced()
      ensures old(trace) <= trace
      ensures linking.HardLink? ==> ContainedFrom(trace, |old(trace)|, View(old(Now())), p.version)
    {
      WriteVersionBlob(p, data, linking);
      if linking.HardLink? {
        OneOfIsContained(trace, |old(trace)|, View(old(Now())), p, data);
      }
    }

    method DeleteFile(p: Path)
      requires CrashSafe(Now())
      modifies this
      ensures CrashSafe(Now()) && View(Now()) == View(old(Now())) - {p} && Balanced()
      ensures old(trace) <= trace && ContainedFrom(trace, |old(trace)|, View(old(Now())), p.version)
    {
      ReleaseBlobLink(p);
      OneOfIsContained(trace, |old(trace)|, View(old(Now())), p, []);
    }

    /** releaseVersionDir: walks the files of one version, in any order, and releases each. */
    method ReleaseVersionDir(version: string)
      requires CrashSafe(Now())
      modifies this
      ensures CrashSafe(Now()) && Balanced() && View(Now()) == WithoutVersion(View(old(Now())), version)
      ensures old(trace) <= trace && ContainedFrom(trace, |old(trace)|, View(old(Now())), version)
    {
      var todo := set p | p in files && p.version == version;
      ghost var v := View(Now());
      assert v - {} == v;
      ghost var released: set<Path> := {};
      while todo != {}
        invariant CrashSafe(Now()) && Balanced() && View(Now()) == v - released
        invariant released + todo == set p | p in v && p.version == version
        invariant old(trace) <= trace && ContainedFrom(trace, |old(trace)|, v, version)
        decreases todo
      {
        var p :| p in todo;
        ghost var before, w := trace, View(Now());
        DeleteFile(p);
        ContainedChain(old(trace), before, trace, v, w, version);
        todo := todo - {p};
        assert v - (released + {p}) == v - released - {p};
        released := released + {p};
      }
    }

    /** The entry loop of ExtractZipToVersion and ExtractTarToVersion: later entries win, a refused entry stops it. */
    method ExtractArchive(version: string, entries: seq<Entry>, linking: Linking) returns (ok: bool)
      requires CrashSafe(Now())
      modifies this
      ensures ok == (Refused !in entries)
      ensures CrashSafe(Now()) && Balanced() && View(Now()) == Unpacked(View(old(Now())), version, Accepted(entries))
      ensures linking.HardLink? ==> ContainedFrom(trace, |old(trace)|, View(old(Now())), version)
      ensures old(trace) <= trace
    {
      AcceptedPrefix(entries);
      UnpackAll(version, Accepted(entries), linking);
      ok := |Accepted(entries)| == |entries|;
    }

    /** The accepted part of the loop. */
    method UnpackAll(version: string, files: seq<(string, Bytes)>, linking: Linking)
      requires CrashSafe(Now())
      modifies this
      ensures CrashSafe(Now()) && Balanced() && View(Now()) == Unpacked(View(old(Now())), version, files)
      ensures linking.HardLink? ==> ContainedFrom(trace, |old(trace)|, View(old(Now())), version)
      ensures old(trace) <= trace
    {
      assert files[..0] == [];
      for i := 0 to |files|
        invariant CrashSafe(Now()) && Balanced() && View(Now()) == Unpacked(View(old(Now())), version, files[..i])
        invariant old(trace) <= trace
        invariant linking.HardLink? ==> ContainedFrom(trace, |old(trace)|, View(old(Now())), version)
        invariant SameElsewhere(View(Now()), View(old(Now())), version)
      {
        ghost var before, w := trace, View(Now());
        WriteFile(Path(version, files[i].0), files[i].1, linking);
        if linking.HardLink? {
          ContainedChain(old(trace), before, trace, View(old(Now())), w, version);
        }
        assert files[..i + 1][..i] == files[..i];
      }
      assert files[..|files|] == files;
    }

    lemma CombineViews(t0: seq<Disk>, t1: seq<Disk>, t2: seq<Disk>, v: map<Path, Bytes>, p: Path, b: Bytes)
      requires t0 <= t1 <= t2 && SafeFrom(t2, |t0|)
      requires forall i :: |t0| <= i < |t1| ==> CrashSafe(t1[i]) && View(t1[i]) == v - {p}
      requires forall i :: |t1| <= i < |t2| ==> CrashSafe(t2[i]) && View(t2[i]) == v[p := b]
      ensures forall i :: |t0| <= i < |t2| ==> OneOf(t2[i], v, p, b)
    {
      forall i | |t0| <= i < |t2| ensures OneOf(t2[i], v, p, b) {
        if i < |t1| {
          assert t2[i] == t1[i];
        }
      }
    }

    lemma CombineTraces(t0: seq<Disk>, t1: seq<Disk>, t2: seq<Disk>)
      requires t0 <= t1 <= t2 && SafeFrom(t1, |t0|)
      ensures SafeFrom(t2, |t0|) <==> SafeFrom(t2, |t1|)
    {
      if SafeFrom(t2, |t1|) {
        forall i | |t0| <= i < |t2| ensures CrashSafe(t2[i]) {
          if i < |t1| {
            assert t2[i] == t1[i];
          }
        }
      }
    }
  }

  /** Why an unsafe crash matters.  A copy cut short leaves an empty file that no reference counts; if another file is
      really empty and counted once, releasing the leftover deletes the row and the blob of content still in use. */
  lemma TruncatedCopyFreesContentInUse(d: Disk, p: Path, q: Path)
    requires Exact(d) && p !in d.files && q in d.files && View(d)[q] == [] && Users(View(d), Sha256([])) == {q}
    ensures var e := Sha256([]);
      var crashed := CreateFile(d, p);
      var released := RemoveBlob(DeleteRow(Unlink(crashed, p), e), e);
      && !CrashSafe(crashed) && Count(Unlink(crashed, p), e) - 1 <= 0
      && WellFormed(released) && q in View(released) && View(released)[q] == [] && e !in released.rows
           && e !in released.blobs
  {
    CreateStep(d, p);
    MovesKeepsSafe(d, CreateFile(d, p), View(d)[p := []], Sha256([]), -1);
    assert Slack(d, Sha256([])) == 0 && |Users(View(d), Sha256([]))| == 1;
  }
}
