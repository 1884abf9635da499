/**
 Versions of a project on top of the blob store.  The plain model of a project is its version rows, one map from path
 to bytes, the directories left behind, and the requests under way: an upload, a review or a publication checks the
 status of its version in one statement and acts on it in a later one, and a deletion drops the row first and the files
 later.  The class shows that the shared inodes and reference counts below implement exactly that model.
 */
module VersionStore {
  import opened Options
  import opened Text
  import opened BlobDisk
  import opened BlobStore

  datatype Status = Draft | PendingReview | Rejected | Published

  /** A version row; the artifact digest covers every path and every byte and is modelled as what it covers. */
  datatype Row = Row(status: Status, manifest: Option<map<Path, Bytes>>)

  /** A request that has passed its check; a publication then also reads the files. */
  datatype Request =
    | Submitting(version: string)
    | Rejecting(version: string)
    | Editing(version: string)
    | Publishing(version: string)
    | Manifested(version: string, manifest: map<Path, Bytes>)
    | Removing(version: string)

  datatype Project = Project(versions: map<string, Row>, files: map<Path, Bytes>, dirs: set<Path>,
                             inFlight: multiset<Request>)

  const Nothing := Project(map[], map[], {}, multiset{})

  /** The steps of store requests, with the outcome of the checks that are not modelled (config file
      names) as an input. */
  datatype Op =
    | CreateVersion(version: string)
    | CheckEdit(version: string)
    | WriteVersionFile(version: string, rel: string, data: Bytes, accepted: bool)
    | DeleteVersionFile(version: string, rel: string)
    | ExtractArchive(version: string, entries: seq<Entry>)
    | CheckSubmit(version: string)
    | WriteSubmit(version: string)
    | CheckReject(version: string)
    | WriteReject(version: string)
    | CheckPublish(version: string)
    | ReadManifest(version: string, accepted: bool)
    | WritePublish(version: string, manifest: map<Path, Bytes>)
    | DropRow(version: string, pinned: bool)
    | RemoveFiles(version: string)

  function FilesOf(files: map<Path, Bytes>, version: string): map<Path, Bytes> {
    map p | p in files && p.version == version :: files[p]
  }

  predicate HasStatus(versions: map<string, Row>, version: string, status: Status) {
    version in versions && versions[version].status == status
  }

  /** assertMutable: only drafts and rejected versions may change. */
  predicate Mutable(versions: map<string, Row>, version: string) {
    HasStatus(versions, version, Draft) || HasStatus(versions, version, Rejected)
  }

  predicate Digits(s: string) {
    s != "" && forall i :: 0 <= i < |s| ==> '0' <= s[i] <= '9'
  }

  /** X.Y.Z with decimal parts. */
  predicate IsReleaseVersion(version: string) {
    var parts := Split(version, '.');
    |parts| == 3 && Digits(parts[0]) && Digits(parts[1]) && Digits(parts[2])
  }

  predicate Publishable(versions: map<string, Row>, version: string) {
    (HasStatus(versions, version, Draft) || HasStatus(versions, version, PendingReview)) && IsReleaseVersion(version)
  }

  /** The top-level directory that a file in a subdirectory needs; deleting the file leaves it behind. */
  function DirOf(version: string, rel: string): set<Path> {
    var parts := Split(rel, '/');
    if |parts| > 1 then {Path(version, parts[0])} else {}
  }

  function DirsOf(version: string, files: seq<(string, Bytes)>): set<Path> {
    if files == [] then {} else DirOf(version, files[0].0) + DirsOf(version, files[1..])
  }

  /** The directory of a version has an entry: a file, or a directory that once held one. */
  predicate HasEntries(files: map<Path, Bytes>, dirs: set<Path>, version: string) {
    FilesOf(files, version) != map[] || exists d :: d in dirs && d.version == version
  }

  function DirsWithout(dirs: set<Path>, version: string): set<Path> {
    set d | d in dirs && d.version != version
  }

  /** An unguarded UPDATE of the status. */
  function SetStatus(versions: map<string, Row>, version: string, status: Status): map<string, Row> {
    if version in versions then versions[version := versions[version].(status := status)] else versions
  }

  function SetPublished(versions: map<string, Row>, version: string, manifest: map<Path, Bytes>): map<string, Row> {
    if version in versions then versions[version := Row(Published, Some(manifest))] else versions
  }

  function Admit(s: Project, check: bool, r: Request): Project {
    if check then s.(inFlight := s.inFlight + multiset{r}) else s
  }

  function Done(s: Project, r: Request): Project {
    s.(inFlight := s.inFlight - multiset{r})
  }

  /** The status check of a request. */
  function ApplyCheck(s: Project, op: Op): Project {
    match op
    case CheckEdit(v) => Admit(s, Mutable(s.versions, v), Editing(v))
    case CheckSubmit(v) => Admit(s, Mutable(s.versions, v), Submitting(v))
    case CheckReject(v) => Admit(s, HasStatus(s.versions, v, PendingReview), Rejecting(v))
    case CheckPublish(v) => Admit(s, Publishable(s.versions, v), Publishing(v))
    case _ => s
  }

  /** The file step of an upload, a removal or an extraction. */
  function ApplyEdit(s: Project, op: Op): Project {
    match op
    case WriteVersionFile(v, rel, data, accepted) =>
      if accepted then s.(files := s.files[Path(v, rel) := data], dirs := s.dirs + DirOf(v, rel)) else s
    case DeleteVersionFile(v, rel) => s.(files := s.files - {Path(v, rel)})
    case ExtractArchive(v, entries) =>
      s.(files := Unpacked(s.files, v, Accepted(entries)), dirs := s.dirs + DirsOf(v, Accepted(entries)))
    case _ => s
  }

  /** A publication looks at the directory: no entry, no publication; otherwise it takes the manifest. */
  function ApplyRead(s: Project, v: string, accepted: bool): Project {
    if Publishing(v) !in s.inFlight then s
    else Admit(Done(s, Publishing(v)), accepted && HasEntries(s.files, s.dirs, v), Manifested(v, FilesOf(s.files, v)))
  }

  /** The unguarded update of a review request that has passed its check. */
  function ApplyReview(s: Project, r: Request, status: Status): Project {
    if r !in s.inFlight then s else Done(s, r).(versions := SetStatus(s.versions, r.version, status))
  }

  /** The unguarded update of a publication that has read its manifest. */
  function ApplyRelease(s: Project, v: string, manifest: map<Path, Bytes>): Project {
    if Manifested(v, manifest) !in s.inFlight then s
    else Done(s, Manifested(v, manifest)).(versions := SetPublished(s.versions, v, manifest))
  }

  /** The later steps of reviews and publications. */
  function ApplyRow(s: Project, op: Op): Project {
    match op
    case WriteSubmit(v) => ApplyReview(s, Submitting(v), PendingReview)
    case WriteReject(v) => ApplyReview(s, Rejecting(v), Rejected)
    case ReadManifest(v, accepted) => ApplyRead(s, v, accepted)
    case WritePublish(v, manifest) => ApplyRelease(s, v, manifest)
    case _ => s
  }

  function ApplyCreate(s: Project, v: string): Project {
    if v in s.versions then s else s.(versions := s.versions[v := Row(Draft, None)])
  }

  /** The guarded DELETE of a deletion; its file part is then under way. */
  function ApplyDrop(s: Project, v: string, pinned: bool): Project {
    if v in s.versions && !pinned then Admit(s, true, Removing(v)).(versions := s.versions - {v}) else s
  }

  /** The file part of a deletion: it clears whatever the directory of that name holds by then. */
  function ApplyRemove(s: Project, v: string): Project {
    if Removing(v) !in s.inFlight then s
    else Done(s, Removing(v)).(files := WithoutVersion(s.files, v), dirs := DirsWithout(s.dirs, v))
  }

  predicate IsEdit(op: Op) {
    op.WriteVersionFile? || op.DeleteVersionFile? || op.ExtractArchive?
  }

  predicate IsCheck(op: Op) {
    op.CheckEdit? || op.CheckSubmit? || op.CheckReject? || op.CheckPublish?
  }

  /** The plain model. */
  function Apply(s: Project, op: Op): Project {
    if op.CreateVersion? then ApplyCreate(s, op.version)
    else if op.DropRow? then ApplyDrop(s, op.version, op.pinned)
    else if op.RemoveFiles? then ApplyRemove(s, op.version)
    else if IsCheck(op) then ApplyCheck(s, op)
    else if IsEdit(op) then (if Editing(op.version) in s.inFlight then ApplyEdit(Done(s, Editing(op.version)), op)
                             else s)
    else ApplyRow(s, op)
  }

  function ApplyAll(s: Project, ops: seq<Op>): Project {
    if ops == [] then s else Apply(ApplyAll(s, ops[..|ops| - 1]), ops[|ops| - 1])
  }

  lemma ApplyOne(s: Project, ops: seq<Op>, op: Op)
    ensures ApplyAll(s, ops + [op]) == Apply(ApplyAll(s, ops), op)
  {
    assert (ops + [op])[..|ops|] == ops;
  }

  lemma TwoSteps(s: Project, a: Op, b: Op)
    ensures ApplyAll(s, [a, b]) == Apply(Apply(s, a), b)
  {
    ApplyOne(s, [], a);
    ApplyOne(s, [a], b);
    assert [] + [a] == [a] && [a] + [b] == [a, b];
  }

  lemma ThreeSteps(s: Project, a: Op, b: Op, c: Op)
    ensures ApplyAll(s, [a, b, c]) == Apply(Apply(Apply(s, a), b), c)
  {
    TwoSteps(s, a, b);
    ApplyOne(s, [a, b], c);
    assert [a, b] + [c] == [a, b, c];
  }

  lemma OneOp(s: Project, a: Op)
    ensures ApplyAll(s, [a]) == Apply(s, a)
  {
    ApplyOne(s, [], a);
    assert [] + [a] == [a];
  }

  /******* Entering published *******/

  /** Publications under way are of release versions only. */
  predicate OnlyReleases(s: Project) {
    forall r :: r in s.inFlight ==> OfRelease(r)
  }

  predicate OfRelease(r: Request) {
    r.Publishing? || r.Manifested? ==> IsReleaseVersion(r.version)
  }

  lemma CheckReleases(s: Project, op: Op, r: Request)
    requires r in ApplyCheck(s, op).inFlight
    ensures r in s.inFlight || OfRelease(r)
  {
  }

  lemma RowReleases(s: Project, op: Op, r: Request)
    requires OnlyReleases(s) && r in ApplyRow(s, op).inFlight
    ensures OfRelease(r)
  {
    if op.ReadManifest? && Publishing(op.version) in s.inFlight {
      assert OfRelease(Publishing(op.version));
    }
  }

  lemma ApplyKeepsReleases(s: Project, op: Op)
    requires OnlyReleases(s)
    ensures OnlyReleases(Apply(s, op))
  {
    forall r | r in Apply(s, op).inFlight ensures OfRelease(r) {
      if IsCheck(op) {
        CheckReleases(s, op, r);
      } else if IsEdit(op) {
        EditFrame(Done(s, Editing(op.version)), op);
      } else if !op.CreateVersion? && !op.DropRow? && !op.RemoveFiles? {
        RowReleases(s, op, r);
      }
    }
  }

  lemma {:induction false} RunKeepsReleases(ops: seq<Op>)
    ensures OnlyReleases(ApplyAll(Nothing, ops))
  {
    if ops != [] {
      RunKeepsReleases(ops[..|ops| - 1]);
      ApplyKeepsReleases(ApplyAll(Nothing, ops[..|ops| - 1]), ops[|ops| - 1]);
    }
  }

  /** Published is entered only by the final update of a publication of that very version, a release, and
      with the manifest that the publication read; the manifest describes the files exactly if they are
      still the ones it read. */
  lemma ApplyEntersPublished(s: Project, op: Op, v: string)
    requires OnlyReleases(s) && !HasStatus(s.versions, v, Published) && HasStatus(Apply(s, op).versions, v, Published)
    ensures op.WritePublish? && op.version == v && Manifested(v, op.manifest) in s.inFlight && IsReleaseVersion(v)
    ensures Apply(s, op).versions[v].manifest == Some(op.manifest)
    ensures Apply(s, op).versions[v].manifest == Some(FilesOf(Apply(s, op).files, v)) <==>
      op.manifest == FilesOf(s.files, v)
  {
    if IsEdit(op) {
      EditFrame(Done(s, Editing(op.version)), op);
    } else if IsCheck(op) {
      CheckFrame(s, op);
    } else if op.WritePublish? && v in s.versions {
      ReleaseFrame(s, op.version, op.manifest, v);
      assert Manifested(op.version, op.manifest) in s.inFlight ==> OfRelease(Manifested(op.version, op.manifest));
    }
  }

  /******* What can still change a published version *******/

  predicate Harmless(s: Project, v: string, m: map<Path, Bytes>) {
    v in s.versions && s.versions[v].manifest == Some(m)
  }

  /** Published, and no request of this version under way can change its row or its files: no edit and no
      review, a publication only if it writes the same manifest again, and an earlier deletion only if
      there is no file to remove. */
  ghost predicate Sealed(s: Project, v: string) {
    && HasStatus(s.versions, v, Published)
    && Editing(v) !in s.inFlight && Submitting(v) !in s.inFlight && Rejecting(v) !in s.inFlight
    && (forall m :: Manifested(v, m) in s.inFlight ==> Harmless(s, v, m))
    && (Publishing(v) in s.inFlight && HasEntries(s.files, s.dirs, v) ==> Harmless(s, v, FilesOf(s.files, v)))
    && (Removing(v) in s.inFlight ==> FilesOf(s.files, v) == map[])
  }

  /** Row and files of the version are the same. */
  ghost predicate Kept(s: Project, s': Project, v: string) {
    && v in s.versions && v in s'.versions && s'.versions[v] == s.versions[v]
    && FilesOf(s'.files, v) == FilesOf(s.files, v)
  }

  predicate SameDirs(s: Project, s': Project, v: string) {
    (exists d :: d in s'.dirs && d.version == v) <==> (exists d :: d in s.dirs && d.version == v)
  }

  lemma {:induction false} UnpackedElsewhere(files: map<Path, Bytes>, version: string, entries: seq<(string, Bytes)>,
                                             other: string)
    requires other != version
    ensures FilesOf(Unpacked(files, version, entries), other) == FilesOf(files, other)
  {
    if entries != [] {
      UnpackedElsewhere(files, version, entries[..|entries| - 1], other);
    }
  }

  lemma {:induction false} DirsElsewhere(version: string, files: seq<(string, Bytes)>)
    ensures forall d :: d in DirsOf(version, files) ==> d.version == version
  {
    if files != [] {
      DirsElsewhere(version, files[1..]);
    }
  }

  lemma EditElsewhere(s: Project, op: Op, v: string)
    requires op.version != v
    ensures FilesOf(ApplyEdit(s, op).files, v) == FilesOf(s.files, v) && SameDirs(s, ApplyEdit(s, op), v)
  {
    match op
    case ExtractArchive(w, entries) =>
      UnpackedElsewhere(s.files, w, Accepted(entries), v);
      DirsElsewhere(w, Accepted(entries));
    case _ =>
  }

  lemma RemoveElsewhere(s: Project, w: string, v: string)
    requires w != v
    ensures FilesOf(ApplyRemove(s, w).files, v) == FilesOf(s.files, v) && SameDirs(s, ApplyRemove(s, w), v)
  {
    var dirs := DirsWithout(s.dirs, w);
    assert forall d :: d in s.dirs && d.version == v ==> d in dirs;
  }

  /** Checks only admit requests, of their own version. */
  lemma CheckFrame(s: Project, op: Op)
    ensures ApplyCheck(s, op) == s.(inFlight := ApplyCheck(s, op).inFlight)
    ensures forall r :: r in ApplyCheck(s, op).inFlight ==> r in s.inFlight || r.version == op.version
  {
  }

  /** Later steps of reviews and publications touch the row and the requests of their own version. */
  lemma RowFrame(s: Project, op: Op, v: string)
    requires v != op.version && v in s.versions
    ensures var s' := ApplyRow(s, op);
      s'.files == s.files && s'.dirs == s.dirs && v in s'.versions && s'.versions[v] == s.versions[v]
  {
    match op
    case WriteSubmit(w) => ReviewFrame(s, Submitting(w), PendingReview, v);
    case WriteReject(w) => ReviewFrame(s, Rejecting(w), Rejected, v);
    case ReadManifest(w, accepted) => ReadFrame(s, w, accepted);
    case WritePublish(w, m) => ReleaseFrame(s, w, m, v);
    case _ =>
  }

  lemma ReviewFrame(s: Project, r: Request, status: Status, v: string)
    requires v in s.versions
    ensures var s' := ApplyReview(s, r, status);
      && s' == s.(versions := s'.versions, inFlight := s'.inFlight)
      && v in s'.versions && (v != r.version ==> s'.versions[v] == s.versions[v])
  {
  }

  lemma ReleaseFrame(s: Project, w: string, m: map<Path, Bytes>, v: string)
    requires v in s.versions
    ensures var s' := ApplyRelease(s, w, m);
      && s' == s.(versions := s'.versions, inFlight := s'.inFlight)
      && v in s'.versions && (v != w ==> s'.versions[v] == s.versions[v])
      && (v == w && Manifested(w, m) in s.inFlight ==> s'.versions[v] == Row(Published, Some(m)))
  {
  }

  lemma ReadFrame(s: Project, v: string, accepted: bool)
    ensures ApplyRead(s, v, accepted) == s.(inFlight := ApplyRead(s, v, accepted).inFlight)
  {
  }

  lemma RowRequests(s: Project, op: Op, r: Request)
    requires r in ApplyRow(s, op).inFlight
    ensures r in s.inFlight || r.version == op.version
  {
  }

  lemma EditFrame(s: Project, op: Op)
    ensures ApplyEdit(s, op).versions == s.versions && ApplyEdit(s, op).inFlight == s.inFlight
  {
  }

  /** Steps of requests on other versions. */
  lemma OtherVersion(s: Project, op: Op, v: string)
    requires op.version != v && v in s.versions
    ensures Kept(s, Apply(s, op), v) && SameDirs(s, Apply(s, op), v)
  {
    if IsEdit(op) {
      EditFrame(Done(s, Editing(op.version)), op);
      EditElsewhere(Done(s, Editing(op.version)), op, v);
    } else if op.RemoveFiles? {
      RemoveElsewhere(s, op.version, v);
    } else if IsCheck(op) {
      CheckFrame(s, op);
    } else if !op.CreateVersion? {
      RowFrame(s, op, v);
    }
  }

  /** Requests of a version are admitted only by its own steps. */
  lemma OtherRequests(s: Project, op: Op, r: Request)
    requires op.version != r.version && r in Apply(s, op).inFlight
    ensures r in s.inFlight
  {
    if IsEdit(op) {
      EditFrame(Done(s, Editing(op.version)), op);
    } else if IsCheck(op) {
      CheckFrame(s, op);
    } else if !op.CreateVersion? && !op.DropRow? && !op.RemoveFiles? {
      RowRequests(s, op, r);
    }
  }

  /** The checks of a published version fail. */
  lemma SealedCheck(s: Project, op: Op)
    requires HasStatus(s.versions, op.version, Published)
    ensures ApplyCheck(s, op) == s
  {
  }

  lemma SealedRead(s: Project, v: string, accepted: bool)
    requires Sealed(s, v)
    ensures var s' := ApplyRow(s, ReadManifest(v, accepted)); s' == s.(inFlight := s'.inFlight) && Sealed(s', v)
  {
  }

  lemma SealedWrite(s: Project, v: string, m: map<Path, Bytes>)
    requires Sealed(s, v)
    ensures var s' := ApplyRow(s, WritePublish(v, m)); s' == s.(inFlight := s'.inFlight) && Sealed(s', v)
  {
    var s' := ApplyRow(s, WritePublish(v, m));
    if Manifested(v, m) in s.inFlight {
      assert Harmless(s, v, m);
      assert s'.versions == s.versions;
    }
  }

  /** Steps of requests on a sealed version itself. */
  lemma OwnVersion(s: Project, op: Op)
    requires Sealed(s, op.version) && op != DropRow(op.version, false)
    ensures Kept(s, Apply(s, op), op.version) && Sealed(Apply(s, op), op.version)
  {
    if IsCheck(op) {
      SealedCheck(s, op);
    } else if op.ReadManifest? {
      SealedRead(s, op.version, op.accepted);
    } else if op.WritePublish? {
      SealedWrite(s, op.version, op.manifest);
    } else if op.RemoveFiles? {
      SealedRemove(s, op.version);
    }
  }

  lemma SealedRemove(s: Project, v: string)
    requires Sealed(s, v)
    ensures var s' := ApplyRemove(s, v);
      s'.versions == s.versions && FilesOf(s'.files, v) == FilesOf(s.files, v) && Sealed(s', v)
  {
    var s' := ApplyRemove(s, v);
    if Removing(v) in s.inFlight {
      assert FilesOf(s'.files, v) == map[];
    }
  }

  lemma SealedElsewhere(s: Project, op: Op, v: string)
    requires Sealed(s, v) && op.version != v
    ensures Sealed(Apply(s, op), v)
  {
    OtherVersion(s, op, v);
    forall r: Request | r.version == v && r in Apply(s, op).inFlight ensures r in s.inFlight {
      OtherRequests(s, op, r);
    }
  }

  /** No step changes row or files of a sealed version other than its own deletion, and it stays sealed. */
  lemma ApplyKeepsPublished(s: Project, op: Op, v: string)
    requires Sealed(s, v) && op != DropRow(v, false)
    ensures Kept(s, Apply(s, op), v) && Sealed(Apply(s, op), v)
  {
    if op.version == v {
      OwnVersion(s, op);
    } else {
      OtherVersion(s, op, v);
      SealedElsewhere(s, op, v);
    }
  }

  lemma {:induction false} SealedForever(s: Project, ops: seq<Op>, v: string)
    requires Sealed(s, v) && DropRow(v, false) !in ops
    ensures Kept(s, ApplyAll(s, ops), v) && Sealed(ApplyAll(s, ops), v)
  {
    if ops != [] {
      SealedForever(s, ops[..|ops| - 1], v);
      ApplyKeepsPublished(ApplyAll(s, ops[..|ops| - 1]), ops[|ops| - 1], v);
    }
  }

  ghost predicate KeptAfter(s: Project, ops: seq<Op>, v: string) {
    DropRow(v, false) !in ops ==> Kept(s, ApplyAll(s, ops), v)
  }

  /** However requests interleave, a published version keeps its row and every byte until it is deleted if and only if
      no request that can change it has passed its check. */
  lemma {:induction false} ImmutableExactlyWhenSealed(s: Project, v: string)
    requires HasStatus(s.versions, v, Published)
    ensures Sealed(s, v) <==> forall ops: seq<Op> :: KeptAfter(s, ops, v)
  {
    if Sealed(s, v) {
      forall ops: seq<Op> ensures KeptAfter(s, ops, v) {
        if DropRow(v, false) !in ops {
          SealedForever(s, ops, v);
        }
      }
    } else {
      var ops := Break(s, v);
      assert !KeptAfter(s, ops, v);
    }
  }

  lemma {:induction false} Break(s: Project, v: string) returns (ops: seq<Op>)
    requires HasStatus(s.versions, v, Published) && !Sealed(s, v)
    ensures !KeptAfter(s, ops, v)
  {
    if Editing(v) in s.inFlight {
      ops := BreakByEdit(s, v);
    } else if Submitting(v) in s.inFlight {
      ops := [WriteSubmit(v)];
      OneOp(s, WriteSubmit(v));
    } else if Rejecting(v) in s.inFlight {
      ops := [WriteReject(v)];
      OneOp(s, WriteReject(v));
    } else if exists m :: Manifested(v, m) in s.inFlight && !Harmless(s, v, m) {
      var m :| Manifested(v, m) in s.inFlight && !Harmless(s, v, m);
      ops := [WritePublish(v, m)];
      OneOp(s, WritePublish(v, m));
    } else if Removing(v) in s.inFlight && FilesOf(s.files, v) != map[] {
      ops := BreakByRemoval(s, v);
    } else {
      ops := BreakByRead(s, v);
    }
  }

  lemma {:induction false} BreakByRemoval(s: Project, v: string) returns (ops: seq<Op>)
    requires v in s.versions && Removing(v) in s.inFlight && FilesOf(s.files, v) != map[]
    ensures !KeptAfter(s, ops, v)
  {
    ops := [RemoveFiles(v)];
    OneOp(s, RemoveFiles(v));
    assert FilesOf(ApplyRemove(s, v).files, v) == map[];
  }

  lemma {:induction false} BreakByRead(s: Project, v: string) returns (ops: seq<Op>)
    requires v in s.versions && Publishing(v) in s.inFlight && HasEntries(s.files, s.dirs, v)
    requires !Harmless(s, v, FilesOf(s.files, v))
    ensures !KeptAfter(s, ops, v)
  {
    var m := FilesOf(s.files, v);
    ops := [ReadManifest(v, true), WritePublish(v, m)];
    TwoSteps(s, ReadManifest(v, true), WritePublish(v, m));
    ReadTakesManifest(s, v);
    ReleaseFrame(Apply(s, ReadManifest(v, true)), v, m, v);
  }

  lemma ReadTakesManifest(s: Project, v: string)
    requires Publishing(v) in s.inFlight && HasEntries(s.files, s.dirs, v)
    ensures var s' := Apply(s, ReadManifest(v, true));
      s' == s.(inFlight := s'.inFlight) && Manifested(v, FilesOf(s.files, v)) in s'.inFlight
  {
    ReadFrame(s, v, true);
  }

  lemma {:induction false} BreakByEdit(s: Project, v: string) returns (ops: seq<Op>)
    requires v in s.versions && Editing(v) in s.inFlight
    ensures !KeptAfter(s, ops, v)
  {
    var p := Path(v, "a");
    var data := if p in s.files && s.files[p] == [] then [0] else [];
    var op := WriteVersionFile(v, "a", data, true);
    ops := [op];
    OneOp(s, op);
    assert p in FilesOf(Apply(s, op).files, v) && FilesOf(Apply(s, op).files, v)[p] == data;
    assert p in FilesOf(s.files, v) ==> FilesOf(s.files, v)[p] != data;
  }

  /******* Whole requests, one after the other *******/

  datatype Whole =
    | NewVersion(version: string)
    | Upload(version: string, rel: string, data: Bytes, accepted: bool)
    | Remove(version: string, rel: string)
    | Extract(version: string, entries: seq<Entry>)
    | Submit(version: string)
    | Reject(version: string)
    | Publish(version: string, accepted: bool)
    | Delete(version: string, pinned: bool)

  /** A request whose steps nothing interrupts. */
  function Steps(s: Project, w: Whole): seq<Op> {
    match w
    case NewVersion(v) => [CreateVersion(v)]
    case Upload(v, rel, data, accepted) => [CheckEdit(v), WriteVersionFile(v, rel, data, accepted)]
    case Remove(v, rel) => [CheckEdit(v), DeleteVersionFile(v, rel)]
    case Extract(v, entries) => [CheckEdit(v), ExtractArchive(v, entries)]
    case Submit(v) => [CheckSubmit(v), WriteSubmit(v)]
    case Reject(v) => [CheckReject(v), WriteReject(v)]
    case Publish(v, accepted) => [CheckPublish(v), ReadManifest(v, accepted), WritePublish(v, FilesOf(s.files, v))]
    case Delete(v, pinned) => [DropRow(v, pinned), RemoveFiles(v)]
  }

  function Perform(s: Project, w: Whole): Project {
    ApplyAll(s, Steps(s, w))
  }

  function PerformAll(s: Project, ws: seq<Whole>): Project {
    if ws == [] then s else Perform(PerformAll(s, ws[..|ws| - 1]), ws[|ws| - 1])
  }

  /** The manifest of a published version is the manifest of the files it has. */
  ghost predicate ManifestsTrue(s: Project) {
    forall v :: HasStatus(s.versions, v, Published) ==> s.versions[v].manifest == Some(FilesOf(s.files, v))
  }

  function Deleted(s: Project, v: string): Project {
    s.(versions := s.versions - {v}, files := WithoutVersion(s.files, v), dirs := DirsWithout(s.dirs, v))
  }

  /** What a whole request does, in one go. */
  function Outcome(s: Project, w: Whole): Project {
    match w
    case NewVersion(v) => ApplyCreate(s, v)
    case Upload(v, rel, data, accepted) =>
      if Mutable(s.versions, v) then ApplyEdit(s, WriteVersionFile(v, rel, data, accepted)) else s
    case Remove(v, rel) => if Mutable(s.versions, v) then ApplyEdit(s, DeleteVersionFile(v, rel)) else s
    case Extract(v, entries) => if Mutable(s.versions, v) then ApplyEdit(s, ExtractArchive(v, entries)) else s
    case Submit(v) => if Mutable(s.versions, v) then s.(versions := SetStatus(s.versions, v, PendingReview)) else s
    case Reject(v) =>
      if HasStatus(s.versions, v, PendingReview) then s.(versions := SetStatus(s.versions, v, Rejected)) else s
    case Publish(v, accepted) =>
      if Publishable(s.versions, v) && accepted && HasEntries(s.files, s.dirs, v)
      then s.(versions := SetPublished(s.versions, v, FilesOf(s.files, v))) else s
    case Delete(v, pinned) => if v in s.versions && !pinned then Deleted(s, v) else s
  }

  lemma Cancel(m: multiset<Request>, r: Request)
    ensures m + multiset{r} - multiset{r} == m
  {
  }

  lemma WholeEdit(s: Project, op: Op)
    requires s.inFlight == multiset{} && IsEdit(op)
    ensures ApplyAll(s, [CheckEdit(op.version), op]) == if Mutable(s.versions, op.version) then ApplyEdit(s, op) else s
  {
    var v := op.version;
    TwoSteps(s, CheckEdit(v), op);
    EditCheck(s, v);
    if Mutable(s.versions, v) {
      EditStep(s, op);
    } else {
      NoEdit(s, op);
    }
  }

  lemma EditCheck(s: Project, v: string)
    ensures Apply(s, CheckEdit(v)) == Admit(s, Mutable(s.versions, v), Editing(v))
  {
  }

  lemma NoEdit(s: Project, op: Op)
    requires s.inFlight == multiset{} && IsEdit(op)
    ensures Apply(s, op) == s
  {
  }

  /** An edit that has passed its check. */
  lemma EditStep(s: Project, op: Op)
    requires IsEdit(op)
    ensures Apply(Admit(s, true, Editing(op.version)), op) == ApplyEdit(s, op)
  {
    AdmitDone(s, Editing(op.version));
  }

  lemma AdmitDone(s: Project, r: Request)
    ensures Done(Admit(s, true, r), r) == s && r in Admit(s, true, r).inFlight
  {
    Cancel(s.inFlight, r);
  }

  lemma WholeDelete(s: Project, v: string, pinned: bool)
    requires s.inFlight == multiset{}
    ensures Perform(s, Delete(v, pinned)) == Outcome(s, Delete(v, pinned))
  {
    TwoSteps(s, DropRow(v, pinned), RemoveFiles(v));
    if v in s.versions && !pinned {
      AdmitDone(s.(versions := s.versions - {v}), Removing(v));
    }
  }

  /** Check and write of a review request, the check having passed. */
  lemma ReviewSteps(s: Project, v: string)
    ensures Apply(Admit(s, true, Submitting(v)), WriteSubmit(v)) ==
      s.(versions := SetStatus(s.versions, v, PendingReview))
    ensures Apply(Admit(s, true, Rejecting(v)), WriteReject(v)) == s.(versions := SetStatus(s.versions, v, Rejected))
  {
    AdmitDone(s, Submitting(v));
    AdmitDone(s, Rejecting(v));
  }

  lemma NoReview(s: Project, v: string)
    requires s.inFlight == multiset{}
    ensures Apply(s, WriteSubmit(v)) == s && Apply(s, WriteReject(v)) == s
  {
  }

  lemma ReviewChecks(s: Project, v: string)
    ensures Apply(s, CheckSubmit(v)) == Admit(s, Mutable(s.versions, v), Submitting(v))
    ensures Apply(s, CheckReject(v)) == Admit(s, HasStatus(s.versions, v, PendingReview), Rejecting(v))
  {
  }

  lemma WholeSubmit(s: Project, v: string)
    requires s.inFlight == multiset{}
    ensures Perform(s, Submit(v)) == Outcome(s, Submit(v))
  {
    ReviewChecks(s, v);
    ReviewSteps(s, v);
    NoReview(s, v);
    TwoSteps(s, CheckSubmit(v), WriteSubmit(v));
  }

  lemma WholeReject(s: Project, v: string)
    requires s.inFlight == multiset{}
    ensures Perform(s, Reject(v)) == Outcome(s, Reject(v))
  {
    ReviewChecks(s, v);
    ReviewSteps(s, v);
    NoReview(s, v);
    TwoSteps(s, CheckReject(v), WriteReject(v));
  }

  lemma ReadStep(s: Project, v: string, accepted: bool)
    ensures Apply(Admit(s, true, Publishing(v)), ReadManifest(v, accepted)) ==
      Admit(s, accepted && HasEntries(s.files, s.dirs, v), Manifested(v, FilesOf(s.files, v)))
  {
    AdmitDone(s, Publishing(v));
  }

  lemma WriteStep(s: Project, v: string, m: map<Path, Bytes>)
    ensures Apply(Admit(s, true, Manifested(v, m)), WritePublish(v, m)) ==
      s.(versions := SetPublished(s.versions, v, m))
  {
    AdmitDone(s, Manifested(v, m));
  }

  lemma CheckStep(s: Project, v: string)
    ensures Apply(s, CheckPublish(v)) == Admit(s, Publishable(s.versions, v), Publishing(v))
  {
  }

  /** A publication that nothing refuses. */
  lemma PublishPasses(s: Project, v: string)
    requires Publishable(s.versions, v) && HasEntries(s.files, s.dirs, v)
    ensures Perform(s, Publish(v, true)) == s.(versions := SetPublished(s.versions, v, FilesOf(s.files, v)))
  {
    var m := FilesOf(s.files, v);
    var s1, s2 := Admit(s, true, Publishing(v)), Admit(s, true, Manifested(v, m));
    CheckStep(s, v);
    ReadStep(s, v, true);
    WriteStep(s, v, m);
    assert Apply(s, CheckPublish(v)) == s1 && Apply(s1, ReadManifest(v, true)) == s2;
    ThreeSteps(s, CheckPublish(v), ReadManifest(v, true), WritePublish(v, m));
  }

  lemma PublishRefused(s: Project, v: string, accepted: bool)
    requires s.inFlight == multiset{} && !(Publishable(s.versions, v) && accepted && HasEntries(s.files, s.dirs, v))
    ensures Perform(s, Publish(v, accepted)) == s
  {
    var m := FilesOf(s.files, v);
    CheckStep(s, v);
    ReadStep(s, v, accepted);
    NotUnderWay(s, v, m);
    NothingToRead(s, v, accepted);
    ThreeSteps(s, CheckPublish(v), ReadManifest(v, accepted), WritePublish(v, m));
  }

  lemma NothingToRead(s: Project, v: string, accepted: bool)
    requires s.inFlight == multiset{}
    ensures Apply(s, ReadManifest(v, accepted)) == s
  {
  }

  lemma NotUnderWay(s: Project, v: string, m: map<Path, Bytes>)
    requires s.inFlight == multiset{}
    ensures Apply(s, WritePublish(v, m)) == s
  {
  }

  /** A whole request takes effect as one operation, and leaves nothing under way. */
  lemma WholeIsAtomic(s: Project, w: Whole)
    requires s.inFlight == multiset{}
    ensures Perform(s, w) == Outcome(s, w) && Perform(s, w).inFlight == multiset{}
  {
    match w
    case NewVersion(v) => OneOp(s, CreateVersion(v));
    case Delete(v, pinned) => WholeDelete(s, v, pinned);
    case Upload(v, rel, data, accepted) => WholeEdit(s, WriteVersionFile(v, rel, data, accepted));
    case Remove(v, rel) => WholeEdit(s, DeleteVersionFile(v, rel));
    case Extract(v, entries) => WholeEdit(s, ExtractArchive(v, entries));
    case Submit(v) => WholeSubmit(s, v);
    case Reject(v) => WholeReject(s, v);
    case Publish(v, accepted) =>
      if Publishable(s.versions, v) && accepted && HasEntries(s.files, s.dirs, v) {
        PublishPasses(s, v);
      } else {
        PublishRefused(s, v, accepted);
      }
  }

  /******* The life of a version *******/

  function StatusOf(s: Project, v: string): Option<Status> {
    if v in s.versions then Some(s.versions[v].status) else None
  }

  /** Whether an upload, removal or extraction finds a version that may change. */
  predicate EditsOpen(before: Option<Status>, w: Whole) {
    (w.Upload? || w.Remove? || w.Extract?) && (before == Some(Draft) || before == Some(Rejected))
  }

  /** What each request makes of the status of its version. */
  function NextStatus(before: Option<Status>, w: Whole, release: bool, entries: bool): Option<Status> {
    match w
    case NewVersion(_) => if before.None? then Some(Draft) else before
    case Submit(_) => if before == Some(Draft) || before == Some(Rejected) then Some(PendingReview) else before
    case Reject(_) => if before == Some(PendingReview) then Some(Rejected) else before
    case Publish(_, accepted) =>
      if (before == Some(Draft) || before == Some(PendingReview)) && release && accepted && entries then Some(Published)
      else before
    case Delete(_, pinned) => if pinned then before else None
    case _ => before
  }

  /** Whole requests move a version along draft, pending review, rejected and published as stated, and its files change
      only while it is a draft or rejected, or with its deletion. */
  lemma LifeOfVersion(s: Project, w: Whole, v: string)
    requires s.inFlight == multiset{}
    ensures var s', before := Perform(s, w), StatusOf(s, v);
      && StatusOf(s', v) == (if w.version == v then NextStatus(before, w, IsReleaseVersion(v),
                                                               HasEntries(s.files, s.dirs, v)) else before)
      && (FilesOf(s'.files, v) != FilesOf(s.files, v) ==>
            w.version == v && (EditsOpen(before, w) || w == Delete(v, false)))
      && (w.Upload? && EditsOpen(StatusOf(s, w.version), w) && w.accepted ==>
            s'.files == s.files[Path(w.version, w.rel) := w.data])
      && (w.Remove? && EditsOpen(StatusOf(s, w.version), w) ==> s'.files == s.files - {Path(w.version, w.rel)})
  {
    WholeIsAtomic(s, w);
    OutcomeOfFiles(s, w, v);
  }

  lemma OutcomeOfFiles(s: Project, w: Whole, v: string)
    ensures FilesOf(Outcome(s, w).files, v) != FilesOf(s.files, v) ==>
      w.version == v && (EditsOpen(StatusOf(s, v), w) || w == Delete(v, false))
  {
    if w.Extract? && w.version != v {
      UnpackedElsewhere(s.files, w.version, Accepted(w.entries), v);
    }
  }

  /** A version under review keeps its row and every byte until it is rejected, published or deleted. */
  lemma {:induction false} FrozenUnderReview(s: Project, ws: seq<Whole>, v: string)
    requires s.inFlight == multiset{} && StatusOf(s, v) == Some(PendingReview)
    requires forall i :: 0 <= i < |ws| && ws[i].version == v ==> !ws[i].Reject? && !ws[i].Publish? && !ws[i].Delete?
    ensures PerformAll(s, ws).inFlight == multiset{} && Kept(s, PerformAll(s, ws), v)
  {
    if ws != [] {
      var n := |ws| - 1;
      var mid := PerformAll(s, ws[..n]);
      FrozenUnderReview(s, ws[..n], v);
      WholeIsAtomic(mid, ws[n]);
      LifeOfVersion(mid, ws[n], v);
      ReviewKeepsRow(mid, ws[n], v);
    }
  }

  lemma ReviewKeepsRow(s: Project, w: Whole, v: string)
    requires StatusOf(s, v) == Some(PendingReview)
    requires w.version == v ==> !w.Reject? && !w.Publish? && !w.Delete?
    ensures v in Outcome(s, w).versions && Outcome(s, w).versions[v] == s.versions[v]
  {
  }

  /** Release versions are three decimal numbers with dots between them. */
  lemma ReleaseVersionForm(a: string, b: string, c: string)
    ensures Digits(a) && Digits(b) && Digits(c) ==> IsReleaseVersion(a + "." + b + "." + c)
  {
    if Digits(a) && Digits(b) && Digits(c) {
      SplitFirst(a, b + "." + c, '.');
      SplitFirst(b, c, '.');
      SplitWhole(c, '.');
      assert a + "." + b + "." + c == a + ['.'] + (b + ['.'] + c);
    }
  }

  lemma ReleaseVersionParts(version: string) returns (a: string, b: string, c: string)
    requires IsReleaseVersion(version)
    ensures Digits(a) && Digits(b) && Digits(c) && version == a + "." + b + "." + c
  {
    var parts := Split(version, '.');
    a, b, c := parts[0], parts[1], parts[2];
    JoinOfSplit(version, '.');
    assert parts[1..] == [b, c] && parts[1..][1..] == [c];
    assert Join([b, c], '.') == b + ['.'] + Join([c], '.') by {
      assert [b, c][1..] == [c];
    }
  }

  /** A version that a whole request makes published has the manifest of its files. */
  lemma WholePublishes(s: Project, w: Whole, v: string)
    requires !HasStatus(s.versions, v, Published) && HasStatus(Outcome(s, w).versions, v, Published)
    ensures w == Publish(v, true) && Outcome(s, w).versions[v].manifest == Some(FilesOf(Outcome(s, w).files, v))
  {
  }

  lemma WholeKeepsPublished(s: Project, w: Whole, v: string)
    requires s.inFlight == multiset{} && HasStatus(s.versions, v, Published) && w != Delete(v, false)
    ensures Kept(s, Perform(s, w), v)
  {
    assert Sealed(s, v);
    SealedForever(s, Steps(s, w), v);
  }

  lemma WholeKeepsManifests(s: Project, w: Whole)
    requires s.inFlight == multiset{} && ManifestsTrue(s)
    ensures ManifestsTrue(Perform(s, w))
  {
    var s' := Perform(s, w);
    forall v | HasStatus(s'.versions, v, Published) ensures s'.versions[v].manifest == Some(FilesOf(s'.files, v)) {
      if !HasStatus(s.versions, v, Published) {
        WholeIsAtomic(s, w);
        WholePublishes(s, w, v);
      } else if w != Delete(v, false) {
        WholeKeepsPublished(s, w, v);
      } else {
        WholeIsAtomic(s, w);
      }
    }
  }

  /** Over every sequence of whole requests that does not delete it, a published version keeps its row, its manifest and
      every byte of its files; and at any time every published version's manifest describes exactly its files. */
  lemma {:induction false} PublishedForever(s: Project, ws: seq<Whole>, v: string)
    requires s.inFlight == multiset{} && ManifestsTrue(s)
    ensures PerformAll(s, ws).inFlight == multiset{} && ManifestsTrue(PerformAll(s, ws))
    ensures HasStatus(s.versions, v, Published) && Delete(v, false) !in ws ==> Kept(s, PerformAll(s, ws), v)
  {
    if ws != [] {
      var n := |ws| - 1;
      var mid := PerformAll(s, ws[..n]);
      PublishedForever(s, ws[..n], v);
      WholeIsAtomic(mid, ws[n]);
      WholeKeepsManifests(mid, ws[n]);
      if HasStatus(s.versions, v, Published) && Delete(v, false) !in ws {
        WholeKeepsPublished(mid, ws[n], v);
      }
    }
  }

  /******* Runs that go wrong *******/

  /** A draft with one file, an upload and a submit that have passed their checks, and then a whole publication. */
  function Raced(v: string): Project {
    var m := map[Path(v, "a") := []];
    Project(map[v := Row(Published, Some(m))], m, {}, multiset{Editing(v), Submitting(v)})
  }

  function Race(v: string): seq<Op> {
    [CreateVersion(v), CheckEdit(v), WriteVersionFile(v, "a", [], true)] + [CheckEdit(v), CheckSubmit(v)]
    + [CheckPublish(v), ReadManifest(v, true), WritePublish(v, map[Path(v, "a") := []])]
  }

  lemma {:induction false} ApplyAllAppend(s: Project, a: seq<Op>, b: seq<Op>)
    ensures ApplyAll(s, a + b) == ApplyAll(ApplyAll(s, a), b)
  {
    if b == [] {
      assert a + b == a;
    } else {
      var n := |b| - 1;
      ApplyAllAppend(s, a, b[..n]);
      assert (a + b)[..|a + b| - 1] == a + b[..n];
    }
  }

  lemma RaceReaches(v: string)
    requires IsReleaseVersion(v)
    ensures ApplyAll(Nothing, Race(v)) == Raced(v)
  {
    var files := map[Path(v, "a") := []];
    var a := [CreateVersion(v), CheckEdit(v), WriteVersionFile(v, "a", [], true)];
    var b, c := [CheckEdit(v), CheckSubmit(v)], [CheckPublish(v), ReadManifest(v, true), WritePublish(v, files)];
    DraftReached(v, multiset{});
    ChecksPassed(v);
    RacePublished(v, multiset{Editing(v), Submitting(v)});
    ApplyAllAppend(Nothing, a, b);
    ApplyAllAppend(Nothing, a + b, c);
  }

  function OneDraft(v: string, inFlight: multiset<Request>): Project {
    Project(map[v := Row(Draft, None)], map[Path(v, "a") := []], {}, inFlight)
  }

  lemma ChecksPassed(v: string)
    ensures ApplyAll(OneDraft(v, multiset{}), [CheckEdit(v), CheckSubmit(v)]) ==
      OneDraft(v, multiset{Editing(v), Submitting(v)})
  {
    TwoSteps(OneDraft(v, multiset{}), CheckEdit(v), CheckSubmit(v));
  }

  lemma RacePublished(v: string, inFlight: multiset<Request>)
    requires IsReleaseVersion(v)
    ensures var publish := [CheckPublish(v), ReadManifest(v, true), WritePublish(v, map[Path(v, "a") := []])];
      ApplyAll(OneDraft(v, inFlight), publish) == Raced(v).(inFlight := inFlight)
  {
    var s := OneDraft(v, inFlight);
    assert FilesOf(s.files, v) == s.files && Path(v, "a") in s.files;
    PublishPasses(s, v);
    assert SetPublished(s.versions, v, s.files) == Raced(v).versions;
  }

  lemma DraftReached(v: string, inFlight: multiset<Request>)
    ensures var upload := [CreateVersion(v), CheckEdit(v), WriteVersionFile(v, "a", [], true)];
      ApplyAll(Nothing.(inFlight := inFlight), upload) == OneDraft(v, inFlight)
  {
    SplitWhole("a", '/');
    var op := WriteVersionFile(v, "a", [], true);
    var s1 := Project(map[v := Row(Draft, None)], map[], {}, inFlight);
    ThreeSteps(Nothing.(inFlight := inFlight), CreateVersion(v), CheckEdit(v), op);
    AdmitDone(s1, Editing(v));
    assert DirOf(v, "a") == {} && Apply(s1, CheckEdit(v)) == Admit(s1, true, Editing(v));
    assert Apply(Admit(s1, true, Editing(v)), op) == ApplyEdit(s1, op);
  }

  /** An upload that passed its check before a publication changes the bytes of the published version behind its
      manifest. */
  lemma {:induction false} LateUploadChangesPublished(v: string)
    requires IsReleaseVersion(v)
    ensures var s := ApplyAll(Nothing, Race(v) + [WriteVersionFile(v, "a", [0], true)]);
      HasStatus(s.versions, v, Published) && s.versions[v].manifest != Some(FilesOf(s.files, v))
  {
    RaceReaches(v);
    ApplyOne(Nothing, Race(v), WriteVersionFile(v, "a", [0], true));
    var s := Apply(Raced(v), WriteVersionFile(v, "a", [0], true));
    assert FilesOf(s.files, v)[Path(v, "a")] == [0];
  }

  /** A deletion whose row is gone, and then a new version of the same name, uploaded and published. */
  function Recreated(v: string): seq<Op> {
    [CreateVersion(v), DropRow(v, false)] + [CreateVersion(v), CheckEdit(v), WriteVersionFile(v, "a", [], true)]
    + [CheckPublish(v), ReadManifest(v, true), WritePublish(v, map[Path(v, "a") := []])]
  }

  lemma RecreatedReaches(v: string)
    requires IsReleaseVersion(v)
    ensures ApplyAll(Nothing, Recreated(v)) == Raced(v).(inFlight := multiset{Removing(v)})
  {
    var a := [CreateVersion(v), DropRow(v, false)];
    var b := [CreateVersion(v), CheckEdit(v), WriteVersionFile(v, "a", [], true)];
    var c := [CheckPublish(v), ReadManifest(v, true), WritePublish(v, map[Path(v, "a") := []])];
    DroppedReached(v);
    DraftReached(v, multiset{Removing(v)});
    RacePublished(v, multiset{Removing(v)});
    ApplyAllAppend(Nothing, a, b);
    ApplyAllAppend(Nothing, a + b, c);
  }

  lemma DroppedReached(v: string)
    ensures ApplyAll(Nothing, [CreateVersion(v), DropRow(v, false)]) == Nothing.(inFlight := multiset{Removing(v)})
  {
    TwoSteps(Nothing, CreateVersion(v), DropRow(v, false));
    assert map[v := Row(Draft, None)] - {v} == map[];
  }

  /** The file part of an earlier deletion empties a version that was created and published again meanwhile, although no
      edit, review or publication of it is under way. */
  lemma {:induction false} LateRemovalEmptiesPublished(v: string)
    requires IsReleaseVersion(v)
    ensures var s := ApplyAll(Nothing, Recreated(v));
      && HasStatus(s.versions, v, Published) && s.versions[v].manifest == Some(FilesOf(s.files, v))
      && s.inFlight == multiset{Removing(v)}
    ensures var s := ApplyAll(Nothing, Recreated(v) + [RemoveFiles(v)]);
      HasStatus(s.versions, v, Published) && FilesOf(s.files, v) == map[] && s.versions[v].manifest != Some(map[])
  {
    RecreatedReaches(v);
    ApplyOne(Nothing, Recreated(v), RemoveFiles(v));
    var s := Raced(v).(inFlight := multiset{Removing(v)});
    assert FilesOf(s.files, v) == s.files && Path(v, "a") in s.files;
    assert FilesOf(ApplyRemove(s, v).files, v) == map[];
  }

  /** A submit that passed its check before a publication unpublishes the version. */
  lemma {:induction false} LateSubmitUnpublishes(v: string)
    requires IsReleaseVersion(v)
    ensures HasStatus(ApplyAll(Nothing, Race(v)).versions, v, Published)
    ensures HasStatus(ApplyAll(Nothing, Race(v) + [WriteSubmit(v)]).versions, v, PendingReview)
  {
    RaceReaches(v);
    ApplyOne(Nothing, Race(v), WriteSubmit(v));
    var m := map[Path(v, "a") := []];
    var s := Project(map[v := Row(Published, Some(m))], m, {}, multiset{Editing(v)});
    assert multiset{Editing(v)} + multiset{Submitting(v)} == Raced(v).inFlight;
    ReviewSteps(s, v);
  }

  lemma PerformOne(s: Project, ws: seq<Whole>, w: Whole)
    ensures PerformAll(s, ws + [w]) == Perform(PerformAll(s, ws), w)
  {
    assert (ws + [w])[..|ws|] == ws;
  }

  function Emptied(v: string): seq<Whole> {
    [NewVersion(v)] + [Upload(v, "conf/a", [], true)] + [Remove(v, "conf/a")]
  }

  lemma EmptiedReaches(v: string)
    ensures PerformAll(Nothing, Emptied(v)) == Project(map[v := Row(Draft, None)], map[], {Path(v, "conf")}, multiset{})
  {
    var s1 := Nothing.(versions := map[v := Row(Draft, None)]);
    var s2 := s1.(files := map[Path(v, "conf/a") := []], dirs := {Path(v, "conf")});
    PerformOne(Nothing, [], NewVersion(v));
    assert [] + [NewVersion(v)] == [NewVersion(v)];
    WholeIsAtomic(Nothing, NewVersion(v));
    Uploaded(v);
    PerformOne(Nothing, [NewVersion(v)], Upload(v, "conf/a", [], true));
    WholeIsAtomic(s2, Remove(v, "conf/a"));
    PerformOne(Nothing, [NewVersion(v)] + [Upload(v, "conf/a", [], true)], Remove(v, "conf/a"));
    assert s2.files - {Path(v, "conf/a")} == map[];
  }

  lemma Uploaded(v: string)
    ensures var s := Nothing.(versions := map[v := Row(Draft, None)]);
      Perform(s, Upload(v, "conf/a", [], true)) == s.(files := map[Path(v, "conf/a") := []], dirs := {Path(v, "conf")})
  {
    SplitWhole("a", '/');
    SplitFirst("conf", "a", '/');
    assert "conf" + ['/'] + "a" == "conf/a";
    var s := Nothing.(versions := map[v := Row(Draft, None)]);
    WholeIsAtomic(s, Upload(v, "conf/a", [], true));
    assert s.dirs + DirOf(v, "conf/a") == {Path(v, "conf")};
  }

  /** An emptied subdirectory is enough to publish a version without a single file. */
  lemma {:induction false} EmptyDirectoryIsPublished(v: string)
    requires IsReleaseVersion(v)
    ensures var s := PerformAll(Nothing, Emptied(v) + [Publish(v, true)]);
      HasStatus(s.versions, v, Published) && FilesOf(s.files, v) == map[]
  {
    var s := Project(map[v := Row(Draft, None)], map[], {Path(v, "conf")}, multiset{});
    EmptiedReaches(v);
    assert Path(v, "conf") in s.dirs;
    EmptyPublish(s, v);
    WholeIsAtomic(s, Publish(v, true));
    PerformOne(Nothing, Emptied(v), Publish(v, true));
  }

  /** Exactly when a publishable version without files is published: when a directory was left behind. */
  lemma EmptyPublish(s: Project, v: string)
    requires s.inFlight == multiset{} && Publishable(s.versions, v) && FilesOf(s.files, v) == map[]
    ensures HasStatus(Perform(s, Publish(v, true)).versions, v, Published) <==>
      exists d :: d in s.dirs && d.version == v
  {
    WholeIsAtomic(s, Publish(v, true));
  }

  /******* The implementation *******/

  class Versions {
    const store: Store
    var versions: map<string, Row>
    var dirs: set<Path>
    var inFlight: multiset<Request>

    ghost predicate Valid()
      reads this, store
    {
      CrashSafe(store.Now())
    }

    ghost function Abs(): Project
      requires Valid()
      reads this, store
    {
      Project(versions, View(store.Now()), dirs, inFlight)
    }

    constructor ()
      ensures Valid() && fresh(store) && Exact(store.Now()) && Abs() == Nothing
    {
      store := new Store();
      versions, dirs, inFlight := map[], {}, multiset{};
    }

    /** The files of a version, read from disk. */
    method ReadVersion(version: string) returns (m: map<Path, Bytes>)
      requires Valid()
      ensures m == FilesOf(View(store.Now()), version)
    {
      m := map p | p in store.files && p.version == version :: store.inodes[store.files[p]];
    }

    /** A status check; a request that passes it is under way. */
    method Check(op: Op)
      requires Valid() && IsCheck(op)
      modifies `inFlight
      ensures Valid() && Abs() == Apply(old(Abs()), op)
    {
      match op
      case CheckEdit(v) => if Mutable(versions, v) { inFlight := inFlight + multiset{Editing(v)}; }
      case CheckSubmit(v) => if Mutable(versions, v) { inFlight := inFlight + multiset{Submitting(v)}; }
      case CheckReject(v) => if HasStatus(versions, v, PendingReview) { inFlight := inFlight + multiset{Rejecting(v)}; }
      case CheckPublish(v) => if Publishable(versions, v) { inFlight := inFlight + multiset{Publishing(v)}; }
    }

    /** The file step of an edit that has passed its check. */
    method Edit(op: Op, linking: Linking)
      requires Valid() && IsEdit(op)
      modifies `dirs, store
      ensures Valid() && Abs() == ApplyEdit(old(Abs()), op)
      ensures Exact(old(store.Now())) ==> Exact(store.Now())
      ensures old(store.trace) <= store.trace
      ensures linking.HardLink? ==> ContainedFrom(store.trace, |old(store.trace)|, View(old(store.Now())), op.version)
    {
      if op.DeleteVersionFile? {
        store.DeleteFile(Path(op.version, op.rel));
      } else if op.WriteVersionFile? {
        if op.accepted {
          store.WriteFile(Path(op.version, op.rel), op.data, linking);
          dirs := dirs + DirOf(op.version, op.rel);
        }
      } else {
        var ok := store.ExtractArchive(op.version, op.entries, linking);
        dirs := dirs + DirsOf(op.version, Accepted(op.entries));
      }
    }

    /** The file-system part of a publication: is there an entry, and what do the files hold. */
    method ReadFiles(v: string, accepted: bool)
      requires Valid()
      modifies `inFlight
      ensures Valid() && Abs() == ApplyRead(old(Abs()), v, accepted)
    {
      if Publishing(v) in inFlight {
        var manifest := ReadVersion(v);
        inFlight := inFlight - multiset{Publishing(v)};
        var entries := manifest != map[] || exists d :: d in dirs && d.version == v;
        assert entries == HasEntries(View(store.Now()), dirs, v);
        if accepted && entries {
          inFlight := inFlight + multiset{Manifested(v, manifest)};
        }
      }
    }

    /** The update statement of a review request. */
    method WriteReview(r: Request, status: Status)
      requires Valid()
      modifies `versions, `inFlight
      ensures Valid() && Abs() == ApplyReview(old(Abs()), r, status)
    {
      if r in inFlight {
        versions, inFlight := SetStatus(versions, r.version, status), inFlight - multiset{r};
      }
    }

    /** The update statement of a publication. */
    method WriteRelease(v: string, manifest: map<Path, Bytes>)
      requires Valid()
      modifies `versions, `inFlight
      ensures Valid() && Abs() == ApplyRelease(old(Abs()), v, manifest)
    {
      if Manifested(v, manifest) in inFlight {
        versions, inFlight := SetPublished(versions, v, manifest), inFlight - multiset{Manifested(v, manifest)};
      }
    }

    /** One step: the rows, the requests under way and the readers' view change as in the plain model, and no count
        moves. With hard links, a crash at any instant leaves a safe disk on which the files of all other versions are
        untouched. */
    method Perform(op: Op, linking: Linking)
      requires Valid()
      modifies `versions, `dirs, `inFlight, store
      ensures Valid() && Abs() == Apply(old(Abs()), op)
      ensures Exact(old(store.Now())) ==> Exact(store.Now())
      ensures old(store.trace) <= store.trace
      ensures linking.HardLink? ==> ContainedFrom(store.trace, |old(store.trace)|, View(old(store.Now())), op.version)
    {
      if op.CreateVersion? {
        if op.version !in versions {
          versions := versions[op.version := Row(Draft, None)];
        }
      } else if op.DropRow? {
        if op.version in versions && !op.pinned {
          versions, inFlight := versions - {op.version}, inFlight + multiset{Removing(op.version)};
        }
      } else if op.RemoveFiles? {
        if Removing(op.version) in inFlight {
          inFlight := inFlight - multiset{Removing(op.version)};
          store.ReleaseVersionDir(op.version);
          dirs := DirsWithout(dirs, op.version);
        }
      } else if IsCheck(op) {
        Check(op);
      } else if IsEdit(op) {
        if Editing(op.version) in inFlight {
          inFlight := inFlight - multiset{Editing(op.version)};
          Edit(op, linking);
        }
      } else if op.ReadManifest? {
        ReadFiles(op.version, op.accepted);
      } else if op.WriteSubmit? {
        WriteReview(Submitting(op.version), PendingReview);
      } else if op.WriteReject? {
        WriteReview(Rejecting(op.version), Rejected);
      } else {
        WriteRelease(op.version, op.manifest);
      }
    }

    /** Any sequence of steps refines the plain model, and exact counts stay exact. */
    method PerformAll(ops: seq<Op>, linking: Linking)
      requires Valid()
      modifies `versions, `dirs, `inFlight, store
      ensures Valid() && Abs() == ApplyAll(old(Abs()), ops)
      ensures Exact(old(store.Now())) ==> Exact(store.Now())
    {
      assert ops[..0] == [];
      for i := 0 to |ops|
        invariant Valid() && Abs() == ApplyAll(old(Abs()), ops[..i])
        invariant Exact(old(store.Now())) ==> Exact(store.Now())
      {
        Perform(ops[i], linking);
        assert ops[..i + 1][..i] == ops[..i];
      }
      assert ops[..|ops|] == ops;
    }
  }
}
