/** freezePushPlan: from the bindings a selector resolved to the target rows of a new deployment. */
module PushFreeze {
  import opened Options
  import opened Text
  import opened RemoteRoot
  import opened PushPlan
  import opened PushProtocol

  datatype Config = Config(
    bindings: map<nat, Binding>, hosts: map<nat, Host>,
    environments: map<string, map<string, string>>, configurations: map<string, string>)

  /** The current binding, host and server entry behind a binding id. */
  function Lookup(cfg: Config, id: nat): Option<Snapshot> {
    if id !in cfg.bindings || cfg.bindings[id].hostId !in cfg.hosts then None
    else
      var b := cfg.bindings[id];
      Some(Snapshot(cfg.hosts[b.hostId], b,
                    if b.serverId in cfg.environments then cfg.environments[b.serverId] else map[],
                    if b.serverId in cfg.configurations then cfg.configurations[b.serverId] else ""))
  }

  function FrozenRow(id: nat, seen: Snapshot, digest: Digest): Target {
    Target(seen.binding.hostId, id, seen.binding.serverId, digest, Physical(seen.host, seen.binding), TQueued)
  }

  /** The target row for a binding id as things stand now, if its plan has a digest. */
  function RowFor(cfg: Config, row: Option<VersionRow>, project: string, version: string, id: nat): Option<Target> {
    match Lookup(cfg, id)
    case None => None
    case Some(seen) =>
      var digest := PlanDigest(row, project, version, seen);
      if digest.NoDigest? then None else Some(FrozenRow(id, seen, digest))
  }

  /** What the loop reads for one binding: the configuration and the version row at that time. */
  datatype Reading = Reading(cfg: Config, row: Option<VersionRow>)

  function RowAt(readings: seq<Reading>, project: string, version: string, ids: seq<nat>, i: nat): Option<Target>
    requires i < |ids| == |readings|
  {
    RowFor(readings[i].cfg, readings[i].row, project, version, ids[i])
  }

  /** What was read for the i-th binding. */
  function SeenAt(readings: seq<Reading>, ids: seq<nat>, i: nat): Option<Snapshot>
    requires i < |ids| == |readings|
  {
    Lookup(readings[i].cfg, ids[i])
  }

  /** A binding that can be deployed to: found, of this project, with a safe server id, below an absolute root other
      than "/" under any spelling, on Linux; and the version is published. */
  predicate Deployable(seen: Option<Snapshot>, row: Option<VersionRow>, project: string) {
    && seen.Some? && row.Some? && row.value.status == Published
    && seen.value.binding.projectName == project
    && seen.value.binding.os == "linux"
    && SafeIdentifier(seen.value.binding.serverId)
    && IsAbs(seen.value.binding.remoteRoot) && Directory(seen.value.binding.remoteRoot) != []
    && '\0' !in seen.value.binding.remoteRoot
  }

  /** When a list of bindings can be frozen: each is deployable when it is read, and no two are of one place. */
  predicate Freezable(readings: seq<Reading>, project: string, ids: seq<nat>)
    requires |readings| == |ids|
  {
    && (forall i :: 0 <= i < |ids| ==> Deployable(SeenAt(readings, ids, i), readings[i].row, project))
    && (forall i, j :: 0 <= i < j < |ids| ==>
          !SamePlace(SeenAt(readings, ids, i).value, SeenAt(readings, ids, j).value))
  }

  lemma RowExactlyWhenDeployable(r: Reading, project: string, version: string, id: nat)
    ensures RowFor(r.cfg, r.row, project, version, id).Some? <==> Deployable(Lookup(r.cfg, id), r.row, project)
  {
    var seen := Lookup(r.cfg, id);
    if seen.Some? && IsAbs(seen.value.binding.remoteRoot) {
      CleanMeansDirectory(seen.value.binding.remoteRoot, seen.value.binding.remoteRoot);
    }
  }

  /** The rows so far are the frozen rows of a prefix. */
  ghost predicate Prefix(readings: seq<Reading>, project: string, version: string, ids: seq<nat>, rows: seq<Target>)
    requires |readings| == |ids|
  {
    |rows| <= |ids| && forall j :: 0 <= j < |rows| ==> RowAt(readings, project, version, ids, j) == Some(rows[j])
  }

  /** The texts compared so far. */
  ghost predicate Texts(readings: seq<Reading>, ids: seq<nat>, texts: seq<string>)
    requires |readings| == |ids|
  {
    |texts| <= |ids| && forall j :: 0 <= j < |texts| ==> IsTextOf(SeenAt(readings, ids, j), texts[j])
  }

  predicate IsTextOf(seen: Option<Snapshot>, text: string) {
    seen.Some? && text == KeyText(seen.value.host, seen.value.binding)
  }

  lemma RowIsFrozen(cfg: Config, row: Option<VersionRow>, project: string, version: string, id: nat)
    ensures RowFor(cfg, row, project, version, id).Some? ==>
      FrozenTarget(project, version, RowFor(cfg, row, project, version, id).value)
  {
  }

  /** The keys are the texts, each of which occurs once. */
  ghost predicate KeysOf(texts: seq<string>, keys: set<string>) {
    && (forall j :: 0 <= j < |texts| ==> texts[j] in keys)
    && (forall k :: k in keys ==> exists j :: 0 <= j < |texts| && texts[j] == k)
    && (forall i, j :: 0 <= i < j < |texts| ==> texts[i] != texts[j])
  }

  lemma KeysGrow(texts: seq<string>, keys: set<string>, text: string)
    requires KeysOf(texts, keys) && text !in keys
    ensures KeysOf(texts + [text], keys + {text})
  {
    var more := texts + [text];
    forall k | k in keys + {text} ensures exists j :: 0 <= j < |more| && more[j] == k {
      if k != text {
        var j :| 0 <= j < |texts| && texts[j] == k;
        assert more[j] == k;
      } else {
        assert more[|texts|] == k;
      }
    }
  }

  lemma TextsGrow(readings: seq<Reading>, ids: seq<nat>, texts: seq<string>, text: string)
    requires |readings| == |ids| && Texts(readings, ids, texts) && |texts| < |ids|
    requires IsTextOf(SeenAt(readings, ids, |texts|), text)
    ensures Texts(readings, ids, texts + [text])
  {
  }

  lemma PrefixGrows(readings: seq<Reading>, project: string, version: string, ids: seq<nat>, rows: seq<Target>,
                    t: Target)
    requires |readings| == |ids| && Prefix(readings, project, version, ids, rows) && |rows| < |ids|
    requires RowAt(readings, project, version, ids, |rows|) == Some(t)
    ensures Prefix(readings, project, version, ids, rows + [t])
  {
  }

  /** Deployable bindings have one text exactly if they are of one place. */
  lemma TextMeansPlace(a: Option<Snapshot>, row: Option<VersionRow>, b: Option<Snapshot>, row': Option<VersionRow>,
                       project: string, text: string, text': string)
    requires Deployable(a, row, project) && Deployable(b, row', project) && IsTextOf(a, text) && IsTextOf(b, text')
    ensures text == text' <==> SamePlace(a.value, b.value)
  {
    CleanMeansDirectory(a.value.binding.remoteRoot, b.value.binding.remoteRoot);
    CleanMeansDirectory(b.value.binding.remoteRoot, a.value.binding.remoteRoot);
    KeyTextMeansPlace(a.value, b.value, project);
  }

  /** A binding whose text is already there is of the place of an earlier one, or not deployable. */
  lemma DuplicateRefuses(readings: seq<Reading>, project: string, ids: seq<nat>, texts: seq<string>,
                         keys: set<string>, text: string)
    requires |readings| == |ids| && Texts(readings, ids, texts) && KeysOf(texts, keys) && |texts| < |ids|
    requires IsTextOf(SeenAt(readings, ids, |texts|), text) && text in keys
    ensures !Freezable(readings, project, ids)
  {
    var i := |texts|;
    var j :| 0 <= j < i && texts[j] == text;
    if Freezable(readings, project, ids) {
      assert IsTextOf(SeenAt(readings, ids, j), texts[j]);
      TextMeansPlace(SeenAt(readings, ids, j), readings[j].row, SeenAt(readings, ids, i), readings[i].row, project,
                     text, text);
    }
  }

  /** The rows of a whole list: it was freezable, and they may be inserted. */
  lemma AllFrozen(readings: seq<Reading>, project: string, version: string, ids: seq<nat>, rows: seq<Target>,
                  texts: seq<string>, keys: set<string>)
    requires |readings| == |ids| && Prefix(readings, project, version, ids, rows) && |rows| == |ids|
    requires Texts(readings, ids, texts) && KeysOf(texts, keys) && |texts| == |ids|
    ensures Freezable(readings, project, ids) && (ids != [] ==> FrozenTargets(project, version, rows))
    ensures forall i :: 0 <= i < |ids| ==>
      rows[i].bindingId == ids[i] && rows[i].status == TQueued
      && rows[i].digest == Sha256(Plan(project, version, readings[i].row.value.artifact,
                                       SeenAt(readings, ids, i).value))
  {
    forall i | 0 <= i < |ids|
      ensures Deployable(SeenAt(readings, ids, i), readings[i].row, project)
      ensures FrozenTarget(project, version, rows[i])
      ensures rows[i].bindingId == ids[i]
      ensures rows[i].digest == Sha256(Plan(project, version, readings[i].row.value.artifact,
                                            SeenAt(readings, ids, i).value))
    {
      RowOfPrefix(readings, project, version, ids, rows, i);
    }
    forall i, j | 0 <= i < j < |ids|
      ensures rows[i].instance != rows[j].instance
      ensures !SamePlace(SeenAt(readings, ids, i).value, SeenAt(readings, ids, j).value)
    {
      TextMeansPlace(SeenAt(readings, ids, i), readings[i].row, SeenAt(readings, ids, j), readings[j].row, project,
                     texts[i], texts[j]);
      InstanceOfRow(readings, project, version, ids, rows, i, j);
    }
  }

  lemma RowOfPrefix(readings: seq<Reading>, project: string, version: string, ids: seq<nat>, rows: seq<Target>, i: nat)
    requires |readings| == |ids| && Prefix(readings, project, version, ids, rows) && i < |rows|
    ensures Deployable(SeenAt(readings, ids, i), readings[i].row, project)
    ensures FrozenTarget(project, version, rows[i]) && rows[i].bindingId == ids[i]
    ensures rows[i].digest == Sha256(Plan(project, version, readings[i].row.value.artifact,
                                          SeenAt(readings, ids, i).value))
  {
    assert RowAt(readings, project, version, ids, i) == Some(rows[i]);
    RowIsFrozen(readings[i].cfg, readings[i].row, project, version, ids[i]);
    RowExactlyWhenDeployable(readings[i], project, version, ids[i]);
  }

  lemma InstanceOfRow(readings: seq<Reading>, project: string, version: string, ids: seq<nat>, rows: seq<Target>,
                      i: nat, j: nat)
    requires |readings| == |ids| && Prefix(readings, project, version, ids, rows) && i < |rows| && j < |rows|
    ensures SeenAt(readings, ids, i).Some? && SeenAt(readings, ids, j).Some?
    ensures rows[i].instance == rows[j].instance <==>
      SamePlace(SeenAt(readings, ids, i).value, SeenAt(readings, ids, j).value)
  {
    assert RowAt(readings, project, version, ids, i) == Some(rows[i]);
    assert RowAt(readings, project, version, ids, j) == Some(rows[j]);
    PhysicalMeansPlace(SeenAt(readings, ids, i).value, SeenAt(readings, ids, j).value);
  }

  /** The loop succeeds exactly on lists that are freezable as read; its rows carry the digests of the plans it read, in
      order.  Binding, host and version are read anew for every target. */
  method FreezePushPlan(readings: seq<Reading>, project: string, version: string, ids: seq<nat>)
    returns (frozen: Option<seq<Target>>)
    requires |readings| == |ids|
    ensures frozen.Some? <==> Freezable(readings, project, ids)
    ensures frozen.Some? ==> |frozen.value| == |ids| && forall i :: 0 <= i < |ids| ==>
              frozen.value[i].bindingId == ids[i] && frozen.value[i].status == TQueued
              && frozen.value[i].digest == Sha256(Plan(project, version, readings[i].row.value.artifact,
                                                       SeenAt(readings, ids, i).value))
    ensures frozen.Some? && ids != [] ==> FrozenTargets(project, version, frozen.value)
  {
    var rows: seq<Target> := [];
    var keys: set<string> := {};
    ghost var texts: seq<string> := [];
    for i := 0 to |ids|
      invariant |rows| == |texts| == i && Prefix(readings, project, version, ids, rows)
      invariant Texts(readings, ids, texts) && KeysOf(texts, keys)
    {
      var found := Lookup(readings[i].cfg, ids[i]);
      if found.None? {
        assert !Deployable(SeenAt(readings, ids, i), readings[i].row, project);
        return None;
      }
      var key := KeyText(found.value.host, found.value.binding);
      if key in keys {
        DuplicateRefuses(readings, project, ids, texts, keys, key);
        return None;
      }
      var digest := PlanDigest(readings[i].row, project, version, found.value);
      RowExactlyWhenDeployable(readings[i], project, version, ids[i]);
      if digest.NoDigest? {
        assert !Deployable(SeenAt(readings, ids, i), readings[i].row, project);
        return None;
      }
      var t := FrozenRow(ids[i], found.value, digest);
      KeysGrow(texts, keys, key);
      TextsGrow(readings, ids, texts, key);
      PrefixGrows(readings, project, version, ids, rows, t);
      keys := keys + {key};
      texts := texts + [key];
      rows := rows + [t];
    }
    frozen := Some(rows);
    AllFrozen(readings, project, version, ids, rows, texts, keys);
  }

  /** Two bindings of one place are never frozen together, however their addresses and roots are spelt. */
  lemma RespelledRootIsRefused(readings: seq<Reading>, project: string, ids: seq<nat>, i: nat, j: nat, name: string)
    requires |readings| == |ids| && i < j < |ids| && Ordinary(name) && Free(name, '/')
    requires SeenAt(readings, ids, i).Some? && SeenAt(readings, ids, j).Some?
    requires var a, b := SeenAt(readings, ids, i).value, SeenAt(readings, ids, j).value;
      var root := a.binding.remoteRoot;
      && SameLetters(a.host.address, b.host.address) && a.host.port == b.host.port
      && a.binding.serverId == b.binding.serverId
      && IsAbs(root) && (|| b.binding.remoteRoot == root || b.binding.remoteRoot == root + "/"
                         || b.binding.remoteRoot == root + "/." || b.binding.remoteRoot == root + "/" + name + "/..")
    ensures !Freezable(readings, project, ids)
  {
    var a, b := SeenAt(readings, ids, i).value, SeenAt(readings, ids, j).value;
    RespelledRoot(a.binding.remoteRoot, b.binding.remoteRoot, name);
    assert SamePlace(a, b);
  }

  /** A frozen target validates again if and only if nothing it was frozen from has changed. */
  lemma FrozenValidates(cfg: Config, row: Option<VersionRow>, later: Config, row': Option<VersionRow>, d: Deployment,
                        id: nat)
    requires RowFor(cfg, row, d.project, d.version, id).Some? && Lookup(later, id).Some?
    ensures var was, now := Lookup(cfg, id).value, Lookup(later, id).value;
      var t := RowFor(cfg, row, d.project, d.version, id).value;
      TargetUnchanged(row', d, t, now) <==>
        now == was && IsPublished(row') && row'.value.artifact == row.value.artifact
  {
  }
}
