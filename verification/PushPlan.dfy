/**
 The plan that a push deployment freezes: artifact, host identity, instance directory and hook environment.
 The SHA-256 digest of its canonical JSON is modelled as the plan itself, that is, as an injective digest.
 */
module PushPlan {
  import opened Options
  import opened Text
  import opened RemoteRoot

  /** The identity columns of push_hosts; health-check columns take no part in a plan. */
  datatype Host = Host(id: nat, address: string, port: nat, username: string, authMode: string, hostKey: string)

  datatype Binding = Binding(id: nat, hostId: nat, projectName: string, serverId: string, labels: string,
                             contentTags: string, remoteRoot: string, skipBackup: bool, os: string, arch: string)

  /** What is read about one target: its host, its binding, and the server.yaml entry of its server id. */
  datatype Snapshot = Snapshot(host: Host, binding: Binding, environment: map<string, string>, configuration: string)

  datatype Plan = Plan(project: string, version: string, artifact: string, snapshot: Snapshot)
  datatype Digest = NoDigest | Sha256(plan: Plan)

  datatype VersionStatus = Draft | PendingReview | Rejected | Published
  datatype VersionRow = VersionRow(status: VersionStatus, artifact: string)

  predicate IsPublished(row: Option<VersionRow>) {
    row.Some? && row.value.status == Published
  }

  /** Where a target physically lives. */
  datatype PhysicalKey = PhysicalKey(address: string, port: nat, root: string, serverId: string)

  function Physical(h: Host, b: Binding): PhysicalKey {
    PhysicalKey(Lower(h.address), h.port, Clean(b.remoteRoot), b.serverId)
  }

  /** The text that freezePushPlan compares. */
  function KeyText(h: Host, b: Binding): string {
    Lower(h.address) + ":" + Decimal(h.port) + "/" + Clean(b.remoteRoot) + "/" + b.serverId
  }

  predicate IdentifierChar(c: char) {
    'A' <= c <= 'Z' || 'a' <= c <= 'z' || '0' <= c <= '9'
  }

  /** ^[A-Za-z0-9][A-Za-z0-9._:-]{0,127}$ */
  predicate SafeIdentifier(s: string) {
    && 1 <= |s| <= 128
    && IdentifierChar(s[0])
    && forall i :: 1 <= i < |s| ==> IdentifierChar(s[i]) || s[i] in "._:-"
  }

  predicate DeployableBinding(b: Binding, project: string) {
    && b.projectName == project
    && SafeIdentifier(b.serverId)
    && IsAbs(b.remoteRoot)
    && Clean(b.remoteRoot) != "/"
    && '\0' !in b.remoteRoot
    && b.os == "linux"
  }

  /** pushPlanDigest: no digest for an unusable binding or a version that is not published. */
  function PlanDigest(row: Option<VersionRow>, project: string, version: string, seen: Snapshot): Digest {
    if !DeployableBinding(seen.binding, project) || !IsPublished(row) then NoDigest
    else Sha256(Plan(project, version, row.value.artifact, seen))
  }

  /******* What the key stands for *******/

  /** Two snapshots of one place: the same address but for the case of letters, the same port and server id, and roots
      that name the same directory. */
  predicate SamePlace(a: Snapshot, b: Snapshot) {
    && SameLetters(a.host.address, b.host.address)
    && a.host.port == b.host.port
    && Directory(a.binding.remoteRoot) == Directory(b.binding.remoteRoot)
    && a.binding.serverId == b.binding.serverId
  }

  lemma PhysicalMeansPlace(a: Snapshot, b: Snapshot)
    requires IsAbs(a.binding.remoteRoot) && IsAbs(b.binding.remoteRoot)
    ensures Physical(a.host, a.binding) == Physical(b.host, b.binding) <==> SamePlace(a, b)
  {
    LowerFoldsCase(a.host.address, b.host.address);
    CleanMeansDirectory(a.binding.remoteRoot, b.binding.remoteRoot);
  }

  /** The compared texts of usable bindings are equal exactly if they are of one place: no two places run together
      in the text, whatever their addresses and roots contain. */
  lemma KeyTextMeansPlace(a: Snapshot, b: Snapshot, project: string)
    requires DeployableBinding(a.binding, project) && DeployableBinding(b.binding, project)
    ensures KeyText(a.host, a.binding) == KeyText(b.host, b.binding) <==> SamePlace(a, b)
  {
    PhysicalMeansPlace(a, b);
    if KeyText(a.host, a.binding) == KeyText(b.host, b.binding) {
      SameTextSameParts(a, b, project);
      LowerFoldsCase(a.host.address, b.host.address);
    }
  }

  lemma SameTextSameParts(a: Snapshot, b: Snapshot, project: string)
    requires DeployableBinding(a.binding, project) && DeployableBinding(b.binding, project)
    requires KeyText(a.host, a.binding) == KeyText(b.host, b.binding)
    ensures Lower(a.host.address) == Lower(b.host.address) && a.host.port == b.host.port
    ensures Directory(a.binding.remoteRoot) == Directory(b.binding.remoteRoot)
    ensures a.binding.serverId == b.binding.serverId
  {
    KeyParts(a, project);
    KeyParts(b, project);
    var r, r' := Directory(a.binding.remoteRoot), Directory(b.binding.remoteRoot);
    var t, t' := r + [a.binding.serverId], r' + [b.binding.serverId];
    LastSeparator(Split(HostText(a.host), '/'), t, Split(HostText(b.host), '/'), t', "");
    assert r == t[..|t| - 1] && r' == t'[..|t'| - 1] && t[|t| - 1] == t'[|t'| - 1];
    JoinOfSplit(HostText(a.host), '/');
    JoinOfSplit(HostText(b.host), '/');
    SameHostText(a.host, b.host);
  }

  function HostText(h: Host): string {
    Lower(h.address) + ":" + Decimal(h.port)
  }

  /** Between its slashes: the host, a blank part, the names of the directory, the server id. */
  lemma KeyParts(a: Snapshot, project: string)
    requires DeployableBinding(a.binding, project)
    ensures var names := Directory(a.binding.remoteRoot) + [a.binding.serverId];
      && Split(KeyText(a.host, a.binding), '/') == Split(HostText(a.host), '/') + [""] + names
      && "" !in names
  {
    var root, id, host := a.binding.remoteRoot, a.binding.serverId, HostText(a.host);
    assert KeyText(a.host, a.binding) == host + "/" + Clean(root) + "/" + id;
    SplitConcat(host + "/" + Clean(root), id, '/');
    SplitConcat(host, Clean(root), '/');
    SplitWhole(id, '/');
    CleanParts(root);
  }

  lemma CleanParts(root: string)
    requires IsAbs(root) && Clean(root) != "/"
    ensures Split(Clean(root), '/') == [""] + Directory(root)
    ensures "" !in Directory(root)
  {
    var names := CleanSegments(Split(root, '/'));
    CleanSegmentsWalk(Split(root, '/'));
    SplitParts(root, '/');
    RootIsEmpty(names);
    SplitFirst("", Join(names, '/'), '/');
    assert Clean(root) == "" + ['/'] + Join(names, '/');
    SplitOfJoin(names, '/');
  }

  /** A list splits in one way at its last separator. */
  lemma LastSeparator<T>(a: seq<T>, t: seq<T>, a': seq<T>, t': seq<T>, sep: T)
    requires sep !in t && sep !in t' && a + [sep] + t == a' + [sep] + t'
    ensures a == a' && t == t'
  {
    var l, l' := a + [sep] + t, a' + [sep] + t';
    assert l[|a|] == sep && l'[|a'|] == sep;
    assert forall k :: |a| < k < |l| ==> l[k] != sep;
    assert forall k :: |a'| < k < |l'| ==> l'[k] != sep;
    assert a == l[..|a|] && t == l[|a| + 1..];
    assert a' == l'[..|a|] && t' == l'[|a| + 1..];
  }

  /** The port stands after the last colon. */
  lemma SameHostText(h: Host, h': Host)
    requires HostText(h) == HostText(h')
    ensures Lower(h.address) == Lower(h'.address) && h.port == h'.port
  {
    LastSeparator(Lower(h.address), Decimal(h.port), Lower(h'.address), Decimal(h'.port), ':');
    DecimalIsInjective(h.port, h'.port);
  }
}
