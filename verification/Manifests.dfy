/** Source manifests: the durable state contract and the updates that may change it. */
module Manifests {
  import opened Basics
  import opened Topology

  datatype KnowledgeState = Awaiting | Materialized | Stale | Missing

  /** The lifecycle part of a registered source's manifest. */
  datatype Manifest = Manifest(
    path: string, state: KnowledgeState, contentHash: Option<string>, fingerprint: Option<string>, materializedAt: Option<string>)

  predicate IsSet(value: Option<string>) {
    value.Some? && value.value != ""
  }

  predicate HashesSet(m: Manifest) {
    IsSet(m.contentHash) && IsSet(m.fingerprint) && IsSet(m.materializedAt)
  }

  /** validate, which guards every manifest write. */
  predicate Validates(m: Manifest) {
    && m.path != ""
    && match m.state
       case Awaiting => m.contentHash == None && m.fingerprint == None && m.materializedAt == None
       case Materialized => HashesSet(m)
       case Stale => HashesSet(m)
       case Missing => true
  }

  /** A valid manifest has a path; before the first sync it stores no hash and no time, afterwards both hashes
      and the time, none of them empty, and while it is missing anything. */
  lemma ValidExactly(m: Manifest)
    ensures Validates(m) <==>
      var stored := [m.contentHash, m.fingerprint, m.materializedAt];
      && |m.path| > 0
      && (m.state == Awaiting ==> forall i :: 0 <= i < 3 ==> stored[i] == None)
      && (m.state == Materialized || m.state == Stale ==> forall i :: 0 <= i < 3 ==> stored[i] != None && stored[i] != Some(""))
  {
    var stored := [m.contentHash, m.fingerprint, m.materializedAt];
    assert stored[0] == m.contentHash && stored[1] == m.fingerprint && stored[2] == m.materializedAt;
  }

  /** Valid, and never holding an empty timestamp. */
  predicate Sound(m: Manifest) {
    Validates(m) && m.materializedAt != Some("")
  }

  function TargetPath(m: Manifest): string {
    ParentPath(m.path)
  }

  // ---------- updates ----------

  function MarkMissing(m: Manifest): Manifest {
    m.(state := Missing)
  }

  /** sync_manifest_to_found_path: repair the path; a revived or moved source becomes stale. */
  function SyncedTo(m: Manifest, found: string): Manifest {
    var state :=
      if m.state == Missing then Stale
      else if m.path != found && m.state != Awaiting && m.state != Stale then Stale
      else m.state;
    m.(path := found, state := state)
  }

  /** States that a relocation leaves alone. */
  function Relocated(state: KnowledgeState): KnowledgeState {
    if state == Awaiting || state == Missing then state else Stale
  }

  /** set_source_area_path: the file name is kept, or derived from the source when there is none. */
  function WithArea(m: Manifest, id: string, area: string): Manifest {
    var name := if FileName(m.path) == "" then id + ".md" else FileName(m.path);
    m.(path := ChildPath(area, name), state := Relocated(m.state))
  }

  /** The manifest lies in, or is, the moved folder. */
  predicate InFolder(m: Manifest, src: string) {
    m.path == src || src + "/" <= m.path
  }

  /** apply_folder_move_to_manifest */
  function FolderMoved(m: Manifest, src: string, dest: string): Manifest
    requires InFolder(m, src)
  {
    m.(path := dest + m.path[|src|..], state := Relocated(m.state))
  }

  datatype Prepared = Prepared(path: string, contentHash: string, fingerprint: string, checkedAt: string, fileChanged: bool)

  /** update_manifest_materialization; the timestamp moves only with a real change. */
  function MaterializedAs(m: Manifest, p: Prepared): Manifest {
    var moved := p.fileChanged || m.path != p.path || m.materializedAt == None;
    Manifest(p.path, Materialized, Some(p.contentHash), Some(p.fingerprint),
      if moved then Some(p.checkedAt) else m.materializedAt)
  }

  /** What the pipeline guarantees of a fetched source. */
  predicate Fetched(p: Prepared) {
    p.path != "" && p.contentHash != "" && p.fingerprint != "" && p.checkedAt != ""
  }

  // ---------- where validate can fire ----------

  /** Repairing a valid manifest's path fails validation exactly when it revives a source that went
      missing without ever having been materialized. */
  lemma SyncValidatesExactlyWhen(m: Manifest, found: string)
    requires Validates(m) && found != ""
    ensures Validates(SyncedTo(m, found)) <==> (m.state == Missing ==> HashesSet(m))
  {
  }

  /** Every other update keeps a sound manifest sound: marking it missing, moving its area or its
      folder, and materializing it, a missing one without hashes included. */
  lemma UpdatesStaySound(m: Manifest, id: string, area: string, src: string, dest: string, p: Prepared)
    requires Sound(m) && Fetched(p) && dest != ""
    ensures Sound(MarkMissing(m))
    ensures Sound(WithArea(m, id, area))
    ensures InFolder(m, src) ==> Sound(FolderMoved(m, src, dest))
    ensures Sound(MaterializedAs(m, p)) && MaterializedAs(m, p).state == Materialized
  {
    WithAreaSound(m, id, area);
    MaterializedIsSound(m, p);
  }

  lemma MaterializedIsSound(m: Manifest, p: Prepared)
    requires Sound(m) && Fetched(p)
    ensures Sound(MaterializedAs(m, p)) && MaterializedAs(m, p).state == Materialized
  {
  }

  lemma WithAreaSound(m: Manifest, id: string, area: string)
    requires Sound(m)
    ensures Sound(WithArea(m, id, area))
  {
    hide LastSlash;
    var name := if FileName(m.path) == "" then id + ".md" else FileName(m.path);
    assert |name| > 0;
    assert |ChildPath(area, name)| > 0;
  }

  // ---------- what the updates change ----------

  /** Only a materialization touches the hashes and the time of the last one. */
  lemma OthersKeepHashes(m: Manifest, id: string, found: string, area: string, src: string, dest: string)
    ensures SameHashes(m, MarkMissing(m)) && SameHashes(m, SyncedTo(m, found)) && SameHashes(m, WithArea(m, id, area))
    ensures InFolder(m, src) ==> SameHashes(m, FolderMoved(m, src, dest))
  {
  }

  predicate SameHashes(m: Manifest, after: Manifest) {
    after.contentHash == m.contentHash && after.fingerprint == m.fingerprint && after.materializedAt == m.materializedAt
  }

  /** A materialization stores the fetched hash and fingerprint, each in its place, and the time of the
      check when the file or its path changed or no time was stored. */
  lemma MaterializationStores(m: Manifest, p: Prepared)
    ensures
      var after := MaterializedAs(m, p);
      && after.path == p.path && after.state == Materialized
      && after.contentHash == Some(p.contentHash) && after.fingerprint == Some(p.fingerprint)
      && (p.fileChanged || p.path != m.path || m.materializedAt == None ==> after.materializedAt == Some(p.checkedAt))
      && (!p.fileChanged && p.path == m.path && m.materializedAt.Some? ==> after.materializedAt == m.materializedAt)
  {
  }

  /** A missing source ends up missing where it was; a found one at its file: it is stale if it was missing
      or its settled file is elsewhere, and otherwise as it was. */
  lemma FoundAndMissing(m: Manifest, found: string)
    ensures MarkMissing(m).state == Missing && MarkMissing(m).path == m.path
    ensures SyncedTo(m, found).path == found
    ensures SyncedTo(m, found).state == Stale <==>
      m.state == Missing || m.state == Stale || (m.state == Materialized && m.path != found)
    ensures SyncedTo(m, found).state != Stale ==> SyncedTo(m, found).state == m.state
  {
  }

  /** A relocation makes a settled source stale and leaves an awaiting or missing one so; the file keeps its
      name, and in a folder move its place in the folder, so that moving back restores the path. */
  lemma RelocationsTell(m: Manifest, id: string, area: string, src: string, dest: string)
    ensures WithArea(m, id, area).path == ChildPath(area, if FileName(m.path) == "" then id + ".md" else FileName(m.path))
    ensures WithArea(m, id, area).state == Stale <==> m.state == Materialized || m.state == Stale
    ensures WithArea(m, id, area).state != Stale ==> WithArea(m, id, area).state == m.state
    ensures InFolder(m, src) ==>
      var moved := FolderMoved(m, src, dest);
      && InFolder(moved, dest) && FolderMoved(moved, dest, src).path == m.path
      && |moved.path| == |dest| + |m.path| - |src|
      && (moved.state == Stale <==> m.state == Materialized || m.state == Stale)
      && (moved.state != Stale ==> moved.state == m.state)
  {
    hide FileName, ChildPath;
    if InFolder(m, src) {
      var rest := m.path[|src|..];
      assert m.path == src + rest;
      assert (dest + rest)[|dest|..] == rest;
      if m.path != src {
        assert rest[0] == '/';
        assert dest + "/" == (dest + rest)[..|dest| + 1];
      } else {
        assert rest == "";
      }
    }
  }

  // ---------- resolution ----------

  /** The knowledge tree as the lookups see it: which files exist, and for each source the first file
      found carrying its identity and the first one named with its prefix. */
  datatype Files = Files(present: set<string>, byIdentity: map<string, string>, byPrefix: map<string, string>)

  ghost predicate ValidFiles(f: Files) {
    && "" !in f.present
    && (forall id :: id in f.byIdentity ==> f.byIdentity[id] in f.present)
    && (forall id :: id in f.byPrefix ==> f.byPrefix[id] in f.present)
  }

  /** No file path ends with a separator. */
  ghost predicate ProperNames(f: Files) {
    forall p :: p in f.present ==> FileName(p) != ""
  }

  datatype Resolution = Direct(path: string) | ByIdentity(path: string) | ByPrefix(path: string) | Unmaterialized | NotFound

  predicate Found(r: Resolution) {
    r.Direct? || r.ByIdentity? || r.ByPrefix?
  }

  /** resolve_source_file */
  function Resolve(f: Files, id: string, m: Manifest): (r: Resolution)
    ensures Found(r) && ValidFiles(f) ==> r.path in f.present
    ensures r.Direct? <==> m.path in f.present
  {
    if m.path in f.present then Direct(m.path)
    else if id in f.byIdentity then ByIdentity(f.byIdentity[id])
    else if id in f.byPrefix then ByPrefix(f.byPrefix[id])
    else if m.state == Awaiting then Unmaterialized
    else NotFound
  }

  /** The recorded path comes first, then the file that carries the identity, then the one named with the
      prefix; without a file an awaiting source is unmaterialized and any other not found. */
  lemma ResolvedInOrder(f: Files, id: string, m: Manifest)
    ensures
      var r := Resolve(f, id, m);
      && (r.Direct? <==> m.path in f.present) && (r.Direct? ==> r.path == m.path)
      && (r.ByIdentity? <==> m.path !in f.present && id in f.byIdentity) && (r.ByIdentity? ==> r.path == f.byIdentity[id])
      && (r.ByPrefix? <==> m.path !in f.present && id !in f.byIdentity && id in f.byPrefix)
      && (r.ByPrefix? ==> r.path == f.byPrefix[id])
      && (!Found(r) ==> (r.Unmaterialized? <==> m.state == Awaiting))
  {
  }

  /** After the repair the file is found directly: repairing again changes nothing. */
  lemma RepairedIsDirect(f: Files, id: string, m: Manifest)
    requires ValidFiles(f) && Found(Resolve(f, id, m))
    ensures
      var fixed := SyncedTo(m, Resolve(f, id, m).path);
      Resolve(f, id, fixed) == Direct(fixed.path) && SyncedTo(fixed, fixed.path) == fixed
  {
  }
}
