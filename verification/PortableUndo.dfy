/** Multi-step writes of a prepared source: attachments, the markdown file, its duplicates, and the
    undo that runs when a later step fails. */
module PortableUndo {
  import opened Basics

  /** Bytes by path. A write either replaces the whole file or, when it fails, leaves it alone. */
  type Files = map<string, string>

  /** How one file operation can go: Busy is a sharing violation (WinError 5), Denied any other
      permission error, Broken any other error. */
  datatype Fault = Fine | Busy | Denied | Broken

  datatype Rollback = Rollback(path: string, changed: bool, previous: Option<string>)

  datatype Artifact = Artifact(path: string, data: string, fault: Fault)

  function At(files: Files, path: string): Option<string> {
    if path in files then Some(files[path]) else None
  }

  /** rollback_attachment_write and _restore_portable_file: prior bytes, or absence. */
  function Restore(files: Files, path: string, previous: Option<string>): Files {
    if previous.Some? then files[path := previous.value] else files - {path}
  }

  /** Undoing a list of writes from the last to the first. */
  function Undone(files: Files, rollbacks: seq<Rollback>): Files
    decreases |rollbacks|
  {
    if rollbacks == [] then files
    else
      var last := rollbacks[|rollbacks| - 1];
      Undone(if last.changed then Restore(files, last.path, last.previous) else files, rollbacks[..|rollbacks| - 1])
  }

  /** The same records undone from the first to the last. */
  function UndoneForward(files: Files, rollbacks: seq<Rollback>): Files
    decreases |rollbacks|
  {
    if rollbacks == [] then files
    else
      var first := rollbacks[0];
      UndoneForward(if first.changed then Restore(files, first.path, first.previous) else files, rollbacks[1..])
  }

  function Written(files: Files, artifacts: seq<Artifact>): Files {
    if artifacts == [] then files
    else
      var last := artifacts[|artifacts| - 1];
      Written(files, artifacts[..|artifacts| - 1])[last.path := last.data]
  }

  function RecordOf(files: Files, artifact: Artifact): Rollback {
    Rollback(artifact.path, At(files, artifact.path) != Some(artifact.data), At(files, artifact.path))
  }

  /** The records write_attachment_bytes_with_rollback takes along the way. */
  function Records(files: Files, artifacts: seq<Artifact>): seq<Rollback> {
    if artifacts == [] then []
    else
      var front, last := artifacts[..|artifacts| - 1], artifacts[|artifacts| - 1];
      Records(files, front) + [RecordOf(Written(files, front), last)]
  }

  lemma UndoOne(files: Files, artifact: Artifact, rest: seq<Rollback>)
    ensures Undone(files[artifact.path := artifact.data], rest + [RecordOf(files, artifact)]) == Undone(files, rest)
  {
    var r := RecordOf(files, artifact);
    var written := files[artifact.path := artifact.data];
    assert (rest + [r])[..|rest + [r]| - 1] == rest;
    assert (if r.changed then Restore(written, r.path, r.previous) else written) == files;
  }

  /** Undo is exact for any list of artifacts, repeated paths included. */
  lemma {:induction false} UndoIsExact(files: Files, artifacts: seq<Artifact>)
    ensures Undone(Written(files, artifacts), Records(files, artifacts)) == files
  {
    if artifacts != [] {
      var front, last := artifacts[..|artifacts| - 1], artifacts[|artifacts| - 1];
      UndoOne(Written(files, front), last, Records(files, front));
      UndoIsExact(files, front);
    }
  }

  /** The reverse order matters: with a path written twice, undoing forward leaves the first write. */
  lemma ForwardUndoIsNotExact(path: string)
    ensures
      var twice := [Artifact(path, "first", Fine), Artifact(path, "second", Fine)];
      UndoneForward(Written(map[], twice), Records(map[], twice)) == map[path := "first"]
  {
    var a, b := Artifact(path, "first", Fine), Artifact(path, "second", Fine);
    var none: Files := map[];
    assert [a, b][..1] == [a] && [a][..0] == [];
    var r0, r1 := Rollback(path, true, None), Rollback(path, true, Some("first"));
    assert Written(none, [a]) == map[path := "first"];
    assert Written(none, [a, b]) == map[path := "second"];
    assert Records(none, [a]) == [r0];
    assert Records(none, [a, b]) == [r0, r1];
    assert [r0, r1][1..] == [r1] && [r1][1..] == [];
    assert Restore(map[path := "second"], path, None) == none;
    assert UndoneForward(none, [r1]) == UndoneForward(none[path := "first"], []);
  }

  predicate AllFine(artifacts: seq<Artifact>) {
    forall i :: 0 <= i < |artifacts| ==> artifacts[i].fault == Fine
  }

  // ---------- the markdown file and its duplicates ----------

  /** Raising keeps a note of what had been done: the target written, these duplicates removed. */
  datatype Outcome =
    | Done(changed: bool, removed: seq<string>)
    | RaisedDenied(wrote: bool, removed: seq<string>)
    | RaisedBroken

  /** One commit's file names and contents, and how each operation goes. idOf reads a file's managed
      identity; listing is the target's directory. */
  datatype Commit = Commit(
    target: string, markdown: string, id: string, idOf: string -> Option<string>, listing: seq<string>,
    writeFault: Fault, unlinkFault: string -> Fault, manifestFault: Fault)

  function Set(s: seq<string>): set<string> {
    set p | p in s
  }

  /** A file in the target's directory that carries the source's id and is not the target. */
  predicate Duplicate(files: Files, c: Commit, path: string) {
    path != c.target && path in files && c.idOf(files[path]) == Some(c.id)
  }

  /** The duplicates a completed removal loop deletes: all that are not held open. */
  function Removable(files: Files, c: Commit, listing: seq<string>): seq<string> {
    if listing == [] then []
    else
      var last := listing[|listing| - 1];
      Removable(files, c, listing[..|listing| - 1]) +
        if Duplicate(files, c, last) && c.unlinkFault(last) == Fine then [last] else []
  }

  predicate Permission(f: Fault) {
    f == Busy || f == Denied
  }

  /** A duplicate whose removal ends the loop. A file held open does not: it is left in place. */
  predicate Stops(files: Files, c: Commit, path: string) {
    Duplicate(files, c, path) && (c.unlinkFault(path) == Denied || c.unlinkFault(path) == Broken)
  }

  /** How many entries of the listing the removal loop gets past. */
  function FirstStop(files: Files, c: Commit, listing: seq<string>): (n: nat)
    ensures n <= |listing|
  {
    if listing == [] || Stops(files, c, listing[0]) then 0 else 1 + FirstStop(files, c, listing[1..])
  }

  /** How the first operation that fails fails: the write, a duplicate's removal, the manifest; Fine when
      none does. */
  function FirstFault(files: Files, c: Commit): Fault {
    var n := FirstStop(files, c, c.listing);
    if c.writeFault != Fine then c.writeFault
    else if n < |c.listing| then c.unlinkFault(c.listing[n])
    else c.manifestFault
  }

  /** The loop stops at n and nowhere before. */
  ghost predicate StopsAt(files: Files, c: Commit, listing: seq<string>, n: nat) {
    && n <= |listing| && (n < |listing| ==> Stops(files, c, listing[n]))
    && forall i :: 0 <= i < n ==> !Stops(files, c, listing[i])
  }

  lemma {:induction false} FirstStopIsFirst(files: Files, c: Commit, listing: seq<string>, n: nat)
    ensures StopsAt(files, c, listing, n) <==> n == FirstStop(files, c, listing)
  {
    if listing != [] && !Stops(files, c, listing[0]) {
      var rest := listing[1..];
      if n > 0 {
        FirstStopIsFirst(files, c, rest, n - 1);
        assert forall i :: 0 <= i < n && i < |listing| && i > 0 ==> listing[i] == rest[i - 1];
        if StopsAt(files, c, rest, n - 1) {
          forall i | 0 <= i < n ensures !Stops(files, c, listing[i]) {
            assert i > 0 ==> listing[i] == rest[i - 1];
          }
        }
        if StopsAt(files, c, listing, n) {
          forall i | 0 <= i < n - 1 ensures !Stops(files, c, rest[i]) {
            assert rest[i] == listing[i + 1];
          }
        }
      }
    }
  }

  /** Which files stop the loop depends on the listed files other than the target only. */
  lemma {:induction false} FirstStopFrame(a: Files, b: Files, c: Commit, listing: seq<string>)
    requires forall p :: p in listing && p != c.target ==> At(a, p) == At(b, p)
    ensures FirstStop(a, c, listing) == FirstStop(b, c, listing)
  {
    if listing != [] {
      var p := listing[0];
      assert p != c.target ==> At(a, p) == At(b, p);
      FirstStopFrame(a, b, c, listing[1..]);
    }
  }

  /** A commit fails as its first failing operation does: the write first, then the duplicates in the order of
      the listing, of which only a refused or broken removal counts, and the manifest last. */
  lemma FirstFaultTells(files: Files, c: Commit, n: nat)
    requires StopsAt(files, c, c.listing, n)
    ensures c.writeFault != Fine ==> FirstFault(files, c) == c.writeFault
    ensures c.writeFault == Fine && n < |c.listing| ==> FirstFault(files, c) == c.unlinkFault(c.listing[n]) != Fine
    ensures c.writeFault == Fine && n == |c.listing| ==> FirstFault(files, c) == c.manifestFault
    ensures FirstFault(files, c) == Fine <==> c.writeFault == Fine && c.manifestFault == Fine && n == |c.listing|
  {
    FirstStopIsFirst(files, c, c.listing, n);
  }

  lemma FirstFaultFrame(a: Files, b: Files, c: Commit)
    requires forall p :: p in c.listing && p != c.target ==> At(a, p) == At(b, p)
    ensures FirstFault(a, c) == FirstFault(b, c)
  {
    FirstStopFrame(a, b, c, c.listing);
  }

  lemma {:induction false} RemovableMembers(files: Files, c: Commit, listing: seq<string>)
    ensures forall p :: p in Removable(files, c, listing) <==>
      p in listing && Duplicate(files, c, p) && c.unlinkFault(p) == Fine
    ensures Distinct(listing) ==> Distinct(Removable(files, c, listing))
  {
    if listing != [] {
      var front, last := listing[..|listing| - 1], listing[|listing| - 1];
      RemovableMembers(files, c, front);
      assert listing == front + [last];
    }
  }

  /** All but the files from k on have been put back. */
  ghost predicate PartlyBack(files: Files, now: Files, removed: seq<string>, k: nat)
    requires k <= |removed|
  {
    && (forall p :: p in now <==> p in files && p !in removed[k..])
    && (forall p :: p in now ==> now[p] == files[p])
  }

  lemma PutBackOne(files: Files, now: Files, removed: seq<string>, k: nat)
    requires k < |removed| && Distinct(removed) && removed[k] in files
    requires PartlyBack(files, now, removed, k)
    ensures PartlyBack(files, now[removed[k] := files[removed[k]]], removed, k + 1)
  {
    assert removed[k..] == [removed[k]] + removed[k + 1..];
    assert removed[k] !in removed[k + 1..];
  }

  lemma RemoveOne(files: Files, removed: seq<string>, p: string)
    ensures files - Set(removed) - {p} == files - Set(removed + [p])
  {
  }

  lemma TargetBack(files: Files, target: string, data: string, removed: seq<string>)
    requires target !in removed
    ensures Restore(files[target := data] - Set(removed), target, At(files, target)) == files - Set(removed)
  {
  }

  /** The files as materialize_markdown finds them after its write, minus some duplicates. */
  ghost predicate Removing(w: Files, now: Files, c: Commit, n: nat, removed: seq<string>, contents: seq<string>)
    requires n <= |c.listing|
  {
    && removed == Removable(w, c, c.listing[..n]) && now == w - Set(removed)
    && |contents| == |removed| && forall i :: 0 <= i < |removed| ==> removed[i] in w && contents[i] == w[removed[i]]
  }

  lemma RemovingStep(w: Files, now: Files, c: Commit, n: nat, removed: seq<string>, contents: seq<string>)
    requires n < |c.listing| && Distinct(c.listing) && Removing(w, now, c, n, removed, contents)
    ensures Duplicate(now, c, c.listing[n]) <==> Duplicate(w, c, c.listing[n])
    ensures Duplicate(w, c, c.listing[n]) && c.unlinkFault(c.listing[n]) == Fine ==>
      Removing(w, now - {c.listing[n]}, c, n + 1, removed + [c.listing[n]], contents + [w[c.listing[n]]])
    ensures !(Duplicate(w, c, c.listing[n]) && c.unlinkFault(c.listing[n]) == Fine) ==>
      Removing(w, now, c, n + 1, removed, contents)
  {
    var p := c.listing[n];
    assert c.listing[..n + 1][..n] == c.listing[..n];
    RemovableMembers(w, c, c.listing[..n]);
    assert p !in c.listing[..n];
    RemoveOne(w, removed, p);
  }

  class PortableFiles {
    var files: Files

    constructor (files: Files)
      ensures this.files == files
    {
      this.files := files;
    }

    method RestoreFile(path: string, previous: Option<string>)
      modifies this
      ensures files == Restore(old(files), path, previous)
    {
      if previous.Some? {
        files := files[path := previous.value];
      } else {
        files := files - {path};
      }
    }

    method WriteWithRollback(artifact: Artifact) returns (rollback: Option<Rollback>)
      modifies this
      ensures rollback == None <==> artifact.fault != Fine
      ensures rollback == None ==> files == old(files)
      ensures rollback.Some? ==> files == old(files)[artifact.path := artifact.data]
      ensures rollback.Some? ==> rollback.value == RecordOf(old(files), artifact)
    {
      var previous := At(files, artifact.path);
      if artifact.fault != Fine {
        return None;
      }
      if previous != Some(artifact.data) {
        files := files[artifact.path := artifact.data];
      }
      rollback := Some(Rollback(artifact.path, previous != Some(artifact.data), previous));
    }

    /** Undo from the last write to the first. */
    method RollbackWrites(rollbacks: seq<Rollback>)
      modifies this
      ensures files == Undone(old(files), rollbacks)
    {
      var i := |rollbacks|;
      assert rollbacks[..i] == rollbacks;
      while i > 0
        invariant 0 <= i <= |rollbacks|
        invariant Undone(files, rollbacks[..i]) == Undone(old(files), rollbacks)
      {
        i := i - 1;
        assert rollbacks[..i + 1][..i] == rollbacks[..i];
        if rollbacks[i].changed {
          RestoreFile(rollbacks[i].path, rollbacks[i].previous);
        }
      }
    }

    /** Stage all attachments, or none. */
    method StageAttachments(artifacts: seq<Artifact>) returns (rollbacks: seq<Rollback>, raised: bool)
      modifies this
      ensures raised <==> !AllFine(artifacts)
      ensures raised ==> files == old(files)
      ensures !raised ==> files == Written(old(files), artifacts) && rollbacks == Records(old(files), artifacts)
    {
      rollbacks, raised := [], false;
      var i := 0;
      while i < |artifacts|
        invariant i <= |artifacts|
        invariant forall k :: 0 <= k < i ==> artifacts[k].fault == Fine
        invariant files == Written(old(files), artifacts[..i]) && rollbacks == Records(old(files), artifacts[..i])
      {
        assert artifacts[..i + 1][..i] == artifacts[..i];
        var rollback := WriteWithRollback(artifacts[i]);
        if rollback == None {
          RollbackWrites(rollbacks);
          UndoIsExact(old(files), artifacts[..i]);
          return rollbacks, true;
        }
        rollbacks := rollbacks + [rollback.value];
        i := i + 1;
      }
      assert artifacts[..i] == artifacts;
    }

    /** The duplicate loop; a held-open duplicate is left in place. */
    method RemoveDuplicates(c: Commit) returns (removed: seq<string>, contents: seq<string>, fault: Fault, ghost n: nat)
      requires Distinct(c.listing)
      modifies this
      ensures n == FirstStop(old(files), c, c.listing) && Removing(old(files), files, c, n, removed, contents)
      ensures fault == if n < |c.listing| then c.unlinkFault(c.listing[n]) else Fine
    {
      hide Duplicate, Removing, FirstStop;
      removed, contents, fault, n := [], [], Fine, 0;
      NothingRemoved(files, c);
      var i := 0;
      while i < |c.listing|
        invariant i == n <= |c.listing| && fault == Fine
        invariant Removing(old(files), files, c, n, removed, contents)
        invariant forall k :: 0 <= k < n ==> !Stops(old(files), c, c.listing[k])
      {
        var p := c.listing[i];
        RemovingStep(old(files), files, c, i, removed, contents);
        if Duplicate(files, c, p) {
          assert p in files && files[p] == old(files)[p] by { DuplicateIsFile(files, c, p); SameContent(old(files), files, c, n, removed, contents); }
          var data := files[p];
          match c.unlinkFault(p) {
            case Fine =>
              files := files - {p};
              removed, contents := removed + [p], contents + [data];
            case Busy =>
            case Denied => fault := Denied;
            case Broken => fault := Broken;
          }
          if fault != Fine {
            FirstStopIsFirst(old(files), c, c.listing, n);
            return;
          }
        }
        i, n := i + 1, n + 1;
      }
      FirstStopIsFirst(old(files), c, c.listing, n);
    }

    method PutBack(removed: seq<string>, contents: seq<string>, ghost goal: Files)
      requires Distinct(removed) && |contents| == |removed|
      requires forall i :: 0 <= i < |removed| ==> removed[i] in goal && contents[i] == goal[removed[i]]
      requires files == goal - Set(removed)
      modifies this
      ensures files == goal
    {
      var i := 0;
      while i < |removed|
        invariant i <= |removed| && PartlyBack(goal, files, removed, i)
      {
        PutBackOne(goal, files, removed, i);
        files := files[removed[i] := contents[i]];
        i := i + 1;
      }
      assert files == goal;
    }

    /** materialize_markdown. Permission errors skip the undo; every other error restores the target and
        the duplicates removed so far. */
    method MaterializeMarkdown(c: Commit) returns (outcome: Outcome)
      requires Distinct(c.listing)
      modifies this
      ensures outcome.Done? <==> FirstFault(old(files), c) == Fine
      ensures outcome.RaisedDenied? <==> Permission(FirstFault(old(files), c))
      ensures outcome.RaisedBroken? <==> FirstFault(old(files), c) == Broken
      ensures outcome.Done? ==> Completed(old(files), files, c, outcome)
      ensures outcome.RaisedBroken? ==> files == old(files)
      ensures outcome.RaisedDenied? ==> LeftBehind(old(files), files, c, outcome)
    {
      hide Removing, Completed, LeftBehind, FirstStop;
      var before := At(files, c.target);
      NothingLeft(files, c);
      FirstFaultFrame(files, files[c.target := c.markdown], c);
      if c.writeFault == Broken {
        return RaisedBroken;
      }
      if Permission(c.writeFault) {
        return RaisedDenied(false, []);
      }
      var changed := before != Some(c.markdown);
      if changed {
        files := files[c.target := c.markdown];
      }
      assert files == old(files)[c.target := c.markdown];
      var removed, contents, fault, n := RemoveDuplicates(c);
      RemovedFacts(old(files), files, c, n, removed, contents);
      FirstStopIsFirst(old(files)[c.target := c.markdown], c, c.listing, n);
      if fault == Fine {
        fault := c.manifestFault;
      }
      if fault == Fine {
        return Done(changed, removed);
      }
      if Permission(fault) {
        return RaisedDenied(true, removed);
      }
      RestoreFile(c.target, before);
      TargetBack(old(files), c.target, c.markdown, removed);
      PutBack(removed, contents, old(files));
      outcome := RaisedBroken;
    }

    /** The file part of process_prepared_source: attachments, then the markdown, undone together. It
        commits when nothing fails, and an error leaves something behind only when it is a permission
        error of the markdown commit. */
    method CommitPrepared(artifacts: seq<Artifact>, c: Commit) returns (outcome: Outcome)
      requires Distinct(c.listing)
      requires forall a :: a in artifacts ==> a.path != c.target && a.path !in c.listing
      modifies this
      ensures outcome.Done? <==> AllFine(artifacts) && FirstFault(old(files), c) == Fine
      ensures outcome.RaisedDenied? <==> AllFine(artifacts) && Permission(FirstFault(old(files), c))
      ensures outcome.RaisedBroken? <==> !AllFine(artifacts) || FirstFault(old(files), c) == Broken
      ensures outcome.Done? ==> Completed(Written(old(files), artifacts), files, c, outcome)
      ensures outcome.RaisedBroken? ==> files == old(files)
      ensures outcome.RaisedDenied? ==> LeftBehind(old(files), files, c, outcome)
    {
      hide Completed, LeftBehind, Written, Records, Undone, FirstFault;
      var rollbacks, raised := StageAttachments(artifacts);
      AttachmentsElsewhere(old(files), artifacts, c);
      if raised {
        return RaisedBroken;
      }
      outcome := MaterializeMarkdown(c);
      if outcome.RaisedBroken? {
        RollbackWrites(rollbacks);
        UndoIsExact(old(files), artifacts);
      } else if outcome.RaisedDenied? {
        UndoAround(old(files), files, artifacts, c, outcome);
        RollbackWrites(rollbacks);
      }
    }
  }

  ghost predicate Completed(before: Files, after: Files, c: Commit, outcome: Outcome)
    requires outcome.Done?
  {
    var written := before[c.target := c.markdown];
    && outcome.changed == (At(before, c.target) != Some(c.markdown))
    && outcome.removed == Removable(written, c, c.listing)
    && after == written - Set(outcome.removed)
  }

  /** What a permission error leaves: the write, if that was not what failed, and the duplicates removed
      before the loop stopped. */
  ghost predicate LeftBehind(before: Files, after: Files, c: Commit, outcome: Outcome)
    requires outcome.RaisedDenied?
  {
    && outcome.wrote == (c.writeFault == Fine)
    && outcome.removed == (if outcome.wrote then Removable(before, c, c.listing[..FirstStop(before, c, c.listing)]) else [])
    && after == LeftFiles(before, c, outcome)
  }

  lemma NothingRemoved(files: Files, c: Commit)
    ensures Removing(files, files, c, 0, [], [])
  {
    assert c.listing[..0] == [];
    assert files - Set([]) == files;
  }

  lemma NothingLeft(files: Files, c: Commit)
    ensures c.writeFault != Fine ==> LeftBehind(files, files, c, RaisedDenied(false, []))
  {
    assert files - Set([]) == files;
  }

  lemma DuplicateIsFile(files: Files, c: Commit, p: string)
    ensures Duplicate(files, c, p) ==> p in files
  {
  }

  lemma SameContent(w: Files, now: Files, c: Commit, n: nat, removed: seq<string>, contents: seq<string>)
    requires n <= |c.listing| && Removing(w, now, c, n, removed, contents)
    ensures forall p :: p in now ==> p in w && now[p] == w[p]
  {
  }

  lemma RemovedFacts(before: Files, now: Files, c: Commit, n: nat, removed: seq<string>, contents: seq<string>)
    requires n == FirstStop(before[c.target := c.markdown], c, c.listing) && Distinct(c.listing) && c.writeFault == Fine
    requires Removing(before[c.target := c.markdown], now, c, n, removed, contents)
    ensures Distinct(removed) && c.target !in removed && |contents| == |removed|
    ensures forall i :: 0 <= i < |removed| ==> removed[i] in before && contents[i] == before[removed[i]]
    ensures now == before[c.target := c.markdown] - Set(removed)
    ensures LeftBehind(before, now, c, RaisedDenied(true, removed))
    ensures n == |c.listing| ==> Completed(before, now, c, Done(At(before, c.target) != Some(c.markdown), removed))
  {
    hide FirstStop, Removable;
    var w := before[c.target := c.markdown];
    RemovableMembers(w, c, c.listing[..n]);
    RemovableFrame(before, w, c, c.listing[..n]);
    FirstStopFrame(before, w, c, c.listing);
    assert n == |c.listing| ==> c.listing[..n] == c.listing;
  }

  // ---------- attachments undone around a half-finished commit ----------

  function Paths(artifacts: seq<Artifact>): set<string> {
    set i | 0 <= i < |artifacts| :: artifacts[i].path
  }

  ghost predicate Agree(a: Files, b: Files, paths: set<string>) {
    forall p :: p in paths ==> At(a, p) == At(b, p)
  }

  ghost predicate AgreeOff(a: Files, b: Files, paths: set<string>) {
    forall p :: p !in paths ==> At(a, p) == At(b, p)
  }

  ghost predicate Within(rollbacks: seq<Rollback>, paths: set<string>) {
    forall i :: 0 <= i < |rollbacks| ==> rollbacks[i].path in paths
  }

  lemma {:induction false} WrittenOff(files: Files, artifacts: seq<Artifact>, paths: set<string>)
    requires Paths(artifacts) <= paths
    ensures AgreeOff(files, Written(files, artifacts), paths)
    ensures Within(Records(files, artifacts), paths)
  {
    if artifacts != [] {
      var front, last := artifacts[..|artifacts| - 1], artifacts[|artifacts| - 1];
      assert last.path in Paths(artifacts);
      assert Paths(front) <= Paths(artifacts);
      WrittenOff(files, front, paths);
    }
  }

  /** Undoing touches only the recorded paths, and there it does not depend on the rest. */
  lemma {:induction false} UndoneFrame(a: Files, b: Files, rollbacks: seq<Rollback>, paths: set<string>)
    requires Within(rollbacks, paths) && Agree(a, b, paths)
    ensures Agree(Undone(a, rollbacks), Undone(b, rollbacks), paths)
    ensures AgreeOff(a, Undone(a, rollbacks), paths)
    decreases |rollbacks|
  {
    if rollbacks != [] {
      var front, last := rollbacks[..|rollbacks| - 1], rollbacks[|rollbacks| - 1];
      var a1 := if last.changed then Restore(a, last.path, last.previous) else a;
      var b1 := if last.changed then Restore(b, last.path, last.previous) else b;
      assert last.path in paths;
      UndoneFrame(a1, b1, front, paths);
    }
  }

  lemma SameEverywhere(a: Files, b: Files)
    requires forall p :: At(a, p) == At(b, p)
    ensures a == b
  {
    forall p ensures p in a <==> p in b {
      assert At(a, p) == At(b, p);
    }
    forall p | p in a ensures a[p] == b[p] {
      assert At(a, p) == At(b, p);
    }
  }

  function LeftFiles(before: Files, c: Commit, outcome: Outcome): Files
    requires outcome.RaisedDenied?
  {
    (if outcome.wrote then before[c.target := c.markdown] else before) - Set(outcome.removed)
  }

  /** Undoing the attachments around a denied commit leaves what the denied commit alone would leave. */
  lemma UndoAround(before: Files, now: Files, artifacts: seq<Artifact>, c: Commit, outcome: Outcome)
    requires outcome.RaisedDenied? && LeftBehind(Written(before, artifacts), now, c, outcome)
    requires forall a :: a in artifacts ==> a.path != c.target && a.path !in c.listing
    ensures LeftBehind(before, Undone(now, Records(before, artifacts)), c, outcome)
  {
    hide Undone, Written, Records, FirstStop, Removable;
    AttachmentsElsewhere(before, artifacts, c);
    RemovableMembers(before, c, c.listing[..FirstStop(before, c, c.listing)]);
    var paths := Paths(artifacts);
    var w := Written(before, artifacts);
    var rollbacks := Records(before, artifacts);
    WrittenOff(before, artifacts, paths);
    UndoIsExact(before, artifacts);
    assert Agree(now, w, paths);
    UndoneFrame(now, w, rollbacks, paths);
    var undone := Undone(now, rollbacks);
    var goal := LeftFiles(before, c, outcome);
    forall p ensures At(undone, p) == At(goal, p) {
      if p in paths {
        assert At(undone, p) == At(before, p);
      } else {
        assert At(undone, p) == At(now, p) && At(before, p) == At(w, p);
      }
    }
    SameEverywhere(undone, goal);
  }

  /** A permission error leaves the files as they were exactly when it hit the write, or when the target
      already had the content and no duplicate could be removed before the loop stopped. */
  lemma DeniedIsCleanExactlyWhen(before: Files, after: Files, c: Commit, outcome: Outcome)
    requires outcome.RaisedDenied? && LeftBehind(before, after, c, outcome)
    ensures after == before <==>
      || c.writeFault != Fine
      || (&& At(before, c.target) == Some(c.markdown)
          && forall i :: 0 <= i < FirstStop(before, c, c.listing) ==>
               !(Duplicate(before, c, c.listing[i]) && c.unlinkFault(c.listing[i]) == Fine))
  {
    hide FirstStop, Removable;
    var n := FirstStop(before, c, c.listing);
    RemovableMembers(before, c, c.listing[..n]);
    assert forall i :: 0 <= i < n ==> c.listing[..n][i] == c.listing[i];
    if outcome.removed != [] {
      assert outcome.removed[0] in outcome.removed;
      assert outcome.removed[0] in before && outcome.removed[0] !in after;
    } else if outcome.wrote {
      assert after[c.target] == c.markdown;
    }
  }

  /** The run behind it: the new text is written, the first duplicate is removed, the second cannot be,
      and both changes stay although the commit raised. */
  lemma DeniedLeavesChanges()
    ensures
      var before: Files := map["a.md" := "old", "b.md" := "copy", "c.md" := "copy"];
      var c := HalfwayDenied();
      && FirstFault(before, c) == Denied
      && forall after: Files, outcome: Outcome :: outcome.RaisedDenied? && LeftBehind(before, after, c, outcome) ==>
           after == map["a.md" := "new", "c.md" := "copy"]
  {
    var before: Files := map["a.md" := "old", "b.md" := "copy", "c.md" := "copy"];
    var c := HalfwayDenied();
    assert StopsAt(before, c, c.listing, 1);
    FirstStopIsFirst(before, c, c.listing, 1);
    assert c.listing[..1] == ["b.md"] && ["b.md"][..0] == [];
    assert Removable(before, c, ["b.md"]) == [] + ["b.md"];
  }

  function HalfwayDenied(): Commit {
    Commit("a.md", "new", "s", _ => Some("s"), ["b.md", "c.md"], Fine, p => if p == "c.md" then Denied else Fine, Fine)
  }

  lemma {:induction false} RemovableFrame(a: Files, b: Files, c: Commit, listing: seq<string>)
    requires forall p :: p in listing && p != c.target ==> At(a, p) == At(b, p)
    ensures Removable(a, c, listing) == Removable(b, c, listing)
    decreases |listing|
  {
    if listing != [] {
      var front, last := listing[..|listing| - 1], listing[|listing| - 1];
      assert last != c.target ==> At(a, last) == At(b, last);
      RemovableFrame(a, b, c, front);
    }
  }

  /** Attachments are outside the target's directory, so they change nothing about the commit's faults. */
  lemma AttachmentsElsewhere(files: Files, artifacts: seq<Artifact>, c: Commit)
    requires forall a :: a in artifacts ==> a.path != c.target && a.path !in c.listing
    ensures FirstFault(files, c) == FirstFault(Written(files, artifacts), c)
    ensures FirstStop(files, c, c.listing) == FirstStop(Written(files, artifacts), c, c.listing)
    ensures var n := FirstStop(files, c, c.listing);
      Removable(files, c, c.listing[..n]) == Removable(Written(files, artifacts), c, c.listing[..n])
  {
    hide Written, FirstStop, Removable;
    var w := Written(files, artifacts);
    WrittenOff(files, artifacts, Paths(artifacts));
    forall p | p in c.listing ensures At(files, p) == At(w, p) {
      assert p !in Paths(artifacts);
    }
    FirstStopFrame(files, w, c, c.listing);
    RemovableFrame(files, w, c, c.listing[..FirstStop(files, c, c.listing)]);
  }
}
