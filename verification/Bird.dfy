/**
Applying several BIRD configuration files at once: each file is backed up and
overwritten, the whole configuration is checked and reloaded, and any failure
writes the backups back.
 */
module Bird {

  import opened Wrappers

  type Path = string
  type Bytes = string
  type Files = map<Path, Bytes>

  const MAX_FILE_BYTES := 512 * 1024

  /** One requested file: where, what the sender believes it holds, and its new content. */
  datatype Item = Item(key: string, base: Option<string>, content: Option<Bytes>)

  datatype Change = Change(path: Path, content: Bytes)

  /** What the file system and BIRD answer; a failed write leaves arbitrary content behind. */
  datatype Replies = Replies(
    backsUp: nat -> bool,
    writes: nat -> bool,
    torn: nat -> Bytes,
    check: Verdict,
    reload: Verdict,
    digests: bool,
    restores: nat -> bool,        // the first attempt at writing a backup back
    restoresAgain: nat -> bool)   // the attempt made while an error is passed on

  datatype Verdict = Accepts | Rejects | Raises

  /** An error that is passed on tells whether the files were restored before. */
  datatype Outcome = Invalid | DryRun | Applied | CheckFailed | ReloadFailed | Failed(restored: bool)

  // -------------------------------------------------------------------- validation

  predicate Matches(base: Option<string>, digest: string) {
    base.None? || base.value == "" || base.value == digest
  }

  predicate Acceptable(files: Files, resolve: string -> Option<Path>, digest: Bytes -> string, item: Item) {
    && resolve(item.key).Some?
    && resolve(item.key).value in files
    && |files[resolve(item.key).value]| <= 524288
    && Matches(item.base, digest(files[resolve(item.key).value]))
    && item.content.Some? && |item.content.value| <= 524288
  }

  /** Different items are about different files, after links in their paths are followed. */
  predicate Distinct(changes: seq<Change>) {
    forall i, j :: 0 <= i < j < |changes| ==> changes[i].path != changes[j].path
  }

  predicate ResolveApart(resolve: string -> Option<Path>, items: seq<Item>) {
    forall i, j :: 0 <= i < j < |items| ==> resolve(items[i].key) != resolve(items[j].key)
  }

  /** The changes are those of the items, in their order. */
  predicate ChangesOf(resolve: string -> Option<Path>, items: seq<Item>, changes: seq<Change>) {
    && |changes| == |items|
    && forall k :: 0 <= k < |items| ==> resolve(items[k].key) == Some(changes[k].path) && items[k].content == Some(changes[k].content)
  }

  method Validate(files: Files, resolve: string -> Option<Path>, digest: Bytes -> string, items: seq<Item>)
    returns (changes: Option<seq<Change>>)
    ensures changes.Some? <==>
      && items != []
      && (forall k :: 0 <= k < |items| ==> Acceptable(files, resolve, digest, items[k]))
      && ResolveApart(resolve, items)
    ensures changes.Some? ==> ChangesOf(resolve, items, changes.value) && Distinct(changes.value)
    ensures changes.Some? ==> forall k :: 0 <= k < |changes.value| ==> changes.value[k].path in files
  {
    if items == [] {
      return None;
    }
    var seen: set<Path>, found: seq<Change> := {}, [];
    var k := 0;
    while k < |items|
      invariant 0 <= k <= |items|
      invariant forall j :: 0 <= j < k ==> Acceptable(files, resolve, digest, items[j])
      invariant ChangesOf(resolve, items[..k], found) && Distinct(found)
      invariant forall j :: 0 <= j < k ==> found[j].path in seen
      invariant forall p :: p in seen ==> exists j :: 0 <= j < k && found[j].path == p
    {
      var item := items[k];
      var resolved := resolve(item.key);
      if resolved.None? || resolved.value !in files || |files[resolved.value]| > MAX_FILE_BYTES {
        return None;
      }
      var path := resolved.value;
      if item.base.Some? && item.base.value != "" && item.base.value != digest(files[path]) {
        return None;
      }
      if item.content.None? || |item.content.value| > MAX_FILE_BYTES || path in seen {
        return None;
      }
      seen := seen + {path};
      found := found + [Change(path, item.content.value)];
      k := k + 1;
    }
    assert items[..k] == items;
    return Some(found);
  }

  // ------------------------------------------------------------ writing and undoing

  /** The files after n changes: each file's content copied to its backup, then replaced. */
  function Written(files: Files, changes: seq<Change>, backup: nat -> Path, n: nat): Files
    requires n <= |changes|
  {
    if n == 0 then files
    else
      var before := Written(files, changes, backup, n - 1);
      var c := changes[n - 1];
      var saved := if c.path in before then before[backup(n - 1) := before[c.path]] else before;
      saved[c.path := c.content]
  }

  /** Which backup belongs to which file; a later one for the same file replaces it. */
  function Backups(changes: seq<Change>, backup: nat -> Path, n: nat): map<Path, Path>
    requires n <= |changes|
  {
    if n == 0 then map[] else Backups(changes, backup, n - 1)[changes[n - 1].path := backup(n - 1)]
  }

  /** The files with those of some paths written back from their backups. */
  function RestoredAt(files: Files, backups: map<Path, Path>, paths: set<Path>): Files {
    map p | p in files :: if p in paths && p in backups && backups[p] in files then files[backups[p]] else files[p]
  }

  /** The files with every backed-up one written back. */
  function Restored(files: Files, backups: map<Path, Path>): Files {
    RestoredAt(files, backups, backups.Keys)
  }

  lemma NothingRestored(files: Files, backups: map<Path, Path>)
    ensures RestoredAt(files, backups, {}) == files
  {
  }

  /** Writing one more file back. */
  lemma RestoreOne(files: Files, backups: map<Path, Path>, paths: set<Path>, p: Path)
    requires p in files && p in backups && backups[p] in files && backups[p] !in paths
    ensures backups[p] in RestoredAt(files, backups, paths)
    ensures var now := RestoredAt(files, backups, paths);
      now[p := now[backups[p]]] == RestoredAt(files, backups, paths + {p})
  {
  }

  /** Backup names are new, and no two are equal. */
  ghost predicate FreshBackups(files: Files, backup: nat -> Path) {
    && (forall k :: backup(k) !in files)
    && (forall j, k :: j != k ==> backup(j) != backup(k))
  }

  ghost predicate AllExist(files: Files, changes: seq<Change>) {
    forall k :: 0 <= k < |changes| ==> changes[k].path in files
  }

  /** The files' own part of two states agrees everywhere. */
  ghost predicate SameFiles(files: Files, others: Files) {
    files.Keys <= others.Keys && forall p :: p in files ==> others[p] == files[p]
  }

  /** The original content of a changed file is in its backup. */
  ghost predicate Saved(files: Files, c: Change, backup: Path, now: Files) {
    c.path in files && backup in now && now[backup] == files[c.path]
  }

  /** The backups of the first n changes are recorded, and no others. */
  ghost predicate Recorded(changes: seq<Change>, backup: nat -> Path, n: nat, backups: map<Path, Path>) {
    && n <= |changes|
    && (forall k :: 0 <= k < n ==> changes[k].path in backups && backups[changes[k].path] == backup(k))
    && (forall p :: p in backups ==> exists k :: 0 <= k < n && changes[k].path == p)
  }

  /** Nothing but the recorded files and new backups differs from the original files. */
  ghost predicate OnlyRecordedDiffer(files: Files, backups: map<Path, Path>, now: Files) {
    && files.Keys <= now.Keys
    && (forall p :: p in files && p !in backups ==> now[p] == files[p])
  }

  /** What holds of the files after n changes, the last of which may have been torn. */
  ghost predicate InFlight(files: Files, changes: seq<Change>, backup: nat -> Path, n: nat, now: Files, backups: map<Path, Path>) {
    && Recorded(changes, backup, n, backups)
    && OnlyRecordedDiffer(files, backups, now)
    && (forall k :: 0 <= k < n ==> Saved(files, changes[k], backup(k), now))
  }

  /** Backing a file up and then overwriting it, completely or not, keeps every original reachable. */
  lemma InFlightGrows(files: Files, changes: seq<Change>, backup: nat -> Path, n: nat, now: Files, backups: map<Path, Path>, content: Bytes)
    requires FreshBackups(files, backup) && AllExist(files, changes) && Distinct(changes) && n < |changes|
    requires InFlight(files, changes, backup, n, now, backups)
    ensures changes[n].path in now && now[changes[n].path] == files[changes[n].path]
    ensures InFlight(files, changes, backup, n + 1, now[backup(n) := now[changes[n].path]][changes[n].path := content],
                     backups[changes[n].path := backup(n)])
  {
    var path := changes[n].path;
    NotYetRecorded(changes, backup, n, backups);
    RecordedGrows(changes, backup, n, backups);
    var next := now[backup(n) := now[path]][path := content];
    assert backup(n) !in files;
    assert OnlyRecordedDiffer(files, backups[path := backup(n)], next);
    forall k | 0 <= k < n + 1 ensures Saved(files, changes[k], backup(k), next) {
      assert backup(k) !in files;
    }
  }

  lemma NotYetRecorded(changes: seq<Change>, backup: nat -> Path, n: nat, backups: map<Path, Path>)
    requires Distinct(changes) && n < |changes| && Recorded(changes, backup, n, backups)
    ensures changes[n].path !in backups
  {
  }

  lemma RecordedGrows(changes: seq<Change>, backup: nat -> Path, n: nat, backups: map<Path, Path>)
    requires Distinct(changes) && n < |changes| && Recorded(changes, backup, n, backups)
    ensures Recorded(changes, backup, n + 1, backups[changes[n].path := backup(n)])
  {
    var next := backups[changes[n].path := backup(n)];
    forall p | p in next ensures exists k :: 0 <= k < n + 1 && changes[k].path == p {
      if p in backups {
        var k :| 0 <= k < n && changes[k].path == p;
      } else {
        assert changes[n].path == p;
      }
    }
  }

  /** From any such state, writing the backups back gives every file its original content. */
  lemma RestoreUndoes(files: Files, changes: seq<Change>, backup: nat -> Path, n: nat, now: Files, backups: map<Path, Path>)
    requires InFlight(files, changes, backup, n, now, backups)
    ensures SameFiles(files, Restored(now, backups))
  {
    forall p | p in files ensures Restored(now, backups)[p] == files[p] {
      if p in backups {
        var k :| 0 <= k < n && changes[k].path == p;
        assert Saved(files, changes[k], backup(k), now);
      }
    }
  }

  /** With the same file listed twice the backup of the second change holds the first change, and the original is lost. */
  lemma DuplicateLosesOriginal(p: Path, original: Bytes, first: Bytes, second: Bytes, backup: nat -> Path)
    requires FreshBackups(map[p := original], backup) && first != original
    ensures var changes := [Change(p, first), Change(p, second)];
      Restored(Written(map[p := original], changes, backup, 2), Backups(changes, backup, 2))[p] == first
  {
    var files, changes := map[p := original], [Change(p, first), Change(p, second)];
    var one := Written(files, changes, backup, 1);
    assert Written(files, changes, backup, 0) == files;
    assert one == files[backup(0) := original][p := first];
    assert backup(1) != p && backup(0) != p;
    var two := Written(files, changes, backup, 2);
    assert two == one[backup(1) := first][p := second];
    assert Backups(changes, backup, 2) == Backups(changes, backup, 1)[p := backup(1)];
  }

  // ------------------------------------------------------------------ the node

  predicate AllTrue(works: nat -> bool, n: nat) {
    forall k :: 0 <= k < n ==> works(k)
  }

  /** The first n changes have been written. */
  predicate Contains(files: Files, changes: seq<Change>, n: nat)
    requires n <= |changes|
  {
    forall k :: 0 <= k < n ==> changes[k].path in files && files[changes[k].path] == changes[k].content
  }

  lemma ContainsGrows(files: Files, changes: seq<Change>, backup: nat -> Path, n: nat, now: Files)
    requires FreshBackups(files, backup) && AllExist(files, changes) && Distinct(changes) && n < |changes|
    requires Contains(now, changes, n) && changes[n].path in now
    ensures Contains(now[backup(n) := now[changes[n].path]][changes[n].path := changes[n].content], changes, n + 1)
  {
    assert backup(n) !in files;
  }

  /** What follows from the check, the reload and the final digests: success, or why the files must go back. */
  function Conclusion(reload: bool, replies: Replies): Outcome {
    match (replies.check, replies.reload)
    case (Raises, _) => Failed(false)
    case (Rejects, _) => CheckFailed
    case (Accepts, Raises) => if reload || !replies.digests then Failed(false) else Applied
    case (Accepts, Rejects) => if reload then ReloadFailed else if replies.digests then Applied else Failed(false)
    case (Accepts, Accepts) => if replies.digests then Applied else Failed(false)
  }

  class Node {

    var files: Files

    constructor (initial: Files)
      ensures files == initial
    {
      files := initial;
    }

    /** Writes the backups back one by one, stopping at the first write that fails. */
    method WriteBack(ghost original: Files, changes: seq<Change>, backup: nat -> Path, n: nat, backups: map<Path, Path>,
                     works: nat -> bool, torn: nat -> Bytes) returns (ok: bool)
      requires FreshBackups(original, backup) && AllExist(original, changes)
      requires InFlight(original, changes, backup, n, files, backups)
      modifies this
      ensures ok == AllTrue(works, n)
      ensures ok ==> files == Restored(old(files), backups)
      ensures InFlight(original, changes, backup, n, files, backups)
    {
      var k := 0;
      NothingRestored(files, backups);
      while k < n
        invariant 0 <= k <= n <= |changes| && AllTrue(works, k)
        invariant files == RestoredAt(old(files), backups, PathsOf(changes, k))
      {
        var path := changes[k].path;
        WriteBackStep(original, changes, backup, n, old(files), backups, k);
        if !works(k) {
          files := files[path := torn(k)];
          TornInFlight(original, changes, backup, n, old(files), backups, k, torn(k));
          return false;
        }
        files := files[path := files[backups[path]]];
        k := k + 1;
      }
      AllWrittenBack(original, changes, backup, n, old(files), backups);
      return true;
    }

    /** Backs each file up and overwrites it, stopping at the first failure. */
    method WriteAll(changes: seq<Change>, backup: nat -> Path, replies: Replies)
      returns (ok: bool, n: nat, backups: map<Path, Path>)
      requires FreshBackups(files, backup) && AllExist(files, changes) && Distinct(changes)
      modifies this
      ensures ok == (AllTrue(replies.backsUp, |changes|) && AllTrue(replies.writes, |changes|))
      ensures InFlight(old(files), changes, backup, n, files, backups)
      ensures ok ==> n == |changes| && Contains(files, changes, n)
    {
      n, backups := 0, map[];
      while n < |changes|
        invariant n <= |changes| && AllTrue(replies.backsUp, n) && AllTrue(replies.writes, n)
        invariant InFlight(old(files), changes, backup, n, files, backups)
        invariant Contains(files, changes, n)
      {
        if !replies.backsUp(n) {
          return false, n, backups;
        }
        var c := changes[n];
        var content := if replies.writes(n) then c.content else replies.torn(n);
        InFlightGrows(old(files), changes, backup, n, files, backups, content);
        ContainsGrows(old(files), changes, backup, n, files);
        files := files[backup(n) := files[c.path]];
        backups := backups[c.path := backup(n)];
        files := files[c.path := content];
        if !replies.writes(n) {
          return false, n + 1, backups;
        }
        n := n + 1;
      }
      return true, n, backups;
    }

    /** All or nothing: see the clauses for what each outcome says about the files. */
    method Apply(changes: seq<Change>, backup: nat -> Path, reload: bool, replies: Replies) returns (outcome: Outcome)
      requires FreshBackups(files, backup) && AllExist(files, changes) && Distinct(changes)
      modifies this
      ensures outcome.Applied? <==> Succeeds(replies, reload, |changes|)
      ensures outcome.Applied? ==> Contains(files, changes, |changes|)
      ensures outcome.CheckFailed? || outcome.ReloadFailed? || outcome == Failed(true) ==> SameFiles(old(files), files)
      ensures OnlyListedDiffer(old(files), changes, files)
      ensures AllTrue(replies.restoresAgain, |changes|) ==> outcome != Failed(false)
      ensures !outcome.Invalid? && !outcome.DryRun?
    {
      var ok, n, backups := WriteAll(changes, backup, replies);
      outcome := Failed(false);
      if ok {
        outcome := Conclusion(reload, replies);
      }
      if outcome.CheckFailed? || outcome.ReloadFailed? {
        RestoreUndoes(old(files), changes, backup, n, files, backups);
        var undone := WriteBack(old(files), changes, backup, n, backups, replies.restores, replies.torn);
        if !undone {
          outcome := Failed(false);
        }
      }
      if outcome.Failed? {
        RestoreUndoes(old(files), changes, backup, n, files, backups);
        var undone := WriteBack(old(files), changes, backup, n, backups, replies.restoresAgain, replies.torn);
        outcome := Failed(undone);
      }
      RecordedAreListed(old(files), changes, backup, n, files, backups);
    }

    /** The whole task: the request is checked before anything is written. */
    method ApplyResources(items: seq<Item>, resolve: string -> Option<Path>, digest: Bytes -> string, backup: nat -> Path,
                          reload: bool, dryRun: bool, replies: Replies) returns (outcome: Outcome, ghost changes: seq<Change>)
      requires FreshBackups(files, backup)
      modifies this
      ensures outcome.Invalid? <==>
                (items == [] || !ResolveApart(resolve, items)
                 || exists k :: 0 <= k < |items| && !Acceptable(old(files), resolve, digest, items[k]))
      ensures outcome.Invalid? || outcome.DryRun? ==> files == old(files)
      ensures !outcome.Invalid? ==> ChangesOf(resolve, items, changes) && (outcome.DryRun? <==> dryRun)
      ensures outcome.Applied? ==> Contains(files, changes, |changes|)
      ensures outcome.CheckFailed? || outcome.ReloadFailed? || outcome == Failed(true) ==> SameFiles(old(files), files)
      ensures !outcome.Invalid? ==> OnlyListedDiffer(old(files), changes, files)
      ensures !outcome.Invalid? && !dryRun ==> (outcome.Applied? <==> Succeeds(replies, reload, |items|))
      ensures !outcome.Invalid? && AllTrue(replies.restoresAgain, |items|) ==> outcome != Failed(false)
    {
      changes := [];
      var valid := Validate(files, resolve, digest, items);
      if valid.None? {
        return Invalid, changes;
      }
      changes := valid.value;
      if dryRun {
        return DryRun, changes;
      }
      outcome := Apply(valid.value, backup, reload, replies);
    }

  }

  /** The paths of the first n changes. */
  function PathsOf(changes: seq<Change>, n: nat): set<Path>
    requires n <= |changes|
  {
    if n == 0 then {} else PathsOf(changes, n - 1) + {changes[n - 1].path}
  }

  lemma {:induction false} InPathsOf(changes: seq<Change>, n: nat, p: Path)
    requires n <= |changes|
    ensures p in PathsOf(changes, n) <==> exists k :: 0 <= k < n && changes[k].path == p
  {
    if n > 0 {
      InPathsOf(changes, n - 1, p);
      assert changes[n - 1].path == p ==> exists k :: 0 <= k < n && changes[k].path == p;
    }
  }

  lemma RecordedPaths(changes: seq<Change>, backup: nat -> Path, n: nat, backups: map<Path, Path>, k: nat)
    requires Recorded(changes, backup, n, backups) && k <= n
    ensures PathsOf(changes, k) <= backups.Keys
    ensures PathsOf(changes, n) == backups.Keys
  {
    forall p ensures p in PathsOf(changes, k) ==> p in backups {
      InPathsOf(changes, k, p);
    }
    forall p ensures p in PathsOf(changes, n) <==> p in backups {
      InPathsOf(changes, n, p);
    }
  }

  /** Every step of applying the changes works. */
  predicate Succeeds(replies: Replies, reload: bool, n: nat) {
    && AllTrue(replies.backsUp, n) && AllTrue(replies.writes, n)
    && replies.check.Accepts? && (reload ==> replies.reload.Accepts?) && replies.digests
  }

  /** Nothing but listed files, and backups that did not exist, differs. */
  ghost predicate OnlyListedDiffer(files: Files, changes: seq<Change>, now: Files) {
    files.Keys <= now.Keys && forall p :: p in files && (forall k :: 0 <= k < |changes| ==> changes[k].path != p) ==> now[p] == files[p]
  }

  lemma RecordedAreListed(files: Files, changes: seq<Change>, backup: nat -> Path, n: nat, now: Files, backups: map<Path, Path>)
    requires InFlight(files, changes, backup, n, now, backups)
    ensures OnlyListedDiffer(files, changes, now)
  {
  }

  lemma BackupsApart(files: Files, changes: seq<Change>, backup: nat -> Path, n: nat, backups: map<Path, Path>, k: nat)
    requires FreshBackups(files, backup) && AllExist(files, changes) && Recorded(changes, backup, n, backups) && k < n
    ensures backup(k) !in backups
  {
    assert backup(k) !in files;
  }

  lemma WriteBackStep(files: Files, changes: seq<Change>, backup: nat -> Path, n: nat, now: Files, backups: map<Path, Path>, k: nat)
    requires FreshBackups(files, backup) && AllExist(files, changes)
    requires InFlight(files, changes, backup, n, now, backups) && k < n
    ensures var path, part := changes[k].path, RestoredAt(now, backups, PathsOf(changes, k));
      && path in backups && backups[path] in part
      && part[path := part[backups[path]]] == RestoredAt(now, backups, PathsOf(changes, k + 1))
  {
    assert Saved(files, changes[k], backup(k), now);
    BackupsApart(files, changes, backup, n, backups, k);
    RecordedPaths(changes, backup, n, backups, k);
    RestoreOne(now, backups, PathsOf(changes, k), changes[k].path);
  }

  lemma TornFrame(now: Files, backups: map<Path, Path>, paths: set<Path>, path: Path, torn: Bytes) returns (next: Files)
    requires paths <= backups.Keys && path in backups && path in now
    ensures next == RestoredAt(now, backups, paths)[path := torn]
    ensures next.Keys == now.Keys && forall p :: p in now && p !in backups ==> next[p] == now[p]
  {
    next := RestoredAt(now, backups, paths)[path := torn];
  }

  lemma TornInFlight(files: Files, changes: seq<Change>, backup: nat -> Path, n: nat, now: Files, backups: map<Path, Path>, k: nat, torn: Bytes)
    requires FreshBackups(files, backup) && AllExist(files, changes)
    requires InFlight(files, changes, backup, n, now, backups) && k < n
    ensures InFlight(files, changes, backup, n, RestoredAt(now, backups, PathsOf(changes, k))[changes[k].path := torn], backups)
  {
    RecordedPaths(changes, backup, n, backups, k);
    var next := TornFrame(now, backups, PathsOf(changes, k), changes[k].path, torn);
    StillInFlight(files, changes, backup, n, now, backups, next);
  }

  lemma AllWrittenBack(files: Files, changes: seq<Change>, backup: nat -> Path, n: nat, now: Files, backups: map<Path, Path>)
    requires FreshBackups(files, backup) && AllExist(files, changes)
    requires InFlight(files, changes, backup, n, now, backups)
    ensures RestoredAt(now, backups, PathsOf(changes, n)) == Restored(now, backups)
    ensures InFlight(files, changes, backup, n, Restored(now, backups), backups)
  {
    RecordedPaths(changes, backup, n, backups, n);
    StillInFlight(files, changes, backup, n, now, backups, Restored(now, backups));
  }

  /** Changing recorded files only, whatever is written to them, keeps every original reachable. */
  lemma StillInFlight(files: Files, changes: seq<Change>, backup: nat -> Path, n: nat, now: Files, backups: map<Path, Path>, next: Files)
    requires FreshBackups(files, backup) && AllExist(files, changes)
    requires InFlight(files, changes, backup, n, now, backups)
    requires next.Keys == now.Keys && forall p :: p in now && p !in backups ==> next[p] == now[p]
    ensures InFlight(files, changes, backup, n, next, backups)
  {
    forall k | 0 <= k < n ensures Saved(files, changes[k], backup(k), next) {
      assert Saved(files, changes[k], backup(k), now);
      BackupsApart(files, changes, backup, n, backups, k);
    }
  }

}
