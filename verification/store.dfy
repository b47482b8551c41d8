/**
 * The remote side of saving a note (`ensure_folder_exists`,
 * `save_note_and_files`): the date-partitioned layout on the WebDAV store
 * and the order of the remote calls.
 *
 * The WebDAV server is an abstract store: a set of existing collections and
 * a map from file paths to contents. Every remote call is recorded in a
 * trace. A remote failure is modelled by the index of the call that raises
 * (`failAt`): that call has no effect and nothing after it is issued.
 */
module RemoteStore {
  import opened Wrappers
  import opened Strings

  /** What a remote file holds: an uploaded attachment (known by its local
      file name) or the text of a note. */
  datatype Content = Attachment(name: string) | NoteText(body: string)

  datatype Store = Store(dirs: set<string>, files: map<string, Content>)

  /** The three WebDAV primitives the bot uses. */
  datatype Op = Exists(path: string) | CreateDir(path: string) | Upload(path: string, content: Content)

  /** A save in progress: the store so far, the calls issued so far, and
      whether one of them raised. */
  datatype Run = Run(store: Store, trace: seq<Op>, failed: bool)

  /** `client.exists(path)`: a collection or a file is there. */
  predicate Present(s: Store, p: string) {
    p in s.dirs || p in s.files
  }

  /** The effect of one successful call. */
  function Apply(s: Store, op: Op): Store {
    match op
    case Exists(_) => s
    case CreateDir(p) => Store(s.dirs + {p}, s.files)
    case Upload(p, c) => Store(s.dirs, s.files[p := c])
  }

  /** Issues one remote call, unless an earlier one raised. */
  function Call(r: Run, op: Op, failAt: Option<nat>): (r': Run)
    ensures r.failed ==> r' == r
    ensures !r.failed ==> r'.trace == r.trace + [op]
    ensures !r.failed ==> (r'.failed <==> failAt == Some(|r.trace|))
    ensures !r'.failed ==> r'.store == Apply(r.store, op)
    ensures r'.failed ==> r'.store == r.store
  {
    if r.failed then r
    else if failAt == Some(|r.trace|) then Run(r.store, r.trace + [op], true)
    else Run(Apply(r.store, op), r.trace + [op], false)
  }

  /** The calls `ensure_folder_exists` issues against store `s` when
      nothing raises: an existence check, then a creation only if absent. */
  function EnsureOps(s: Store, path: string): seq<Op> {
    if Present(s, path) then [Exists(path)] else [Exists(path), CreateDir(path)]
  }

  /** `ensure_folder_exists(client, path)`. */
  function EnsureFolderExists(r: Run, path: string, failAt: Option<nat>): (r': Run)
    ensures r.failed ==> r' == r
    ensures !r.failed ==> |r'.trace| > |r.trace| && r'.trace[..|r.trace|] == r.trace
    ensures !r.failed ==> r'.trace[|r.trace|] == Exists(path)
    ensures !r'.failed ==> r'.trace == r.trace + EnsureOps(r.store, path)
    ensures !r'.failed ==> Present(r'.store, path)
    ensures !r'.failed ==> r'.store.files == r.store.files
    ensures !r'.failed ==> r'.store.dirs == r.store.dirs + (if Present(r.store, path) then {} else {path})
  {
    var r1 := Call(r, Exists(path), failAt);
    if r1.failed || Present(r1.store, path) then r1
    else Call(r1, CreateDir(path), failAt)
  }

  /** `<root without trailing slashes>/<YYYY-MM-DD>`. */
  function DateFolder(root: string, date: string): string {
    RStrip(root, '/') + "/" + date
  }

  function DataFolder(root: string, date: string): string {
    DateFolder(root, date) + "/data"
  }

  /** Where the note is stored: `<date folder>/note_<HHMMSS>.md`. */
  function NotePath(root: string, date: string, time: string): string {
    DateFolder(root, date) + "/note_" + time + ".md"
  }

  /** Where an attachment is stored: `<date folder>/data/<name>`. */
  function DataPath(root: string, date: string, name: string): string {
    DataFolder(root, date) + "/" + name
  }

  /** The call that uploads attachment `name` into `folder`. */
  function UploadOp(folder: string, name: string): Op {
    Upload(folder + "/" + name, Attachment(name))
  }

  /** The loop of `save_note_and_files` that uploads the attachments, in
      list order, each to `<folder>/<name>`. */
  function UploadAll(r: Run, folder: string, names: seq<string>, failAt: Option<nat>): (r': Run)
    decreases |names|
    ensures r.failed ==> r' == r
    ensures |r'.trace| >= |r.trace| && r'.trace[..|r.trace|] == r.trace
    ensures !r'.failed ==> |r'.trace| == |r.trace| + |names|
    ensures !r'.failed ==> forall i :: 0 <= i < |names| ==> r'.trace[|r.trace| + i] == UploadOp(folder, names[i])
  {
    if names == [] then r
    else
      var r1 := Call(r, UploadOp(folder, names[0]), failAt);
      var r' := UploadAll(r1, folder, names[1..], failAt);
      assert r'.trace[..|r.trace|] == r.trace by {
        if !r.failed {
          assert r'.trace[..|r1.trace|] == r1.trace;
          assert r'.trace[..|r.trace|] == r'.trace[..|r1.trace|][..|r.trace|];
        }
      }
      assert !r'.failed ==> forall i :: 0 <= i < |names| ==> r'.trace[|r.trace| + i] == UploadOp(folder, names[i]) by {
        if !r'.failed {
          forall i | 0 <= i < |names| ensures r'.trace[|r.trace| + i] == UploadOp(folder, names[i]) {
            if i == 0 {
              assert r'.trace[|r.trace|] == r'.trace[..|r1.trace|][|r.trace|];
            } else {
              assert names[i] == names[1..][i - 1];
              assert |r.trace| + i == |r1.trace| + (i - 1);
            }
          }
        }
      }
      r'
  }

  /** Some attachment is uploaded to path `p`. */
  predicate Targeted(folder: string, names: seq<string>, p: string) {
    exists i :: 0 <= i < |names| && p == folder + "/" + names[i]
  }

  /** A successful upload loop leaves every attachment at `<folder>/<name>`
      and touches no collection and no other path. */
  lemma {:induction false} UploadAllStore(r: Run, folder: string, names: seq<string>, failAt: Option<nat>)
    requires !UploadAll(r, folder, names, failAt).failed
    ensures var s' := UploadAll(r, folder, names, failAt).store;
      && s'.dirs == r.store.dirs
      && (forall i :: 0 <= i < |names| ==>
           folder + "/" + names[i] in s'.files && s'.files[folder + "/" + names[i]] == Attachment(names[i]))
      && (forall p :: !Targeted(folder, names, p) ==>
           (p in s'.files <==> p in r.store.files) && (p in s'.files ==> s'.files[p] == r.store.files[p]))
    decreases |names|
  {
    if names != [] {
      var r1 := Call(r, UploadOp(folder, names[0]), failAt);
      UploadAllStore(r1, folder, names[1..], failAt);
      var s' := UploadAll(r, folder, names, failAt).store;
      forall i | 0 <= i < |names|
        ensures folder + "/" + names[i] in s'.files && s'.files[folder + "/" + names[i]] == Attachment(names[i])
      {
        if i > 0 {
          assert names[i] == names[1..][i - 1];
        } else if Targeted(folder, names[1..], folder + "/" + names[0]) {
          var j :| 0 <= j < |names[1..]| && folder + "/" + names[0] == folder + "/" + names[1..][j];
          assert names[0] == names[1..][j] by {
            assert (folder + "/" + names[0])[|folder| + 1..] == names[0];
          }
        }
      }
    }
  }

  /** `save_note_and_files(client, user_id, note, files)`: both folders,
      then the attachments, then the note. On success the caller is given
      `NotePath(root, date, time)`. */
  function SaveNoteAndFiles(s: Store, root: string, date: string, time: string,
                            note: string, names: seq<string>, failAt: Option<nat>): Run
  {
    var dateFolder := DateFolder(root, date);
    var dataFolder := DataFolder(root, date);
    var r1 := EnsureFolderExists(Run(s, [], false), dateFolder, failAt);
    var r2 := EnsureFolderExists(r1, dataFolder, failAt);
    var r3 := UploadAll(r2, dataFolder, names, failAt);
    Call(r3, Upload(NotePath(root, date, time), NoteText(note)), failAt)
  }

  /* ---------------------------------------------------------------------- */
  /* Layout                                                                  */
  /* ---------------------------------------------------------------------- */

  /** The attachment a note links to as `/data/<name>` is stored exactly at
      the note's folder followed by that link target. */
  lemma DataPathIsLinkTarget(root: string, date: string, name: string)
    ensures DataPath(root, date, name) == DateFolder(root, date) + ("/data/" + name)
  {
  }

  /** The note never shares a path with an attachment, nor with either
      folder. */
  lemma NotePathDistinct(root: string, date: string, time: string, name: string)
    ensures NotePath(root, date, time) != DataPath(root, date, name)
    ensures NotePath(root, date, time) != DateFolder(root, date)
    ensures NotePath(root, date, time) != DataFolder(root, date)
    ensures DataPath(root, date, name) != DateFolder(root, date)
    ensures DataPath(root, date, name) != DataFolder(root, date)
    ensures DateFolder(root, date) != DataFolder(root, date)
  {
    var d := DateFolder(root, date);
    var k := |d| + 1;
    assert NotePath(root, date, time)[k] == 'n';
    assert DataPath(root, date, name)[k] == 'd';
    assert DataFolder(root, date)[k] == 'd';
    assert |DataPath(root, date, name)| > |DataFolder(root, date)|;
  }

  /** Notes written on the same day get distinct paths when their
      timestamps differ (and collide when they do not). */
  lemma NotePathInjective(root: string, date: string, t1: string, t2: string)
    ensures NotePath(root, date, t1) == NotePath(root, date, t2) <==> t1 == t2
  {
    var pre := DateFolder(root, date) + "/note_";
    assert NotePath(root, date, t1) == pre + t1 + ".md";
    assert NotePath(root, date, t2) == pre + t2 + ".md";
    if NotePath(root, date, t1) == NotePath(root, date, t2) {
      assert |t1| == |t2|;
      assert t1 == (pre + t1 + ".md")[|pre|..|pre| + |t1|];
      assert t2 == (pre + t2 + ".md")[|pre|..|pre| + |t2|];
    }
  }

  /** Trailing slashes on the configured root do not matter: `/notes/`
      and `/notes` give the same folder layout. */
  lemma DateFolderIgnoresTrailingSlashes(root: string, slashes: string, date: string)
    requires forall i :: 0 <= i < |slashes| ==> slashes[i] == '/'
    ensures DateFolder(root + slashes, date) == DateFolder(root, date)
  {
    RStripPadding(root, slashes, '/');
  }

  /* ---------------------------------------------------------------------- */
  /* Order of the remote calls                                               */
  /* ---------------------------------------------------------------------- */

  /** The calls issued before the first upload. */
  function FolderOps(s: Store, root: string, date: string): seq<Op> {
    EnsureOps(s, DateFolder(root, date)) + EnsureOps(s, DataFolder(root, date))
  }

  /** Without a fault no call raises, so the save completes. */
  lemma SaveSucceeds(s: Store, root: string, date: string, time: string,
                                         note: string, names: seq<string>)
    ensures !SaveNoteAndFiles(s, root, date, time, note, names, None).failed
  {
    var r2 := EnsureFolderExists(EnsureFolderExists(Run(s, [], false), DateFolder(root, date), None), DataFolder(root, date), None);
    UploadAllNoFault(r2, DataFolder(root, date), names);
  }

  lemma {:induction false} UploadAllNoFault(r: Run, folder: string, names: seq<string>)
    requires !r.failed
    ensures !UploadAll(r, folder, names, None).failed
    decreases |names|
  {
    if names != [] {
      UploadAllNoFault(Call(r, UploadOp(folder, names[0]), None), folder, names[1..]);
    }
  }

  /** A save that does not raise issues, in order: the existence checks (and
      only the needed creations) for the date folder and then the data
      folder, one upload per attachment in list order, and the note upload
      last. */
  lemma SaveOrder(s: Store, root: string, date: string, time: string,
                                     note: string, names: seq<string>, failAt: Option<nat>)
    requires !SaveNoteAndFiles(s, root, date, time, note, names, failAt).failed
    ensures var t := SaveNoteAndFiles(s, root, date, time, note, names, failAt).trace;
      var e := FolderOps(s, root, date);
      && |t| == |e| + |names| + 1
      && t[..|e|] == e
      && (forall i :: 0 <= i < |names| ==> t[|e| + i] == Upload(DataPath(root, date, names[i]), Attachment(names[i])))
      && t[|t| - 1] == Upload(NotePath(root, date, time), NoteText(note))
  {
    var dataFolder := DataFolder(root, date);
    var r2 := EnsureFolderExists(EnsureFolderExists(Run(s, [], false), DateFolder(root, date), failAt), dataFolder, failAt);
    FoldersFirst(s, root, date, failAt);
    UploadsThenCall(r2, dataFolder, names, Upload(NotePath(root, date, time), NoteText(note)), failAt);
  }

  /** Checking (and creating) the two folders issues exactly `FolderOps`. */
  lemma FoldersFirst(s: Store, root: string, date: string, failAt: Option<nat>)
    ensures var r2 := EnsureFolderExists(EnsureFolderExists(Run(s, [], false), DateFolder(root, date), failAt), DataFolder(root, date), failAt);
      !r2.failed ==> r2.trace == FolderOps(s, root, date)
  {
    var dateFolder, dataFolder := DateFolder(root, date), DataFolder(root, date);
    NotePathDistinct(root, date, "", "");
    var r1 := EnsureFolderExists(Run(s, [], false), dateFolder, failAt);
    assert Present(r1.store, dataFolder) == Present(s, dataFolder);
  }

  /** The uploads of `names` in order, then `op`, after whatever `r` issued. */
  lemma UploadsThenCall(r: Run, folder: string, names: seq<string>, op: Op, failAt: Option<nat>)
    requires !Call(UploadAll(r, folder, names, failAt), op, failAt).failed
    ensures var t := Call(UploadAll(r, folder, names, failAt), op, failAt).trace;
      && !r.failed
      && |t| == |r.trace| + |names| + 1
      && t[..|r.trace|] == r.trace
      && (forall i :: 0 <= i < |names| ==> t[|r.trace| + i] == UploadOp(folder, names[i]))
      && t[|t| - 1] == op
  {
    var r3 := UploadAll(r, folder, names, failAt);
    assert r3.trace[..|r.trace|] == r.trace;
    var t := r3.trace + [op];
    assert t[..|r.trace|] == r3.trace[..|r.trace|];
  }

  /** After a save that does not raise, both folders exist, the note holds
      its text, every attachment is at its data path, and no other file
      changed. */
  lemma SaveStore(s: Store, root: string, date: string, time: string,
                                     note: string, names: seq<string>, failAt: Option<nat>)
    requires !SaveNoteAndFiles(s, root, date, time, note, names, failAt).failed
    ensures var s' := SaveNoteAndFiles(s, root, date, time, note, names, failAt).store;
      && Present(s', DateFolder(root, date))
      && Present(s', DataFolder(root, date))
      && s.dirs <= s'.dirs <= s.dirs + {DateFolder(root, date), DataFolder(root, date)}
      && NotePath(root, date, time) in s'.files
      && s'.files[NotePath(root, date, time)] == NoteText(note)
      && (forall i :: 0 <= i < |names| ==>
            DataPath(root, date, names[i]) in s'.files
            && s'.files[DataPath(root, date, names[i])] == Attachment(names[i]))
      && (forall p :: p != NotePath(root, date, time) && !Targeted(DataFolder(root, date), names, p) ==>
            (p in s'.files <==> p in s.files) && (p in s'.files ==> s'.files[p] == s.files[p]))
  {
    var dateFolder, dataFolder := DateFolder(root, date), DataFolder(root, date);
    var r1 := EnsureFolderExists(Run(s, [], false), dateFolder, failAt);
    var r2 := EnsureFolderExists(r1, dataFolder, failAt);
    UploadAllStore(r2, dataFolder, names, failAt);
    forall i | 0 <= i < |names| ensures DataPath(root, date, names[i]) != NotePath(root, date, time) {
      NotePathDistinct(root, date, time, names[i]);
    }
  }

  /** Ensuring the same folder twice: the second call only checks for it
      and changes nothing. */
  lemma EnsureFolderIdempotent(r: Run, path: string, failAt: Option<nat>)
    requires !EnsureFolderExists(r, path, failAt).failed
    ensures var r1 := EnsureFolderExists(r, path, failAt);
      var r2 := EnsureFolderExists(r1, path, failAt);
      && r2.trace == r1.trace + [Exists(path)]
      && (!r2.failed ==> r2.store == r1.store)
  {
  }

  /* ---------------------------------------------------------------------- */
  /* Remote failures                                                         */
  /* ---------------------------------------------------------------------- */

  /** `rf` is the run in which call number `k` raises and `rn` the same run
      without failures: they agree until call `k`, after which `rf` has
      stopped with `rn`'s first `k + 1` calls. */
  predicate Shadows(rf: Run, rn: Run, k: nat) {
    && !rn.failed
    && if |rn.trace| <= k then rf == rn
       else rf.failed && rf.trace == rn.trace[..k + 1]
  }

  lemma CallShadows(rf: Run, rn: Run, k: nat, op: Op)
    requires Shadows(rf, rn, k)
    ensures Shadows(Call(rf, op, Some(k)), Call(rn, op, None), k)
  {
    if |rn.trace| > k {
      var rn' := Call(rn, op, None);
      assert rn'.trace[..k + 1] == rn.trace[..k + 1];
    }
  }

  lemma EnsureShadows(rf: Run, rn: Run, k: nat, path: string)
    requires Shadows(rf, rn, k)
    ensures Shadows(EnsureFolderExists(rf, path, Some(k)), EnsureFolderExists(rn, path, None), k)
  {
    CallShadows(rf, rn, k, Exists(path));
    var rf1, rn1 := Call(rf, Exists(path), Some(k)), Call(rn, Exists(path), None);
    if !Present(rn1.store, path) {
      CallShadows(rf1, rn1, k, CreateDir(path));
    }
  }

  lemma {:induction false} UploadAllShadows(rf: Run, rn: Run, k: nat, folder: string, names: seq<string>)
    requires Shadows(rf, rn, k)
    ensures Shadows(UploadAll(rf, folder, names, Some(k)), UploadAll(rn, folder, names, None), k)
    decreases |names|
  {
    if names != [] {
      var op := UploadOp(folder, names[0]);
      CallShadows(rf, rn, k, op);
      UploadAllShadows(Call(rf, op, Some(k)), Call(rn, op, None), k, folder, names[1..]);
    }
  }

  /** A remote failure cuts the save short and changes nothing else: the
      calls issued are exactly the first `k + 1` calls of the failure-free
      save (the `k`-th raising), or all of them if there are fewer. */
  lemma SaveFailurePrefix(s: Store, root: string, date: string, time: string,
                                             note: string, names: seq<string>, k: nat)
    ensures var full := SaveNoteAndFiles(s, root, date, time, note, names, None);
      var cut := SaveNoteAndFiles(s, root, date, time, note, names, Some(k));
      && !full.failed
      && (cut.failed <==> k < |full.trace|)
      && (cut.failed ==> cut.trace == full.trace[..k + 1])
      && (!cut.failed ==> cut == full)
  {
    var dateFolder, dataFolder := DateFolder(root, date), DataFolder(root, date);
    var r0 := Run(s, [], false);
    assert Shadows(r0, r0, k);
    EnsureShadows(r0, r0, k, dateFolder);
    var f1, n1 := EnsureFolderExists(r0, dateFolder, Some(k)), EnsureFolderExists(r0, dateFolder, None);
    EnsureShadows(f1, n1, k, dataFolder);
    var f2, n2 := EnsureFolderExists(f1, dataFolder, Some(k)), EnsureFolderExists(n1, dataFolder, None);
    UploadAllShadows(f2, n2, k, dataFolder, names);
    var f3, n3 := UploadAll(f2, dataFolder, names, Some(k)), UploadAll(n2, dataFolder, names, None);
    CallShadows(f3, n3, k, Upload(NotePath(root, date, time), NoteText(note)));
  }

  /** The store obtained by applying `ops` one after the other. */
  function Replay(s: Store, ops: seq<Op>): Store
    decreases |ops|
  {
    if ops == [] then s else Apply(Replay(s, ops[..|ops| - 1]), ops[|ops| - 1])
  }

  /** The calls of a run that took effect: all but a raising last one. */
  function Completed(r: Run): seq<Op> {
    if r.failed && |r.trace| > 0 then r.trace[..|r.trace| - 1] else r.trace
  }

  /** The run's store is what its completed calls did to `s0`. */
  predicate Replays(s0: Store, r: Run) {
    (r.failed ==> |r.trace| > 0) && r.store == Replay(s0, Completed(r))
  }

  lemma CallReplays(s0: Store, r: Run, op: Op, failAt: Option<nat>)
    requires Replays(s0, r)
    ensures Replays(s0, Call(r, op, failAt))
  {
    if !r.failed {
      assert (r.trace + [op])[..|r.trace|] == r.trace;
    }
  }

  lemma EnsureReplays(s0: Store, r: Run, path: string, failAt: Option<nat>)
    requires Replays(s0, r)
    ensures Replays(s0, EnsureFolderExists(r, path, failAt))
  {
    CallReplays(s0, r, Exists(path), failAt);
    CallReplays(s0, Call(r, Exists(path), failAt), CreateDir(path), failAt);
  }

  lemma {:induction false} UploadAllReplays(s0: Store, r: Run, folder: string, names: seq<string>, failAt: Option<nat>)
    requires Replays(s0, r)
    ensures Replays(s0, UploadAll(r, folder, names, failAt))
    decreases |names|
  {
    if names != [] {
      var op := UploadOp(folder, names[0]);
      CallReplays(s0, r, op, failAt);
      UploadAllReplays(s0, Call(r, op, failAt), folder, names[1..], failAt);
    }
  }

  /** Calls that upload nothing to `p` leave the file at `p` as it was. */
  lemma {:induction false} ReplayKeeps(s: Store, ops: seq<Op>, p: string)
    requires forall i :: 0 <= i < |ops| ==> !(ops[i].Upload? && ops[i].path == p)
    ensures (p in Replay(s, ops).files <==> p in s.files)
    ensures p in s.files ==> Replay(s, ops).files[p] == s.files[p]
    decreases |ops|
  {
    if ops != [] {
      ReplayKeeps(s, ops[..|ops| - 1], p);
    }
  }

  lemma SaveReplays(s: Store, root: string, date: string, time: string,
                                       note: string, names: seq<string>, failAt: Option<nat>)
    ensures Replays(s, SaveNoteAndFiles(s, root, date, time, note, names, failAt))
  {
    var dateFolder, dataFolder := DateFolder(root, date), DataFolder(root, date);
    var r0 := Run(s, [], false);
    assert Replays(s, r0);
    EnsureReplays(s, r0, dateFolder, failAt);
    var r1 := EnsureFolderExists(r0, dateFolder, failAt);
    EnsureReplays(s, r1, dataFolder, failAt);
    var r2 := EnsureFolderExists(r1, dataFolder, failAt);
    UploadAllReplays(s, r2, dataFolder, names, failAt);
    var r3 := UploadAll(r2, dataFolder, names, failAt);
    CallReplays(s, r3, Upload(NotePath(root, date, time), NoteText(note)), failAt);
  }

  /** In a failure-free save only the last call writes the note path. */
  lemma OnlyLastCallWritesNote(s: Store, root: string, date: string, time: string,
                                                  note: string, names: seq<string>)
    ensures var t := SaveNoteAndFiles(s, root, date, time, note, names, None).trace;
      forall i :: 0 <= i < |t| - 1 ==> !(t[i].Upload? && t[i].path == NotePath(root, date, time))
  {
    var t := SaveNoteAndFiles(s, root, date, time, note, names, None).trace;
    SaveSucceeds(s, root, date, time, note, names);
    SaveOrder(s, root, date, time, note, names, None);
    FolderOpsUploadNothing(s, root, date);
    UploadsBeforeNote(t, FolderOps(s, root, date), root, date, time, names);
  }

  lemma FolderOpsUploadNothing(s: Store, root: string, date: string)
    ensures var e := FolderOps(s, root, date);
      forall i :: 0 <= i < |e| ==> !e[i].Upload?
  {
  }

  /** In a trace of folder calls, attachment uploads and a last call, only
      the last call can upload to the note path. */
  lemma UploadsBeforeNote(t: seq<Op>, e: seq<Op>, root: string, date: string, time: string, names: seq<string>)
    requires |t| == |e| + |names| + 1 && t[..|e|] == e
    requires forall i :: 0 <= i < |e| ==> !e[i].Upload?
    requires forall i :: 0 <= i < |names| ==> t[|e| + i] == Upload(DataPath(root, date, names[i]), Attachment(names[i]))
    ensures forall i :: 0 <= i < |t| - 1 ==> !(t[i].Upload? && t[i].path == NotePath(root, date, time))
  {
    forall i | 0 <= i < |t| - 1 ensures !(t[i].Upload? && t[i].path == NotePath(root, date, time)) {
      if i < |e| {
        assert t[i] == t[..|e|][i];
      } else {
        NotePathDistinct(root, date, time, names[i - |e|]);
      }
    }
  }

  /** A save that raises never writes the note, so a reader never finds a
      new note whose attachments are missing: the note path holds what it
      held before. */
  lemma FailedSaveLeavesNote(s: Store, root: string, date: string, time: string,
                                                note: string, names: seq<string>, k: nat)
    requires SaveNoteAndFiles(s, root, date, time, note, names, Some(k)).failed
    ensures var s' := SaveNoteAndFiles(s, root, date, time, note, names, Some(k)).store;
      var p := NotePath(root, date, time);
      && (p in s'.files <==> p in s.files)
      && (p in s.files ==> s'.files[p] == s.files[p])
  {
    var p := NotePath(root, date, time);
    var cut := SaveNoteAndFiles(s, root, date, time, note, names, Some(k));
    var full := SaveNoteAndFiles(s, root, date, time, note, names, None);
    SaveReplays(s, root, date, time, note, names, Some(k));
    SaveFailurePrefix(s, root, date, time, note, names, k);
    OnlyLastCallWritesNote(s, root, date, time, note, names);
    FailedRunKeeps(s, cut, full.trace, k, p);
  }

  /** A run that raised at call `k` of `full` has done only the calls before
      `k`; if none of `full`'s calls but the last writes `p`, `p` is kept. */
  lemma FailedRunKeeps(s: Store, cut: Run, full: seq<Op>, k: nat, p: string)
    requires Replays(s, cut) && cut.failed
    requires k < |full| && cut.trace == full[..k + 1]
    requires forall i :: 0 <= i < |full| - 1 ==> !(full[i].Upload? && full[i].path == p)
    ensures (p in cut.store.files <==> p in s.files)
    ensures p in s.files ==> cut.store.files[p] == s.files[p]
  {
    var done := full[..k];
    assert Completed(cut) == done;
    forall i | 0 <= i < |done| ensures !(done[i].Upload? && done[i].path == p) {
      assert done[i] == full[i];
    }
    ReplayKeeps(s, done, p);
  }
}
