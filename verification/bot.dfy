/**
 * The bot's handlers put together: routing an update to `cmd_start`,
 * `process_password` or `handle_all_messages`, and the save pipeline of
 * `handle_all_messages` (compose the note, then store it remotely).
 *
 * The outside world comes in as parameters: the configured root and
 * password, the UTC date and local time strings, the speech recogniser as
 * an oracle, the file ids whose download fails, and the index of the remote
 * call that raises, if any.
 */
module Bot {
  import opened Wrappers
  import opened Strings
  import opened Telegram
  import opened NoteComposer
  import opened RemoteStore
  import opened Auth

  /** An incoming update: the `/start` command or any other message. */
  datatype Update = StartCommand(message: Message) | Incoming(message: Message)

  datatype Env = Env(
    root: string,
    password: string,
    date: string,
    time: string,
    transcribe: string -> Option<string>,
    unreachable: set<string>,
    failAt: Option<nat>)

  datatype BotState = BotState(allowed: seq<int>, conversation: Conversation, store: Store)

  datatype Reply =
    | Gate(reply: GateReply)
    | UnknownUser
    | NotAuthorised
    | SavedAt(path: string)
    | SaveFailed

  /** What handling one update did: the new state, the reply sent and the
      remote calls issued. */
  datatype Outcome = Outcome(state: BotState, reply: Reply, trace: seq<Op>)

  /** Some attachment's download raises: one of the five
      `download_telegram_file` calls is given an unreachable file id. */
  predicate DownloadFails(m: Message, unreachable: set<string>) {
    || (|m.photo| > 0 && m.photo[|m.photo| - 1].fileId in unreachable)
    || (m.document.Some? && m.document.value.fileId in unreachable)
    || (m.video.Some? && m.video.value.fileId in unreachable)
    || (m.audio.Some? && m.audio.value.fileId in unreachable)
    || (m.voice.Some? && m.voice.value.fileId in unreachable)
  }

  /** A download fails exactly when some saved attachment's file id is
      unreachable. */
  lemma DownloadFailsIff(m: Message, unreachable: set<string>)
    ensures DownloadFails(m, unreachable) <==> exists f :: f in SavedFiles(m) && f.fileId in unreachable
  {
    var u := unreachable;
    var p, d, v, a, o := SavePhoto(m), SaveDocument(m), SaveVideo(m), SaveAudio(m), SaveVoice(m);
    assert SavedFiles(m) == p + d + v + a + o;
    SlotHit(p, PhotoSlot, |m.photo| > 0, if |m.photo| > 0 then m.photo[|m.photo| - 1].fileId else "", u);
    SlotHit(d, DocumentSlot, m.document.Some?, if m.document.Some? then m.document.value.fileId else "", u);
    SlotHit(v, VideoSlot, m.video.Some?, if m.video.Some? then m.video.value.fileId else "", u);
    SlotHit(a, AudioSlot, m.audio.Some?, if m.audio.Some? then m.audio.value.fileId else "", u);
    SlotHit(o, VoiceSlot, m.voice.Some?, if m.voice.Some? then m.voice.value.fileId else "", u);
    HitInRuns(p, d, v, a, o, u);
  }

  /** Membership in five concatenated runs of saved files. */
  lemma HitInRuns(p: seq<Saved>, d: seq<Saved>, v: seq<Saved>, a: seq<Saved>, o: seq<Saved>, u: set<string>)
    ensures HitIn(p + d + v + a + o, u)
      <==> (HitIn(p, u) || HitIn(d, u) || HitIn(v, u) || HitIn(a, u) || HitIn(o, u))
  {
    HitInConcat(p, d, u);
    HitInConcat(p + d, v, u);
    HitInConcat(p + d + v, a, u);
    HitInConcat(p + d + v + a, o, u);
  }

  predicate HitIn(fs: seq<Saved>, u: set<string>) {
    exists f :: f in fs && f.fileId in u
  }

  /** A slot's run of files hits `u` exactly when the slot is filled and
      its file id is in `u`. */
  lemma SlotHit(fs: seq<Saved>, s: Slot, filled: bool, id: string, u: set<string>)
    requires OneFor(fs, s, filled)
    requires forall i :: 0 <= i < |fs| ==> fs[i].fileId == id
    ensures HitIn(fs, u) <==> filled && id in u
  {
    if filled {
      assert fs[0] in fs;
    }
  }

  lemma HitInConcat(xs: seq<Saved>, ys: seq<Saved>, u: set<string>)
    ensures HitIn(xs + ys, u) <==> HitIn(xs, u) || HitIn(ys, u)
  {
    if HitIn(xs + ys, u) {
      var f :| f in xs + ys && f.fileId in u;
      assert f in xs || f in ys;
    }
    if HitIn(xs, u) {
      var f :| f in xs && f.fileId in u;
      assert f in xs + ys;
    }
    if HitIn(ys, u) {
      var f :| f in ys && f.fileId in u;
      assert f in xs + ys;
    }
  }

  /** The `try` block of `handle_all_messages`: compose the note (a failed
      download aborts before any remote call), then save it. */
  function SaveMessage(s: Store, m: Message, env: Env): (r: (Run, Reply))
    ensures DownloadFails(m, env.unreachable) ==> r.0.trace == [] && r.0.store == s && r.1 == SaveFailed
    ensures r.1 == SaveFailed || r.1 == SavedAt(NotePath(env.root, env.date, env.time))
  {
    if DownloadFails(m, env.unreachable) then (Run(s, [], true), SaveFailed)
    else
      var note := Compose(m, env.transcribe);
      var run := SaveNoteAndFiles(s, env.root, env.date, env.time, note.body, note.files, env.failAt);
      (run, if run.failed then SaveFailed else SavedAt(NotePath(env.root, env.date, env.time)))
  }

  /** `handle_all_messages`. */
  function HandleMessage(b: BotState, m: Message, env: Env): Outcome {
    var uid := SenderId(m);
    if !Truthy(uid) then Outcome(b, UnknownUser, [])
    else if uid.value !in b.allowed then Outcome(b, NotAuthorised, [])
    else
      var (run, reply) := SaveMessage(b.store, m, env);
      Outcome(b.(store := run.store), reply, run.trace)
  }

  /** One update through the dispatcher: `/start` is always routed to
      `cmd_start`; while the password is awaited every other message goes to
      `process_password`; otherwise to `handle_all_messages`. */
  function Step(b: BotState, u: Update, env: Env): Outcome {
    match u
    case StartCommand(m) =>
      var (c, reply) := Start(b.allowed, b.conversation, m);
      Outcome(b.(conversation := c), Gate(reply), [])
    case Incoming(m) =>
      if b.conversation == WaitingPassword then
        var (allowed, c, reply) := Password(b.allowed, m, env.password);
        Outcome(b.(allowed := allowed, conversation := c), Gate(reply), [])
      else HandleMessage(b, m, env)
  }

  /** The save pipeline is reached exactly by ordinary messages, outside a
      password wait, from a known, non-zero, listed sender; every other
      update issues no remote call and leaves the store alone. */
  lemma OnlyAdmittedReachStore(b: BotState, u: Update, env: Env)
    ensures var o := Step(b, u, env);
      var reaches := u.Incoming? && b.conversation == Idle && Admitted(b.allowed, u.message);
      && ((o.reply.SavedAt? || o.reply == SaveFailed) <==> reaches)
      && (!reaches ==> o.trace == [] && o.state.store == b.store)
  {
  }

  /** An admitted message whose downloads succeed is handed to the save:
      the outcome is the save's store and trace, and the reply is the note
      path unless a remote call raised. */
  lemma StepSaves(b: BotState, m: Message, env: Env)
    requires b.conversation == Idle && Admitted(b.allowed, m)
    requires !DownloadFails(m, env.unreachable)
    ensures var note := Compose(m, env.transcribe);
      var run := SaveNoteAndFiles(b.store, env.root, env.date, env.time, note.body, note.files, env.failAt);
      Step(b, Incoming(m), env)
        == Outcome(b.(store := run.store),
                   if run.failed then SaveFailed else SavedAt(NotePath(env.root, env.date, env.time)),
                   run.trace)
  {
  }

  /** For an admitted message whose downloads succeed, the gate state is
      left alone, the note is saved exactly when the injected fault (if
      any) lies beyond the save's folder calls, attachment uploads and note
      upload, and otherwise the save is reported as failed after the calls
      up to and including the raising one. */
  lemma SaveReplyIff(b: BotState, m: Message, env: Env)
    requires b.conversation == Idle && Admitted(b.allowed, m)
    requires !DownloadFails(m, env.unreachable)
    ensures var o := Step(b, Incoming(m), env);
      var calls := |FolderOps(b.store, env.root, env.date)| + |SavedFiles(m)| + 1;
      var faulted := env.failAt.Some? && env.failAt.value < calls;
      && o.state.allowed == b.allowed
      && o.state.conversation == Idle
      && (o.reply == SavedAt(NotePath(env.root, env.date, env.time)) <==> !faulted)
      && (faulted ==> o.reply == SaveFailed && |o.trace| == env.failAt.value + 1)
      && (!faulted ==> |o.trace| == calls)
  {
    var note := Compose(m, env.transcribe);
    StepSaves(b, m, env);
    SaveSucceeds(b.store, env.root, env.date, env.time, note.body, note.files);
    SaveOrder(b.store, env.root, env.date, env.time, note.body, note.files, None);
    if env.failAt.Some? {
      SaveFailurePrefix(b.store, env.root, env.date, env.time, note.body, note.files, env.failAt.value);
    }
  }

  /** End to end: an admitted message whose downloads succeed and whose
      remote calls do not raise is saved at the note path; the note holds
      the composed body, and every attachment link the composer generates
      names a file uploaded to that `/data/<name>` path relative to the
      note's folder (links typed into the message text are kept verbatim
      and are not checked). */
  lemma SavedNoteLinksResolve(b: BotState, m: Message, env: Env)
    requires b.conversation == Idle && Admitted(b.allowed, m)
    requires !DownloadFails(m, env.unreachable) && env.failAt.None?
    ensures var o := Step(b, Incoming(m), env);
      var note := Compose(m, env.transcribe);
      var links := Links(SavedFiles(m));
      var files := o.state.store.files;
      && o.reply == SavedAt(NotePath(env.root, env.date, env.time))
      && NotePath(env.root, env.date, env.time) in files
      && files[NotePath(env.root, env.date, env.time)] == NoteText(note.body)
      && |links| == |note.files|
      && (forall i :: 0 <= i < |links| ==>
            && LinkedName(links[i]) == Some(note.files[i])
            && DateFolder(env.root, env.date) + (DataPrefix + note.files[i]) in files
            && files[DateFolder(env.root, env.date) + (DataPrefix + note.files[i])] == Attachment(note.files[i]))
  {
    var note := Compose(m, env.transcribe);
    StepSaves(b, m, env);
    SaveSucceeds(b.store, env.root, env.date, env.time, note.body, note.files);
    SaveStore(b.store, env.root, env.date, env.time, note.body, note.files, None);
    LinksMatchFiles(m, env.transcribe);
    forall i | 0 <= i < |note.files|
      ensures DateFolder(env.root, env.date) + (DataPrefix + note.files[i]) == DataPath(env.root, env.date, note.files[i])
    {
      DataPathIsLinkTarget(env.root, env.date, note.files[i]);
    }
  }

  /** A text-only message is saved verbatim: after the folder checks the
      only remote write is the note itself. */
  lemma TextOnlyMessage(b: BotState, m: Message, env: Env)
    requires b.conversation == Idle && Admitted(b.allowed, m)
    requires m.NoAttachments() && !IsBlank(TextBody(m)) && env.failAt.None?
    ensures var o := Step(b, Incoming(m), env);
      && o.reply == SavedAt(NotePath(env.root, env.date, env.time))
      && o.trace == FolderOps(b.store, env.root, env.date)
                    + [Upload(NotePath(env.root, env.date, env.time), NoteText(TextBody(m)))]
  {
    PlainTextVerbatim(m, env.transcribe);
    SavedFilesEmpty(m);
    var note := Compose(m, env.transcribe);
    SaveSucceeds(b.store, env.root, env.date, env.time, note.body, note.files);
    SaveOrder(b.store, env.root, env.date, env.time, note.body, note.files, None);
    var t := Step(b, Incoming(m), env).trace;
    var e := FolderOps(b.store, env.root, env.date);
    assert t == t[..|e|] + [t[|t| - 1]];
  }

  /** A remote call of the save that raises (call `k`, counting the folder
      calls, one upload per file and the note upload) is reported as a
      failed save, and the note path is left as it was. */
  lemma StorageFailureReported(b: BotState, m: Message, env: Env, k: nat)
    requires b.conversation == Idle && Admitted(b.allowed, m)
    requires !DownloadFails(m, env.unreachable) && env.failAt == Some(k)
    ensures k < |FolderOps(b.store, env.root, env.date)| + |SavedFiles(m)| + 1 ==>
      var o := Step(b, Incoming(m), env);
      var p := NotePath(env.root, env.date, env.time);
      && o.reply == SaveFailed
      && (p in o.state.store.files <==> p in b.store.files)
      && (p in b.store.files ==> o.state.store.files[p] == b.store.files[p])
  {
    if k < |FolderOps(b.store, env.root, env.date)| + |SavedFiles(m)| + 1 {
      var note := Compose(m, env.transcribe);
      SaveSucceeds(b.store, env.root, env.date, env.time, note.body, note.files);
      SaveOrder(b.store, env.root, env.date, env.time, note.body, note.files, None);
      SaveFailurePrefix(b.store, env.root, env.date, env.time, note.body, note.files, k);
      FailedSaveLeavesNote(b.store, env.root, env.date, env.time, note.body, note.files, k);
    }
  }

  /** A failed download aborts before any remote call. */
  lemma DownloadFailureWritesNothing(b: BotState, m: Message, env: Env)
    requires b.conversation == Idle && Admitted(b.allowed, m)
    requires DownloadFails(m, env.unreachable)
    ensures var o := Step(b, Incoming(m), env);
      o.reply == SaveFailed && o.trace == [] && o.state.store == b.store
  {
  }

  /** `/start` from an unlisted sender followed by the right password (up
      to surrounding whitespace) admits that sender: the next ordinary
      message reaches the save pipeline. */
  lemma StartThenPassword(b: BotState, m1: Message, m2: Message, env: Env)
    requires SenderId(m1) == SenderId(m2)
    requires SenderId(m1).None? || SenderId(m1).value !in b.allowed
    requires Truthy(SenderId(m2)) && Strip(Or(m2.text, "")) == env.password
    ensures var o1 := Step(b, StartCommand(m1), env);
      var o2 := Step(o1.state, Incoming(m2), env);
      && o1.state.conversation == WaitingPassword
      && o2.reply == Gate(PasswordAccepted)
      && o2.state.conversation == Idle
      && Admitted(o2.state.allowed, m2)
      && (forall x :: x in b.allowed ==> x in o2.state.allowed)
  {
  }

  /** A wrong password (or an unknown sender) keeps the conversation
      waiting and the list unchanged, however often it is tried. */
  lemma WrongPasswordKeepsWaiting(b: BotState, m: Message, env: Env)
    requires b.conversation == WaitingPassword
    requires Strip(Or(m.text, "")) != env.password || !Truthy(SenderId(m))
    ensures Step(b, Incoming(m), env) == Outcome(b, Gate(WrongPassword), [])
  {
  }
}
