# telegram2webdav: note capture, in Dafny

This project models the core of a Telegram bot that saves each incoming message
as a markdown note on a WebDAV server. Everything it models is in `app.py`:

- **Note composition** (`handle_media_and_build_markdown`). Each attachment slot
  is processed in a fixed order: photo, document, video, audio, voice. Each
  saved attachment gets a local file name and one markdown link whose target is
  `/data/<name>`. At most one audio file goes to speech recognition. The body is
  assembled from the links, the recognised text and the message text, with a
  placeholder when the result is blank.
- **Remote layout and call order** (`ensure_folder_exists`,
  `save_note_and_files`). The date folder is `<root>/<YYYY-MM-DD>`, the
  attachments go to `<date folder>/data/<name>` and the note goes to
  `<date folder>/note_<HHMMSS>.md`. Calls are issued in this order: check or
  create both folders, upload the attachments, upload the note.
- **Password gate** (`cmd_start`, `process_password`, `handle_all_messages`,
  `add_allowed_user`). An allow-list of user ids plus a per-conversation "waiting
  for password" state.

The WebDAV server is an abstract store: a set of collections and a map from
paths to contents. Every remote call (`exists`, `create_directory`, `upload`) is
recorded in a trace. A remote error is modelled by the index of the call that
raises: that call has no effect and nothing after it is issued. Other inputs
become parameters:

- the speech recogniser is an oracle `string -> Option<string>`;
- failed downloads are given as a set of unreachable file ids;
- the date and time strings and the configured root and password are passed in.

Modules, one per file:

- `Wrappers`: `Option`.
- `Strings`: Python's `strip`, `rstrip`, `rfind`, `join` and `a or b`.
- `PurePath`: `pathlib`'s `.name` and `.suffix`.
- `Telegram`: the message record.
- `NoteComposer`: note composition.
- `RemoteStore`: layout, calls and failures.
- `Auth`: the gate.
- `Bot`: dispatch and the save pipeline.

Notes on `app.py` that the model keeps:

- The video and audio link titles are `Видео` and `Аудио` (app.py:185, 196).
- The recognised-text section starts with `**Распознанное аудио:**` and a blank line (app.py:220).
- The placeholder for an empty note is `_(пустое сообщение)_` (app.py:228).
- Any exception from `exists` or `create_directory` aborts the save (app.py:84-86, 282-284).
- A user id of 0 is rejected as an unknown user, because of `if not uid` (app.py:265).

## Model

| member | source | states |
|---|---|---|
| `Strings.Or` | app.py:160 | `a or b` on an optional string: a non-empty value wins; `None` and `""` fall through to `b` |
| `Strings.Join` | app.py:217 | `sep.join(parts)`; `JoinAppend` states that joining two non-empty lists puts exactly one separator between them (also app.py:226) |
| `Strings.Strip` | app.py:250 | the stripped text has no whitespace at either end, is no longer than the input, and is empty exactly when the input is blank (also the condition `not md_content.strip()` at app.py:227) |
| `Strings.StripMargins` | app.py:250 | stripping gives back any trimmed text wrapped in whitespace padding on both sides |
| `Strings.RStrip` | app.py:102 | `root.rstrip('/')` is a prefix of the root followed only by slashes, and it does not end in a slash |
| `Strings.RStripPadding` | app.py:102 | appending copies of the stripped character does not change what `rstrip` leaves |
| `Strings.LastIndexOf` | app.py:173 | `rfind`: the index holds the character and no later index does; -1 when absent |
| `PurePath.Name` | app.py:168 | `Path(..).name` contains no `/` |
| `PurePath.NameIsFinalComponent` | app.py:168 | `.name` is the final component: with trailing slashes dropped, the path ends in the name, which is the whole path or follows a `/` |
| `PurePath.NameAfterSeparator` | app.py:165 | the name of `<scratch dir> / <file>` is `<file>` for a non-empty, slash-free file name |
| `PurePath.Suffix` | app.py:173 | the suffix is non-empty iff the LAST dot of the final component is neither its first nor its last character; then the suffix is that component's tail from the last dot, with exactly one dot |
| `PurePath.SuffixOfStemAndExtension` | app.py:173 | round trip: a separator-free non-empty stem followed by a one-dot extension yields exactly that extension |
| `PurePath.NoSuffixWithoutInnerDot` | app.py:173 | a name whose only dot is leading (a hidden file), or that has no dot, has no suffix |
| `NoteComposer.TextBody` | app.py:160 | `message.text or message.caption or ""`; its use is characterised by `PlainTextVerbatim` and `ComposeLayout` |
| `NoteComposer.LocalName` | app.py:165-205 | `local.name` of a downloaded file; characterised by `PurePath.NameIsFinalComponent` and `PurePath.NameAfterSeparator` |
| `NoteComposer.SavedFiles` | app.py:162-206 | the files saved, one per filled slot in slot order; characterised by `SavedFilesInOrder`, `SavedFilesCoverSlots`, `SavedNamesPlain` and the `…Naming` lemmas |
| `NoteComposer.Link` | app.py:168-205 | the markdown link of one saved file; characterised by `LinkedNameRoundTrip` (its target reads back as `/data/<name>`, only the photo is an image) |
| `NoteComposer.Candidate` | app.py:188-206 | the file handed to speech recognition; characterised by `CandidateRule` |
| `NoteComposer.Recognised` | app.py:208-212 | the recognised text kept only when non-empty; characterised by `RecognisedIff` and `OracleOnlyAtCandidate` |
| `NoteComposer.Parts` | app.py:214-224 | the list `md_parts`; characterised by `PartsLayout` against the flat `Layout` |
| `NoteComposer.Assemble` | app.py:226-228 | joining the parts with blank lines, or the placeholder when blank; characterised by `ComposeLayout`, `BodyNeverBlank` and `PlaceholderExactly` |
| `NoteComposer.Compose` | app.py:151-230 | `handle_media_and_build_markdown` returning the body and the file names; characterised by `ComposeLayout`, `LinksMatchFiles` and `VoiceNoteLayout` |
| `NoteComposer.SavePhoto` | app.py:163-168 | a non-empty photo list contributes exactly one photo file, downloaded from the last rendition's id, with a plain name; an empty one contributes nothing |
| `NoteComposer.SaveDocument` | app.py:171-177 | a document contributes exactly one document file, downloaded from its id, with a plain name |
| `NoteComposer.SaveVideo` | app.py:180-185 | a video contributes exactly one video file, downloaded from its id, with a plain name |
| `NoteComposer.SaveAudio` | app.py:190-197 | an audio file contributes exactly one audio file, downloaded from its id, with a plain name |
| `NoteComposer.SaveVoice` | app.py:200-206 | a voice message contributes exactly one voice file, downloaded from its id, with a plain name |
| `NoteComposer.PhotoNaming` | app.py:163-168 | the photo is taken from the last (largest) rendition, saved as `<id>.jpg`, and comes first |
| `NoteComposer.DocumentNaming` | app.py:171-177 | a document named `<stem><ext>` is saved as `<id><ext>`; its link title is the original file name |
| `NoteComposer.UnnamedDocumentNaming` | app.py:171-177 | a document without a file name, whose id contains no `.` (and no `/`), is saved as its bare id, which is also its link title; an id such as `a.b` would be saved as `a.b.b` |
| `NoteComposer.DocumentWithoutExtension` | app.py:171-177 | a named document whose file name has no suffix (`Makefile`, `notes.`) is saved as its bare id and titled with its file name |
| `NoteComposer.AudioNaming` | app.py:190-196 | an audio file named `<stem><ext>` is saved as `<id><ext>` with title `Аудио` |
| `NoteComposer.AudioDefaultExtension` | app.py:190-196 | an audio file whose name has no extension is saved as `<id>.mp3` |
| `NoteComposer.VideoAndVoiceNaming` | app.py:180-205 | video is `<id>.mp4` titled `Видео`; voice is `<id>.ogg` titled `Voice` |
| `NoteComposer.SavedFilesInOrder` | app.py:162-206 | saved files come in strictly increasing slot order: photo, document, video, audio, voice |
| `NoteComposer.SavedFilesCoverSlots` | app.py:162-206 | a slot has a saved file exactly when the message fills it |
| `NoteComposer.SavedNamesPlain` | app.py:165-204 | no saved file name contains a path separator |
| `NoteComposer.LinkedNameOf` | app.py:168-205 | whatever title precedes it, a `(/data/<name>)` link target reads back as exactly `name` when the name has no separator |
| `NoteComposer.LinkedNameRoundTrip` | app.py:168-205 | reading the target back out of a file's link gives `/data/` plus that file's name; only photo links are image links |
| `NoteComposer.LinksMatchFiles` | app.py:162-206 | links and returned files correspond one to one and in order; the i-th link targets the i-th file; only the photo renders as an image |
| `NoteComposer.CandidateRule` | app.py:188-206 | the recognition candidate is the voice file if present, else the audio file, else none |
| `NoteComposer.OracleOnlyAtCandidate` | app.py:208-212 | the recogniser is consulted only for the candidate: recognisers that agree there produce the same note |
| `NoteComposer.RecognisedIff` | app.py:208-212 | recognised text `x` is used iff there is an audio or voice file and the recogniser returned exactly `x`, non-empty |
| `NoteComposer.PartsLayout` | app.py:214-226 | joining `md_parts` with blank lines equals the section layout: links block, rule, recognised-text section, rule, text, with blank lines only between present sections |
| `NoteComposer.ComposeLayout` | app.py:214-228 | a message with no attachments gets no recognised text; no attachments and blank text give the placeholder; otherwise the body is the section layout |
| `NoteComposer.BodyNeverBlank` | app.py:226-228 | the composed body is never empty or whitespace only |
| `NoteComposer.PlaceholderExactly` | app.py:226-228 | the body is the placeholder iff there are no attachments and the text is blank or is the placeholder itself |
| `NoteComposer.PlainTextVerbatim` | app.py:160-228 | no attachments and non-blank text: the body is that text verbatim and no files are returned |
| `NoteComposer.VoiceNoteLayout` | app.py:199-228 | a captioned voice note with successful recognition: exact body of voice link, rule, recognised text, rule, caption |
| `RemoteStore.DateFolder` | app.py:101-102 | `<root without trailing slashes>/<date>`; characterised by `DateFolderIgnoresTrailingSlashes` and `NotePathDistinct` |
| `RemoteStore.NotePath` | app.py:107-109 | `<date folder>/note_<HHMMSS>.md`; characterised by `NotePathDistinct` and `NotePathInjective` |
| `RemoteStore.DataPath` | app.py:103-114 | `<date folder>/data/<name>`; characterised by `NotePathDistinct` and `Bot.SavedNoteLinksResolve` |
| `RemoteStore.DataFolder` | app.py:103 | `<date folder>/data`; characterised by `NotePathDistinct` (it differs from the date folder, the note and every attachment path) |
| `RemoteStore.Present` | app.py:84 | `client.exists(path)`: true when a collection or a file is at the path, so an existing file at a folder path also counts and no `create_directory` follows |
| `RemoteStore.SaveNoteAndFiles` | app.py:92-122 | `save_note_and_files` as a run of remote calls; characterised by `SaveSucceeds`, `SaveOrder`, `SaveStore`, `SaveFailurePrefix` and `FailedSaveLeavesNote` |
| `RemoteStore.Call` | app.py:84-121 | one remote call is appended to the trace; after a call has raised, nothing more is issued; a call that does not raise applies its effect to the store, and a raising call leaves the store as it was |
| `RemoteStore.EnsureFolderExists` | app.py:82-86 | the existence check comes first; a create is issued only when the path is absent; afterwards the path exists and no file changed |
| `RemoteStore.EnsureFolderIdempotent` | app.py:82-86 | a second ensure on the same path issues only an existence check and changes nothing |
| `RemoteStore.UploadAll` | app.py:112-115 | one upload per attachment, in list order, each to `<data folder>/<name>` |
| `RemoteStore.UploadAllStore` | app.py:112-115 | after the loop every attachment is at its path with its content; collections and all other paths are unchanged |
| `RemoteStore.NotePathDistinct` | app.py:101-114 | the note path differs from every attachment path and from both folders |
| `RemoteStore.NotePathInjective` | app.py:107-109 | same-day notes collide exactly when their HHMMSS strings are equal |
| `RemoteStore.DateFolderIgnoresTrailingSlashes` | app.py:102 | any number of trailing slashes on the configured root gives the same date folder, so `/notes/` and `/notes` lay notes out identically |
| `RemoteStore.SaveSucceeds` | app.py:101-122 | when no remote call raises, the save completes |
| `RemoteStore.SaveOrder` | app.py:104-121 | a save that does not raise issues: the date-folder check/create, the data-folder check/create (creates only where absent in the initial store), the attachment uploads in order, then the note upload last |
| `RemoteStore.SaveStore` | app.py:101-122 | after a save, both folders exist and no collection other than these two was added, the note holds its text, each attachment is at its data path, and no other path changed |
| `RemoteStore.SaveFailurePrefix` | app.py:104-121 | if call `k` raises, the issued calls are exactly the first `k + 1` calls of the failure-free save; if there are fewer calls, the save is unaffected |
| `RemoteStore.FailedSaveLeavesNote` | app.py:112-121 | a save that raises leaves the note path as it was, so a new note never has missing attachments |
| `Auth.SenderId` | app.py:252-264 | `message.from_user.id if message.from_user else None` (app.py:252 and 264); characterised by `Truthy` and `Admitted` |
| `Auth.Truthy` | app.py:253-265 | a sender id passes `if uid` (app.py:253 and 265) exactly when it is present and non-zero |
| `Auth.Admitted` | app.py:264-272 | the guard of `handle_all_messages`: a truthy sender id that is on the list; characterised by `Bot.OnlyAdmittedReachStore` |
| `Auth.Dedup` | app.py:69-71 | `list(set(xs))`: no duplicates, same members |
| `Auth.AddAllowedUser` | app.py:66-72 | the new list contains the new id and every previously allowed id, nothing else, with no duplicates |
| `Auth.AddAllowedUserIdempotent` | app.py:66-72 | adding an id already on the list, whatever else the list holds (duplicates included), does not change who is allowed |
| `Auth.Start` | app.py:237-245 | a listed sender is told so and keeps its state; any other sender is asked for the password and made to wait |
| `Auth.Password` | app.py:247-259 | accepted iff the stripped text equals the password and the sender id is truthy; then the sender is listed and the wait ends; otherwise nothing changes |
| `Auth.PaddedPasswordAccepted` | app.py:250-251 | the password surrounded by whitespace is accepted |
| `Bot.DownloadFailsIff` | app.py:163-206 | one of the five download calls fails iff some saved attachment's file id is unreachable |
| `Bot.DownloadFails` | app.py:163-206 | one of the five `download_telegram_file` calls gets an unreachable file id; characterised by `DownloadFailsIff` |
| `Bot.HandleMessage` | app.py:261-284 | `handle_all_messages`: the guard, then compose and save; characterised by `OnlyAdmittedReachStore`, `SaveReplyIff` and `SavedNoteLinksResolve` |
| `Bot.Step` | app.py:237-261 | handler routing: `/start` always to `cmd_start`, other messages to `process_password` while waiting, else to `handle_all_messages`; characterised by `OnlyAdmittedReachStore`, `StartThenPassword` and `WrongPasswordKeepsWaiting` |
| `Bot.SaveReplyIff` | app.py:276-284 | for an admitted message with successful downloads: the gate state is unchanged; the reply is the note path iff the fault (if any) lies beyond the save's calls; otherwise the failure reply after exactly the calls up to the raising one |
| `Bot.SaveMessage` | app.py:276-284 | a failed download aborts before any remote call; the reply is either a failure or the note path |
| `Bot.OnlyAdmittedReachStore` | app.py:261-279 | the save pipeline is reached iff the update is an ordinary message, outside a password wait, from a truthy listed sender id; otherwise no remote call |
| `Bot.SavedNoteLinksResolve` | app.py:276-280 | end to end: the reply is the note path, the note holds the composed body, and every attachment link the composer generates names a file uploaded under the note's folder at its `/data/<name>` target |
| `Bot.TextOnlyMessage` | app.py:276-280 | a text-only message with non-blank text, when no remote call raises: folder checks, then a single upload of the verbatim text |
| `Bot.StorageFailureReported` | app.py:277-284 | when call `k` is one of the save's calls (folder checks/creates, one upload per attachment, the note upload), its raising yields the failure reply and leaves the note path untouched |
| `Bot.DownloadFailureWritesNothing` | app.py:277-284 | a failed download yields the failure reply with no remote call and an unchanged store |
| `Bot.StartThenPassword` | app.py:237-259 | `/start` from an unlisted sender, then the right password from the same sender: the sender is listed, the wait ends, and no one is removed |
| `Bot.WrongPasswordKeepsWaiting` | app.py:247-259 | a wrong password or an unknown sender leaves the state unchanged and still waiting |

## Left out

- Telegram plumbing: bot and dispatcher setup, polling, and `download_telegram_file`. Downloads either produce the named file or raise.
- Reply texts: replies are modelled only as tags.
- Recognition of the `/start` command: updates arrive already classified as `StartCommand` or `Incoming`.
- The WebDAV client and server semantics, for example whether creating a collection needs an existing parent. A server error is modelled only as "call k raises".
- The OpenAI transcription call. It is an oracle; a missing key or an exception is the oracle returning `None`.
- JSON persistence of the allow-list and `load_allowed_users`. The stored list is the allow-list itself; reading and writing the file, and a missing `allowed` key, are not modelled.
- Clock reads. The UTC date and local HHMMSS strings are parameters; their formats and the UTC/local mix are not checked.
- Temporary directories and the local note file, including the `mkdtemp(...) + note_filename` concatenation. Scratch files are never cleaned up.
- The WebDAV client's behaviour on a `create_directory` for a collection that another writer created after `exists`: the model has no concurrent writer, and whether such a call raises depends on the client library.
- Logging and asyncio concurrency. Races between simultaneous notes and concurrent writers of the allow-list are not modelled.
- Conversations of several users: aiogram keeps the FSM state per user and chat, and the model has one state, so `Bot.StartThenPassword` assumes both updates come from the same sender.
- `RemoteStore.Call`: a call that raises is assumed to have had no effect on the server. A PUT whose response was lost may already have stored the file, so this is an assumption about the server, and `FailedSaveLeavesNote` relies on it when the raising call is the note upload.
- `Auth.AddAllowedUser`: Python writes the set back in an unspecified order. The model keeps first occurrences, and the contract states only membership and absence of duplicates.
- Telegram file ids are assumed to contain no `/` and no `.`. The naming lemmas (`NoteComposer.PhotoNaming`, `DocumentNaming`, `UnnamedDocumentNaming`, `DocumentWithoutExtension`, `AudioNaming`, `AudioDefaultExtension`, `VideoAndVoiceNaming`) require an id without `/`, and `UnnamedDocumentNaming` also an id without an inner `.`. The composer itself handles any id.
- `PurePath.Name`: does not collapse `.` path components. It also does not model that joining the scratch directory with an empty name yields the directory itself. Telegram file ids are never empty.
- `PurePath.Suffix`: follows `pathlib` as in CPython 3.8–3.13, where a trailing dot gives no suffix. CPython 3.14 changed that case.
- Markdown escaping: a document file name containing `]` or a newline is written into the link title unescaped. The source does the same. `LinkedName` reads the target from the end of the line, so the correspondence lemmas still hold.
