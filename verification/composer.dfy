/**
 * Note composition (`handle_media_and_build_markdown`): which local file each
 * attachment is saved as, the markdown link that refers to it, which file is
 * handed to speech recognition, and how the note body is assembled.
 *
 * Downloads are abstracted away: every attachment is taken to be saved under
 * the name chosen here (download failures are modelled in module Bot).
 */
module NoteComposer {
  import opened Wrappers
  import opened Strings
  import opened PurePath
  import opened Telegram

  /** The attachment slots, in the order they are processed. */
  datatype Slot = PhotoSlot | DocumentSlot | VideoSlot | AudioSlot | VoiceSlot

  function Rank(s: Slot): nat {
    match s
    case PhotoSlot => 0
    case DocumentSlot => 1
    case VideoSlot => 2
    case AudioSlot => 3
    case VoiceSlot => 4
  }

  /** One attachment saved locally: the Telegram file id it was downloaded
      from, the local file name (also its remote name) and its link title. */
  datatype Saved = Saved(slot: Slot, fileId: string, name: string, title: string)

  const Placeholder := "_(пустое сообщение)_"
  const AudioHeader := "**Распознанное аудио:**\n\n"
  const Rule := "\n---\n"
  const SectionSep := "\n\n"
  const LinkSep := "\n"
  const DataPrefix := "/data/"
  const VideoLabel := "Видео"
  const AudioLabel := "Аудио"
  const VoiceLabel := "Voice"

  /** The name of `<scratch dir> / <file>`: the final component of `file`. */
  function LocalName(file: string): string {
    Name(file)
  }

  /** What one slot contributes: a single file of that slot, with a plain
      (separator-free) name, when the slot is filled, and nothing otherwise. */
  predicate OneFor(fs: seq<Saved>, s: Slot, filled: bool) {
    && |fs| == (if filled then 1 else 0)
    && (forall i :: 0 <= i < |fs| ==> fs[i].slot == s && '/' !in fs[i].name)
  }

  function SavePhoto(m: Message): (r: seq<Saved>)
    ensures OneFor(r, PhotoSlot, |m.photo| > 0)
    ensures forall i :: 0 <= i < |r| ==> r[i].fileId == m.photo[|m.photo| - 1].fileId
  {
    if |m.photo| > 0 then
      var id := m.photo[|m.photo| - 1].fileId;
      [Saved(PhotoSlot, id, LocalName(id + ".jpg"), "")]
    else []
  }

  function SaveDocument(m: Message): (r: seq<Saved>)
    ensures OneFor(r, DocumentSlot, m.document.Some?)
    ensures forall i :: 0 <= i < |r| ==> r[i].fileId == m.document.value.fileId
  {
    match m.document
    case None => []
    case Some(d) =>
      var n := LocalName(d.fileId + Suffix(Or(d.fileName, d.fileId)));
      var f := Saved(DocumentSlot, d.fileId, n, Or(d.fileName, n));
      assert '/' !in f.name;
      [f]
  }

  function SaveVideo(m: Message): (r: seq<Saved>)
    ensures OneFor(r, VideoSlot, m.video.Some?)
    ensures forall i :: 0 <= i < |r| ==> r[i].fileId == m.video.value.fileId
  {
    match m.video
    case None => []
    case Some(v) => [Saved(VideoSlot, v.fileId, LocalName(v.fileId + ".mp4"), VideoLabel)]
  }

  function SaveAudio(m: Message): (r: seq<Saved>)
    ensures OneFor(r, AudioSlot, m.audio.Some?)
    ensures forall i :: 0 <= i < |r| ==> r[i].fileId == m.audio.value.fileId
  {
    match m.audio
    case None => []
    case Some(a) =>
      var ext := Suffix(Or(a.fileName, a.fileId));
      var ext' := if ext == "" then ".mp3" else ext;
      [Saved(AudioSlot, a.fileId, LocalName(a.fileId + ext'), AudioLabel)]
  }

  function SaveVoice(m: Message): (r: seq<Saved>)
    ensures OneFor(r, VoiceSlot, m.voice.Some?)
    ensures forall i :: 0 <= i < |r| ==> r[i].fileId == m.voice.value.fileId
  {
    match m.voice
    case None => []
    case Some(v) => [Saved(VoiceSlot, v.fileId, LocalName(v.fileId + ".ogg"), VoiceLabel)]
  }

  /** Every attachment the message carries, in processing order. */
  function SavedFiles(m: Message): seq<Saved> {
    SavePhoto(m) + SaveDocument(m) + SaveVideo(m) + SaveAudio(m) + SaveVoice(m)
  }

  function Names(fs: seq<Saved>): (r: seq<string>)
    ensures |r| == |fs|
    ensures forall i :: 0 <= i < |fs| ==> r[i] == fs[i].name
  {
    seq(|fs|, i requires 0 <= i < |fs| => fs[i].name)
  }

  /** The markdown link for one saved file; its target is `/data/<name>`. */
  function Link(f: Saved): string {
    if f.slot == PhotoSlot then "![](" + DataPrefix + f.name + ")"
    else "[" + f.title + "](" + DataPrefix + f.name + ")"
  }

  function Links(fs: seq<Saved>): (r: seq<string>)
    ensures |r| == |fs|
    ensures forall i :: 0 <= i < |fs| ==> r[i] == Link(fs[i])
  {
    seq(|fs|, i requires 0 <= i < |fs| => Link(fs[i]))
  }

  /** Reads the file name back out of a `/data/<name>` link: the text
      between the last `/` and the closing parenthesis. */
  function LinkedName(line: string): Option<string> {
    if |line| > 0 && line[|line| - 1] == ')' then
      var body := line[..|line| - 1];
      var j := LastIndexOf(body, '/');
      if j >= 6 && body[j - 6..j + 1] == "(" + DataPrefix then Some(body[j + 1..]) else None
    else None
  }

  /** A link is an image link exactly when it starts with `!`. */
  predicate IsImageLink(line: string) {
    |line| > 0 && line[0] == '!'
  }

  /** The file handed to speech recognition: the last saved audio or voice
      file (a voice message thus wins over an audio file). */
  function Candidate(fs: seq<Saved>): Option<string> {
    if fs == [] then None
    else if fs[|fs| - 1].slot == AudioSlot || fs[|fs| - 1].slot == VoiceSlot then
      Some(fs[|fs| - 1].name)
    else Candidate(fs[..|fs| - 1])
  }

  /** `message.text or message.caption or ""`. */
  function TextBody(m: Message): string {
    Or(m.text, Or(m.caption, ""))
  }

  /** The recognised text, kept only when the recogniser returned a
      non-empty string; the recogniser is consulted only for a candidate. */
  function Recognised(candidate: Option<string>, transcribe: string -> Option<string>): Option<string> {
    match candidate
    case None => None
    case Some(p) =>
      var t := transcribe(p);
      if t.Some? && t.value != "" then t else None
  }

  /** The list `md_parts` before it is joined. */
  function Parts(links: seq<string>, audio: Option<string>, text: string): seq<string> {
    (if links != [] then [Join(links, LinkSep), Rule] else []) + TailParts(audio, text)
  }

  /** The recognised-text and message-text entries of `md_parts`. */
  function TailParts(audio: Option<string>, text: string): seq<string> {
    (if audio.Some? then [AudioHeader, audio.value, Rule] else [])
    + (if text != "" then [text] else [])
  }

  function Assemble(links: seq<string>, audio: Option<string>, text: string): string {
    var joined := Join(Parts(links, audio, text), SectionSep);
    if IsBlank(joined) then Placeholder else joined
  }

  /** The composed note: markdown body and the local files it links to. */
  datatype Note = Note(body: string, files: seq<string>)

  function Compose(m: Message, transcribe: string -> Option<string>): Note {
    var fs := SavedFiles(m);
    var audio := Recognised(Candidate(fs), transcribe);
    Note(Assemble(Links(fs), audio, TextBody(m)), Names(fs))
  }

  /* ---------------------------------------------------------------------- */
  /* Properties                                                              */
  /* ---------------------------------------------------------------------- */

  /** The body laid out section by section: each present section is followed
      by a horizontal rule, and a blank line separates it from whatever
      section comes next. */
  function Layout(links: seq<string>, audio: Option<string>, text: string): string {
    var more := audio.Some? || text != "";
    (if links != [] then Join(links, LinkSep) + SectionSep + Rule + (if more then SectionSep else "") else "")
    + TailLayout(audio, text)
  }

  /** The recognised-text section (if any) followed by the message text. */
  function TailLayout(audio: Option<string>, text: string): string {
    (if audio.Some? then AudioHeader + SectionSep + audio.value + SectionSep + Rule + (if text != "" then SectionSep else "") else "")
    + text
  }

  /** Joining `md_parts` with blank lines yields exactly the section layout. */
  lemma PartsLayout(links: seq<string>, audio: Option<string>, text: string)
    ensures Join(Parts(links, audio, text), SectionSep) == Layout(links, audio, text)
  {
    var tail := TailParts(audio, text);
    TailPartsLayout(audio, text);
    if links != [] {
      var lp: seq<string> := [Join(links, LinkSep), Rule];
      assert lp[1..] == [Rule];
      if tail != [] {
        JoinAppend(lp, tail, SectionSep);
      } else {
        assert lp + tail == lp;
      }
    } else {
      assert [] + tail == tail;
    }
  }

  lemma TailPartsLayout(audio: Option<string>, text: string)
    ensures TailParts(audio, text) != [] <==> audio.Some? || text != ""
    ensures Join(TailParts(audio, text), SectionSep) == TailLayout(audio, text)
  {
    if audio.Some? {
      var ap: seq<string> := [AudioHeader, audio.value, Rule];
      assert ap[1..] == [audio.value, Rule];
      assert ap[1..][1..] == [Rule];
      assert Join([Rule], SectionSep) == Rule;
      assert Join(ap[1..], SectionSep) == audio.value + SectionSep + Rule;
      assert Join(ap, SectionSep) == AudioHeader + SectionSep + (audio.value + SectionSep + Rule);
      if text != "" {
        JoinAppend(ap, [text], SectionSep);
      } else {
        assert ap + [] == ap;
      }
    } else {
      assert [] + (if text != "" then [text] else []) == (if text != "" then [text] else []);
    }
  }

  /** Whatever precedes it, a `(/data/<name>)` target reads back as `name`. */
  lemma LinkedNameOf(head: string, name: string)
    requires '/' !in name
    ensures LinkedName(head + "(/data/" + name + ")") == Some(name)
  {
    var line := head + "(/data/" + name + ")";
    var body := head + "(/data/" + name;
    assert line[..|line| - 1] == body;
    var k := |head| + 6;
    assert body[k] == '/';
    assert forall j :: k < j < |body| ==> body[j] == name[j - k - 1];
    LastIndexOfAt(body, '/', k);
    assert body[k - 6..k + 1] == "(/data/";
    assert body[k + 1..] == name;
  }

  /** A saved file's link names it: reading the target back out of the link
      gives `/data/<name>` for exactly that file. */
  lemma LinkedNameRoundTrip(f: Saved)
    requires '/' !in f.name
    ensures LinkedName(Link(f)) == Some(f.name)
    ensures IsImageLink(Link(f)) <==> f.slot == PhotoSlot
  {
    var head := if f.slot == PhotoSlot then "![]" else "[" + f.title + "]";
    assert Link(f) == head + "(/data/" + f.name + ")";
    LinkedNameOf(head, f.name);
  }

  predicate HasSlot(fs: seq<Saved>, s: Slot) {
    exists i :: 0 <= i < |fs| && fs[i].slot == s
  }

  /** Whether the message fills slot `s`. */
  predicate Filled(m: Message, s: Slot) {
    match s
    case PhotoSlot => |m.photo| > 0
    case DocumentSlot => m.document.Some?
    case VideoSlot => m.video.Some?
    case AudioSlot => m.audio.Some?
    case VoiceSlot => m.voice.Some?
  }

  /** Strictly increasing slot rank: at most one file per slot, in
      processing order. */
  predicate InSlotOrder(fs: seq<Saved>) {
    forall i, j :: 0 <= i < j < |fs| ==> Rank(fs[i].slot) < Rank(fs[j].slot)
  }

  predicate RanksBelow(fs: seq<Saved>, r: nat) {
    forall i :: 0 <= i < |fs| ==> Rank(fs[i].slot) < r
  }

  lemma AppendSlot(fs: seq<Saved>, g: seq<Saved>, r: nat)
    requires InSlotOrder(fs) && RanksBelow(fs, r)
    requires |g| <= 1 && forall i :: 0 <= i < |g| ==> Rank(g[i].slot) == r
    ensures InSlotOrder(fs + g) && RanksBelow(fs + g, r + 1)
  {
    if |g| == 1 {
      assert forall i :: 0 <= i < |fs| ==> (fs + g)[i] == fs[i];
      assert (fs + g)[|fs|] == g[0];
    } else {
      assert fs + g == fs;
    }
  }

  lemma AppendHasSlot(fs: seq<Saved>, g: seq<Saved>, s: Slot, filled: bool, t: Slot)
    requires OneFor(g, s, filled)
    ensures HasSlot(fs + g, t) <==> HasSlot(fs, t) || (filled && s == t)
  {
    if HasSlot(fs, t) {
      var i :| 0 <= i < |fs| && fs[i].slot == t;
      assert (fs + g)[i] == fs[i];
    }
    if filled {
      assert (fs + g)[|fs|] == g[0];
    }
    if HasSlot(fs + g, t) {
      var i :| 0 <= i < |fs + g| && (fs + g)[i].slot == t;
      if i < |fs| { assert fs[i] == (fs + g)[i]; } else { assert g[i - |fs|] == (fs + g)[i]; }
    }
  }

  lemma AppendPlain(fs: seq<Saved>, g: seq<Saved>, s: Slot, filled: bool)
    requires forall i :: 0 <= i < |fs| ==> '/' !in fs[i].name
    requires OneFor(g, s, filled)
    ensures forall i :: 0 <= i < |fs + g| ==> '/' !in (fs + g)[i].name
  {
    forall i | 0 <= i < |fs + g| ensures '/' !in (fs + g)[i].name {
      if i < |fs| { assert (fs + g)[i] == fs[i]; } else { assert (fs + g)[i] == g[i - |fs|]; }
    }
  }

  /** Saved files come in slot order (photo, document, video, audio,
      voice), at most one per slot. */
  lemma SavedFilesInOrder(m: Message)
    ensures InSlotOrder(SavedFiles(m))
  {
    SlotRunsInOrder(SavePhoto(m), SaveDocument(m), SaveVideo(m), SaveAudio(m), SaveVoice(m));
  }

  /** At most one file from each slot, concatenated in slot order. */
  lemma SlotRunsInOrder(p: seq<Saved>, d: seq<Saved>, v: seq<Saved>, a: seq<Saved>, o: seq<Saved>)
    requires OneFor(p, PhotoSlot, |p| == 1) && OneFor(d, DocumentSlot, |d| == 1)
    requires OneFor(v, VideoSlot, |v| == 1) && OneFor(a, AudioSlot, |a| == 1)
    requires OneFor(o, VoiceSlot, |o| == 1)
    ensures InSlotOrder(p + d + v + a + o)
  {
    var s0: seq<Saved> := [];
    assert s0 + p == p;
    AppendSlot(s0, p, 0);
    AppendSlot(p, d, 1);
    AppendSlot(p + d, v, 2);
    AppendSlot(p + d + v, a, 3);
    AppendSlot(p + d + v + a, o, 4);
  }

  /** Every saved file has a plain (separator-free) name. */
  lemma SavedNamesPlain(m: Message)
    ensures forall i :: 0 <= i < |SavedFiles(m)| ==> '/' !in SavedFiles(m)[i].name
  {
    var p, d, v, a, o := SavePhoto(m), SaveDocument(m), SaveVideo(m), SaveAudio(m), SaveVoice(m);
    var s0: seq<Saved> := [];
    assert s0 + p == p;
    AppendPlain(s0, p, PhotoSlot, |m.photo| > 0);
    AppendPlain(p, d, DocumentSlot, m.document.Some?);
    AppendPlain(p + d, v, VideoSlot, m.video.Some?);
    AppendPlain(p + d + v, a, AudioSlot, m.audio.Some?);
    AppendPlain(p + d + v + a, o, VoiceSlot, m.voice.Some?);
  }

  /** A slot has a saved file exactly when the message fills it. */
  lemma SavedFilesCoverSlots(m: Message, t: Slot)
    ensures HasSlot(SavedFiles(m), t) <==> Filled(m, t)
  {
    var p, d, v, a, o := SavePhoto(m), SaveDocument(m), SaveVideo(m), SaveAudio(m), SaveVoice(m);
    var s0: seq<Saved> := [];
    assert s0 + p == p;
    AppendHasSlot(s0, p, PhotoSlot, |m.photo| > 0, t);
    AppendHasSlot(p, d, DocumentSlot, m.document.Some?, t);
    AppendHasSlot(p + d, v, VideoSlot, m.video.Some?, t);
    AppendHasSlot(p + d + v, a, AudioSlot, m.audio.Some?, t);
    AppendHasSlot(p + d + v + a, o, VoiceSlot, m.voice.Some?, t);
  }

  /** Links and saved files correspond one to one and in the same order:
      the i-th link targets `/data/` plus the i-th file name, and only the
      photo renders as an image. */
  lemma LinksMatchFiles(m: Message, transcribe: string -> Option<string>)
    ensures var fs := SavedFiles(m);
      var links := Links(fs);
      var files := Compose(m, transcribe).files;
      && |links| == |files|
      && (forall i :: 0 <= i < |links| ==> LinkedName(links[i]) == Some(files[i]))
      && (forall i :: 0 <= i < |links| ==> (IsImageLink(links[i]) <==> fs[i].slot == PhotoSlot))
  {
    var fs := SavedFiles(m);
    SavedNamesPlain(m);
    forall i | 0 <= i < |fs| ensures LinkedName(Links(fs)[i]) == Some(Names(fs)[i]) {
      LinkedNameRoundTrip(fs[i]);
    }
    forall i | 0 <= i < |fs| ensures IsImageLink(Links(fs)[i]) <==> fs[i].slot == PhotoSlot {
      LinkedNameRoundTrip(fs[i]);
    }
  }

  lemma SavedFilesEmpty(m: Message)
    ensures SavedFiles(m) == [] <==> m.NoAttachments()
  {
  }

  lemma {:induction false} NoCandidateWithoutSound(fs: seq<Saved>)
    requires forall i :: 0 <= i < |fs| ==> fs[i].slot != AudioSlot && fs[i].slot != VoiceSlot
    ensures Candidate(fs) == None
  {
    if fs != [] {
      NoCandidateWithoutSound(fs[..|fs| - 1]);
    }
  }

  /** At most one file goes to speech recognition: the voice message if
      there is one, otherwise the audio file, otherwise none. */
  lemma CandidateRule(m: Message)
    ensures Candidate(SavedFiles(m)) ==
      if m.voice.Some? then Some(SaveVoice(m)[0].name)
      else if m.audio.Some? then Some(SaveAudio(m)[0].name)
      else None
  {
    var p, d, v, a, o := SavePhoto(m), SaveDocument(m), SaveVideo(m), SaveAudio(m), SaveVoice(m);
    var fs := SavedFiles(m);
    if m.voice.Some? {
      assert fs[|fs| - 1] == o[0];
    } else if m.audio.Some? {
      assert fs == p + d + v + a;
      assert fs[|fs| - 1] == a[0];
    } else {
      assert fs == p + d + v;
      forall i | 0 <= i < |fs| ensures fs[i].slot != AudioSlot && fs[i].slot != VoiceSlot {
        if i < |p| { assert fs[i] == p[i]; }
        else if i < |p + d| { assert fs[i] == d[i - |p|]; }
        else { assert fs[i] == v[i - |p + d|]; }
      }
      NoCandidateWithoutSound(fs);
    }
  }

  /** The recogniser is consulted only for the candidate file: two
      recognisers that agree on it (or any two, when there is no candidate)
      yield the same note. */
  lemma OracleOnlyAtCandidate(m: Message, t1: string -> Option<string>, t2: string -> Option<string>)
    requires var c := Candidate(SavedFiles(m)); c.None? || t1(c.value) == t2(c.value)
    ensures Compose(m, t1) == Compose(m, t2)
  {
  }

  /** Recognised text is kept exactly when the recogniser returned a
      non-empty string for the candidate. */
  lemma RecognisedIff(m: Message, transcribe: string -> Option<string>, x: string)
    ensures var c := Candidate(SavedFiles(m));
      Recognised(c, transcribe) == Some(x) <==>
        (m.audio.Some? || m.voice.Some?) && transcribe(c.value) == Some(x) && x != ""
  {
    CandidateRule(m);
  }

  lemma JoinHead(xs: seq<string>, sep: string)
    requires |xs| > 0 && |xs[0]| > 0
    ensures |Join(xs, sep)| > 0 && Join(xs, sep)[0] == xs[0][0]
  {
  }

  /** Whenever there is a link or recognised text, the layout starts with a
      visible character, so it is never blank. */
  lemma LayoutNotBlank(fs: seq<Saved>, audio: Option<string>, text: string)
    requires fs != [] || audio.Some?
    ensures !IsBlank(Layout(Links(fs), audio, text))
  {
    var r := Layout(Links(fs), audio, text);
    if fs != [] {
      JoinHead(Links(fs), LinkSep);
      assert r[0] == Link(fs[0])[0];
    } else {
      assert r[0] == '*';
    }
  }

  /** The body as laid out section by section; the placeholder replaces it
      only when the message has no attachment and blank text. */
  lemma ComposeLayout(m: Message, transcribe: string -> Option<string>)
    ensures var fs := SavedFiles(m);
      var body := Compose(m, transcribe).body;
      var audio := Recognised(Candidate(fs), transcribe);
      && (m.NoAttachments() ==> audio.None?)
      && (m.NoAttachments() && IsBlank(TextBody(m)) ==> body == Placeholder)
      && (!m.NoAttachments() || !IsBlank(TextBody(m)) ==> body == Layout(Links(fs), audio, TextBody(m)))
  {
    var fs := SavedFiles(m);
    var audio := Recognised(Candidate(fs), transcribe);
    var text := TextBody(m);
    SavedFilesEmpty(m);
    PartsLayout(Links(fs), audio, text);
    if !m.NoAttachments() {
      LayoutNotBlank(fs, audio, text);
    } else {
      assert Layout(Links(fs), audio, text) == text;
    }
  }

  /** The saved note is never empty or whitespace-only. */
  lemma BodyNeverBlank(m: Message, transcribe: string -> Option<string>)
    ensures !IsBlank(Compose(m, transcribe).body)
  {
    ComposeLayout(m, transcribe);
    var body := Compose(m, transcribe).body;
    if m.NoAttachments() && IsBlank(TextBody(m)) {
      assert body[0] == '_';
    } else if !m.NoAttachments() {
      SavedFilesEmpty(m);
      LayoutNotBlank(SavedFiles(m), Recognised(Candidate(SavedFiles(m)), transcribe), TextBody(m));
    }
  }

  /** The body is the placeholder exactly when the message has no attachment
      and its text is blank (or is itself the placeholder text). */
  lemma PlaceholderExactly(m: Message, transcribe: string -> Option<string>)
    ensures Compose(m, transcribe).body == Placeholder <==>
      m.NoAttachments() && (IsBlank(TextBody(m)) || TextBody(m) == Placeholder)
  {
    ComposeLayout(m, transcribe);
    SavedFilesEmpty(m);
    var fs := SavedFiles(m);
    var audio := Recognised(Candidate(fs), transcribe);
    if !m.NoAttachments() {
      LinksNotPlaceholder(fs, audio, TextBody(m));
    } else if !IsBlank(TextBody(m)) {
      assert Layout(Links(fs), audio, TextBody(m)) == TextBody(m);
    }
  }

  /** A body that starts with links cannot be the placeholder. */
  lemma LinksNotPlaceholder(fs: seq<Saved>, audio: Option<string>, text: string)
    requires fs != []
    ensures Layout(Links(fs), audio, text) != Placeholder
  {
    var r := Layout(Links(fs), audio, text);
    JoinHead(Links(fs), LinkSep);
    assert r[0] == Link(fs[0])[0];
    assert r[0] != Placeholder[0];
  }


  /** A message with no attachment and non-blank text is saved verbatim. */
  lemma PlainTextVerbatim(m: Message, transcribe: string -> Option<string>)
    requires m.NoAttachments() && !IsBlank(TextBody(m))
    ensures Compose(m, transcribe).body == TextBody(m)
    ensures Compose(m, transcribe).files == []
  {
    ComposeLayout(m, transcribe);
  }

  /** A photo is saved from its last (largest) rendition, as `<id>.jpg`,
      and comes first among the saved files. */
  lemma PhotoNaming(m: Message)
    requires |m.photo| > 0 && '/' !in m.photo[|m.photo| - 1].fileId
    ensures var id := m.photo[|m.photo| - 1].fileId;
      SavedFiles(m)[0] == Saved(PhotoSlot, id, id + ".jpg", "")
  {
    NameOfPlainJoin(m.photo[|m.photo| - 1].fileId, ".jpg");
  }

  /** A document named `<stem><ext>` is saved as `<id><ext>` and its link is
      titled with the original file name. */
  lemma DocumentNaming(m: Message, stem: string, ext: string)
    requires m.document.Some? && m.document.value.fileName == Some(stem + ext)
    requires '/' !in m.document.value.fileId
    requires stem != [] && '/' !in stem
    requires IsExtension(ext)
    ensures var id := m.document.value.fileId;
      SaveDocument(m) == [Saved(DocumentSlot, id, id + ext, stem + ext)]
  {
    var d := m.document.value;
    var id := d.fileId;
    assert Or(d.fileName, id) == stem + ext;
    SuffixOfStemAndExtension(stem, ext);
    NameOfPlainJoin(id, ext);
  }

  /** A document without a file name is saved under its bare id (ids carry
      no extension) and its link is titled with that local name. */
  lemma UnnamedDocumentNaming(m: Message)
    requires m.document.Some? && m.document.value.fileName.None?
    requires var id := m.document.value.fileId; '/' !in id && NoInnerDot(id)
    ensures var id := m.document.value.fileId;
      SaveDocument(m) == [Saved(DocumentSlot, id, id, id)]
  {
    var d := m.document.value;
    var id := d.fileId;
    var ext := Suffix(Or(d.fileName, id));
    assert Or(d.fileName, id) == id;
    NoSuffixWithoutInnerDot(id);
    assert id + ext == id;
    NameOfPlain(id);
    assert LocalName(id + ext) == id;
  }

  /** A named document without an extension (`Makefile`, `notes.`) is saved
      under its bare id and titled with its file name. */
  lemma DocumentWithoutExtension(m: Message)
    requires m.document.Some?
    requires var d := m.document.value; '/' !in d.fileId && Suffix(Or(d.fileName, d.fileId)) == ""
    ensures var d := m.document.value;
      SaveDocument(m) == [Saved(DocumentSlot, d.fileId, d.fileId, Or(d.fileName, d.fileId))]
  {
    var d := m.document.value;
    var id := d.fileId;
    var ext := Suffix(Or(d.fileName, id));
    assert id + ext == id;
    NameOfPlain(id);
    assert LocalName(id + ext) == id;
  }

  /** An audio file named `<stem><ext>` keeps its extension. */
  lemma AudioNaming(m: Message, stem: string, ext: string)
    requires m.audio.Some? && m.audio.value.fileName == Some(stem + ext)
    requires '/' !in m.audio.value.fileId
    requires stem != [] && '/' !in stem
    requires IsExtension(ext)
    ensures var id := m.audio.value.fileId;
      SaveAudio(m) == [Saved(AudioSlot, id, id + ext, AudioLabel)]
  {
    var a := m.audio.value;
    assert Or(a.fileName, a.fileId) == stem + ext;
    SuffixOfStemAndExtension(stem, ext);
    NameOfPlainJoin(a.fileId, ext);
  }

  /** An audio file whose name has no extension is saved as `<id>.mp3`. */
  lemma AudioDefaultExtension(m: Message)
    requires m.audio.Some?
    requires var a := m.audio.value; '/' !in a.fileId && Suffix(Or(a.fileName, a.fileId)) == ""
    ensures var id := m.audio.value.fileId;
      SaveAudio(m) == [Saved(AudioSlot, id, id + ".mp3", AudioLabel)]
  {
    NameOfPlainJoin(m.audio.value.fileId, ".mp3");
  }

  /** Video and voice get fixed extensions and fixed link titles. */
  lemma VideoAndVoiceNaming(m: Message)
    requires m.video.Some? ==> '/' !in m.video.value.fileId
    requires m.voice.Some? ==> '/' !in m.voice.value.fileId
    ensures m.video.Some? ==> var id := m.video.value.fileId;
      SaveVideo(m) == [Saved(VideoSlot, id, id + ".mp4", VideoLabel)]
    ensures m.voice.Some? ==> var id := m.voice.value.fileId;
      SaveVoice(m) == [Saved(VoiceSlot, id, id + ".ogg", VoiceLabel)]
  {
    if m.video.Some? { NameOfPlainJoin(m.video.value.fileId, ".mp4"); }
    if m.voice.Some? { NameOfPlainJoin(m.voice.value.fileId, ".ogg"); }
  }

  /** A captioned voice note whose recognition succeeds: the voice link,
      then the recognised text, then the caption, each section closed by a
      horizontal rule and separated from the next by a blank line. */
  lemma VoiceNoteLayout(m: Message, transcribe: string -> Option<string>, id: string, said: string, caption: string)
    requires m.voice == Some(Voice(id)) && '/' !in id
    requires m.photo == [] && m.document.None? && m.video.None? && m.audio.None?
    requires m.text.None? && m.caption == Some(caption) && caption != ""
    requires transcribe(id + ".ogg") == Some(said) && said != ""
    ensures var name := id + ".ogg";
      var link := "[" + VoiceLabel + "](" + DataPrefix + name + ")";
      var sound := AudioHeader + SectionSep + said + SectionSep + Rule + SectionSep;
      Compose(m, transcribe) == Note(link + SectionSep + Rule + SectionSep + sound + caption, [name])
  {
    var name := id + ".ogg";
    var f := Saved(VoiceSlot, id, name, VoiceLabel);
    VideoAndVoiceNaming(m);
    assert SavedFiles(m) == [f];
    assert Candidate([f]) == Some(name);
    assert Recognised(Candidate([f]), transcribe) == Some(said);
    assert Links([f]) == [Link(f)];
    ComposeLayout(m, transcribe);
    OneLinkWithAudio(Link(f), said, caption);
  }

  /** The layout of one link, a recognised text and a message text. */
  lemma OneLinkWithAudio(link: string, said: string, text: string)
    requires text != ""
    ensures Layout([link], Some(said), text)
      == link + SectionSep + Rule + SectionSep + (AudioHeader + SectionSep + said + SectionSep + Rule + SectionSep) + text
  {
    assert Join([link], LinkSep) == link;
  }
}
