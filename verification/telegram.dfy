/**
 * The part of a Telegram `Message` the bot reads. Every attachment slot is
 * optional; a message carries at most one of each kind, and a photo comes
 * as a list of renditions, smallest first.
 */
module Telegram {
  import opened Wrappers

  datatype User = User(id: int)
  datatype PhotoSize = PhotoSize(fileId: string)
  datatype Document = Document(fileId: string, fileName: Option<string>)
  datatype Video = Video(fileId: string)
  datatype Audio = Audio(fileId: string, fileName: Option<string>)
  datatype Voice = Voice(fileId: string)

  datatype Message = Message(
    fromUser: Option<User>,
    text: Option<string>,
    caption: Option<string>,
    photo: seq<PhotoSize>,
    document: Option<Document>,
    video: Option<Video>,
    audio: Option<Audio>,
    voice: Option<Voice>)
  {
    /** No attachment slot is filled. */
    predicate NoAttachments() {
      photo == [] && document.None? && video.None? && audio.None? && voice.None?
    }
  }
}
