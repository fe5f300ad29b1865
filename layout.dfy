/**
 * The in-memory images of the payload records that travel inside a packet: the server casts
 * a packet's payload bytes to `UserData`, `TextData` or `FileData` (EventLoop.hpp `parsePack`)
 * and copies a `TextData` out byte for byte (`sendMessages`).  The layouts are those of a
 * little-endian host with natural alignment:
 *
 *   UserData  uid 0..4, username 4..36, password 36..68, action 68, padding to 72
 *   TextData  sender 0..4, receiver 4..8, content 8..520
 *   FileData  sender 0..4, receiver 4..8, filename 8..264, filesize 264..272, action 272
 *
 * server/Message.hpp declares no `action` in `FileData` although server/MsgHandler.hpp reads
 * one; the model places it as one byte after `filesize` (0 upload, 1 download).
 */
module Layout {
  import opened Bytes
  import opened Messages

  const USER_SIZE: nat := 72
  const TEXT_SIZE: nat := 520
  const FILE_SIZE: nat := 273

  function ActionByte(a: FileAction): Byte
  {
    if a == UPLOAD then 0 else 1
  }

  function UserBytes(u: UserData): (b: seq<Byte>)
    ensures |b| == USER_SIZE
  {
    LE32(u.uid) + u.username + u.password + [u.action, 0, 0, 0]
  }

  function UserOf(b: seq<Byte>): UserData
    requires |b| >= USER_SIZE
  {
    UserData(FromLE32(b[..4]), b[4..36], b[36..68], b[68])
  }

  function TextBytes(t: TextData): (b: seq<Byte>)
    ensures |b| == TEXT_SIZE
  {
    LE32(t.sender) + LE32(t.receiver) + t.content
  }

  function TextOf(b: seq<Byte>): TextData
    requires |b| >= TEXT_SIZE
  {
    TextData(FromLE32(b[..4]), FromLE32(b[4..8]), b[8..520])
  }

  function FileBytes(f: FileData): (b: seq<Byte>)
    ensures |b| == FILE_SIZE
  {
    LE32(f.sender) + LE32(f.receiver) + f.filename + SizeHeader(f.filesize) + [ActionByte(f.action)]
  }

  /** A record whose action byte names no action has no `FileData` image. */
  predicate IsFileImage(b: seq<Byte>)
  {
    |b| >= FILE_SIZE && b[272] < 2
  }

  function FileOf(b: seq<Byte>): FileData
    requires IsFileImage(b)
  {
    FileData(FromLE32(b[..4]), FromLE32(b[4..8]), b[8..264], FromSizeHeader(b[264..272]),
             if b[272] == 0 then UPLOAD else DOWNLOAD)
  }

  /** Reading back a record's image, followed by anything, gives the record. */
  lemma UserRoundTrip(u: UserData, extra: seq<Byte>)
    ensures UserOf(UserBytes(u) + extra) == u
  {
    var b := UserBytes(u) + extra;
    assert b[..4] == LE32(u.uid) && b[4..36] == u.username && b[36..68] == u.password;
    LE32RoundTrip(u.uid);
  }

  lemma TextRoundTrip(t: TextData, extra: seq<Byte>)
    ensures TextOf(TextBytes(t) + extra) == t
  {
    var b := TextBytes(t) + extra;
    assert b[..4] == LE32(t.sender) && b[4..8] == LE32(t.receiver) && b[8..520] == t.content;
    LE32RoundTrip(t.sender);
    LE32RoundTrip(t.receiver);
  }

  lemma FileRoundTrip(f: FileData, extra: seq<Byte>)
    ensures IsFileImage(FileBytes(f) + extra) && FileOf(FileBytes(f) + extra) == f
  {
    var b := FileBytes(f) + extra;
    assert b[..4] == LE32(f.sender) && b[4..8] == LE32(f.receiver) && b[8..264] == f.filename;
    assert b[264..272] == SizeHeader(f.filesize);
    LE32RoundTrip(f.sender);
    LE32RoundTrip(f.receiver);
    SizeHeaderRoundTrip(f.filesize);
  }
}
