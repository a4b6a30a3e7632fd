/** The attachment factory of the posts service: builds an attachment
    snapshot from a transfer object, generating an id and a creation date
    only where the object carries none. The fresh id and the current time
    are parameters. */
module Attachments {
  import opened Wrappers

  /** The fields of the transfer object the factory reads. */
  datatype AttachmentDto = AttachmentDto(
    id: Option<int>,
    attachmentId: Option<Uuid>,
    postId: Uuid,
    ownerId: Uuid,
    filename: string,
    md5: string,
    extension: string,
    fileUrl: string,
    createDate: Option<Timestamp>)

  /** The snapshot handed to `Attachment.restore`. */
  datatype AttachmentSnapshot = AttachmentSnapshot(
    id: Option<int>,
    attachmentId: Uuid,
    postId: Uuid,
    ownerId: Uuid,
    filename: string,
    md5: string,
    extension: string,
    fileUrl: string,
    createDate: Timestamp)

  /** `from(dto)`: copies every field; a missing attachment id becomes
      `freshId` and a missing creation date becomes `now`. No validation. */
  function From(dto: AttachmentDto, freshId: Uuid, now: Timestamp): (s: AttachmentSnapshot)
    ensures dto.attachmentId.Some? ==> s.attachmentId == dto.attachmentId.value
    ensures dto.attachmentId.None? ==> s.attachmentId == freshId
    ensures dto.createDate.Some? ==> s.createDate == dto.createDate.value
    ensures dto.createDate.None? ==> s.createDate == now
    ensures s.id == dto.id && s.postId == dto.postId && s.ownerId == dto.ownerId
    ensures s.filename == dto.filename && s.md5 == dto.md5
    ensures s.extension == dto.extension && s.fileUrl == dto.fileUrl
  {
    AttachmentSnapshot(
      dto.id,
      if dto.attachmentId.Some? then dto.attachmentId.value else freshId,
      dto.postId,
      dto.ownerId,
      dto.filename,
      dto.md5,
      dto.extension,
      dto.fileUrl,
      if dto.createDate.Some? then dto.createDate.value else now)
  }

  /** The transfer object that carries every field of a snapshot. */
  function DtoOf(s: AttachmentSnapshot): AttachmentDto {
    AttachmentDto(s.id, Some(s.attachmentId), s.postId, s.ownerId, s.filename,
                  s.md5, s.extension, s.fileUrl, Some(s.createDate))
  }

  /** With an id and a date supplied, the generated values are not used:
      repeated calls build equal snapshots. */
  lemma FromIgnoresGeneratorsWhenComplete(dto: AttachmentDto, id1: Uuid, now1: Timestamp,
                                          id2: Uuid, now2: Timestamp)
    requires dto.attachmentId.Some? && dto.createDate.Some?
    ensures From(dto, id1, now1) == From(dto, id2, now2)
  {
  }

  /** A missing id or date is the only way the generated values enter. */
  lemma FromDependsOnGeneratorsOnlyWhenMissing(dto: AttachmentDto, id1: Uuid, now1: Timestamp,
                                               id2: Uuid, now2: Timestamp)
    ensures From(dto, id1, now1).attachmentId != From(dto, id2, now2).attachmentId
            ==> dto.attachmentId.None? && id1 != id2
    ensures From(dto, id1, now1).createDate != From(dto, id2, now2).createDate
            ==> dto.createDate.None? && now1 != now2
  {
  }

  /** Every snapshot is rebuilt exactly from its own transfer object. */
  lemma FromDtoOfRoundTrip(s: AttachmentSnapshot, freshId: Uuid, now: Timestamp)
    ensures From(DtoOf(s), freshId, now) == s
  {
  }

  /** Building from a built snapshot's own fields changes nothing. */
  lemma FromIdempotent(dto: AttachmentDto, freshId: Uuid, now: Timestamp, freshId2: Uuid, now2: Timestamp)
    ensures From(DtoOf(From(dto, freshId, now)), freshId2, now2) == From(dto, freshId, now)
  {
  }
}
