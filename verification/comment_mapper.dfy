/** CommentMapper: a new comment from a request, and its response form. */
module CommentMapper {
  import opened Common
  import opened Entities
  import opened Dtos

  /** An unsaved comment by `author` on item `itemId`, created at `now`. */
  function MapToComment(req: NewCommentRequest, author: User, itemId: int, now: Time): (c: Comment)
    ensures c.id.None? && c.itemId == itemId && c.author == author
    ensures c.text == req.text && c.created == now
  {
    Comment(None, itemId, author, req.text, now)
  }

  function MapToCommentDto(c: Comment, fmt: Time -> string): (d: CommentDto)
    ensures d.id == c.id && d.authorName == c.author.name && d.text == c.text
    ensures d.created == fmt(c.created)
  {
    CommentDto(c.id, c.author.name, c.text, fmt(c.created))
  }

  /** A new comment renders back with the author's name, the request's
      text and the formatted creation time. */
  lemma NewCommentRendersRequest(req: NewCommentRequest, author: User, itemId: int, now: Time,
                                 fmt: Time -> string)
    ensures MapToCommentDto(MapToComment(req, author, itemId, now), fmt)
         == CommentDto(None, author.name, req.text, fmt(now))
  {
  }
}
