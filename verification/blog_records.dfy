/** The payload records of the blog operations: a blog post and a comment. */
module BlogRecords {
  import opened ChainTypes

  datatype BlogPost = BlogPost(
    responseTo: ObjectId,  // the post this one responds to
    author: AccountId,
    permlink: Bytes,
    title: Bytes,
    tagline: Bytes,
    summary: Bytes,
    body: Bytes,
    tags: seq<Bytes>,
    metaData: Bytes        // JSON object with extra, non-standard properties
  )

  datatype CommentData = CommentData(
    topic: ObjectId,       // a blog post, an account or any other object
    replyTo: ObjectId,     // the comment this one replies to
    author: AccountId,
    body: Bytes,
    metaData: Bytes
  )

  /** The category of a post: its first tag, or the empty string when it has none. */
  function Category(p: BlogPost): Bytes {
    if |p.tags| > 0 then p.tags[0] else []
  }
}
