/** The four blog operations: who pays their fee and how each is validated.
    Fee amounts are not modelled; only the paying account is. */
module BlogOperations {
  import opened ChainTypes
  import opened BlogRecords
  import opened BlogValidate

  datatype PostCreateOp = PostCreateOp(post: BlogPost)

  datatype PostUpdateOp = PostUpdateOp(postId: ObjectId, post: BlogPost)

  datatype CommentCreateOp = CommentCreateOp(comment: CommentData)

  /** A vote on any object. The evaluator copies a `tag` string into the vote,
      so the operation carries one under that name. */
  datatype VoteOp = VoteOp(
    voter: AccountId,
    tag: Bytes,
    votingOn: ObjectId,
    weightType: ObjectId,  // the asset or other unit the weight is counted in
    weight: int64          // negative means voting against
  )

  datatype Operation =
    | PostCreate(create: PostCreateOp)
    | PostUpdate(update: PostUpdateOp)
    | CommentCreate(commentOp: CommentCreateOp)
    | Vote(vote: VoteOp)

  /** A vote operation whose weight was left at its default. */
  function NewVoteOp(voter: AccountId, tag: Bytes, votingOn: ObjectId, weightType: ObjectId): (r: VoteOp)
    ensures r.weight == 0
    ensures r.voter == voter && r.tag == tag && r.votingOn == votingOn && r.weightType == weightType
  {
    VoteOp(voter, tag, votingOn, weightType, 0)
  }

  /** The account that pays for the operation. */
  function FeePayer(op: Operation): AccountId {
    match op
    case PostCreate(c) => c.post.author
    case PostUpdate(u) => u.post.author
    case CommentCreate(c) => c.comment.author
    case Vote(v) => v.voter
  }

  /** The operation's own validate(): the payload's validation, nothing for a vote. */
  predicate OperationValid(op: Operation) {
    match op
    case PostCreate(c) => PostValid(c.post)
    case PostUpdate(u) => PostValid(u.post)
    case CommentCreate(c) => CommentValid(c.comment)
    case Vote(_) => true
  }

  /** Post and comment operations are paid by the author of their payload,
      a vote by its voter; nothing else of the operation matters. */
  lemma FeePayerRules(op: Operation)
    ensures op.PostCreate? ==> FeePayer(op) == op.create.post.author
    ensures op.PostUpdate? ==> FeePayer(op) == op.update.post.author
    ensures op.CommentCreate? ==> FeePayer(op) == op.commentOp.comment.author
    ensures op.Vote? ==> FeePayer(op) == op.vote.voter
    ensures op.PostUpdate? ==> forall id :: FeePayer(PostUpdate(op.update.(postId := id))) == FeePayer(op)
  {
  }

  /** Validation of a post or comment operation is exactly that of its
      payload; every vote operation is valid, whatever its weight. */
  lemma ValidationDelegates(op: Operation)
    ensures op.PostCreate? ==> (OperationValid(op) <==> PostValid(op.create.post))
    ensures op.PostUpdate? ==> (OperationValid(op) <==> PostValid(op.update.post))
    ensures op.CommentCreate? ==> (OperationValid(op) <==> CommentValid(op.commentOp.comment))
    ensures op.Vote? ==> OperationValid(op) && forall w :: OperationValid(Vote(op.vote.(weight := w)))
  {
  }
}
