/** The evaluators of the four blog operations, acting on the object
    database's post, comment and vote tables. The head-block time is a
    parameter. An operation that fails leaves every table as it was (the
    database undoes the failed operation). */
module BlogEvaluator {
  import opened ChainTypes
  import opened BlogRecords
  import opened BlogOperations
  import opened BlogObjects

  /** The (space, type) pair that every id of one table carries. */
  datatype ObjectKind = ObjectKind(space: uint8, objType: uint8)

  function IdOf(kind: ObjectKind, instance: nat): ObjectId {
    ObjectId(kind.space, kind.objType, instance)
  }

  /** The kind an id carries. */
  function KindOf(id: ObjectId): ObjectKind {
    ObjectKind(id.space, id.objType)
  }

  /** None of the ids is of one of the three blog kinds. */
  predicate ForeignIds(ids: set<ObjectId>, postKind: ObjectKind, commentKind: ObjectKind, voteKind: ObjectKind) {
    forall id :: id in ids ==> KindOf(id) != postKind && KindOf(id) != commentKind && KindOf(id) != voteKind
  }

  /** How ids are laid out among the tables: the three blog kinds are
      distinct, the null id 0.0.0 (object_id_type(), which names no object)
      is of none of them and is not among the other objects, and no other
      object is of a blog kind. */
  predicate IdLayout(postKind: ObjectKind, commentKind: ObjectKind, voteKind: ObjectKind, others: set<ObjectId>) {
    && postKind != commentKind && postKind != voteKind && commentKind != voteKind
    && KindOf(DefaultId) != postKind && KindOf(DefaultId) != commentKind && KindOf(DefaultId) != voteKind
    && DefaultId !in others
    && ForeignIds(others, postKind, commentKind, voteKind)
  }

  /** Every key is an id of the given kind with an instance already handed out. */
  predicate IdsFrom(keys: set<ObjectId>, kind: ObjectKind, next: nat) {
    forall id :: id in keys ==> id.space == kind.space && id.objType == kind.objType && id.instance < next
  }

  /** The fields the vote evaluator writes, over the vote it starts from
      (a fresh one, or the stored one). */
  function CastVote(v: VoteObject, op: VoteOp, now: Time): VoteObject {
    v.(voter := op.voter, tag := op.tag, voteTime := now, lastDecayUpdate := now,
       votingOn := op.votingOn, weight := op.weight, weightType := op.weightType)
  }

  /** The by_voter_voting_on lookup finds a vote. */
  predicate HasVote(t: VoteTable, voter: AccountId, votingOn: ObjectId) {
    exists id :: id in t && t[id].voter == voter && t[id].votingOn == votingOn
  }

  /** The vote the by_voter_voting_on lookup finds. */
  ghost function FoundVote(t: VoteTable, voter: AccountId, votingOn: ObjectId): (id: ObjectId)
    requires HasVote(t, voter, votingOn)
    ensures id in t && t[id].voter == voter && t[id].votingOn == votingOn
  {
    var id :| id in t && t[id].voter == voter && t[id].votingOn == votingOn; id
  }

  /** No stored vote has weight 0. */
  predicate VotesNonZero(t: VoteTable) {
    forall id :: id in t ==> t[id].weight != 0
  }

  /** Every stored vote has the default sequence 0. */
  predicate VotesUnsequenced(t: VoteTable) {
    forall id :: id in t ==> t[id].sequence == 0
  }

  class Database {
    const postKind: ObjectKind
    const commentKind: ObjectKind
    const voteKind: ObjectKind
    /** The objects of the rest of the chain (accounts, assets, ...), which a
        vote may target; none of them is of a blog kind, and the blog
        evaluators never change them. */
    const others: set<ObjectId>

    var posts: PostTable
    var comments: CommentTable
    var votes: VoteTable
    var nextPost: nat
    var nextComment: nat
    var nextVote: nat

    ghost predicate Valid()
      reads this
    {
      && IdLayout(postKind, commentKind, voteKind, others)
      && IdsFrom(posts.Keys, postKind, nextPost) && PostTableValid(posts)
      && IdsFrom(comments.Keys, commentKind, nextComment) && CommentTableValid(comments)
      && IdsFrom(votes.Keys, voteKind, nextVote) && VoteTableValid(votes)
    }

    constructor (postKind: ObjectKind, commentKind: ObjectKind, voteKind: ObjectKind, others: set<ObjectId>)
      requires IdLayout(postKind, commentKind, voteKind, others)
      ensures Valid()
      ensures this.postKind == postKind && this.commentKind == commentKind && this.voteKind == voteKind
      ensures this.others == others
      ensures posts == map[] && comments == map[] && votes == map[]
      ensures nextPost == 0 && nextComment == 0 && nextVote == 0
    {
      this.postKind, this.commentKind, this.voteKind := postKind, commentKind, voteKind;
      this.others := others;
      posts, comments, votes := map[], map[], map[];
      nextPost, nextComment, nextVote := 0, 0, 0;
    }

    /** find_object: the id names a stored object. */
    predicate ObjectExists(id: ObjectId)
      reads this
    {
      id in posts || id in comments || id in votes || id in others
    }

    /** do_evaluate of the four evaluators: only a vote can fail, and only
        when the object it votes on does not exist. */
    function Evaluate(op: Operation): (r: Outcome)
      reads this
      ensures r.Fail? <==> op.Vote? && !ObjectExists(op.vote.votingOn)
      ensures r.Fail? ==> r.error == UnknownObject
      // in a valid database, a vote on an id of a blog kind passes exactly
      // when that kind's table holds the id
      ensures Valid() && op.Vote? && KindOf(op.vote.votingOn) == postKind ==>
              (r.Pass? <==> op.vote.votingOn in posts)
      ensures Valid() && op.Vote? && KindOf(op.vote.votingOn) == commentKind ==>
              (r.Pass? <==> op.vote.votingOn in comments)
      ensures Valid() && op.Vote? && KindOf(op.vote.votingOn) == voteKind ==>
              (r.Pass? <==> op.vote.votingOn in votes)
      // the null id names no object
      ensures Valid() && op.Vote? && op.vote.votingOn == DefaultId ==> r == Fail(UnknownObject)
    {
      match op
      case Vote(v) => if ObjectExists(v.votingOn) then Pass else Fail(UnknownObject)
      case _ => Pass
    }

    /** blog_post_create_evaluator::do_apply. */
    method ApplyPostCreate(op: PostCreateOp, now: Time) returns (r: Result<ObjectId>)
      requires Valid()
      modifies this
      ensures Valid()
      ensures comments == old(comments) && votes == old(votes)
      ensures nextComment == old(nextComment) && nextVote == old(nextVote)
      ensures r.Ok? <==>
              forall b :: b in old(posts) ==>
                old(posts)[b].created != now &&
                !(PostAuthor(old(posts)[b]) == op.post.author && PostPermlink(old(posts)[b]) == op.post.permlink)
      ensures r.Ok? ==>
              && r.value == IdOf(postKind, old(nextPost)) && r.value !in old(posts) && r.value != DefaultId
              && posts == old(posts)[r.value := BlogPostObject(r.value, op.post, now, now)]
              && nextPost == old(nextPost) + 1
              && PostAuthor(posts[r.value]) == FeePayer(PostCreate(op))
      ensures r.Err? ==> r.error == UniqueIndexViolation && posts == old(posts) && nextPost == old(nextPost)
    {
      var id := IdOf(postKind, nextPost);
      var obj := BlogPostObject(id, op.post, now, now);
      if !PostFits(posts, obj) {
        return Err(UniqueIndexViolation);
      }
      PostStoreIff(posts, obj);
      posts := posts[id := obj];
      nextPost := nextPost + 1;
      return Ok(id);
    }

    /** blog_post_update_evaluator::do_apply. */
    method ApplyPostUpdate(op: PostUpdateOp, now: Time) returns (r: Outcome)
      requires Valid()
      modifies this
      ensures Valid()
      ensures comments == old(comments) && votes == old(votes)
      ensures nextPost == old(nextPost) && nextComment == old(nextComment) && nextVote == old(nextVote)
      ensures op.postId !in old(posts) ==> r == Fail(UnknownObject)
      ensures op.postId in old(posts) && PostAuthor(old(posts)[op.postId]) != op.post.author ==>
              r == Fail(AuthorMismatch)
      ensures r.Fail? && op.postId in old(posts) && PostAuthor(old(posts)[op.postId]) == op.post.author ==>
              r == Fail(UniqueIndexViolation)
      ensures r.Pass? <==>
              && op.postId in old(posts)
              && PostAuthor(old(posts)[op.postId]) == op.post.author
              && forall b :: b in old(posts) && b != op.postId ==>
                   !(PostAuthor(old(posts)[b]) == op.post.author && PostPermlink(old(posts)[b]) == op.post.permlink)
      ensures r.Pass? ==>
              && posts == old(posts)[op.postId := old(posts)[op.postId].(post := op.post, lastUpdate := now)]
              && posts[op.postId].created == old(posts)[op.postId].created
              && PostAuthor(posts[op.postId]) == FeePayer(PostUpdate(op))
      ensures r.Fail? ==> posts == old(posts)
    {
      if op.postId !in posts {
        return Fail(UnknownObject);
      }
      var stored := posts[op.postId];
      if PostAuthor(stored) != op.post.author {
        return Fail(AuthorMismatch);
      }
      var updated := stored.(post := op.post, lastUpdate := now);
      assert forall b :: b in posts && b != op.postId ==> posts[b].created != updated.created;
      if !PostFits(posts, updated) {
        return Fail(UniqueIndexViolation);
      }
      PostStoreIff(posts, updated);
      posts := posts[op.postId := updated];
      return Pass;
    }

    /** comment_create_evaluator::do_apply. */
    method ApplyCommentCreate(op: CommentCreateOp, now: Time) returns (r: Result<ObjectId>)
      requires Valid()
      modifies this
      ensures Valid()
      ensures posts == old(posts) && votes == old(votes)
      ensures nextPost == old(nextPost) && nextVote == old(nextVote)
      ensures r.Ok? <==> forall b :: b in old(comments) ==> old(comments)[b].created != now
      ensures r.Ok? ==>
              && r.value == IdOf(commentKind, old(nextComment)) && r.value !in old(comments) && r.value != DefaultId
              && comments == old(comments)[r.value := CommentObject(r.value, op.comment, now)]
              && nextComment == old(nextComment) + 1
              && CommentAuthor(comments[r.value]) == FeePayer(CommentCreate(op))
      ensures r.Err? ==> r.error == UniqueIndexViolation && comments == old(comments) && nextComment == old(nextComment)
    {
      var id := IdOf(commentKind, nextComment);
      var obj := CommentObject(id, op.comment, now);
      if !CommentFits(comments, obj) {
        return Err(UniqueIndexViolation);
      }
      CommentStoreIff(comments, obj);
      comments := comments[id := obj];
      nextComment := nextComment + 1;
      return Ok(id);
    }

    /** vote_evaluator::do_apply: creates, modifies or removes the one vote
        of op.voter on op.votingOn. */
    method ApplyVote(op: VoteOp, now: Time) returns (r: Result<ObjectId>)
      requires Valid()
      modifies this
      ensures Valid()
      ensures posts == old(posts) && comments == old(comments)
      ensures nextPost == old(nextPost) && nextComment == old(nextComment)
      ensures VotesNonZero(old(votes)) ==> VotesNonZero(votes)
      ensures VotesUnsequenced(old(votes)) ==> VotesUnsequenced(votes)
      // the null id is returned exactly when a vote is withdrawn
      ensures r == Ok(DefaultId) <==> HasVote(old(votes), op.voter, op.votingOn) && op.weight == 0
      // no vote of this voter on this object yet
      ensures !HasVote(old(votes), op.voter, op.votingOn) && op.weight == 0 ==>
              r == Err(ZeroWeightNewVote) && votes == old(votes) && nextVote == old(nextVote)
      ensures !HasVote(old(votes), op.voter, op.votingOn) && op.weight != 0 ==>
              var id := IdOf(voteKind, old(nextVote));
              if forall b :: b in old(votes) ==> !(old(votes)[b].voter == op.voter && old(votes)[b].sequence == 0)
              then
                && r == Ok(id) && id !in old(votes)
                && votes == old(votes)[id := CastVote(NewVoteObject(id), op, now)]
                && votes[id].voteTime == now && votes[id].lastDecayUpdate == now
                && nextVote == old(nextVote) + 1
              else
                r == Err(UniqueIndexViolation) && votes == old(votes) && nextVote == old(nextVote)
      // an existing vote of this voter on this object
      ensures HasVote(old(votes), op.voter, op.votingOn) ==>
              var id := FoundVote(old(votes), op.voter, op.votingOn);
              && nextVote == old(nextVote)
              && if op.weight == 0
                 then r == Ok(DefaultId) && votes == old(votes) - {id}
                 else r == Ok(id) && votes == old(votes)[id := CastVote(old(votes)[id], op, now)]
    {
      if !HasVote(votes, op.voter, op.votingOn) {
        if op.weight == 0 {
          return Err(ZeroWeightNewVote);
        }
        var id := IdOf(voteKind, nextVote);
        var v := CastVote(NewVoteObject(id), op, now);
        VoteStoreIff(votes, v);
        if !VoteFits(votes, v) {
          return Err(UniqueIndexViolation);
        }
        votes := votes[id := v];
        nextVote := nextVote + 1;
        return Ok(id);
      }
      var id :| id in votes && votes[id].voter == op.voter && votes[id].votingOn == op.votingOn;
      assert id == FoundVote(votes, op.voter, op.votingOn);
      if op.weight == 0 {
        votes := votes - {id};
        return Ok(DefaultId);
      }
      var v := CastVote(votes[id], op, now);
      VoteStoreIff(votes, v);
      votes := votes[id := v];
      return Ok(id);
    }

    /** A vote operation whose weight was left at its default: it never
        creates a vote, and it withdraws the voter's vote on the object when
        there is one, so afterwards the voter has none there. */
    method ApplyDefaultWeightVote(voter: AccountId, tag: Bytes, votingOn: ObjectId, weightType: ObjectId, now: Time)
      returns (r: Result<ObjectId>)
      requires Valid()
      modifies this
      ensures Valid()
      ensures posts == old(posts) && comments == old(comments)
      ensures nextPost == old(nextPost) && nextComment == old(nextComment) && nextVote == old(nextVote)
      ensures !HasVote(old(votes), voter, votingOn) ==> r == Err(ZeroWeightNewVote) && votes == old(votes)
      ensures HasVote(old(votes), voter, votingOn) ==>
              r == Ok(DefaultId) && votes == old(votes) - {FoundVote(old(votes), voter, votingOn)}
      ensures !HasVote(votes, voter, votingOn)
    {
      ghost var before := votes;
      r := ApplyVote(NewVoteOp(voter, tag, votingOn, weightType), now);
      if HasVote(before, voter, votingOn) {
        var found := FoundVote(before, voter, votingOn);
        forall b | b in votes
          ensures !(votes[b].voter == voter && votes[b].votingOn == votingOn)
        {
          assert b != found && b in before;
          assert !VoteKeysClash(before[b], before[found]);
        }
      }
    }
  }

  /** Two posts can never be created at the same head-block time: once one
      is stored, any other post stamped with that time does not fit. */
  lemma OnePostPerBlockTime(t: PostTable, x: BlogPostObject, y: BlogPostObject)
    requires PostTableValid(t) && PostFits(t, x)
    requires y.id != x.id && y.created == x.created
    ensures !PostFits(t[x.id := x], y)
  {
    assert x.id in t[x.id := x];
  }

  /** Under the invariant that every vote has sequence 0, a voter who holds a
      vote on one object cannot create a vote on another one. */
  lemma SecondVoteByVoterRefused(t: VoteTable, op: VoteOp, id: ObjectId, b: ObjectId, now: Time)
    requires VoteTableValid(t) && VotesUnsequenced(t)
    requires b in t && t[b].voter == op.voter && id !in t
    ensures !VoteFits(t, CastVote(NewVoteObject(id), op, now))
  {
    assert b != id;
  }
}
