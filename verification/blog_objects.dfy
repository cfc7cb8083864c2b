/** The stored objects of the blog module and the rules of their tables.
    A table maps an object id to the object; each unique index of the
    table becomes a "clash" relation between two objects, and a table is
    well formed when no two of its objects clash. Inserting or modifying an
    object succeeds exactly when the object clashes with no other one. */
module BlogObjects {
  import opened ChainTypes
  import opened ByteStrings
  import opened BlogRecords
  import opened BlogValidate
  import opened BlogOperations

  // ---------------------------------------------------------------------------
  // Objects and accessors
  // ---------------------------------------------------------------------------

  datatype BlogPostObject = BlogPostObject(id: ObjectId, post: BlogPost, created: Time, lastUpdate: Time)

  function PostAuthor(o: BlogPostObject): AccountId {
    o.post.author
  }

  function PostPermlink(o: BlogPostObject): Bytes {
    o.post.permlink
  }

  datatype CommentObject = CommentObject(id: ObjectId, comment: CommentData, created: Time)

  function CommentAuthor(o: CommentObject): AccountId {
    o.comment.author
  }

  /** author() of a stored post is the account that pays for the create or
      update operation carrying its payload; its id and times play no part. */
  lemma PostAuthorIsFeePayer(o: BlogPostObject, updated: ObjectId)
    ensures PostAuthor(o) == FeePayer(PostCreate(PostCreateOp(o.post)))
    ensures PostAuthor(o) == FeePayer(PostUpdate(PostUpdateOp(updated, o.post)))
    ensures forall i, c, u :: PostAuthor(o.(id := i, created := c, lastUpdate := u)) == PostAuthor(o)
  {
  }

  /** permlink() of a stored post depends on its payload alone, and when
      that payload is valid it is a short key of lower-case printable ASCII
      bytes, none of them a forbidden character. */
  lemma PostPermlinkOfValidPost(o: BlogPostObject)
    ensures forall i, c, u :: PostPermlink(o.(id := i, created := c, lastUpdate := u)) == PostPermlink(o)
    ensures PostValid(o.post) ==>
              && |PostPermlink(o)| < PermlinkLimit
              && forall k :: 0 <= k < |PostPermlink(o)| ==>
                   1 <= PostPermlink(o)[k] <= 127 && !IsForbiddenPermlinkByte(PostPermlink(o)[k])
                   && !IsUpper(PostPermlink(o)[k])
  {
    PermlinkRulesIff(o.post.permlink);
  }

  /** author() of a stored comment is the account that pays for the comment
      operation carrying its payload; its id and time play no part. */
  lemma CommentAuthorIsFeePayer(o: CommentObject)
    ensures CommentAuthor(o) == FeePayer(CommentCreate(CommentCreateOp(o.comment)))
    ensures forall i, c :: CommentAuthor(o.(id := i, created := c)) == CommentAuthor(o)
  {
  }

  /** A vote as the tables store it: what an account votes on, with which
      weight, and when the vote was cast and last decayed. */
  datatype VoteObject = VoteObject(
    id: ObjectId,
    voter: AccountId,
    weightType: ObjectId,
    tag: Bytes,
    voteTime: Time,
    lastDecayUpdate: Time,
    votingOn: ObjectId,
    weight: int64,    // negative means voting against
    sequence: int     // together with voter, bounds the votes an account may hold
  )

  /** A freshly constructed vote: weight and sequence start at 0, the other
      fields at their types' defaults. */
  function NewVoteObject(id: ObjectId): (r: VoteObject)
    ensures r.id == id && r.weight == 0 && r.sequence == 0
  {
    VoteObject(id, 0, DefaultId, [], 0, 0, DefaultId, 0, 0)
  }

  // ---------------------------------------------------------------------------
  // Post table: by_id, by_date, by_author_tagline, by_author_date
  // ---------------------------------------------------------------------------

  type PostTable = map<ObjectId, BlogPostObject>

  predicate PostKeysClash(x: BlogPostObject, y: BlogPostObject) {
    || x.created == y.created                                                  // by_date
    || (PostAuthor(x) == PostAuthor(y) && PostPermlink(x) == PostPermlink(y))  // by_author_tagline
    || (PostAuthor(x) == PostAuthor(y) && x.created == y.created)              // by_author_date
  }

  predicate PostTableValid(t: PostTable) {
    && (forall id :: id in t ==> t[id].id == id)
    && (forall a, b :: a in t && b in t && a != b ==> !PostKeysClash(t[a], t[b]))
  }

  /** x may be stored under its id: it clashes with no other stored post. */
  predicate PostFits(t: PostTable, x: BlogPostObject) {
    forall b :: b in t && b != x.id ==> !PostKeysClash(t[b], x)
  }

  /** Storing a post (a new one, or a new version of a stored one) keeps the
      table well formed exactly when the post fits. */
  lemma PostStoreIff(t: PostTable, x: BlogPostObject)
    requires PostTableValid(t)
    ensures PostTableValid(t[x.id := x]) <==> PostFits(t, x)
  {
    if PostTableValid(t[x.id := x]) {
      forall b | b in t && b != x.id ensures !PostKeysClash(t[b], x) {
        assert !PostKeysClash(t[x.id := x][x.id], t[x.id := x][b]);
      }
    }
  }

  /** The by_author_date index never refuses a post on its own: its key is
      unique as soon as the by_date key is. */
  lemma PostAuthorDateKeyImplied(x: BlogPostObject, y: BlogPostObject)
    ensures PostKeysClash(x, y) <==>
            x.created == y.created || (PostAuthor(x) == PostAuthor(y) && PostPermlink(x) == PostPermlink(y))
  {
  }

  /** by_author_date order: author ascending, then creation time descending. */
  predicate AuthorDateBefore(a1: AccountId, t1: Time, a2: AccountId, t2: Time) {
    a1 < a2 || (a1 == a2 && t1 > t2)
  }

  predicate PostBefore(x: BlogPostObject, y: BlogPostObject) {
    AuthorDateBefore(PostAuthor(x), x.created, PostAuthor(y), y.created)
  }

  /** by_author_date is a strict total order on the posts of a well-formed
      table, and lists each author's newest post first. */
  lemma PostAuthorDateOrder(t: PostTable)
    requires PostTableValid(t)
    ensures forall x :: !PostBefore(x, x)
    ensures forall x, y, z :: PostBefore(x, y) && PostBefore(y, z) ==> PostBefore(x, z)
    ensures forall a, b :: a in t && b in t && a != b ==> (PostBefore(t[a], t[b]) <==> !PostBefore(t[b], t[a]))
    ensures forall a, b :: a in t && b in t && PostAuthor(t[a]) == PostAuthor(t[b]) && t[a].created > t[b].created
              ==> PostBefore(t[a], t[b])
  {
  }

  // ---------------------------------------------------------------------------
  // Comment table: by_id, by_date, by_author_date
  // ---------------------------------------------------------------------------

  type CommentTable = map<ObjectId, CommentObject>

  predicate CommentKeysClash(x: CommentObject, y: CommentObject) {
    || x.created == y.created                                          // by_date
    || (CommentAuthor(x) == CommentAuthor(y) && x.created == y.created)  // by_author_date
  }

  predicate CommentTableValid(t: CommentTable) {
    && (forall id :: id in t ==> t[id].id == id)
    && (forall a, b :: a in t && b in t && a != b ==> !CommentKeysClash(t[a], t[b]))
  }

  predicate CommentFits(t: CommentTable, x: CommentObject) {
    forall b :: b in t && b != x.id ==> !CommentKeysClash(t[b], x)
  }

  /** Storing a comment keeps the table well formed exactly when it fits,
      that is, when no other stored comment was created at the same time. */
  lemma CommentStoreIff(t: CommentTable, x: CommentObject)
    requires CommentTableValid(t)
    ensures CommentTableValid(t[x.id := x]) <==> CommentFits(t, x)
    ensures CommentFits(t, x) <==> forall b :: b in t && b != x.id ==> t[b].created != x.created
  {
    if CommentTableValid(t[x.id := x]) {
      forall b | b in t && b != x.id ensures !CommentKeysClash(t[b], x) {
        assert !CommentKeysClash(t[x.id := x][x.id], t[x.id := x][b]);
      }
    }
  }

  predicate CommentBefore(x: CommentObject, y: CommentObject) {
    AuthorDateBefore(CommentAuthor(x), x.created, CommentAuthor(y), y.created)
  }

  /** by_author_date is a strict total order on the comments of a
      well-formed table, and lists each author's newest comment first. */
  lemma CommentAuthorDateOrder(t: CommentTable)
    requires CommentTableValid(t)
    ensures forall x :: !CommentBefore(x, x)
    ensures forall x, y, z :: CommentBefore(x, y) && CommentBefore(y, z) ==> CommentBefore(x, z)
    ensures forall a, b :: a in t && b in t && a != b ==> (CommentBefore(t[a], t[b]) <==> !CommentBefore(t[b], t[a]))
    ensures forall a, b :: a in t && b in t && CommentAuthor(t[a]) == CommentAuthor(t[b]) && t[a].created > t[b].created
              ==> CommentBefore(t[a], t[b])
  {
  }

  // ---------------------------------------------------------------------------
  // Vote table: by_id, by_voter_sequence, by_voting_on, by_voter_voting_on
  // ---------------------------------------------------------------------------

  type VoteTable = map<ObjectId, VoteObject>

  predicate VoteKeysClash(x: VoteObject, y: VoteObject) {
    || (x.voter == y.voter && x.sequence == y.sequence)    // by_voter_sequence
    || (x.votingOn == y.votingOn && x.id == y.id)          // by_voting_on
    || (x.voter == y.voter && x.votingOn == y.votingOn)    // by_voter_voting_on
  }

  predicate VoteTableValid(t: VoteTable) {
    && (forall id :: id in t ==> t[id].id == id)
    && (forall a, b :: a in t && b in t && a != b ==> !VoteKeysClash(t[a], t[b]))
  }

  predicate VoteFits(t: VoteTable, x: VoteObject) {
    forall b :: b in t && b != x.id ==> !VoteKeysClash(t[b], x)
  }

  /** Storing a vote keeps the table well formed exactly when it fits; the
      (voting_on, id) index never refuses one, so it fits exactly when no
      other vote shares its (voter, sequence) or its (voter, voting_on). */
  lemma VoteStoreIff(t: VoteTable, x: VoteObject)
    requires VoteTableValid(t)
    ensures VoteTableValid(t[x.id := x]) <==> VoteFits(t, x)
    ensures VoteFits(t, x) <==>
            forall b :: b in t && b != x.id ==>
              !(t[b].voter == x.voter && t[b].sequence == x.sequence) &&
              !(t[b].voter == x.voter && t[b].votingOn == x.votingOn)
  {
    if VoteTableValid(t[x.id := x]) {
      forall b | b in t && b != x.id ensures !VoteKeysClash(t[b], x) {
        assert !VoteKeysClash(t[x.id := x][x.id], t[x.id := x][b]);
      }
    }
  }

  /** When every stored vote has sequence 0, the (voter, sequence) index lets
      an account hold one vote at most, and a vote with sequence 0 by an
      account that already holds another one never fits. */
  lemma OneVotePerVoter(t: VoteTable, x: VoteObject, b: ObjectId)
    requires VoteTableValid(t)
    requires forall id :: id in t ==> t[id].sequence == 0
    ensures forall a, c :: a in t && c in t && t[a].voter == t[c].voter ==> a == c
    ensures b in t && b != x.id && t[b].voter == x.voter && x.sequence == 0 ==> !VoteFits(t, x)
  {
  }
}
