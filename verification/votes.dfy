/** The voting records of vote.hpp: a vote cast by one account on one object,
    and the running tally of all votes on an object. */
module Votes {
  import opened ChainTypes

  /** A vote as vote.hpp declares it (blog_object.hpp declares the same record
      again, with a last_decay_update time added). */
  datatype VoteObject = VoteObject(
    id: ObjectId,
    voter: AccountId,
    weightType: ObjectId,
    voteTime: Time,
    tag: Bytes,
    votingOn: ObjectId,
    weight: int64,    // negative means voting against
    sequence: int     // together with voter, bounds the votes an account may hold
  )

  /** A freshly constructed vote: weight and sequence start at 0, the other
      fields at their types' defaults. */
  function NewVoteObject(id: ObjectId): (r: VoteObject)
    ensures r.id == id && r.weight == 0 && r.sequence == 0
  {
    VoteObject(id, 0, DefaultId, 0, [], DefaultId, 0, 0)
  }

  /** The cumulative votes on one object, for one weight type and tag. */
  datatype VoteTotal = VoteTotal(
    weightType: ObjectId,
    space: uint8,       // space of the object voted on
    objType: uint8,     // type of the object voted on
    tag: Bytes,
    votesFor: int64,
    votesAgainst: int64,
    instance: uint64,   // instance of the object voted on
    netVotesHighWaterMark: int64,
    netVotesLowWaterMark: int64
  )

  /** A freshly constructed tally. weight_type and tag take their types'
      defaults (the null id and the empty string); instance has no
      initialiser in the record, so it is a parameter here. */
  function NewVoteTotal(instance: uint64): (r: VoteTotal)
    ensures r.weightType == DefaultId && r.tag == [] && r.instance == instance
    ensures r.space == 0 && r.objType == 0
    ensures r.votesFor == 0 && r.votesAgainst == 0
    ensures r.netVotesHighWaterMark == 0 && r.netVotesLowWaterMark == 0
    ensures NetVotes(r) == 0
  {
    VoteTotal(DefaultId, 0, 0, [], 0, 0, instance, 0, 0)
  }

  /** Votes for minus votes against, as an exact integer. */
  function NetVotes(t: VoteTotal): (r: int)
    ensures r < 0 <==> t.votesAgainst > t.votesFor
    ensures r == 0 <==> t.votesAgainst == t.votesFor
    ensures r + t.votesAgainst as int == t.votesFor as int
  {
    t.votesFor as int - t.votesAgainst as int
  }

  /** With tallies that never go negative, the difference always fits the
      int64 that net_votes() returns. */
  lemma NetVotesFitsInt64(t: VoteTotal)
    requires t.votesFor >= 0 && t.votesAgainst >= 0
    ensures -0x8000_0000_0000_0000 <= NetVotes(t) < 0x8000_0000_0000_0000
  {
  }

  /** The id of the object the tally is about. */
  function VotingOn(t: VoteTotal): ObjectId {
    ObjectId(t.space, t.objType, t.instance as nat)
  }

  /** Two tallies are about the same object exactly when they agree on
      space, type and instance; weight type, tag and counts play no part. */
  lemma VotingOnIff(t1: VoteTotal, t2: VoteTotal)
    ensures VotingOn(t1) == VotingOn(t2) <==>
            t1.space == t2.space && t1.objType == t2.objType && t1.instance == t2.instance
  {
  }
}
