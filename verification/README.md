# Blog, comment and vote module of the graphene chain, in Dafny

This project models the blog module of the chain. It covers four things:

- the payload records of the blog operations: a post and a comment (`BlogRecords`);
- their stateless validation (`BlogValidate`);
- the four operations, with their fee payer and their `validate()` (`BlogOperations`);
- the objects the evaluators store, and the unique indices of their tables (`BlogObjects`).

It also models the vote and tally records of the voting subsystem (`Votes`). The evaluators that create and change the stored objects are modelled as a class, `BlogEvaluator.Database`. The class holds the post, comment and vote tables as maps from object id to object. The head-block time is a parameter of every evaluator.

The modules:

- `ChainTypes`: bytes, fixed-width integers, object ids (space, type, instance), times, and the error outcomes.
- `ByteStrings`: the helpers the validators use:
  - `std::string` ordering (`Less`), proved irreflexive and transitive;
  - plain definitions standing in for `fc::to_lower` (ASCII case mapping) and `fc::trim_and_normalize_spaces` (C-locale white space);
  - `fc::is_utf8`, written as the UTF-8 byte-sequence table of RFC 3629, section 4.
- `BlogValidate`: `blog_post::validate` and `comment_data::validate` as predicates, each source assertion one conjunct. `ValidatePost` runs the source's two loops (over the tags, and over the permlink bytes) and is proved to decide exactly `PostValid`. Lemmas derive the consequences of the rules.
- `BlogOperations`: the four operations, `fee_payer()` and `validate()`.
- `Votes`: `vote_object` and `vote_total` as `vote.hpp` declares them, with `net_votes()` and `voting_on()`.
- `BlogObjects`: `blog_post_object`, `comment_object` and `vote_object` as `blog_object.hpp` declares them, with the accessors `author()` and `permlink()` (`PostAuthor`, `PostPermlink`, `CommentAuthor`).
  - Each `multi_index_container` becomes a well-formedness predicate over a map. Each unique index contributes one "clash" relation between two objects. Storing an object is allowed exactly when it clashes with no other stored object (`PostFits`, `CommentFits`, `VoteFits`).
  - The `by_author_date` orderings are relations, proved to be strict total orders on a well-formed table.
- `BlogEvaluator`: `do_evaluate` (one function for all four evaluators) and the four `do_apply` as methods of `Database`. A `create` or `modify` that a unique index refuses, and a failed `FC_ASSERT`, return an error and leave every table unchanged. This matches what the database's undo of a failed operation leaves behind.

## Model

| member | source | states |
|---|---|---|
| `ByteStrings.LessIrreflexive` | libraries/chain/protocol/blog.cpp:15 | no string is `<` itself under the byte-wise `std::string` order |
| `ByteStrings.LessTransitive` | libraries/chain/protocol/blog.cpp:15 | the `std::string` order is transitive (prefix-first, unsigned bytes) |
| `ByteStrings.ToLowerFixedIff` | libraries/chain/protocol/blog.cpp:20 | a string equals its lower-case form exactly when it has no upper-case ASCII letter |
| `ByteStrings.NormalizeFixedIff` | libraries/chain/protocol/blog.cpp:21 | on a string without spaces, trimming and normalising spaces is the identity exactly when the string neither starts nor ends with white space |
| `ByteStrings.AsciiIsUtf8` | libraries/chain/protocol/blog.cpp:22-26 | every all-ASCII string is well-formed UTF-8 |
| `BlogValidate.ValidatePost` | libraries/chain/protocol/blog.cpp:6-45 | the assertion-by-assertion run of `blog_post::validate`, with its loop over the tags and its loop over the permlink bytes (`CheckPermlinkBytes`), succeeds exactly when `PostValid` holds |
| `BlogValidate.CheckPermlinkBytes` | libraries/chain/protocol/blog.cpp:27-44 | the loop over the permlink bytes succeeds exactly when every byte is positive as a signed char and not a forbidden character |
| `BlogValidate.PermlinkByteOkIff` | libraries/chain/protocol/blog.cpp:28-42 | a byte passes the loop body exactly when it is in 1..127 and not forbidden; such a byte is never a space and always ASCII |
| `BlogValidate.ValidPostBounds` | libraries/chain/protocol/blog.cpp:7-11 | a post passing the size checks, as every valid post does, has title < 256, permlink < 256 and tagline < 1024 bytes, and 0 < summary < body/4 (integer division); hence its body has at least 8 bytes |
| `BlogValidate.BodyBoundIsTight` | libraries/chain/protocol/blog.cpp:10-11 | the 8-byte lower bound is reached: some valid post has an 8-byte body |
| `BlogValidate.ValidTagsStrictlyIncreasing` | libraries/chain/protocol/blog.cpp:12-16 | the adjacent-pair check makes the whole tag list strictly increasing, so no tag occurs twice |
| `BlogValidate.CategoryIsLeastTag` | libraries/chain/include/graphene/chain/protocol/blog.hpp:17 | for a post whose tags pass the tag checks, as every valid post's do, `category()` is empty when there are no tags, and otherwise is a tag below every other tag and shorter than 16 bytes |
| `BlogValidate.PermlinkRulesIff` | libraries/chain/protocol/blog.cpp:20-44 | a permlink passes the lower-case, normalisation, UTF-8 and byte checks exactly when each byte is in 1..127, not forbidden and not upper case, and it neither starts nor ends with white space; the UTF-8 check is implied by the others |
| `BlogValidate.BadPermlinkByteRejected` | libraries/chain/protocol/blog.cpp:27-43 | one NUL, non-ASCII (negative `char`) or forbidden byte (` `, `\t`, `\n`, `:`, `#`, `/`, `\`, `%`, `=`, `@`, `~`, `.`) anywhere in the permlink makes the post invalid |
| `BlogValidate.MetaDataIgnored` | libraries/chain/protocol/blog.cpp:17-19 | changing `meta_data` never changes whether a post or a comment is valid |
| `BlogValidate.CommentValidity` | libraries/chain/protocol/blog.cpp:47-54 | a comment is valid exactly when its body has 1 to 8191 bytes and its topic is not the default id; author, reply_to and meta_data play no part |
| `BlogOperations.NewVoteOp` | libraries/chain/include/graphene/chain/protocol/blog.hpp:70-84 | a vote operation whose weight is left at its default has weight 0 |
| `BlogOperations.FeePayerRules` | libraries/chain/include/graphene/chain/protocol/blog.hpp:39-82 | post create and update are paid by `post.author`, comment create by `comment.author`, a vote by `voter`; the updated post's id plays no part |
| `BlogOperations.ValidationDelegates` | libraries/chain/include/graphene/chain/protocol/blog.hpp:40-83 | post and comment operations are valid exactly when their payload is; every vote operation is valid, whatever its weight |
| `Votes.NewVoteObject` | libraries/chain/include/graphene/chain/vote.hpp:31-43 | a fresh `vote_object` has weight 0 and sequence 0 |
| `Votes.NewVoteTotal` | libraries/chain/include/graphene/chain/vote.hpp:50-60 | a fresh tally has the null weight type, an empty tag, space, type, both counts and both water marks at 0, and the given instance, so its net votes are 0 |
| `Votes.NetVotes` | libraries/chain/include/graphene/chain/vote.hpp:62 | net votes equal votes for minus votes against; they are negative exactly when votes against exceed votes for, and zero exactly when the two are equal |
| `Votes.NetVotesFitsInt64` | libraries/chain/include/graphene/chain/vote.hpp:56-62 | with non-negative tallies the difference always fits the `int64_t` result |
| `Votes.VotingOnIff` | libraries/chain/include/graphene/chain/vote.hpp:63 | two tallies give the same `voting_on()` id exactly when they agree on space, type and instance |
| `BlogObjects.PostAuthorIsFeePayer` | libraries/chain/include/graphene/chain/blog_object.hpp:19 | `author()` of a stored post is the fee payer of the create or update operation carrying its payload; the id and times play no part |
| `BlogObjects.PostPermlinkOfValidPost` | libraries/chain/include/graphene/chain/blog_object.hpp:20 | `permlink()` depends on the payload alone; for a valid payload it is under 256 bytes, each in 1..127, not forbidden and not upper case |
| `BlogObjects.CommentAuthorIsFeePayer` | libraries/chain/include/graphene/chain/blog_object.hpp:28 | `author()` of a stored comment is the fee payer of the comment operation carrying its payload; the id and time play no part |
| `BlogObjects.NewVoteObject` | libraries/chain/include/graphene/chain/blog_object.hpp:38-50 | a fresh stored vote has weight 0 and sequence 0 |
| `BlogObjects.PostStoreIff` | libraries/chain/include/graphene/chain/blog_object.hpp:92-111 | storing a post keeps the post table well formed (ids unique, `created` unique, `(author, permlink)` unique, `(author, created)` unique) exactly when it clashes with no other post |
| `BlogObjects.PostAuthorDateKeyImplied` | libraries/chain/include/graphene/chain/blog_object.hpp:96-109 | the `by_author_date` key never refuses a post by itself: two posts clash exactly when they share `created` or share `(author, permlink)` |
| `BlogObjects.PostAuthorDateOrder` | libraries/chain/include/graphene/chain/blog_object.hpp:103-109 | author ascending then `created` descending is a strict total order on a well-formed post table, with each author's newest post first |
| `BlogObjects.CommentStoreIff` | libraries/chain/include/graphene/chain/blog_object.hpp:113-126 | storing a comment keeps the comment table well formed exactly when no other stored comment has the same `created` |
| `BlogObjects.CommentAuthorDateOrder` | libraries/chain/include/graphene/chain/blog_object.hpp:118-124 | author ascending then `created` descending is a strict total order on a well-formed comment table, with each author's newest comment first |
| `BlogObjects.VoteStoreIff` | libraries/chain/include/graphene/chain/blog_object.hpp:63-86 | storing a vote keeps the vote table well formed exactly when no other vote shares its `(voter, sequence)` or its `(voter, voting_on)`; the `(voting_on, id)` index never refuses one |
| `BlogObjects.OneVotePerVoter` | libraries/chain/include/graphene/chain/blog_object.hpp:67-72 | when every vote has sequence 0, an account holds one vote at most, and a further vote with sequence 0 by the same account never fits |
| `BlogEvaluator.Database.Evaluate` | libraries/chain/blog_evaluator.cpp:14-62 | `do_evaluate` fails only for a vote, and exactly when the object it votes on does not exist; in a valid database a vote on an id of a post, comment or vote kind passes exactly when that table holds the id, and a vote on the null id 0.0.0 always fails |
| `BlogEvaluator.Database.ApplyPostCreate` | libraries/chain/blog_evaluator.cpp:18-28 | on success one post is added under a fresh, non-null id, holding the payload with `created == last_update == now`, and its `author()` is the fee payer; nothing else changes. It fails, changing nothing, exactly when a stored post has `created == now` or the same `(author, permlink)` |
| `BlogEvaluator.Database.ApplyPostUpdate` | libraries/chain/blog_evaluator.cpp:34-43 | fails on an unknown id, on an author different from the stored one, or on a `(author, permlink)` clash; on success only that post changes: the payload is replaced, `last_update` becomes now and `created` is kept |
| `BlogEvaluator.Database.ApplyCommentCreate` | libraries/chain/blog_evaluator.cpp:50-57 | on success one comment is added under a fresh, non-null id, holding the payload with `created == now`; it fails, changing nothing, exactly when a stored comment has `created == now` |
| `BlogEvaluator.Database.ApplyVote` | libraries/chain/blog_evaluator.cpp:64-96 | with no `(voter, voting_on)` vote: weight 0 is an error and nothing changes; otherwise a vote stamped with `vote_time == last_decay_update == now` is created and its id returned, unless the voter already holds a vote with sequence 0. With one: weight 0 removes it and returns the default id; otherwise only that vote is rewritten and its id returned. The null id is returned exactly when a vote is withdrawn. No stored vote of weight 0 and no vote with a non-zero sequence ever appears |
| `BlogEvaluator.Database.ApplyDefaultWeightVote` | libraries/chain/blog_evaluator.cpp:64-84 | a vote operation left at its default weight of 0 never creates a vote: with no `(voter, voting_on)` vote it fails and changes nothing, otherwise it removes that vote and returns the default id; afterwards the voter holds no vote on that object |
| `BlogEvaluator.OnePostPerBlockTime` | libraries/chain/blog_evaluator.cpp:22-26 | since every new post is stamped with the head-block time and `created` is unique, once one post is stored no other post stamped with the same time fits |
| `BlogEvaluator.SecondVoteByVoterRefused` | libraries/chain/blog_evaluator.cpp:70-78 | the evaluator never sets `sequence`, so a voter who holds a vote on one object cannot create a vote on any other object |

## Left out

- `tests/random/main.cpp`: a console program that calls CryptoPP's `SecretSharing` and `SecretRecovery` and does console and file I/O; no chain code uses it.
- `blog_api.hpp` and `blog_evaluator.hpp`: declarations only, with no bodies. The "Max is 100" query limits are doc comments.
- `fc::to_lower`, `fc::trim_and_normalize_spaces` and `fc::is_utf8` are given simple definitions: ASCII case mapping, C-locale white space, and RFC 3629 well-formedness. The fc library is not part of this model, and these definitions are not claimed to match it on every input.
- The JSON check on `meta_data`: the source leaves it as a TODO, so `meta_data` is never inspected.
- Fees: the `fee` asset, `fee_parameters_type` and `price_per_kbyte` are not modelled. Only the paying account is.
- Object-id encoding: ids are (space, type, instance) triples. The 64-bit packing and its 48-bit instance check are not modelled. The space and type numbers of the three tables are defined in `types.hpp`, which is not part of this model. They are constructor parameters of `Database`. They must be distinct, and none may be the kind of the null id 0.0.0.
- `time_point_sec` is 32 bits wide; `Time` is an unbounded natural number. The `int32_t` `sequence` of a vote is an unbounded integer, since the evaluator never sets it.
- Votes.NetVotes: returns the exact difference. The `int64_t` subtraction in the source overflows (undefined behaviour in C++) only for tallies of opposite signs and huge magnitude. `NetVotesFitsInt64` shows this cannot happen when both tallies are non-negative.
- The `vote_operation` of `vote.hpp`, whose `voter` is an `object_id_type`, is not modelled. `blog.hpp` declares the vote operation with a `category` string, but the evaluator copies a `tag` from it. The model's `VoteOp` carries that string as `tag`.
- Vote decay and the tally updates: a doc comment describes them, but no code updates `vote_total` or `last_decay_update` beyond stamping it at vote time.
- Database undo, persistence and the rest of the chain: a failed operation is modelled as leaving the tables unchanged. A boost `modify` whose modifier throws erases the element, and the undo restores it; the model shows only the restored state. Objects of other modules appear only as the set `others` that a vote may target; `Database.Valid` requires that none of them carries the space and type of a blog table, and that the null id is not among them.
- `head_block_time()` is a parameter of every evaluator method.
- Platforms where `char` is unsigned: the permlink rule `c > 0` is modelled on the byte read through a signed char, so exactly the bytes 1 to 127 pass it. Where `char` is unsigned, the same rule accepts the bytes 128 to 255 too. There, a lower-case permlink that holds multi-byte UTF-8 passes `blog_post::validate`, but `PostValid` rejects it; the model does not capture that behaviour.
