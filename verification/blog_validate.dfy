/** Stateless validation of the blog payloads (blog_post::validate and
    comment_data::validate). Each source assertion is one conjunct; the
    validators are predicates, and ValidatePost runs the source's two loops
    and is proved to decide exactly PostValid. */
module BlogValidate {
  import opened ChainTypes
  import opened ByteStrings
  import opened BlogRecords

  const TitleLimit := 256      // title.size() < 256
  const TaglineLimit := 1024   // tagline.size() < 1024
  const PermlinkLimit := 256   // permlink.size() < 256
  const TagLimit := 16         // tags[i].size() < 16
  const CommentLimit := 8192   // body.size() < 1024*8

  // ---------------------------------------------------------------------------
  // blog_post::validate
  // ---------------------------------------------------------------------------

  predicate PostSizesValid(p: BlogPost) {
    && |p.title| < TitleLimit
    && |p.tagline| < TaglineLimit
    && |p.permlink| < PermlinkLimit
    && |p.summary| < |p.body| / 4
    && |p.body| > 0 && |p.summary| > 0
  }

  /** Every tag is short, and each tag is strictly below the next one. */
  predicate TagsValid(tags: seq<Bytes>) {
    && (forall k :: 0 <= k < |tags| ==> |tags[k]| < TagLimit)
    && (forall l, k :: 0 < l < |tags| && k == l - 1 ==> Less(tags[k], tags[l]))
  }

  /** The value of a byte read through a signed `char`. */
  function SignedChar(b: byte): int {
    if b < 0x80 then b as int else b as int - 0x100
  }

  /** The characters the permlink loop rejects by name:
      ' ', '\t', '\n', ':', '#', '/', '\\', '%', '=', '@', '~', '.'. */
  predicate IsForbiddenPermlinkByte(b: byte) {
    b in {32, 9, 10, 58, 35, 47, 92, 37, 61, 64, 126, 46}
  }

  predicate PermlinkByteOk(b: byte) {
    SignedChar(b) > 0 && !IsForbiddenPermlinkByte(b)
  }

  /** The four permlink rules: lower case, trimmed and space-normalised,
      UTF-8, and every byte positive and not forbidden. */
  predicate PermlinkValid(s: Bytes) {
    && ToLower(s) == s
    && TrimAndNormalizeSpaces(s) == s
    && IsUtf8(s)
    && forall i :: 0 <= i < |s| ==> PermlinkByteOk(s[i])
  }

  predicate TextsUtf8(p: BlogPost) {
    IsUtf8(p.body) && IsUtf8(p.summary) && IsUtf8(p.tagline) && IsUtf8(p.title)
  }

  /** blog_post::validate succeeds. meta_data is not inspected. */
  predicate PostValid(p: BlogPost) {
    PostSizesValid(p) && TagsValid(p.tags) && PermlinkValid(p.permlink) && TextsUtf8(p)
  }

  /** A permlink byte passes the loop exactly when it is ASCII 1..127 and
      not forbidden; such a byte is never a space. */
  lemma PermlinkByteOkIff(b: byte)
    ensures PermlinkByteOk(b) <==> 1 <= b <= 127 && !IsForbiddenPermlinkByte(b)
    ensures PermlinkByteOk(b) ==> b != Space && b < 0x80
  {
  }

  /** The loop over the permlink bytes: every byte must be positive as a
      signed char and none of the forbidden characters. */
  method CheckPermlinkBytes(s: Bytes) returns (ok: bool)
    ensures ok <==> forall i :: 0 <= i < |s| ==> PermlinkByteOk(s[i])
  {
    var j := 0;
    while j < |s|
      invariant 0 <= j <= |s|
      invariant forall k :: 0 <= k < j ==> PermlinkByteOk(s[k])
    {
      var c := s[j];
      if SignedChar(c) <= 0 || IsForbiddenPermlinkByte(c) {
        return false;
      }
      j := j + 1;
    }
    return true;
  }

  /** blog_post::validate, assertion by assertion, with its two loops. */
  method ValidatePost(p: BlogPost) returns (ok: bool)
    ensures ok == PostValid(p)
  {
    if !PostSizesValid(p) {
      return false;
    }
    var i := 0;
    while i < |p.tags|
      invariant 0 <= i <= |p.tags|
      invariant forall k :: 0 <= k < i ==> |p.tags[k]| < TagLimit
      invariant forall l, k :: 0 < l < i && k == l - 1 ==> Less(p.tags[k], p.tags[l])
    {
      if |p.tags[i]| >= TagLimit {
        assert !TagsValid(p.tags);
        return false;
      }
      if i > 0 && !Less(p.tags[i - 1], p.tags[i]) {
        assert !TagsValid(p.tags);
        return false;
      }
      i := i + 1;
    }
    assert TagsValid(p.tags);
    var permlink := p.permlink;
    if ToLower(permlink) != permlink || TrimAndNormalizeSpaces(permlink) != permlink {
      assert !PermlinkValid(permlink);
      return false;
    }
    if !IsUtf8(permlink) {
      assert !PermlinkValid(permlink);
      return false;
    }
    if !TextsUtf8(p) {
      return false;
    }
    var bytesOk := CheckPermlinkBytes(permlink);
    if !bytesOk {
      assert !PermlinkValid(permlink);
      return false;
    }
    assert PermlinkValid(permlink);
    return true;
  }

  // ---------------------------------------------------------------------------
  // comment_data::validate
  // ---------------------------------------------------------------------------

  /** comment_data::validate succeeds. meta_data is not inspected. */
  predicate CommentValid(c: CommentData) {
    |c.body| > 0 && |c.body| < CommentLimit && c.topic != DefaultId
  }

  // ---------------------------------------------------------------------------
  // Consequences
  // ---------------------------------------------------------------------------

  /** A post that passes the size checks (every valid post does) respects
      every size limit, and its body has at least 8 bytes: the summary is
      non-empty and shorter than a quarter of it. */
  lemma ValidPostBounds(p: BlogPost)
    requires PostSizesValid(p)
    ensures |p.title| < 256 && |p.permlink| < 256 && |p.tagline| < 1024
    ensures 0 < |p.summary| < |p.body| / 4
    ensures |p.body| >= 8
  {
  }

  /** The bound of 8 bytes is reached: some valid post has an 8-byte body. */
  lemma BodyBoundIsTight()
    ensures exists p :: PostValid(p) && |p.body| == 8
  {
    var body: Bytes := [97, 97, 97, 97, 97, 97, 97, 97];  // "aaaaaaaa"
    ShortestValidPost(body, [97]);
    assert PostValid(BlogPost(DefaultId, 0, [], [], [], [97], body, [], []));
  }

  /** An ASCII body of 8 bytes with a 1-byte ASCII summary, no tags and an
      empty permlink, title and tagline passes validation. */
  lemma ShortestValidPost(body: Bytes, summary: Bytes)
    requires IsAscii(body) && |body| == 8
    requires IsAscii(summary) && |summary| == 1
    ensures PostValid(BlogPost(DefaultId, 0, [], [], [], summary, body, [], []))
  {
    var p := BlogPost(DefaultId, 0, [], [], [], summary, body, [], []);
    AsciiIsUtf8(body);
    AsciiIsUtf8(summary);
    assert TrimAndNormalizeSpaces([]) == [];
    assert PermlinkValid(p.permlink);
  }

  lemma {:induction false} TagsIncreaseFrom(tags: seq<Bytes>, i: nat, j: nat)
    requires TagsValid(tags)
    requires i < j < |tags|
    ensures Less(tags[i], tags[j])
    decreases j - i
  {
    if j > i + 1 {
      TagsIncreaseFrom(tags, i, j - 1);
      assert Less(tags[j - 1], tags[j]);
      LessTransitive(tags[i], tags[j - 1], tags[j]);
    }
  }

  /** The tags of a valid post are strictly increasing as a whole, so no tag
      occurs twice. */
  lemma ValidTagsStrictlyIncreasing(tags: seq<Bytes>)
    requires TagsValid(tags)
    ensures forall i, j :: 0 <= i < j < |tags| ==> Less(tags[i], tags[j])
    ensures forall i, j :: 0 <= i < j < |tags| ==> tags[i] != tags[j]
  {
    forall i, j | 0 <= i < j < |tags|
      ensures Less(tags[i], tags[j]) && tags[i] != tags[j]
    {
      TagsIncreaseFrom(tags, i, j);
      LessIrreflexive(tags[i]);
    }
  }

  /** The category of a post whose tags pass the tag checks (every valid
      post's do) is empty when it has no tags, and otherwise is its least tag. */
  lemma CategoryIsLeastTag(p: BlogPost)
    requires TagsValid(p.tags)
    ensures |p.tags| == 0 ==> Category(p) == []
    ensures |p.tags| > 0 ==> Category(p) in p.tags
    ensures forall t :: t in p.tags && t != Category(p) ==> Less(Category(p), t)
    ensures |Category(p)| < TagLimit
  {
    ValidTagsStrictlyIncreasing(p.tags);
    forall t | t in p.tags && t != Category(p)
      ensures Less(Category(p), t)
    {
      var j :| 0 <= j < |p.tags| && p.tags[j] == t;
      assert j > 0;
    }
  }

  /** The permlink rules, stated byte by byte: every byte is ASCII 1..127,
      not a forbidden character and not an upper-case letter, and the
      permlink neither starts nor ends with white space. The UTF-8 rule
      follows from the others. */
  lemma PermlinkRulesIff(s: Bytes)
    ensures PermlinkValid(s) <==>
            && (forall i :: 0 <= i < |s| ==>
                  1 <= s[i] <= 127 && !IsForbiddenPermlinkByte(s[i]) && !IsUpper(s[i]))
            && (|s| > 0 ==> !IsSpace(s[0]) && !IsSpace(s[|s| - 1]))
  {
    ToLowerFixedIff(s);
    forall i | 0 <= i < |s|
      ensures PermlinkByteOk(s[i]) <==> 1 <= s[i] <= 127 && !IsForbiddenPermlinkByte(s[i])
    {
      PermlinkByteOkIff(s[i]);
    }
    if forall i :: 0 <= i < |s| ==> PermlinkByteOk(s[i]) {
      assert SpaceFree(s) && IsAscii(s) by {
        forall i | 0 <= i < |s| ensures s[i] != Space && s[i] < 0x80 {
          PermlinkByteOkIff(s[i]);
        }
      }
      NormalizeFixedIff(s);
      AsciiIsUtf8(s);
    }
  }

  /** Any permlink byte that is NUL, not ASCII (negative as a signed char)
      or one of the forbidden characters makes the post invalid. */
  lemma BadPermlinkByteRejected(p: BlogPost, i: nat)
    requires i < |p.permlink|
    requires p.permlink[i] == 0 || p.permlink[i] >= 128 || IsForbiddenPermlinkByte(p.permlink[i])
    ensures !PostValid(p)
  {
    assert !PermlinkByteOk(p.permlink[i]);
  }

  /** meta_data never affects the validity of a post or of a comment. */
  lemma MetaDataIgnored(p: BlogPost, c: CommentData, m: Bytes)
    ensures PostValid(p.(metaData := m)) == PostValid(p)
    ensures CommentValid(c.(metaData := m)) == CommentValid(c)
  {
    var q := p.(metaData := m);
    assert q.title == p.title && q.tagline == p.tagline && q.permlink == p.permlink;
    assert q.summary == p.summary && q.body == p.body && q.tags == p.tags;
    assert PostSizesValid(q) == PostSizesValid(p);
    assert TextsUtf8(q) == TextsUtf8(p);
  }

  /** A comment is valid exactly when its body has 1 to 8191 bytes and its
      topic is not the default id; author, reply_to and meta_data play no part. */
  lemma CommentValidity(c: CommentData)
    ensures CommentValid(c) <==> 1 <= |c.body| <= 8191 && c.topic != DefaultId
    ensures forall a, r, m :: CommentValid(c.(author := a, replyTo := r, metaData := m)) == CommentValid(c)
  {
  }
}
