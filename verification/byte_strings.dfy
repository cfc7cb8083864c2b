/** The string operations the validators rely on: std::string ordering, and
    plain definitions standing in for fc::to_lower, fc::trim_and_normalize_spaces
    and fc::is_utf8 (ASCII case mapping, C-locale white space, and the UTF-8
    well-formedness table of RFC 3629, section 4). */
module ByteStrings {
  import opened ChainTypes

  // ---------------------------------------------------------------------------
  // Ordering (std::string operator<)
  // ---------------------------------------------------------------------------

  /** Lexicographic order on unsigned bytes; a proper prefix comes first. */
  predicate Less(a: Bytes, b: Bytes)
    decreases |a|
  {
    if |a| == 0 then |b| > 0
    else if |b| == 0 then false
    else if a[0] != b[0] then a[0] < b[0]
    else Less(a[1..], b[1..])
  }

  lemma {:induction false} LessIrreflexive(a: Bytes)
    ensures !Less(a, a)
  {
    if |a| > 0 {
      LessIrreflexive(a[1..]);
    }
  }

  lemma {:induction false} LessTransitive(a: Bytes, b: Bytes, c: Bytes)
    requires Less(a, b) && Less(b, c)
    ensures Less(a, c)
    decreases |a|
  {
    if |a| > 0 && a[0] == b[0] && b[0] == c[0] {
      LessTransitive(a[1..], b[1..], c[1..]);
    }
  }

  // ---------------------------------------------------------------------------
  // Case mapping (stands in for fc::to_lower)
  // ---------------------------------------------------------------------------

  predicate IsUpper(b: byte) {
    65 <= b <= 90  // 'A' .. 'Z'
  }

  function LowerByte(b: byte): byte {
    if IsUpper(b) then b + 32 else b
  }

  function ToLower(s: Bytes): (r: Bytes)
    ensures |r| == |s|
    ensures forall i :: 0 <= i < |s| ==> r[i] == LowerByte(s[i])
  {
    seq(|s|, i requires 0 <= i < |s| => LowerByte(s[i]))
  }

  /** A string is its own lower-case form exactly when it has no upper-case letter. */
  lemma ToLowerFixedIff(s: Bytes)
    ensures ToLower(s) == s <==> forall i :: 0 <= i < |s| ==> !IsUpper(s[i])
  {
    if forall i :: 0 <= i < |s| ==> !IsUpper(s[i]) {
      assert forall i :: 0 <= i < |s| ==> ToLower(s)[i] == s[i];
    }
  }

  // ---------------------------------------------------------------------------
  // White space (stands in for fc::trim_and_normalize_spaces)
  // ---------------------------------------------------------------------------

  const Space: byte := 32

  /** White space in the C locale: space, \t, \n, \v, \f, \r. */
  predicate IsSpace(b: byte) {
    b == Space || 9 <= b <= 13
  }

  predicate SpaceFree(s: Bytes) {
    forall i :: 0 <= i < |s| ==> s[i] != Space
  }

  /** Removes leading white space; the result is a suffix of s. */
  function TrimLeft(s: Bytes): (r: Bytes)
    ensures |r| <= |s| && r == s[|s| - |r|..]
    ensures r == s <==> |s| == 0 || !IsSpace(s[0])
    decreases |s|
  {
    if |s| > 0 && IsSpace(s[0]) then TrimLeft(s[1..]) else s
  }

  /** Removes trailing white space; the result is a prefix of s. */
  function TrimRight(s: Bytes): (r: Bytes)
    ensures |r| <= |s| && r == s[..|r|]
    ensures r == s <==> |s| == 0 || !IsSpace(s[|s| - 1])
    decreases |s|
  {
    if |s| > 0 && IsSpace(s[|s| - 1]) then TrimRight(s[..|s| - 1]) else s
  }

  /** Replaces every run of two or more spaces by one space, as repeated
      replacement of "  " by " " does. */
  function CollapseSpaces(s: Bytes): Bytes
    decreases |s|
  {
    if |s| < 2 then s
    else if s[0] == Space && s[1] == Space then CollapseSpaces(s[1..])
    else [s[0]] + CollapseSpaces(s[1..])
  }

  function TrimAndNormalizeSpaces(s: Bytes): Bytes {
    CollapseSpaces(TrimRight(TrimLeft(s)))
  }

  lemma {:induction false} CollapseSpaceFree(s: Bytes)
    requires SpaceFree(s)
    ensures CollapseSpaces(s) == s
    decreases |s|
  {
    if |s| >= 2 {
      CollapseSpaceFree(s[1..]);
      assert s == [s[0]] + s[1..];
    }
  }

  /** On a string without spaces, trimming and normalising leaves the string
      as it is exactly when it neither starts nor ends with white space. */
  lemma NormalizeFixedIff(s: Bytes)
    requires SpaceFree(s)
    ensures TrimAndNormalizeSpaces(s) == s <==>
            (|s| > 0 ==> !IsSpace(s[0]) && !IsSpace(s[|s| - 1]))
  {
    var l := TrimLeft(s);
    var t := TrimRight(l);
    assert SpaceFree(t) by {
      forall i | 0 <= i < |t| ensures t[i] != Space {
        assert t[i] == l[i] == s[|s| - |l| + i];
      }
    }
    CollapseSpaceFree(t);
    assert TrimAndNormalizeSpaces(s) == t;
  }

  // ---------------------------------------------------------------------------
  // UTF-8 (stands in for fc::is_utf8)
  // ---------------------------------------------------------------------------

  predicate IsContinuation(b: byte) {
    0x80 <= b <= 0xBF
  }

  /** Well-formed UTF-8: the byte-sequence table of RFC 3629, section 4
      (no overlong forms, no surrogates, nothing above U+10FFFF). */
  predicate IsUtf8(s: Bytes)
    decreases |s|
  {
    if |s| == 0 then true
    else if s[0] < 0x80 then IsUtf8(s[1..])
    else if 0xC2 <= s[0] <= 0xDF then
      |s| >= 2 && IsContinuation(s[1]) && IsUtf8(s[2..])
    else if s[0] == 0xE0 then
      |s| >= 3 && 0xA0 <= s[1] <= 0xBF && IsContinuation(s[2]) && IsUtf8(s[3..])
    else if 0xE1 <= s[0] <= 0xEC || 0xEE <= s[0] <= 0xEF then
      |s| >= 3 && IsContinuation(s[1]) && IsContinuation(s[2]) && IsUtf8(s[3..])
    else if s[0] == 0xED then
      |s| >= 3 && 0x80 <= s[1] <= 0x9F && IsContinuation(s[2]) && IsUtf8(s[3..])
    else if s[0] == 0xF0 then
      |s| >= 4 && 0x90 <= s[1] <= 0xBF && IsContinuation(s[2]) && IsContinuation(s[3])
      && IsUtf8(s[4..])
    else if 0xF1 <= s[0] <= 0xF3 then
      |s| >= 4 && IsContinuation(s[1]) && IsContinuation(s[2]) && IsContinuation(s[3])
      && IsUtf8(s[4..])
    else if s[0] == 0xF4 then
      |s| >= 4 && 0x80 <= s[1] <= 0x8F && IsContinuation(s[2]) && IsContinuation(s[3])
      && IsUtf8(s[4..])
    else false
  }

  predicate IsAscii(s: Bytes) {
    forall i :: 0 <= i < |s| ==> s[i] < 0x80
  }

  lemma {:induction false} AsciiIsUtf8(s: Bytes)
    requires IsAscii(s)
    ensures IsUtf8(s)
    decreases |s|
  {
    if |s| > 0 {
      AsciiIsUtf8(s[1..]);
    }
  }
}
