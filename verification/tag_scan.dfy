/** Hashtag and mention extraction: `content.match(/#(\w+)/g)` (and the same
    with `@`), each match with its first character sliced off, and `[]` in
    place of the `null` that `match` returns when nothing matches. */
module TagScan {
  import opened Outcomes

  /** The ASCII class `\w` of a regular expression without the `u` flag. */
  predicate IsWordChar(c: char) {
    ('A' <= c <= 'Z') || ('a' <= c <= 'z') || ('0' <= c <= '9') || c == '_'
  }

  predicate AllWord(t: string) {
    forall k :: 0 <= k < |t| ==> IsWordChar(t[k])
  }

  /** The end of the run of word characters that starts at `i`: what the
      greedy `\w+` consumes. */
  function RunEnd(s: string, i: nat): (e: nat)
    requires i <= |s|
    ensures i <= e <= |s|
    ensures forall k :: i <= k < e ==> IsWordChar(s[k])
    ensures e < |s| ==> !IsWordChar(s[e])
    decreases |s| - i
  {
    if i == |s| || !IsWordChar(s[i]) then i else RunEnd(s, i + 1)
  }

  /** The global match loop from position `i`: try a match at each position
      in turn; after a match, resume where it ended. */
  function ScanFrom(s: string, sigil: char, i: nat): (tags: seq<string>)
    requires i <= |s|
    ensures forall k :: 0 <= k < |tags| ==> tags[k] != [] && AllWord(tags[k])
    decreases |s| - i
  {
    if i + 1 >= |s| then []
    else if s[i] == sigil && IsWordChar(s[i + 1]) then
      var e := RunEnd(s, i + 1);
      [s[i + 1..e]] + ScanFrom(s, sigil, e)
    else ScanFrom(s, sigil, i + 1)
  }

  /** The tags of `content` introduced by `sigil`, in order of occurrence. */
  function Scan(content: string, sigil: char): (tags: seq<string>)
    ensures forall k :: 0 <= k < |tags| ==> tags[k] != [] && AllWord(tags[k])
  {
    ScanFrom(content, sigil, 0)
  }

  /** `extractHashtags(content)`. */
  function ExtractHashtags(content: string): seq<string> {
    Scan(content, '#')
  }

  /** `extractMentions(content)`. */
  function ExtractMentions(content: string): seq<string> {
    Scan(content, '@')
  }

  /** The tag a sigil at position `i` introduces, if a word character follows it. */
  function TagAt(s: string, sigil: char, i: nat): Option<string>
    requires i < |s|
  {
    if s[i] == sigil && i + 1 < |s| && IsWordChar(s[i + 1]) then Some(s[i + 1..RunEnd(s, i + 1)])
    else None
  }

  /** Reference reading: one tag for EVERY position holding the sigil followed
      by a word character, in position order, without the match loop's skipping. */
  function TagsFrom(s: string, sigil: char, i: nat): seq<string>
    requires i <= |s|
    decreases |s| - i
  {
    if i == |s| then []
    else match TagAt(s, sigil, i)
      case Some(t) => [t] + TagsFrom(s, sigil, i + 1)
      case None => TagsFrom(s, sigil, i + 1)
  }

  /** Word characters are never a sigil, so positions inside a run contribute nothing. */
  lemma {:induction false} RunContributesNothing(s: string, sigil: char, i: nat, e: nat)
    requires !IsWordChar(sigil)
    requires i <= e <= |s|
    requires forall k :: i <= k < e ==> IsWordChar(s[k])
    ensures TagsFrom(s, sigil, i) == TagsFrom(s, sigil, e)
    decreases e - i
  {
    if i < e {
      assert s[i] != sigil;
      assert TagAt(s, sigil, i) == None;
      RunContributesNothing(s, sigil, i + 1, e);
    }
  }

  /** For a sigil that is not itself a word character (both `#` and `@`), the
      match loop finds exactly one tag per sigil that a word character
      follows: a sigil inside an earlier match is impossible, because a match
      continues with word characters only. */
  lemma {:induction false} ScanFromIsReference(s: string, sigil: char, i: nat)
    requires !IsWordChar(sigil)
    requires i <= |s|
    ensures ScanFrom(s, sigil, i) == TagsFrom(s, sigil, i)
    decreases |s| - i
  {
    if i + 1 >= |s| {
      if i < |s| {
        assert TagAt(s, sigil, i) == None;
        assert TagsFrom(s, sigil, i + 1) == [];
      }
    } else if s[i] == sigil && IsWordChar(s[i + 1]) {
      var e := RunEnd(s, i + 1);
      ScanFromIsReference(s, sigil, e);
      RunContributesNothing(s, sigil, i + 1, e);
    } else {
      assert TagAt(s, sigil, i) == None;
      ScanFromIsReference(s, sigil, i + 1);
    }
  }

  lemma ScanIsReference(content: string, sigil: char)
    requires !IsWordChar(sigil)
    ensures Scan(content, sigil) == TagsFrom(content, sigil, 0)
  {
    ScanFromIsReference(content, sigil, 0);
  }

  /** Both extractors follow the reference reading. */
  lemma ExtractorsAreReference(content: string)
    ensures ExtractHashtags(content) == TagsFrom(content, '#', 0)
    ensures ExtractMentions(content) == TagsFrom(content, '@', 0)
  {
    ScanIsReference(content, '#');
    ScanIsReference(content, '@');
  }

  /** Content without the sigil yields the empty list (never null). */
  lemma {:induction false} NoSigilNoTags(s: string, sigil: char, i: nat)
    requires i <= |s|
    requires forall k :: i <= k < |s| ==> s[k] != sigil
    ensures ScanFrom(s, sigil, i) == []
    decreases |s| - i
  {
    if i + 1 < |s| {
      NoSigilNoTags(s, sigil, i + 1);
    }
  }

  /** A sigil followed by a maximal word run, alone, gives that run as the
      only tag: `extractHashtags("#dafny")` is `["dafny"]`. */
  lemma {:induction false} SingleTag(sigil: char, word: string, rest: string)
    requires !IsWordChar(sigil)
    requires word != [] && AllWord(word)
    requires rest == [] || !IsWordChar(rest[0])
    requires sigil !in rest
    ensures Scan([sigil] + word + rest, sigil) == [word]
  {
    var s := [sigil] + word + rest;
    var e := RunEnd(s, 1);
    forall k | 1 <= k < 1 + |word| ensures IsWordChar(s[k]) {
      assert s[k] == word[k - 1];
    }
    if 1 + |word| < |s| {
      assert s[1 + |word|] == rest[0];
    }
    assert e == 1 + |word|;
    assert s[1..e] == word;
    forall k | e <= k < |s| ensures s[k] != sigil {
      assert s[k] == rest[k - e];
    }
    NoSigilNoTags(s, sigil, e);
  }
}
