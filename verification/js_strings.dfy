/** The JavaScript string built-ins the client relies on: `\s` and `trim`,
    `startsWith`, `indexOf`, `replace` with a string pattern, `slice` and
    `split` with a one-character separator. Strings are sequences of
    characters; see README for the UTF-16 caveat. */
module JsStrings {
  import opened Outcomes

  /** The characters `\s` matches and `trim` removes: WhiteSpace and
      LineTerminator of ECMAScript (section 12.2 and 12.3 of ECMA-262). */
  predicate IsSpace(c: char) {
    || c == '\t' || c == '\n' || c == '\U{B}' || c == '\U{C}' || c == '\r'
    || c == ' ' || c == '\U{A0}' || c == '\U{1680}'
    || ('\U{2000}' <= c <= '\U{200A}')
    || c == '\U{2028}' || c == '\U{2029}' || c == '\U{202F}' || c == '\U{205F}'
    || c == '\U{3000}' || c == '\U{FEFF}'
  }

  /** The characters `.` does not match in a regular expression without the `s` flag. */
  predicate IsLineTerminator(c: char) {
    c == '\n' || c == '\r' || c == '\U{2028}' || c == '\U{2029}'
  }

  predicate AllSpace(s: string) {
    forall i :: 0 <= i < |s| ==> IsSpace(s[i])
  }

  predicate NoSpace(s: string) {
    forall i :: 0 <= i < |s| ==> !IsSpace(s[i])
  }

  /** `s.trimStart()`: the suffix of `s` left after its leading white space. */
  function TrimStart(s: string): (r: string)
    ensures |r| <= |s| && r == s[|s| - |r|..]
    ensures forall i :: 0 <= i < |s| - |r| ==> IsSpace(s[i])
    ensures r != [] ==> !IsSpace(r[0])
  {
    if s == [] || !IsSpace(s[0]) then s else TrimStart(s[1..])
  }

  /** `s.trimEnd()`: the prefix of `s` left after its trailing white space. */
  function TrimEnd(s: string): (r: string)
    ensures |r| <= |s| && r == s[..|r|]
    ensures forall i :: |r| <= i < |s| ==> IsSpace(s[i])
    ensures r != [] ==> !IsSpace(r[|r| - 1])
  {
    if s == [] || !IsSpace(s[|s| - 1]) then s else TrimEnd(s[..|s| - 1])
  }

  /** `s.trim()`. It is empty exactly when `s` is white space only, which is
      what the client's `!text.trim()` guards test. */
  function Trim(s: string): (r: string)
    ensures r == [] <==> AllSpace(s)
  {
    var t := TrimStart(s);
    TrimStartEmptyIff(s);
    TrimEndKeepsStart(t);
    TrimEnd(t)
  }

  /** Only a string of white space trims to nothing at the start. */
  lemma TrimStartEmptyIff(s: string)
    ensures TrimStart(s) == [] <==> AllSpace(s)
  {
    var t := TrimStart(s);
    if t != [] {
      assert t[0] == s[|s| - |t|];
    }
  }

  /** Trimming the end of a string that starts with text leaves text. */
  lemma TrimEndKeepsStart(t: string)
    requires t != [] ==> !IsSpace(t[0])
    ensures TrimEnd(t) == [] <==> t == []
  {
  }

  /** `s.startsWith(p)`. */
  predicate StartsWith(s: string, p: string) {
    |p| <= |s| && s[..|p|] == p
  }

  /** `pat` occurs in `s` at position `i`. */
  predicate OccursAt(s: string, pat: string, i: nat) {
    i + |pat| <= |s| && s[i..i + |pat|] == pat
  }

  /** `s.indexOf(pat, from)`, with `None` for JavaScript's -1. */
  function IndexOfFrom(s: string, pat: string, from: nat): (r: Option<nat>)
    ensures r.Some? ==> from <= r.value && OccursAt(s, pat, r.value)
    ensures r.Some? ==> forall j: nat :: from <= j < r.value ==> !OccursAt(s, pat, j)
    ensures r.None? ==> forall j: nat :: from <= j ==> !OccursAt(s, pat, j)
    decreases |s| - from
  {
    if from + |pat| > |s| then None
    else if s[from..from + |pat|] == pat then Some(from)
    else IndexOfFrom(s, pat, from + 1)
  }

  function IndexOf(s: string, pat: string): Option<nat> {
    IndexOfFrom(s, pat, 0)
  }

  /** `s.replace(pat, rep)` with a string pattern: only the FIRST occurrence
      of `pat` is replaced, and `s` is returned unchanged when there is none. */
  function ReplaceFirst(s: string, pat: string, rep: string): (r: string)
    ensures (forall j: nat :: !OccursAt(s, pat, j)) ==> r == s
    ensures forall i: nat :: OccursAt(s, pat, i) && (forall j: nat :: j < i ==> !OccursAt(s, pat, j)) ==>
              r == s[..i] + rep + s[i + |pat|..]
  {
    match IndexOf(s, pat)
    case None => s
    case Some(i) => s[..i] + rep + s[i + |pat|..]
  }

  /** `s.slice(start)` for a non-negative start. */
  function SliceFrom(s: string, start: nat): (r: string)
    ensures start <= |s| ==> s == s[..start] + r
    ensures start >= |s| ==> r == []
  {
    if start <= |s| then s[start..] else []
  }

  /** `s.split(sep)` for a one-character separator: the pieces between
      separators, as many as there are separators plus one. */
  function Split(s: string, sep: char): (pieces: seq<string>)
    ensures |pieces| >= 1
    ensures forall k :: 0 <= k < |pieces| ==> sep !in pieces[k]
  {
    match IndexOf(s, [sep])
    case None =>
      assert sep !in s by {
        forall j | 0 <= j < |s| ensures s[j] != sep { assert !OccursAt(s, [sep], j); }
      }
      [s]
    case Some(i) =>
      assert sep !in s[..i] by {
        forall j | 0 <= j < i ensures s[j] != sep { assert !OccursAt(s, [sep], j); }
      }
      [s[..i]] + Split(s[i + 1..], sep)
  }

  /** `pieces.join(sep)`. */
  function Join(pieces: seq<string>, sep: char): string
    requires |pieces| >= 1
  {
    if |pieces| == 1 then pieces[0] else pieces[0] + [sep] + Join(pieces[1..], sep)
  }

  /** Splitting and joining on the same separator gives back the string. */
  lemma {:induction false} JoinSplit(s: string, sep: char)
    ensures Join(Split(s, sep), sep) == s
    decreases |s|
  {
    match IndexOf(s, [sep])
    case None =>
    case Some(i) =>
      JoinSplit(s[i + 1..], sep);
      assert s[i..i + 1] == [sep];
      assert s == s[..i] + [sep] + s[i + 1..];
  }

  /** Splitting a join of separator-free pieces gives back the pieces. */
  lemma {:induction false} SplitJoin(pieces: seq<string>, sep: char)
    requires |pieces| >= 1
    requires forall k :: 0 <= k < |pieces| ==> sep !in pieces[k]
    ensures Split(Join(pieces, sep), sep) == pieces
    decreases |pieces|
  {
    var s := Join(pieces, sep);
    var p := pieces[0];
    if |pieces| == 1 {
      NoSeparator(p, sep);
    } else {
      var rest := Join(pieces[1..], sep);
      assert s == p + [sep] + rest;
      assert OccursAt(s, [sep], |p|) by { assert s[|p|..|p| + 1] == [sep]; }
      forall j | 0 <= j < |p| ensures !OccursAt(s, [sep], j) {
        assert s[j] == p[j];
      }
      assert IndexOf(s, [sep]) == Some(|p|);
      assert s[..|p|] == p;
      assert s[|p| + 1..] == rest;
      SplitJoin(pieces[1..], sep);
    }
  }

  lemma NoSeparator(p: string, sep: char)
    requires sep !in p
    ensures Split(p, sep) == [p]
  {
    forall j: nat ensures !OccursAt(p, [sep], j) {
      if j + 1 <= |p| {
        assert p[j..j + 1] == [p[j]];
      }
    }
  }
}
