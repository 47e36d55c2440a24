/** `s.split(/(R+)/)` for a character class `R`: the capture group keeps
    the separator runs, so the result alternates the text between runs
    (possibly empty at either end) with the runs themselves (section
    22.2.6.14 of ECMA-262). The class is a parameter; the tweet card uses
    it with white space. */
module RunSplit {

  predicate NoneIn(s: string, sep: char -> bool) {
    forall k :: 0 <= k < |s| ==> !sep(s[k])
  }

  predicate AllIn(s: string, sep: char -> bool) {
    forall k :: 0 <= k < |s| ==> sep(s[k])
  }

  /** The concatenation of a sequence of strings. */
  function Concat(pieces: seq<string>): string {
    if pieces == [] then [] else pieces[0] + Concat(pieces[1..])
  }

  /** The first separator position at or after `i`, or `|s|`. */
  function NextRun(s: string, i: nat, sep: char -> bool): (p: nat)
    requires i <= |s|
    ensures i <= p <= |s|
    ensures forall k :: i <= k < p ==> !sep(s[k])
    ensures p < |s| ==> sep(s[p])
    decreases |s| - i
  {
    if i == |s| || sep(s[i]) then i else NextRun(s, i + 1, sep)
  }

  /** The end of the separator run at `i`: what the greedy `R+` consumes. */
  function RunEnd(s: string, i: nat, sep: char -> bool): (e: nat)
    requires i <= |s|
    ensures i <= e <= |s|
    ensures forall k :: i <= k < e ==> sep(s[k])
    ensures e < |s| ==> !sep(s[e])
    decreases |s| - i
  {
    if i == |s| || !sep(s[i]) then i else RunEnd(s, i + 1, sep)
  }

  /** The shape of the result: an odd number of pieces that concatenate to
      `s`, separator-free text at even positions, non-empty separator runs
      at odd positions, and no empty text between two runs. */
  predicate IsRunSplit(s: string, pieces: seq<string>, sep: char -> bool) {
    && |pieces| % 2 == 1
    && Concat(pieces) == s
    && (forall k :: 0 <= k < |pieces| && k % 2 == 0 ==> NoneIn(pieces[k], sep))
    && (forall k :: 0 <= k < |pieces| && k % 2 == 1 ==> pieces[k] != [] && AllIn(pieces[k], sep))
    && (forall k :: 0 < k < |pieces| - 1 && k % 2 == 0 ==> pieces[k] != [])
  }

  /** The split: the text before the first run, the run, then the split of the rest. */
  function Split(s: string, sep: char -> bool): (pieces: seq<string>)
    ensures |pieces| >= 1
    decreases |s|
  {
    var p := NextRun(s, 0, sep);
    if p == |s| then [s]
    else
      var e := RunEnd(s, p, sep);
      [s[..p], s[p..e]] + Split(s[e..], sep)
  }

  /** Concatenation of two pieces in front of more pieces. */
  lemma ConcatCons(a: string, b: string, tail: seq<string>)
    ensures Concat([a, b] + tail) == a + b + Concat(tail)
  {
    var pieces := [a, b] + tail;
    assert pieces[1..][1..] == tail;
  }

  /** A text and a separator run in front of a split of the rest form a
      split of the whole. */
  lemma ShapeCons(w: string, run: string, rest: string, tail: seq<string>, sep: char -> bool)
    requires NoneIn(w, sep) && run != [] && AllIn(run, sep)
    requires IsRunSplit(rest, tail, sep)
    requires |tail| > 1 ==> tail[0] != []
    ensures IsRunSplit(w + run + rest, [w, run] + tail, sep)
  {
    var pieces := [w, run] + tail;
    ConcatCons(w, run, tail);
    forall k | 2 <= k < |pieces| ensures pieces[k] == tail[k - 2] { }
  }

  /** The split has the shape of `IsRunSplit`, and starts with non-empty
      text when `s` does not start with a separator. */
  lemma {:induction false} SplitShape(s: string, sep: char -> bool)
    ensures IsRunSplit(s, Split(s, sep), sep)
    ensures s != [] && !sep(s[0]) ==> Split(s, sep)[0] != []
    decreases |s|
  {
    var p := NextRun(s, 0, sep);
    if p == |s| {
      assert Concat([s]) == s + Concat([]);
    } else {
      var e := RunEnd(s, p, sep);
      var rest := s[e..];
      SplitShape(rest, sep);
      if rest == [] {
        assert NextRun(rest, 0, sep) == 0;
      } else {
        assert rest[0] == s[e];
      }
      StepShape(s, p, e, Split(rest, sep), sep);
    }
  }

  /** One step of the split: the text up to the first run and the run, in
      front of a split of what follows the run. */
  lemma StepShape(s: string, p: nat, e: nat, tail: seq<string>, sep: char -> bool)
    requires p < |s| && p == NextRun(s, 0, sep) && e == RunEnd(s, p, sep)
    requires IsRunSplit(s[e..], tail, sep)
    requires |tail| > 1 ==> tail[0] != []
    ensures IsRunSplit(s, [s[..p], s[p..e]] + tail, sep)
  {
    assert s == s[..p] + s[p..e] + s[e..];
    ShapeCons(s[..p], s[p..e], s[e..], tail, sep);
  }

  /** Dropping the first text and run of a split leaves a split of the rest. */
  lemma TailShape(pieces: seq<string>, sep: char -> bool)
    requires |pieces| >= 3
    requires IsRunSplit(Concat(pieces), pieces, sep)
    ensures IsRunSplit(Concat(pieces[2..]), pieces[2..], sep)
  {
    var tail := pieces[2..];
    forall k | 0 <= k < |tail| && k % 2 == 0 ensures NoneIn(tail[k], sep) {
      assert tail[k] == pieces[k + 2] && (k + 2) % 2 == 0;
    }
    forall k | 0 <= k < |tail| && k % 2 == 1 ensures tail[k] != [] && AllIn(tail[k], sep) {
      assert tail[k] == pieces[k + 2] && (k + 2) % 2 == 1;
    }
    forall k | 0 < k < |tail| - 1 && k % 2 == 0 ensures tail[k] != [] {
      assert tail[k] == pieces[k + 2] && (k + 2) % 2 == 0;
    }
  }

  /** Where the split of a text, a run and the rest puts its first cuts. */
  lemma WordThenRun(w: string, run: string, rest: string, sep: char -> bool)
    requires NoneIn(w, sep) && run != [] && AllIn(run, sep)
    requires rest != [] ==> !sep(rest[0])
    ensures var s := w + run + rest;
            NextRun(s, 0, sep) == |w| && RunEnd(s, |w|, sep) == |w| + |run|
  {
    WordEnds(w, run, rest, sep);
    RunOfHead(w, run, sep);
    RunEnds(w + run, |w|, rest, sep);
  }

  /** The run after a text is all separators. */
  lemma RunOfHead(w: string, run: string, sep: char -> bool)
    requires AllIn(run, sep)
    ensures forall k :: |w| <= k < |w + run| ==> sep((w + run)[k])
  {
    forall k | |w| <= k < |w + run| ensures sep((w + run)[k]) { assert (w + run)[k] == run[k - |w|]; }
  }

  /** The first separator of a text followed by a separator run is right
      after the text. */
  lemma WordEnds(w: string, run: string, rest: string, sep: char -> bool)
    requires NoneIn(w, sep) && run != [] && sep(run[0])
    ensures NextRun(w + run + rest, 0, sep) == |w|
  {
    var s := w + run + rest;
    forall k | 0 <= k < |w| ensures !sep(s[k]) { assert s[k] == w[k]; }
    assert s[|w|] == run[0];
  }

  /** A run of separators from `i` to the end of `s`, followed by a string
      that does not start with one, ends where `s` does. */
  lemma RunEnds(s: string, i: nat, rest: string, sep: char -> bool)
    requires i <= |s|
    requires forall k :: i <= k < |s| ==> sep(s[k])
    requires rest != [] ==> !sep(rest[0])
    ensures RunEnd(s + rest, i, sep) == |s|
  {
    var t := s + rest;
    forall k | i <= k < |s| ensures sep(t[k]) { assert t[k] == s[k]; }
    if rest != [] {
      assert t[|s|] == rest[0];
    }
  }

  /** A non-empty split starts with text, so not with a separator. */
  lemma FirstOfSplit(rest: string, tail: seq<string>, sep: char -> bool)
    requires rest != [] && IsRunSplit(rest, tail, sep)
    requires |tail| > 1 ==> tail[0] != []
    ensures !sep(rest[0])
  {
    if |tail| == 1 {
      assert Concat(tail) == tail[0] + Concat([]);
    } else {
      assert Concat(tail) == tail[0] + Concat(tail[1..]);
    }
    assert rest[0] == tail[0][0];
  }

  /** The split is the only sequence of that shape: whatever alternation of
      text and separator runs concatenates to `s` is the one `Split` returns. */
  lemma {:induction false} SplitIsUnique(s: string, pieces: seq<string>, sep: char -> bool)
    requires IsRunSplit(s, pieces, sep)
    ensures pieces == Split(s, sep)
    decreases |pieces|
  {
    var w := pieces[0];
    if |pieces| == 1 {
      assert pieces == [w];
      assert Concat(pieces) == w + Concat([]);
      assert s == w;
      assert NextRun(s, 0, sep) == |s|;
      assert Split(s, sep) == [s];
    } else {
      var run := pieces[1];
      var tail := pieces[2..];
      assert pieces == [w, run] + tail;
      ConcatCons(w, run, tail);
      var rest := Concat(tail);
      TailShape(pieces, sep);
      assert s == w + run + rest;
      if rest != [] {
        FirstOfSplit(rest, tail, sep);
      }
      WordThenRun(w, run, rest, sep);
      assert s[..|w|] == w;
      assert s[|w|..|w| + |run|] == run;
      assert s[|w| + |run|..] == rest;
      SplitIsUnique(rest, tail, sep);
    }
  }
}
