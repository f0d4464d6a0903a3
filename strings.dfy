/** JavaScript string primitives the components rely on: `indexOf`,
    `startsWith`, `includes`, `split` and `join`, stated over `seq<char>`. */
module Strings {

  /** `pat` occurs in `s` starting at index `i`. */
  predicate OccursAt(s: string, pat: string, i: nat) {
    i + |pat| <= |s| && s[i..i + |pat|] == pat
  }

  /** `s.includes(pat)` */
  predicate Contains(s: string, pat: string) {
    exists i: nat :: i <= |s| && OccursAt(s, pat, i)
  }

  /** `s.startsWith(pat)` */
  predicate StartsWith(s: string, pat: string) {
    |pat| <= |s| && s[..|pat|] == pat
  }

  /** `s.indexOf(pat)`: the first index at which `pat` occurs, or -1. */
  function IndexOf(s: string, pat: string): (r: int)
    ensures -1 <= r <= |s|
    ensures r == -1 <==> !Contains(s, pat)
    ensures r >= 0 ==> OccursAt(s, pat, r)
    ensures r >= 0 ==> forall j: nat :: j < r ==> !OccursAt(s, pat, j)
  {
    IndexFrom(s, pat, 0)
  }

  /** The first occurrence of `pat` at or after `from`, or -1. */
  function IndexFrom(s: string, pat: string, from: nat): (r: int)
    ensures -1 <= r <= |s|
    ensures r == -1 ==> forall j: nat :: from <= j ==> !OccursAt(s, pat, j)
    ensures r >= 0 ==> from <= r && OccursAt(s, pat, r)
    ensures r >= 0 ==> forall j: nat :: from <= j < r ==> !OccursAt(s, pat, j)
    decreases |s| + 1 - from
  {
    if from + |pat| > |s| then -1
    else if s[from..from + |pat|] == pat then from
    else IndexFrom(s, pat, from + 1)
  }

  /** `s.split(sep)` for a non-empty separator: the pieces between the
      non-overlapping occurrences of `sep`, scanned from the left. */
  function Split(s: string, sep: string): (parts: seq<string>)
    requires sep != ""
    ensures |parts| >= 1
    ensures |parts| == 1 <==> !Contains(s, sep)
    decreases |s|, 1
  {
    var i := IndexOf(s, sep);
    if i == -1 then [s] else [s[..i]] + SplitRest(s, sep, i)
  }

  /** The pieces of the text after the occurrence of `sep` at `i`. */
  function SplitRest(s: string, sep: string, i: nat): (parts: seq<string>)
    requires sep != "" && OccursAt(s, sep, i)
    ensures |parts| >= 1
    decreases |s| - i, 0
  {
    Split(s[i + |sep|..], sep)
  }

  /** `parts.join(sep)` */
  function Join(parts: seq<string>, sep: string): string {
    if |parts| == 0 then ""
    else if |parts| == 1 then parts[0]
    else parts[0] + sep + Join(parts[1..], sep)
  }

  /** Joining the pieces of a split with the same separator gives back the
      string. */
  lemma {:induction false} JoinSplit(s: string, sep: string)
    requires sep != ""
    ensures Join(Split(s, sep), sep) == s
    decreases |s|
  {
    var i := IndexOf(s, sep);
    if i != -1 {
      var tail := s[i + |sep|..];
      JoinSplit(tail, sep);
      SplitCons(s, sep);
      JoinCons(s[..i], Split(tail, sep), sep);
      Decompose(s, sep, i);
    }
  }

  /** A string holding the separator splits into the text before its first
      occurrence followed by the pieces of the text after it. */
  lemma SplitCons(s: string, sep: string)
    requires sep != "" && IndexOf(s, sep) != -1
    ensures Split(s, sep) == [s[..IndexOf(s, sep)]] + Split(s[IndexOf(s, sep) + |sep|..], sep)
  {
  }

  /** Cutting a string around an occurrence of `pat`. */
  lemma Decompose(s: string, pat: string, i: nat)
    requires OccursAt(s, pat, i)
    ensures s == s[..i] + pat + s[i + |pat|..]
  {
    assert s == s[..i] + s[i..i + |pat|] + s[i + |pat|..];
  }

  /** A list made of one piece followed by a non-empty list that joins to
      `tail`. */
  lemma FirstOfCons(parts: seq<string>, head: string, rest: seq<string>, tail: string, sep: string)
    requires parts == [head] + rest && |rest| >= 1 && Join(rest, sep) == tail
    ensures |parts| >= 2 && parts[0] == head && Join(parts[1..], sep) == tail
  {
    assert parts[1..] == rest;
  }

  /** Joining a non-empty list behind a first piece. */
  lemma JoinCons(head: string, rest: seq<string>, sep: string)
    requires |rest| >= 1
    ensures Join([head] + rest, sep) == head + sep + Join(rest, sep)
  {
    assert ([head] + rest)[1..] == rest;
  }

  /** No piece of a split holds the separator: the string is cut at every
      occurrence, not only at the first. */
  lemma {:induction false} SplitPieces(s: string, sep: string)
    requires sep != ""
    ensures forall k :: 0 <= k < |Split(s, sep)| ==> !Contains(Split(s, sep)[k], sep)
    decreases |s|
  {
    var i := IndexOf(s, sep);
    if i != -1 {
      SplitPieces(s[i + |sep|..], sep);
      SplitCons(s, sep);
      NoneBeforeFirst(s, sep);
      ConsPieces(s[..i], Split(s[i + |sep|..], sep), sep);
    }
  }

  lemma ConsPieces(head: string, rest: seq<string>, sep: string)
    requires !Contains(head, sep)
    requires forall k :: 0 <= k < |rest| ==> !Contains(rest[k], sep)
    ensures forall k :: 0 <= k < |[head] + rest| ==> !Contains(([head] + rest)[k], sep)
  {
    forall k | 0 <= k < |[head] + rest|
      ensures !Contains(([head] + rest)[k], sep)
    {
      if k > 0 {
        assert ([head] + rest)[k] == rest[k - 1];
      }
    }
  }

  /** The text before the first occurrence of `pat` holds no occurrence of
      it. */
  lemma NoneBeforeFirst(s: string, pat: string)
    requires pat != "" && Contains(s, pat)
    ensures !Contains(s[..IndexOf(s, pat)], pat)
  {
    var c := IndexOf(s, pat);
    forall j: nat | j <= c
      ensures !OccursAt(s[..c], pat, j)
    {
      if OccursAt(s[..c], pat, j) {
        assert s[..c][j..j + |pat|] == s[j..j + |pat|];
        assert OccursAt(s, pat, j);
      }
    }
  }

  /** The first piece of a split is the text before the first separator, and
      the remaining pieces joined back are the text after it. */
  lemma SplitFirst(s: string, sep: string)
    requires sep != "" && Contains(s, sep)
    ensures var parts := Split(s, sep);
      var i := IndexOf(s, sep);
      |parts| >= 2 && parts[0] == s[..i] &&
      Join(parts[1..], sep) == s[i + |sep|..]
  {
    var i := IndexOf(s, sep);
    JoinSplit(s[i + |sep|..], sep);
    SplitCons(s, sep);
    FirstOfCons(Split(s, sep), s[..i], Split(s[i + |sep|..], sep), s[i + |sep|..], sep);
  }
}
