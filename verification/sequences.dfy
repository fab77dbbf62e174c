/**
 Generic sequence operations the coordinate parser is built from: splitting a
 sequence on a separator element (JavaScript's `String.prototype.split` with a
 one-character separator and no limit), its inverse `Join`, and the small
 helpers used to state what the parser produces.
 */
module Sequences {

  /** Number of occurrences of `x` in `s`. */
  function Count<T(==)>(s: seq<T>, x: T): (n: nat)
    ensures n <= |s|
    ensures n == 0 <==> x !in s
  {
    if |s| == 0 then 0
    else (if s[0] == x then 1 else 0) + Count(s[1..], x)
  }

  /** Concatenates the parts with one `sep` between neighbours. */
  function Join<T>(parts: seq<seq<T>>, sep: T): seq<T>
  {
    if |parts| == 0 then []
    else if |parts| == 1 then parts[0]
    else parts[0] + [sep] + Join(parts[1..], sep)
  }

  /** The maximal runs of `s` between occurrences of `sep`. Like JavaScript's
      `split`, the empty sequence yields one empty part, and a leading,
      trailing or doubled separator yields an empty part. */
  function Split<T(==)>(s: seq<T>, sep: T): (parts: seq<seq<T>>)
    ensures |parts| == Count(s, sep) + 1
    ensures forall i :: 0 <= i < |parts| ==> sep !in parts[i]
    ensures Join(parts, sep) == s
    decreases |s|
  {
    if |s| == 0 then [[]]
    else
      var rest := Split(s[1..], sep);
      if s[0] == sep then
        [[]] + rest
      else
        var first := [s[0]] + rest[0];
        assert sep !in first;
        [first] + rest[1..]
  }

  /** A separator-free sequence is a single part. */
  lemma SplitWithoutSep<T>(a: seq<T>, sep: T)
    requires sep !in a
    ensures Split(a, sep) == [a]
  {
  }

  /** Splitting stops the first part at the first separator and continues
      with what follows it. */
  lemma {:induction false} SplitAtFirstSep<T>(a: seq<T>, sep: T, t: seq<T>)
    requires sep !in a
    ensures Split(a + [sep] + t, sep) == [a] + Split(t, sep)
    decreases |a|
  {
    var s := a + [sep] + t;
    if |a| == 0 {
      assert s[1..] == t;
    } else {
      assert s[1..] == a[1..] + [sep] + t;
      SplitAtFirstSep(a[1..], sep, t);
      assert [a[0]] + a[1..] == a;
    }
  }

  /** The first two parts of a sequence with at least two separators. */
  lemma {:induction false} SplitAtTwoSeps<T>(a: seq<T>, b: seq<T>, sep: T, t: seq<T>)
    requires sep !in a && sep !in b
    ensures Split(a + [sep] + b + [sep] + t, sep) == [a, b] + Split(t, sep)
  {
    assert a + [sep] + b + [sep] + t == a + [sep] + (b + [sep] + t);
    SplitAtFirstSep(a, sep, b + [sep] + t);
    SplitAtFirstSep(b, sep, t);
  }

  /** Split is a left inverse of Join on separator-free parts: the parts of a
      split are the only separator-free decomposition of a sequence. */
  lemma {:induction false} SplitJoin<T>(parts: seq<seq<T>>, sep: T)
    requires |parts| > 0
    requires forall i :: 0 <= i < |parts| ==> sep !in parts[i]
    ensures Split(Join(parts, sep), sep) == parts
    decreases |parts|
  {
    if |parts| == 1 {
      SplitWithoutSep(parts[0], sep);
    } else {
      SplitAtFirstSep(parts[0], sep, Join(parts[1..], sep));
      SplitJoin(parts[1..], sep);
      assert [parts[0]] + parts[1..] == parts;
    }
  }

  /** A trailing separator adds one empty part at the end. */
  lemma {:induction false} SplitTrailingSep<T>(s: seq<T>, sep: T)
    ensures Split(s + [sep], sep) == Split(s, sep) + [[]]
    decreases |s|
  {
    if |s| == 0 {
      assert [sep][1..] == [];
    } else {
      assert (s + [sep])[1..] == s[1..] + [sep];
      SplitTrailingSep(s[1..], sep);
    }
  }

  /** Concatenation of the groups, first to last. */
  function Flatten<T>(groups: seq<seq<T>>): seq<T>
  {
    if |groups| == 0 then []
    else Flatten(groups[..|groups| - 1]) + groups[|groups| - 1]
  }

  /** `f` applied to every element, keeping order. */
  function MapSeq<A, B>(f: A -> B, s: seq<A>): (r: seq<B>)
    ensures |r| == |s|
    ensures forall i :: 0 <= i < |s| ==> r[i] == f(s[i])
  {
    if |s| == 0 then [] else [f(s[0])] + MapSeq(f, s[1..])
  }

  /** `f` applied to every element of every group, keeping the grouping. */
  function MapGroups<A, B>(f: A -> B, groups: seq<seq<A>>): (r: seq<seq<B>>)
    ensures |r| == |groups|
    ensures forall i :: 0 <= i < |groups| ==> r[i] == MapSeq(f, groups[i])
  {
    if |groups| == 0 then [] else [MapSeq(f, groups[0])] + MapGroups(f, groups[1..])
  }

  /** The lines of length other than zero, in their original order. */
  function NonEmptyLines(lines: seq<string>): (r: seq<string>)
    ensures |r| == |lines| - Count(lines, "")
    ensures forall i :: 0 <= i < |r| ==> |r[i]| > 0
  {
    if |lines| == 0 then []
    else if |lines[0]| == 0 then NonEmptyLines(lines[1..])
    else [lines[0]] + NonEmptyLines(lines[1..])
  }
}
