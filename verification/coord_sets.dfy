/**
 Parsing a text area into groups of points (src/index.ts
 `parse_local_coord_sets` and `parse_global_coord_sets`). The text is split
 into lines on '\n'; the result starts as one empty group; a line of length
 zero opens a new empty group and every other line is parsed and appended to
 the last group. The two source functions differ only in the line parser, so
 the algorithm is modelled once, generic in the parser.
 */
module CoordSets {
  import opened Wrappers
  import opened Sequences
  import opened Coords

  /** One iteration of the source's `forEach` over the lines. */
  function AppendLine<P>(groups: seq<seq<P>>, line: string, parse: string -> P): (r: seq<seq<P>>)
    requires |groups| > 0
    ensures |line| == 0 ==> |r| == |groups| + 1 && r[..|groups|] == groups && r[|groups|] == []
    ensures |line| > 0 ==> |r| == |groups|
    ensures |line| > 0 ==> forall i :: 0 <= i < |groups| - 1 ==> r[i] == groups[i]
    ensures |line| > 0 ==> r[|r| - 1] == groups[|groups| - 1] + [parse(line)]
    ensures Flatten(r) == Flatten(groups) + (if |line| == 0 then [] else [parse(line)])
  {
    if |line| == 0 then
      var r := groups + [[]];
      assert r[..|r| - 1] == groups;
      r
    else
      var n := |groups|;
      var r := groups[..n - 1] + [groups[n - 1] + [parse(line)]];
      assert r[..n - 1] == groups[..n - 1];
      r
  }

  /** The source's `forEach` over `lines`, starting from `groups`. */
  function GroupLines<P>(groups: seq<seq<P>>, lines: seq<string>, parse: string -> P): (r: seq<seq<P>>)
    requires |groups| > 0
    ensures |r| == |groups| + Count(lines, "")
    ensures forall i :: 0 <= i < |groups| - 1 ==> r[i] == groups[i]
    decreases |lines|
  {
    if |lines| == 0 then groups
    else
      ParsedLinesCons(lines, parse);
      GroupLines(AppendLine(groups, lines[0], parse), lines[1..], parse)
  }

  /** The points of the groups are those already there followed by the
      parsed non-empty lines, in input order. */
  lemma {:induction false} GroupLinesKeepsPointsInOrder<P>(groups: seq<seq<P>>, lines: seq<string>, parse: string -> P)
    requires |groups| > 0
    ensures Flatten(GroupLines(groups, lines, parse)) == Flatten(groups) + MapSeq(parse, NonEmptyLines(lines))
    decreases |lines|
  {
    if |lines| > 0 {
      var next := AppendLine(groups, lines[0], parse);
      GroupLinesKeepsPointsInOrder(next, lines[1..], parse);
      ParsedLinesCons(lines, parse);
    }
  }

  /** The parsed non-empty lines are those of the first line followed by
      those of the rest. */
  lemma ParsedLinesCons<P>(lines: seq<string>, parse: string -> P)
    requires |lines| > 0
    ensures MapSeq(parse, NonEmptyLines(lines))
            == (if |lines[0]| == 0 then [] else [parse(lines[0])]) + MapSeq(parse, NonEmptyLines(lines[1..]))
    ensures Count(lines, "") == (if |lines[0]| == 0 then 1 else 0) + Count(lines[1..], "")
  {
  }

  /** Groups the lines of a text area, starting from one empty group. */
  function ParseGroups<P>(lines: seq<string>, parse: string -> P): (r: seq<seq<P>>)
    ensures |r| >= 1
    ensures |r| == 1 + Count(lines, "")
    ensures Flatten(r) == MapSeq(parse, NonEmptyLines(lines))
  {
    GroupLinesKeepsPointsInOrder([[]], lines, parse);
    GroupLines([[]], lines, parse)
  }

  /** Splits `text` into lines and groups them. */
  function ParseCoordSets<P>(text: string, parse: string -> P): (r: seq<seq<P>>)
    ensures |r| >= 1
    ensures |r| == 1 + Count(Split(text, '\n'), "")
    ensures Flatten(r) == MapSeq(parse, NonEmptyLines(Split(text, '\n')))
  {
    ParseGroups(Split(text, '\n'), parse)
  }

  /** The groups of a text are the runs of its lines between zero-length
      lines, each line parsed. */
  lemma ParseCoordSetsSplitsAtEmptyLines<P>(text: string, parse: string -> P)
    ensures ParseCoordSets(text, parse) == MapGroups(parse, Split(Split(text, '\n'), ""))
  {
    ParseGroupsSplitsAtEmptyLines(Split(text, '\n'), parse);
  }

  /** The line parser of `parse_global_coord_sets`. */
  function GlobalLine<N>(num: Option<string> -> N): string -> LatLng<N>
  {
    line => ParseCoord(num, line)
  }

  /** The line parser of `parse_local_coord_sets`. */
  function LocalLine<N>(num: Option<string> -> N): string -> Point<N>
  {
    line => ParseLocalCoord(num, line)
  }

  /** Groups of geographic positions, one "lat,lng" per line. */
  function ParseGlobalCoordSets<N>(num: Option<string> -> N, text: string): (r: seq<seq<LatLng<N>>>)
    ensures |r| >= 1
    ensures |r| == 1 + Count(Split(text, '\n'), "")
    ensures Flatten(r) == MapSeq(GlobalLine(num), NonEmptyLines(Split(text, '\n')))
    ensures r == MapGroups(GlobalLine(num), Split(Split(text, '\n'), ""))
  {
    ParseCoordSetsSplitsAtEmptyLines(text, GlobalLine(num));
    ParseCoordSets(text, GlobalLine(num))
  }

  /** Groups of local points, one "y,x" per line. */
  function ParseLocalCoordSets<N>(num: Option<string> -> N, text: string): (r: seq<seq<Point<N>>>)
    ensures |r| >= 1
    ensures |r| == 1 + Count(Split(text, '\n'), "")
    ensures Flatten(r) == MapSeq(LocalLine(num), NonEmptyLines(Split(text, '\n')))
    ensures r == MapGroups(LocalLine(num), Split(Split(text, '\n'), ""))
  {
    ParseCoordSetsSplitsAtEmptyLines(text, LocalLine(num));
    ParseCoordSets(text, LocalLine(num))
  }

  /** `groups` continued by `more`: the first group of `more` is appended
      to the last of `groups`, the others follow it. */
  function Continue<P>(groups: seq<seq<P>>, more: seq<seq<P>>): seq<seq<P>>
    requires |groups| > 0 && |more| > 0
  {
    groups[..|groups| - 1] + [groups[|groups| - 1] + more[0]] + more[1..]
  }

  lemma ContinueWithNothing<P>(groups: seq<seq<P>>)
    requires |groups| > 0
    ensures Continue(groups, [[]]) == groups
  {
    var n := |groups|;
    assert groups[n - 1] + [] == groups[n - 1];
    assert groups[..n - 1] + [groups[n - 1]] == groups;
  }

  lemma ContinueAfterEmptyLine<P>(groups: seq<seq<P>>, more: seq<seq<P>>)
    requires |groups| > 0 && |more| > 0
    ensures Continue(groups, [[]] + more) == Continue(groups + [[]], more)
  {
    var n := |groups|;
    var m := [[]] + more;
    assert m[0] == [] && m[1..] == more;
    assert groups[n - 1] + [] == groups[n - 1];
    assert groups[..n - 1] + [groups[n - 1]] == groups;
    assert (groups + [[]])[..n] == groups;
    ContinueFromEmpty(more);
  }

  lemma ContinueFromEmpty<P>(more: seq<seq<P>>)
    requires |more| > 0
    ensures Continue([[]], more) == more
  {
    assert [] + more[0] == more[0];
    assert [more[0]] + more[1..] == more;
  }

  lemma ContinueAfterPoint<P>(groups: seq<seq<P>>, p: P, more: seq<seq<P>>)
    requires |groups| > 0 && |more| > 0
    ensures Continue(groups, [[p] + more[0]] + more[1..])
            == Continue(groups[..|groups| - 1] + [groups[|groups| - 1] + [p]], more)
  {
    var n := |groups|;
    var next := groups[..n - 1] + [groups[n - 1] + [p]];
    assert next[..n - 1] == groups[..n - 1];
    assert groups[n - 1] + ([p] + more[0]) == next[n - 1] + more[0];
  }

  /** Reference definition: the groups are the runs of lines between empty
      lines (the lines split at "" exactly as text is split at '\n'), each
      line parsed. Generalised over the starting groups. */
  lemma {:induction false} GroupLinesSplitsAtEmptyLines<P>(groups: seq<seq<P>>, lines: seq<string>, parse: string -> P)
    requires |groups| > 0
    ensures GroupLines(groups, lines, parse) == Continue(groups, MapGroups(parse, Split(lines, "")))
    decreases |lines|
  {
    if |lines| == 0 {
      assert MapGroups(parse, Split(lines, "")) == [[]];
      ContinueWithNothing(groups);
    } else {
      var l := lines[0];
      var mr := MapGroups(parse, Split(lines[1..], ""));
      var next := AppendLine(groups, l, parse);
      GroupLinesSplitsAtEmptyLines(next, lines[1..], parse);
      if |l| == 0 {
        assert MapGroups(parse, Split(lines, "")) == [[]] + mr;
        ContinueAfterEmptyLine(groups, mr);
      } else {
        var rest := Split(lines[1..], "");
        assert l != "";
        assert Split(lines, "") == [[l] + rest[0]] + rest[1..];
        assert MapSeq(parse, [l] + rest[0]) == [parse(l)] + MapSeq(parse, rest[0]);
        assert MapGroups(parse, Split(lines, "")) == [[parse(l)] + mr[0]] + mr[1..];
        ContinueAfterPoint(groups, parse(l), mr);
      }
    }
  }

  /** The groups are exactly the parsed runs of lines between empty lines. */
  lemma ParseGroupsSplitsAtEmptyLines<P>(lines: seq<string>, parse: string -> P)
    ensures ParseGroups(lines, parse) == MapGroups(parse, Split(lines, ""))
  {
    GroupLinesSplitsAtEmptyLines([[]], lines, parse);
    ContinueFromEmpty(MapGroups(parse, Split(lines, "")));
  }

  /** Processing one more line is one more step of the loop. */
  lemma {:induction false} GroupLinesSnoc<P>(groups: seq<seq<P>>, lines: seq<string>, line: string, parse: string -> P)
    requires |groups| > 0
    ensures GroupLines(groups, lines + [line], parse) == AppendLine(GroupLines(groups, lines, parse), line, parse)
    decreases |lines|
  {
    if |lines| == 0 {
      assert [line][1..] == [];
    } else {
      assert (lines + [line])[1..] == lines[1..] + [line];
      GroupLinesSnoc(AppendLine(groups, lines[0], parse), lines[1..], line, parse);
    }
  }

  /** Empty text is one empty line, which opens a second group. */
  lemma EmptyTextHasTwoEmptyGroups<P>(parse: string -> P)
    ensures ParseCoordSets("", parse) == [[], []]
  {
  }

  /** A trailing newline adds a trailing empty group and changes nothing else. */
  lemma TrailingNewlineAddsEmptyGroup<P>(text: string, parse: string -> P)
    ensures ParseCoordSets(text + "\n", parse) == ParseCoordSets(text, parse) + [[]]
  {
    var lines := Split(text, '\n');
    SplitTrailingSep(text, '\n');
    GroupLinesSnoc([[]], lines, "", parse);
    var before := GroupLines([[]], lines, parse);
    var after := AppendLine(before, "", parse);
    assert after == before + [[]];
  }

  /** Lines none of which is empty form a single group. */
  lemma WithoutEmptyLinesOneGroup<P>(lines: seq<string>, parse: string -> P)
    requires forall i :: 0 <= i < |lines| ==> |lines[i]| > 0
    ensures ParseGroups(lines, parse) == [MapSeq(parse, lines)]
  {
    assert "" !in lines;
    SplitWithoutSep(lines, "");
    ParseGroupsSplitsAtEmptyLines(lines, parse);
  }

  /** One empty line between two others gives two groups of one point. */
  lemma EmptyLineBetweenTwoGroups<P>(a: string, b: string, parse: string -> P)
    requires |a| > 0 && |b| > 0
    ensures ParseGroups([a, "", b], parse) == [[parse(a)], [parse(b)]]
  {
    assert [a, "", b] == [a] + [""] + [b];
    SplitAtFirstSep([a], "", [b]);
    SplitWithoutSep([b], "");
    ParseGroupsSplitsAtEmptyLines([a, "", b], parse);
    assert MapSeq(parse, [a]) == [parse(a)];
    assert MapSeq(parse, [b]) == [parse(b)];
  }

  /** A non-empty line without a newline, even one of blanks or a lone
      carriage return, is a point of the single group. */
  lemma SingleLineIsOnePoint<P>(line: string, parse: string -> P)
    requires |line| > 0 && '\n' !in line
    ensures ParseCoordSets(line, parse) == [[parse(line)]]
  {
    SplitWithoutSep(line, '\n');
    WithoutEmptyLinesOneGroup([line], parse);
    assert MapSeq(parse, [line]) == [parse(line)];
  }

  /** Three non-empty lines in a row form one group of three points. */
  lemma ThreeLinesOneGroup<P>(a: string, b: string, c: string, parse: string -> P)
    requires |a| > 0 && |b| > 0 && |c| > 0
    ensures ParseGroups([a, b, c], parse) == [[parse(a), parse(b), parse(c)]]
  {
    var points := MapSeq(parse, [a, b, c]);
    assert points == [parse(a), parse(b), parse(c)] by {
      assert points[0] == parse(a) && points[1] == parse(b) && points[2] == parse(c);
    }
    WithoutEmptyLinesOneGroup([a, b, c], parse);
  }

  /** With Windows line endings the "blank" line between two lines is "\r",
      which has length one: it becomes a point of its own, and the '\r' stays
      on the end of the line before it, so no second group is opened. */
  lemma CarriageReturnDoesNotSeparate<P>(a: string, c: string, parse: string -> P)
    requires '\n' !in a && '\n' !in c && |c| > 0
    ensures ParseCoordSets(a + "\r\n\r\n" + c, parse)
            == [[parse(a + "\r"), parse("\r"), parse(c)]]
  {
    var first := a + "\r";
    assert '\n' !in first && '\n' !in "\r";
    assert a + "\r\n\r\n" + c == first + ['\n'] + "\r" + ['\n'] + c;
    SplitAtTwoSeps(first, "\r", '\n', c);
    SplitWithoutSep(c, '\n');
    assert Split(a + "\r\n\r\n" + c, '\n') == [first, "\r", c];
    ThreeLinesOneGroup(first, "\r", c, parse);
  }

  /** An empty line between two lines separates them into two groups. */
  lemma EmptyLineSeparates<P>(a: string, b: string, parse: string -> P)
    requires |a| > 0 && |b| > 0 && '\n' !in a && '\n' !in b
    ensures ParseCoordSets(a + "\n\n" + b, parse) == [[parse(a)], [parse(b)]]
  {
    assert a + "\n\n" + b == a + ['\n'] + ([] + ['\n'] + b);
    SplitAtFirstSep(a, '\n', [] + ['\n'] + b);
    SplitAtFirstSep([], '\n', b);
    SplitWithoutSep(b, '\n');
    assert Split(a + "\n\n" + b, '\n') == [a, "", b];
    EmptyLineBetweenTwoGroups(a, b, parse);
  }
}
