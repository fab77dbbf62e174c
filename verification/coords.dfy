/**
 Parsing one text line into a point (src/index.ts `parse_coord` and
 `parse_local_coord`). The line is split on ',' and two of the fields are
 converted to numbers. Number conversion (JavaScript's `parseFloat`) is not
 modelled: it is the parameter `num`, which receives the field's text, or
 `None` when the line has too few fields and the source reads `undefined`.
 */
module Coords {
  import opened Wrappers
  import opened Sequences

  /** A geographic position: latitude and longitude. */
  datatype LatLng<N> = LatLng(lat: N, lng: N)

  /** A planar point; the map widget's `Point(x, y)`. */
  datatype Point<N> = Point(x: N, y: N)

  /** The field at index `i`, or `None` past the last field. */
  function Field(fields: seq<string>, i: nat): Option<string>
  {
    if i < |fields| then Some(fields[i]) else None
  }

  /** Field 0 is the latitude and field 1 the longitude. The latitude is
      always parsed from text, the comma-free prefix of the line; a line
      without a comma has a missing longitude field. */
  function ParseCoord<N>(num: Option<string> -> N, line: string): (r: LatLng<N>)
    ensures exists f :: r.lat == num(Some(f)) && ',' !in f && f <= line
    ensures ',' !in line ==> r == LatLng(num(Some(line)), num(None))
  {
    var fields := Split(line, ',');
    assert ',' !in fields[0];
    assert fields[0] <= line by {
      if |fields| > 1 {
        assert line == fields[0] + ([','] + Join(fields[1..], ','));
      }
    }
    LatLng(num(Field(fields, 0)), num(Field(fields, 1)))
  }

  /** Field 1 is `x` and field 0 is `y`: the same fields as `ParseCoord`
      reads, with the roles swapped. */
  function ParseLocalCoord<N>(num: Option<string> -> N, line: string): (r: Point<N>)
    ensures r.x == ParseCoord(num, line).lng && r.y == ParseCoord(num, line).lat
    ensures ',' !in line ==> r == Point(num(None), num(Some(line)))
  {
    var fields := Split(line, ',');
    Point(num(Field(fields, 1)), num(Field(fields, 0)))
  }

  /** The fields of a line with exactly one comma. */
  lemma {:induction false} FieldsOfPair(a: string, b: string)
    requires ',' !in a && ',' !in b
    ensures Split(a + "," + b, ',') == [a, b]
  {
    SplitAtFirstSep(a, ',', b);
    SplitWithoutSep(b, ',');
  }

  /** A line "a,b" gives latitude a and longitude b. */
  lemma ParseCoordPair<N>(num: Option<string> -> N, a: string, b: string)
    requires ',' !in a && ',' !in b
    ensures ParseCoord(num, a + "," + b) == LatLng(num(Some(a)), num(Some(b)))
  {
    FieldsOfPair(a, b);
  }

  /** Fields after the second do not affect the position. */
  lemma ParseCoordIgnoresExtraFields<N>(num: Option<string> -> N, a: string, b: string, rest: string)
    requires ',' !in a && ',' !in b
    ensures ParseCoord(num, a + "," + b + "," + rest) == LatLng(num(Some(a)), num(Some(b)))
  {
    SplitAtTwoSeps(a, b, ',', rest);
  }

  /** A line "a,b" gives `x` = b and `y` = a. */
  lemma ParseLocalCoordPair<N>(num: Option<string> -> N, a: string, b: string)
    requires ',' !in a && ',' !in b
    ensures ParseLocalCoord(num, a + "," + b) == Point(num(Some(b)), num(Some(a)))
  {
    FieldsOfPair(a, b);
  }

  /** Fields after the second do not affect the local point. */
  lemma ParseLocalCoordIgnoresExtraFields<N>(num: Option<string> -> N, a: string, b: string, rest: string)
    requires ',' !in a && ',' !in b
    ensures ParseLocalCoord(num, a + "," + b + "," + rest) == Point(num(Some(b)), num(Some(a)))
  {
    SplitAtTwoSeps(a, b, ',', rest);
  }
}
