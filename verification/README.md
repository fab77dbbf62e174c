# Coordinate text parser of the map demo

This project models the plain-text coordinate parsing layer of a small browser demo. The demo draws polylines and polygons on a map from coordinates that a user types into text areas. Each text area holds one point per line, written as two comma-separated numbers. An empty line starts a new polyline or polygon.

The source implements this in `src/index.ts` with four functions:

- `parse_coord` parses one line into a geographic position. Field 0 is the latitude and field 1 the longitude.
- `parse_local_coord` parses one line into a planar point. Field 1 becomes `x` and field 0 becomes `y`.
- `parse_global_coord_sets` splits the text on `"\n"` and groups the lines. It starts with one empty group. A line of length 0 opens a new empty group. Every other line is parsed with `parse_coord` and appended to the last group.
- `parse_local_coord_sets` runs the same grouping with `parse_local_coord` as the line parser.

Modules:

- `Wrappers` (`wrappers.dfy`): `Option`. `None` stands for JavaScript's `undefined`, which the source reads when a line has no second field.
- `Sequences` (`sequences.dfy`): a generic `Split` on a separator element. It has JavaScript `split` semantics for a one-character separator, so `""` splits into one empty part. `Join` is its inverse. The module also has `Count`, `Flatten`, `MapSeq`, `MapGroups` and `NonEmptyLines`. `Split` is used in three places: text into lines (`'\n'`), a line into fields (`','`), and, as a reference definition, lines into groups at empty lines (`""`).
- `Coords` (`coords.dfy`): the `LatLng` and `Point` records, `ParseCoord` and `ParseLocalCoord`.
- `CoordSets` (`coord_sets.dfy`): the grouping algorithm, written once and generic in the line parser. `AppendLine` is one iteration of the source's `forEach` and `GroupLines` is the whole loop. `ParseGlobalCoordSets` and `ParseLocalCoordSets` are its two instances.

Number conversion (`parseFloat`) is a parameter `num: Option<string> -> N` of the line parsers. A point's coordinates are therefore "whatever `num` makes of this field's text". Every property here holds for any number parser.

`to_local` returns `Point(north, east)`, and `print_local` prints `x, y` under the label "North, east" (src/index.ts:27-36), so `x` is north. `parse_local_coord` puts field 1 in `x` (src/index.ts:141), so a local line reads "east,north".

## Model

| member | source | states |
|---|---|---|
| Sequences.Split | src/index.ts:145 | Splitting a text gives one more part than there are separators. No part contains the separator. Joining the parts with the separator gives back the text exactly. |
| Sequences.SplitJoin | src/index.ts:136 | Splitting a join of separator-free parts gives back those parts. Together with `Split`'s contract, this makes split the unique separator-free decomposition. |
| Sequences.SplitWithoutSep | src/index.ts:136 | A line with no separator splits into exactly one part, the whole line. |
| Sequences.SplitAtFirstSep | src/index.ts:136 | The first part ends at the first separator, and splitting continues on what follows it. |
| Sequences.SplitAtTwoSeps | src/index.ts:136 | With two separators, the first two parts are the texts before the first and between the first and second. |
| Sequences.SplitTrailingSep | src/index.ts:145 | A trailing separator adds one empty part at the end. Nothing else changes. |
| Coords.ParseCoord | src/index.ts:135-138 | The latitude is always parsed from real text, a comma-free prefix of the line, never from a missing field. A line without a comma gives latitude from the whole line and longitude from a missing field (`undefined`). With `ParseCoordPair` and `ParseCoordIgnoresExtraFields`, this fixes the result for lines with zero, one, and two or more commas. |
| Coords.ParseLocalCoord | src/index.ts:139-142 | On every line, `x` is what `ParseCoord` makes the longitude and `y` what it makes the latitude. A line without a comma gives `y` from the whole line and `x` from a missing field. |
| Coords.ParseCoordPair | src/index.ts:135-138 | A line "a,b" yields latitude parsed from a and longitude parsed from b. |
| Coords.ParseCoordIgnoresExtraFields | src/index.ts:135-137 | Fields after the second do not affect the position. |
| Coords.ParseLocalCoordPair | src/index.ts:139-142 | A line "a,b" yields `x` parsed from b and `y` parsed from a. |
| Coords.ParseLocalCoordIgnoresExtraFields | src/index.ts:139-141 | Fields after the second do not affect the local point. |
| CoordSets.AppendLine | src/index.ts:149-153 | A zero-length line appends one empty group and keeps all existing groups. Any other line keeps the group count and all groups but the last. It extends the last group by exactly that line's parsed point. The points in order gain exactly that point. |
| CoordSets.GroupLines | src/index.ts:147-154 | After the loop there is one more group per zero-length line. Every group before the starting last group is unchanged. |
| CoordSets.GroupLinesKeepsPointsInOrder | src/index.ts:147-154 | The concatenated groups are the starting points followed by the parsed non-empty lines, in input order, with none dropped or repeated. |
| CoordSets.ParseGroups | src/index.ts:146-156 | The result has at least one group. It has 1 + (number of zero-length lines) groups. Its concatenation is exactly the parsed non-empty lines, in order. |
| CoordSets.ParseCoordSets | src/index.ts:145-156 | The shared algorithm of both `*_coord_sets` functions: at least one group, 1 + (number of zero-length lines of the `"\n"`-split text) groups, and the concatenation is exactly the parsed non-empty lines, in order. |
| CoordSets.ParseCoordSetsSplitsAtEmptyLines | src/index.ts:145-156 | The groups of a text are exactly the runs of its `"\n"`-separated lines between zero-length lines, each line parsed. |
| CoordSets.ParseGlobalCoordSets | src/index.ts:159-172 | The same three facts for the text's `"\n"`-split lines, with `parse_coord` as the line parser. The groups are exactly the runs of lines between zero-length lines, each parsed with `parse_coord`. |
| CoordSets.ParseLocalCoordSets | src/index.ts:144-157 | The same three facts with `parse_local_coord` as the line parser. The groups are exactly the runs of lines between zero-length lines, each parsed with `parse_local_coord`. |
| CoordSets.GroupLinesSplitsAtEmptyLines | src/index.ts:147-154 | The loop from any starting groups continues the last group with the first run of lines before an empty line. Each later run becomes a group of its own. |
| CoordSets.ParseGroupsSplitsAtEmptyLines | src/index.ts:146-154 | Independent reference: the groups are exactly the runs of lines between zero-length lines, each line parsed. |
| CoordSets.GroupLinesSnoc | src/index.ts:147-154 | Processing one more line is one more iteration of the loop body on the previous result. |
| CoordSets.WithoutEmptyLinesOneGroup | src/index.ts:149-152 | Lines none of which has length 0 form a single group of their parsed points. |
| CoordSets.EmptyLineBetweenTwoGroups | src/index.ts:149-152 | Lines a, "", b give the two groups [a] and [b]. |
| CoordSets.EmptyTextHasTwoEmptyGroups | src/index.ts:145-150 | Empty text yields two empty groups, because `"".split("\n")` is one zero-length line. |
| CoordSets.TrailingNewlineAddsEmptyGroup | src/index.ts:145-150 | A trailing newline adds one trailing empty group and leaves the other groups as they were. |
| CoordSets.SingleLineIsOnePoint | src/index.ts:149-152 | A single non-empty line is one point in one group. This holds for a line of blanks or a lone "\r". |
| CoordSets.CarriageReturnDoesNotSeparate | src/index.ts:149-152 | With CRLF line endings, the "blank" line is "\r". It is parsed as a point, and the lines stay in one group. |
| CoordSets.EmptyLineSeparates | src/index.ts:149-152 | "a\n\nb" yields two groups of one point each. |

## Left out

- `to_local`, `to_global`, `print`, `print_local` (src/index.ts:24-43): floating-point trigonometry, `toFixed` formatting and calls into the map library's spherical geometry, which is not part of this model.
- `parseFloat`: float parsing is not modelled. It is the parameter `num`. A missing field reaches `num` as `None`, where the source calls `parseFloat(undefined)` and gets NaN.
- `google.maps.LatLng` normalisation: the widget's constructor clamps latitude and wraps longitude. The model records the parsed values as passed to the constructor.
- `add_label`, `add_polyline`, `add_polygon`, `add_local_polyline`, `add_local_polygon`, `draw_all` (src/index.ts:45-133): thin wrappers over the third-party map widget.
- `init` (src/index.ts:173-208) and the `console.log` calls: DOM reads, event wiring and logging are I/O.
