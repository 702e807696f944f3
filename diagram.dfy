/**
 * The two pieces of logic in `DiagramPlaceholder`: which connections are
 * drawn (a connection whose end points do not both name an existing
 * component is skipped), and how a component box is laid out (one text
 * row per space-separated word, a height that grows with the rows).
 */
module Diagram {
  import opened Js

  /** A connection between two components, given by their (untrusted) list indices. */
  datatype Connection = Connection(from: int, to: int)

  /** A drawn line: the connection's position in the list (its React key) and its end points. */
  datatype DrawnLine = DrawnLine(key: nat, from: nat, to: nat)

  /** Whether `components[i]` exists for a list of `count` components. */
  predicate Indexes(count: nat, i: int)
  {
    0 <= i < count
  }

  /** Whether connection `c` is drawn: both of its ends index an existing component. */
  predicate Drawn(count: nat, c: Connection)
  {
    Indexes(count, c.from) && Indexes(count, c.to)
  }

  /** Whether `line` is the line of the connection at position `line.key`. */
  predicate LineOf(connections: seq<Connection>, line: DrawnLine)
  {
    line.key < |connections| && line.from == connections[line.key].from && line.to == connections[line.key].to
  }

  /** The keys of a list of drawn lines. */
  function Keys(lines: seq<DrawnLine>): set<nat>
  {
    if lines == [] then {} else {lines[0].key} + Keys(lines[1..])
  }

  /** The lines drawn for `connections[k..]`, in list order. */
  function DrawnLinesFrom(count: nat, connections: seq<Connection>, k: nat): (lines: seq<DrawnLine>)
    requires k <= |connections|
    ensures forall j :: 0 <= j < |lines| ==>
      k <= lines[j].key && LineOf(connections, lines[j]) && lines[j].from < count && lines[j].to < count
    ensures Keys(lines) == set i: nat | k <= i < |connections| && Drawn(count, connections[i])
    ensures forall j1, j2 :: 0 <= j1 < j2 < |lines| ==> lines[j1].key < lines[j2].key
    decreases |connections| - k
  {
    if k == |connections| then []
    else
      var c := connections[k];
      var rest := DrawnLinesFrom(count, connections, k + 1);
      if Drawn(count, c) then
        var lines := [DrawnLine(k, c.from, c.to)] + rest;
        assert lines[1..] == rest;
        lines
      else rest
  }

  /**
   * `connections.map(...)` with `if (!from || !to) return null`: exactly
   * the connections whose two ends index an existing component are
   * drawn, each once and in list order, between the components they name.
   */
  function DrawnLines(count: nat, connections: seq<Connection>): (lines: seq<DrawnLine>)
    ensures forall j :: 0 <= j < |lines| ==>
      LineOf(connections, lines[j]) && lines[j].from < count && lines[j].to < count
    ensures Keys(lines) == set i: nat | i < |connections| && Drawn(count, connections[i])
    ensures forall j1, j2 :: 0 <= j1 < j2 < |lines| ==> lines[j1].key < lines[j2].key
  {
    DrawnLinesFrom(count, connections, 0)
  }

  /** When every connection is in range, every one of them is drawn. */
  lemma {:induction false} AllInRangeAllDrawn(count: nat, connections: seq<Connection>, k: nat)
    requires k <= |connections|
    requires forall i :: 0 <= i < |connections| ==> Drawn(count, connections[i])
    ensures |DrawnLinesFrom(count, connections, k)| == |connections| - k
    decreases |connections| - k
  {
    if k < |connections| {
      AllInRangeAllDrawn(count, connections, k + 1);
    }
  }

  /** The words of a name: `name.split(' ')`; each becomes one text row of the box. */
  function BoxRows(name: string): (rows: seq<string>)
    ensures |rows| == Count(' ', name) + 1
    ensures Join(rows, ' ') == name
  {
    Split(name, ' ')
  }

  /** `Math.max(8, lines * 3 + 2)` with `lines` the number of rows. */
  function BoxHeight(name: string): (h: int)
    ensures h == if Count(' ', name) == 0 then 8 else 3 * Count(' ', name) + 5
    ensures h >= 8 && h >= 3 * |BoxRows(name)| + 2
  {
    var lines := |BoxRows(name)|;
    if 8 > lines * 3 + 2 then 8 else lines * 3 + 2
  }
}
