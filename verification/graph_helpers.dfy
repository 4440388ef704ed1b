/** The time-graph helpers: turning rows of readings into one line per
    plotted series, and the largest and smallest y over all lines that set
    the graph's vertical scale. */
module GraphHelpers {
  import opened Wrappers

  /** A row of readings by column name; a null reading is `None`, a column
      the row lacks is undefined. */
  type Row = map<string, Option<real>>

  /** A plotted point: the row's time (undefined or null when the row has
      none) and the reading. */
  datatype Point = Point(x: Option<real>, y: real)

  /** How a series is labelled. */
  datatype Label = Label(name: string, color: string)

  /** A plotted series. */
  datatype Line = Line(name: string, color: string, data: seq<Point>)

  /** `d[key]`: the reading, or nothing when it is undefined or null. */
  function Reading(d: Row, key: string): Option<real> {
    if key in d then d[key] else None
  }

  /** `d[key] || 0`: a missing reading, and a zero one, plot as 0. */
  function YOf(d: Row, key: string): (y: real)
    ensures Reading(d, key).Some? ==> y == Reading(d, key).value
    ensures Reading(d, key).None? ==> y == 0.0
  {
    match Reading(d, key)
    case Some(v) => v
    case None => 0.0
  }

  /** One point per row, in row order. */
  function Points(rawData: seq<Row>, key: string): (ps: seq<Point>)
    ensures |ps| == |rawData|
    ensures forall j :: 0 <= j < |rawData| ==> ps[j] == Point(Reading(rawData[j], "time"), YOf(rawData[j], key))
  {
    seq(|rawData|, j requires 0 <= j < |rawData| => Point(Reading(rawData[j], "time"), YOf(rawData[j], key)))
  }

  /** formatLineData: one line per labelled key, in the keys' order, each
      with its label and a point per row. */
  function FormatLineData(rawData: seq<Row>, nameMap: seq<(string, Label)>): (r: seq<Line>)
    ensures |r| == |nameMap|
    ensures forall i :: 0 <= i < |nameMap| ==>
      && r[i].name == nameMap[i].1.name
      && r[i].color == nameMap[i].1.color
      && r[i].data == Points(rawData, nameMap[i].0)
  {
    seq(|nameMap|, i requires 0 <= i < |nameMap| =>
      Line(nameMap[i].1.name, nameMap[i].1.color, Points(rawData, nameMap[i].0)))
  }

  /** The reduce over one line's points, starting from 0. */
  function LineMax(data: seq<Point>): (m: real)
    ensures m >= 0.0
    ensures forall j :: 0 <= j < |data| ==> data[j].y <= m
    ensures m == 0.0 || exists j :: 0 <= j < |data| && data[j].y == m
    decreases |data|
  {
    if |data| == 0 then 0.0
    else
      var p := LineMax(data[..|data| - 1]);
      var c := data[|data| - 1];
      if c.y > p then c.y else p
  }

  /** maxYDataPoint: the largest y over all lines, and never below 0. */
  function MaxYDataPoint(lineData: seq<Line>): (m: real)
    ensures m >= 0.0
    ensures forall i, j :: 0 <= i < |lineData| && 0 <= j < |lineData[i].data| ==> lineData[i].data[j].y <= m
    ensures m == 0.0 || exists i, j :: 0 <= i < |lineData| && 0 <= j < |lineData[i].data| && lineData[i].data[j].y == m
    decreases |lineData|
  {
    if |lineData| == 0 then 0.0
    else
      var prev := MaxYDataPoint(lineData[..|lineData| - 1]);
      var curr := lineData[|lineData| - 1];
      var lineMax := LineMax(curr.data);
      assert forall i :: 0 <= i < |lineData| - 1 ==> lineData[..|lineData| - 1][i] == lineData[i];
      if lineMax > prev then lineMax else prev
  }

  /** `a < b` where `None` stands for Infinity. */
  predicate Below(a: Option<real>, b: Option<real>) {
    a.Some? && (b.None? || a.value < b.value)
  }

  /** The reduce over one line's points, starting from Infinity (`None`). */
  function LineMin(data: seq<Point>): (m: Option<real>)
    ensures m.None? <==> |data| == 0
    ensures m.Some? ==> forall j :: 0 <= j < |data| ==> m.value <= data[j].y
    ensures m.Some? ==> exists j :: 0 <= j < |data| && data[j].y == m.value
    decreases |data|
  {
    if |data| == 0 then None
    else
      var p := LineMin(data[..|data| - 1]);
      var c := data[|data| - 1];
      if Below(Some(c.y), p) then Some(c.y) else p
  }

  /** minYDataPoint: the smallest y over all lines; Infinity (`None`)
      when there are no points at all. */
  function MinYDataPoint(lineData: seq<Line>): (m: Option<real>)
    ensures m.None? <==> forall i :: 0 <= i < |lineData| ==> |lineData[i].data| == 0
    ensures m.Some? ==> forall i, j :: 0 <= i < |lineData| && 0 <= j < |lineData[i].data| ==> m.value <= lineData[i].data[j].y
    ensures m.Some? ==> exists i, j :: 0 <= i < |lineData| && 0 <= j < |lineData[i].data| && lineData[i].data[j].y == m.value
    decreases |lineData|
  {
    if |lineData| == 0 then None
    else
      var prev := MinYDataPoint(lineData[..|lineData| - 1]);
      var curr := lineData[|lineData| - 1];
      var lineMin := LineMin(curr.data);
      assert forall i :: 0 <= i < |lineData| - 1 ==> lineData[..|lineData| - 1][i] == lineData[i];
      if Below(lineMin, prev) then lineMin else prev
  }

  /** The scale of formatted data covers every reading it plots: each
      present reading lies between the smallest and the largest y. */
  lemma ScaleCoversReadings(rawData: seq<Row>, nameMap: seq<(string, Label)>, i: nat, j: nat)
    requires i < |nameMap| && j < |rawData|
    ensures var lines := FormatLineData(rawData, nameMap);
      && MinYDataPoint(lines).Some?
      && MinYDataPoint(lines).value <= YOf(rawData[j], nameMap[i].0) <= MaxYDataPoint(lines)
  {
    var lines := FormatLineData(rawData, nameMap);
    assert lines[i].data[j].y == YOf(rawData[j], nameMap[i].0);
  }

  /** With no rows the lines are empty: the maximum is 0 and the minimum
      Infinity. */
  lemma NoRowsScale(nameMap: seq<(string, Label)>)
    ensures MaxYDataPoint(FormatLineData([], nameMap)) == 0.0
    ensures MinYDataPoint(FormatLineData([], nameMap)).None?
  {
    var lines := FormatLineData([], nameMap);
    assert forall i :: 0 <= i < |lines| ==> |lines[i].data| == 0;
  }
}
