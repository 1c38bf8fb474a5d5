/**
 * The whole page for one selection of days and lines: the warnings asked
 * for while a selection is missing, the chosen table, one diagram per
 * (day, line) pair whose group is not empty, visited days outer and lines
 * inner, and the names of the two downloads.
 */
module Pipeline {
  import opened Schedule
  import opened Builder
  import opened Layout
  import opened Export

  /** A (day, line) pair: a `Jour` value and a `Ligne Jour` value. */
  type Pair = (string, string)

  /** The rows of one pair, in table order. */
  function Group(table: seq<Row>, p: Pair): seq<Row> {
    Where(table, Is(p.0, p.1))
  }

  /** The pairs of day `jour` that get a diagram, in the order of `lines`. */
  function PairsOfDay(table: seq<Row>, jour: string, lines: seq<string>): seq<Pair> {
    if lines == [] then []
    else
      var ligne := lines[|lines| - 1];
      PairsOfDay(table, jour, lines[..|lines| - 1])
        + (if Group(table, (jour, ligne)) != [] then [(jour, ligne)] else [])
  }

  /** The pairs that get a diagram: days outer, lines inner, empty groups skipped. */
  function Visits(table: seq<Row>, days: seq<string>, lines: seq<string>): seq<Pair> {
    if days == [] then []
    else Visits(table, days[..|days| - 1], lines) + PairsOfDay(table, days[|days| - 1], lines)
  }

  /** The diagram of one pair, from its group. */
  function DiagramOf(table: seq<Row>, p: Pair): Diagram {
    LayoutOf(p.0, p.1, LegsOf(Group(table, p)))
  }

  function DiagramsOf(table: seq<Row>, ps: seq<Pair>): (ds: seq<Diagram>)
    ensures |ds| == |ps| && forall k :: 0 <= k < |ps| ==> ds[k] == DiagramOf(table, ps[k])
  {
    seq(|ps|, k requires 0 <= k < |ps| => DiagramOf(table, ps[k]))
  }

  /** What the page shows. */
  datatype Screen =
    | AskDays
      // no day chosen: the day warning
    | AskLines(offered: seq<string>)
      // days chosen, no line: the lines on offer and the line warning
    | Schedules(table: seq<Row>, diagrams: seq<Diagram>, downloads: seq<string>)
      // the chosen table, its diagrams and the names of the downloads

  /** The page for a selection, as a function of the table and the two selections. */
  function ScreenOf(data: seq<Row>, days: seq<string>, lines: seq<string>): Screen {
    if days == [] then AskDays
    else if lines == [] then AskLines(OfferedLines(data, days))
    else
      var table := FinalTable(data, days, lines);
      if table == [] then Schedules(table, [], [])
      else Schedules(table, DiagramsOf(table, Visits(table, days, lines)), [ExcelName(days), CsvName(days)])
  }

  lemma DiagramsOfAppend(table: seq<Row>, ps: seq<Pair>, p: Pair)
    ensures DiagramsOf(table, ps + [p]) == DiagramsOf(table, ps) + [DiagramOf(table, p)]
  {
  }

  lemma VisitsStep(table: seq<Row>, days: seq<string>, d: nat, lines: seq<string>)
    requires d < |days|
    ensures Visits(table, days[..d + 1], lines) == Visits(table, days[..d], lines) + PairsOfDay(table, days[d], lines)
  {
    assert days[..d + 1][..d] == days[..d];
  }

  lemma PairsOfDayStep(table: seq<Row>, jour: string, lines: seq<string>, l: nat)
    requires l < |lines|
    ensures var ligne := lines[l];
      PairsOfDay(table, jour, lines[..l + 1]) == PairsOfDay(table, jour, lines[..l])
        + (if Group(table, (jour, ligne)) != [] then [(jour, ligne)] else [])
  {
    assert lines[..l + 1][..l] == lines[..l];
  }

  lemma DiagramsOfConcat(table: seq<Row>, ps: seq<Pair>, qs: seq<Pair>)
    ensures DiagramsOf(table, ps + qs) == DiagramsOf(table, ps) + DiagramsOf(table, qs)
  {
  }

  /**
   * The line loop for one day: each non-empty group is turned into legs
   * and laid out, and its diagram appended.
   */
  method DrawDay(table: seq<Row>, jour: string, lines: seq<string>) returns (diagrams: seq<Diagram>)
    ensures diagrams == DiagramsOf(table, PairsOfDay(table, jour, lines))
  {
    diagrams := [];
    var l := 0;
    while l < |lines|
      invariant 0 <= l <= |lines|
      invariant diagrams == DiagramsOf(table, PairsOfDay(table, jour, lines[..l]))
    {
      var ligne := lines[l];
      var group := Where(table, Is(jour, ligne));
      PairsOfDayStep(table, jour, lines, l);
      if group != [] {
        var trains, departs, arrivees, types := BuildLegs(group);
        var diagram := Layout.Layout(jour, ligne, Legs(trains, departs, arrivees, types));
        assert diagram == DiagramOf(table, (jour, ligne));
        DiagramsOfAppend(table, PairsOfDay(table, jour, lines[..l]), (jour, ligne));
        diagrams := diagrams + [diagram];
      }
      l := l + 1;
    }
    assert lines[..l] == lines;
  }

  /** The day loop around the line loop, days outer and lines inner. */
  method DrawAll(table: seq<Row>, days: seq<string>, lines: seq<string>) returns (diagrams: seq<Diagram>)
    ensures diagrams == DiagramsOf(table, Visits(table, days, lines))
  {
    diagrams := [];
    var d := 0;
    while d < |days|
      invariant 0 <= d <= |days|
      invariant diagrams == DiagramsOf(table, Visits(table, days[..d], lines))
    {
      var ofDay := DrawDay(table, days[d], lines);
      VisitsStep(table, days, d, lines);
      DiagramsOfConcat(table, Visits(table, days[..d], lines), PairsOfDay(table, days[d], lines));
      diagrams := diagrams + ofDay;
      d := d + 1;
    }
    assert days[..d] == days;
  }

  /**
   * The page script: the day guard, the day mask, the line guard, the line
   * mask, then the diagrams and downloads when the chosen table is not empty.
   */
  method Render(data: seq<Row>, days: seq<string>, lines: seq<string>) returns (screen: Screen)
    ensures screen == ScreenOf(data, days, lines)
  {
    if days == [] {
      return AskDays;
    }
    var filtered := Where(data, DayIn(days));
    if lines == [] {
      return AskLines(Unique(LinesOf(filtered)));
    }
    var table := Where(filtered, LineIn(lines));
    if table == [] {
      return Schedules(table, [], []);
    }
    var diagrams := DrawAll(table, days, lines);
    screen := Schedules(table, diagrams, [ExcelName(days), CsvName(days)]);
  }

  /** A pair of a day is visited exactly when its line is chosen and its group is not empty. */
  lemma {:induction false} PairsOfDayMembers(table: seq<Row>, jour: string, lines: seq<string>, p: Pair)
    ensures p in PairsOfDay(table, jour, lines) <==> p.0 == jour && p.1 in lines && Group(table, p) != []
  {
    if lines != [] {
      var n := |lines| - 1;
      PairsOfDayMembers(table, jour, lines[..n], p);
      assert lines == lines[..n] + [lines[n]];
    }
  }

  /**
   * A pair gets a diagram exactly when its day and its line are chosen and
   * the chosen table holds a row of it: an empty group yields nothing.
   */
  lemma {:induction false} VisitsMembers(table: seq<Row>, days: seq<string>, lines: seq<string>, p: Pair)
    ensures p in Visits(table, days, lines) <==> p.0 in days && p.1 in lines && Group(table, p) != []
  {
    if days != [] {
      var n := |days| - 1;
      VisitsMembers(table, days[..n], lines, p);
      PairsOfDayMembers(table, days[n], lines, p);
      assert days == days[..n] + [days[n]];
    }
  }

  /** `p` comes before `q` in the order of the two loops: by day, then by line. */
  ghost predicate LoopOrder(days: seq<string>, lines: seq<string>, p: Pair, q: Pair)
    requires p.0 in days && q.0 in days && p.1 in lines && q.1 in lines
  {
    || FirstIndex(days, p.0) < FirstIndex(days, q.0)
    || (p.0 == q.0 && FirstIndex(lines, p.1) < FirstIndex(lines, q.1))
  }

  ghost predicate Distinct(s: seq<string>) {
    forall i, j :: 0 <= i < j < |s| ==> s[i] != s[j]
  }

  /** Every pair of `ps` is made of a chosen day and a chosen line. */
  ghost predicate Chosen(days: seq<string>, lines: seq<string>, ps: seq<Pair>) {
    forall k :: 0 <= k < |ps| ==> ps[k].0 in days && ps[k].1 in lines
  }

  /** Each pair of `ps` comes strictly before every later one. */
  ghost predicate Ordered(days: seq<string>, lines: seq<string>, ps: seq<Pair>)
    requires Chosen(days, lines, ps)
  {
    forall a, b :: 0 <= a < b < |ps| ==> LoopOrder(days, lines, ps[a], ps[b])
  }

  lemma FirstIndexOfLast(s: seq<string>)
    requires s != [] && Distinct(s)
    ensures FirstIndex(s, s[|s| - 1]) == |s| - 1
  {
  }

  lemma FirstIndexOfPrefix(s: seq<string>, x: string)
    requires s != [] && x in s[..|s| - 1]
    ensures FirstIndex(s, x) == FirstIndex(s[..|s| - 1], x) < |s| - 1
  {
    assert s == s[..|s| - 1] + [s[|s| - 1]];
    FirstIndexExtend(s[..|s| - 1], s[|s| - 1], x);
  }

  /** With distinct lines, the pairs of one day follow the order of `lines`. */
  lemma {:induction false} PairsOfDayOrder(table: seq<Row>, jour: string, days: seq<string>, lines: seq<string>)
    requires jour in days && Distinct(lines)
    ensures var ps := PairsOfDay(table, jour, lines);
      Chosen(days, lines, ps) && Ordered(days, lines, ps)
      && forall k :: 0 <= k < |ps| ==> ps[k].0 == jour
  {
    var ps := PairsOfDay(table, jour, lines);
    forall k | 0 <= k < |ps|
      ensures ps[k].0 == jour && ps[k].1 in lines
    {
      assert ps[k] in ps;
      PairsOfDayMembers(table, jour, lines, ps[k]);
    }
    if lines != [] {
      var n := |lines| - 1;
      var front := lines[..n];
      assert Distinct(front);
      PairsOfDayOrder(table, jour, days, front);
      var prior := PairsOfDay(table, jour, front);
      assert Chosen(days, front, prior);
      FirstIndexOfLast(lines);
      forall a, b | 0 <= a < b < |ps|
        ensures LoopOrder(days, lines, ps[a], ps[b])
      {
        assert ps[a] == prior[a];
        FirstIndexOfPrefix(lines, prior[a].1);
        if b < |prior| {
          assert ps[b] == prior[b];
          FirstIndexOfPrefix(lines, prior[b].1);
          assert LoopOrder(days, front, prior[a], prior[b]);
        } else {
          assert ps[b] == (jour, lines[n]);
        }
      }
    }
  }

  /**
   * With distinct days and distinct lines (as a multi-selection gives
   * them), the diagrams come days outer and lines inner, each pair once.
   */
  lemma {:induction false} VisitsOrder(table: seq<Row>, days: seq<string>, lines: seq<string>)
    requires Distinct(days) && Distinct(lines)
    ensures var v := Visits(table, days, lines);
      Chosen(days, lines, v) && Ordered(days, lines, v)
  {
    if days != [] {
      var n := |days| - 1;
      var front := days[..n];
      var jour := days[n];
      assert Distinct(front);
      VisitsOrder(table, front, lines);
      var prior := Visits(table, front, lines);
      var today := PairsOfDay(table, jour, lines);
      PairsOfDayOrder(table, jour, days, lines);
      FirstIndexOfLast(days);
      var v := prior + today;
      assert Chosen(days, lines, v) by {
        forall k | 0 <= k < |v|
          ensures v[k].0 in days && v[k].1 in lines
        {
          if k < |prior| {
            assert v[k] == prior[k] && prior[k].0 in front;
          } else {
            assert v[k] == today[k - |prior|];
          }
        }
      }
      forall a, b | 0 <= a < b < |v|
        ensures LoopOrder(days, lines, v[a], v[b])
      {
        if b < |prior| {
          assert v[a] == prior[a] && v[b] == prior[b];
          assert LoopOrder(front, lines, prior[a], prior[b]);
          FirstIndexOfPrefix(days, prior[a].0);
          FirstIndexOfPrefix(days, prior[b].0);
        } else if a < |prior| {
          assert v[a] == prior[a] && v[b] == today[b - |prior|];
          FirstIndexOfPrefix(days, prior[a].0);
        } else {
          assert v[a] == today[a - |prior|] && v[b] == today[b - |prior|];
        }
      }
    }
  }

  /** An empty chosen table has no pair to draw. */
  lemma EmptyTableVisits(days: seq<string>, lines: seq<string>)
    ensures Visits([], days, lines) == []
  {
    var v := Visits([], days, lines);
    if v != [] {
      VisitsMembers([], days, lines, v[0]);
      assert false;
    }
  }

  /**
   * The page for each state of the selection: the day warning without
   * days; the line warning and the distinct lines of the chosen days
   * without lines; otherwise the rows of a chosen day and a chosen line,
   * one diagram per visited pair (the empty-table guard changes nothing
   * about them), and two downloads exactly when the table is not empty.
   */
  lemma ScreenOfSelection(data: seq<Row>, days: seq<string>, lines: seq<string>)
    ensures days == [] ==> ScreenOf(data, days, lines) == AskDays
    ensures days != [] && lines == [] ==> var screen := ScreenOf(data, days, lines);
      && screen.AskLines?
      && (forall i, j :: 0 <= i < j < |screen.offered| ==> screen.offered[i] != screen.offered[j])
      && (forall x :: x in screen.offered <==> exists r :: r in data && r.jour in days && r.ligne == x)
    ensures days != [] && lines != [] ==> var screen := ScreenOf(data, days, lines);
      && screen.Schedules?
      && (forall r :: r in screen.table <==> r in data && r.jour in days && r.ligne in lines)
      && screen.diagrams == DiagramsOf(screen.table, Visits(screen.table, days, lines))
      && (screen.downloads == [] <==> screen.table == [])
      && (screen.table != [] ==> screen.downloads == [ExcelName(days), CsvName(days)])
  {
    if days != [] {
      if lines == [] {
        OfferedLinesSpec(data, days);
      } else {
        FinalTableRows(data, days, lines);
        EmptyTableVisits(days, lines);
      }
    }
  }

  /**
   * The `k`-th diagram of the page belongs to a chosen day and a chosen
   * line, is titled with them, and has one box per row of that pair in the
   * whole table, in table order, showing the row's train and typed colour.
   */
  lemma DiagramRows(data: seq<Row>, days: seq<string>, lines: seq<string>, k: nat)
    requires days != [] && lines != []
    requires k < |Visits(FinalTable(data, days, lines), days, lines)|
    ensures var table := FinalTable(data, days, lines);
      var p := Visits(table, days, lines)[k];
      var group := Where(data, Is(p.0, p.1));
      var screen := ScreenOf(data, days, lines);
      && p.0 in days && p.1 in lines && group != []
      && screen.Schedules? && k < |screen.diagrams|
      && var diagram := screen.diagrams[k];
      var boxes := OfKind(diagram.elements, BoxKind);
      && diagram.title == TitleText(p.0, p.1)
      && |boxes| == |group|
      && forall i :: 0 <= i < |group| ==>
           boxes[i] == Box(i, Point(i as real, 0.0), group[i].trainA, ColourOf(group[i].typeTrainA))
  {
    var table := FinalTable(data, days, lines);
    var v := Visits(table, days, lines);
    var p := v[k];
    assert p in v;
    VisitsMembers(table, days, lines, p);
    GroupOfFinalTable(data, days, lines, p.0, p.1);
    ScreenOfSelection(data, days, lines);
    assert table != [];
    BoxesOfDiagram(p.0, p.1, LegsOf(Group(table, p)));
  }
}
