/**
 * The schedule table and the selection over it: the rows, the boolean-mask
 * filters by day, by line and by (day, line) pair, and the distinct values
 * offered to the operator.
 */
module Schedule {

  /**
   * One row of the schedule table, with the columns the diagrams read:
   * `Jour`, `Ligne Jour`, `TrainA`, `HeureA`, `HeureD` and `TypeTrainA`.
   */
  datatype Row = Row(
    jour: string,
    ligne: string,
    trainA: string,
    heureA: string,
    heureD: string,
    typeTrainA: string)

  /** A row mask: membership of the day, of the line, or one (day, line) pair. */
  datatype Criterion =
    | DayIn(days: seq<string>)
    | LineIn(lines: seq<string>)
    | Is(jour: string, ligne: string)
    | Both(first: Criterion, second: Criterion)

  predicate Holds(c: Criterion, r: Row) {
    match c
    case DayIn(days) => r.jour in days
    case LineIn(lines) => r.ligne in lines
    case Is(jour, ligne) => r.jour == jour && r.ligne == ligne
    case Both(a, b) => Holds(a, r) && Holds(b, r)
  }

  /** The rows that satisfy the mask, in table order. */
  function Where(rows: seq<Row>, c: Criterion): seq<Row> {
    if rows == [] then []
    else
      var last := rows[|rows| - 1];
      Where(rows[..|rows| - 1], c) + (if Holds(c, last) then [last] else [])
  }

  /** The mask keeps exactly the rows of the table that satisfy it, and no more rows. */
  lemma {:induction false} WhereKeeps(rows: seq<Row>, c: Criterion)
    ensures var kept := Where(rows, c);
      && |kept| <= |rows|
      && (forall i :: 0 <= i < |kept| ==> Holds(c, kept[i]))
      && (forall r :: r in kept <==> r in rows && Holds(c, r))
  {
    if rows != [] {
      var n := |rows| - 1;
      WhereKeeps(rows[..n], c);
      assert rows == rows[..n] + [rows[n]];
    }
  }

  ghost predicate StrictlyIncreasing(idx: seq<nat>) {
    forall j, k :: 0 <= j < k < |idx| ==> idx[j] < idx[k]
  }

  /**
   * `kept` is `rows` restricted to the positions `idx`: increasing positions,
   * `kept[k]` the row at `idx[k]`, and every position whose row satisfies
   * `c` among them.
   */
  ghost predicate Enumerates(rows: seq<Row>, c: Criterion, kept: seq<Row>, idx: seq<nat>) {
    && |idx| == |kept|
    && StrictlyIncreasing(idx)
    && (forall k :: 0 <= k < |idx| ==> idx[k] < |rows| && rows[idx[k]] == kept[k])
    && (forall j :: 0 <= j < |rows| && Holds(c, rows[j]) ==> j in idx)
  }

  lemma EnumeratesExtend(rows: seq<Row>, c: Criterion, kept: seq<Row>, idx: seq<nat>, r: Row)
    requires Enumerates(rows, c, kept, idx)
    ensures Holds(c, r) ==> Enumerates(rows + [r], c, kept + [r], idx + [|rows|])
    ensures !Holds(c, r) ==> Enumerates(rows + [r], c, kept, idx)
  {
    var rows' := rows + [r];
    forall k | 0 <= k < |idx|
      ensures rows'[idx[k]] == kept[k]
    {
    }
    forall j | 0 <= j < |rows'| && Holds(c, rows'[j]) && j < |rows|
      ensures j in idx
    {
      assert rows[j] == rows'[j];
    }
  }

  /**
   * `Where` keeps exactly the rows at the positions that satisfy the mask,
   * in their table order.
   */
  lemma {:induction false} WhereIndices(rows: seq<Row>, c: Criterion) returns (idx: seq<nat>)
    ensures Enumerates(rows, c, Where(rows, c), idx)
  {
    if rows == [] {
      idx := [];
    } else {
      var n := |rows| - 1;
      var front := rows[..n];
      assert rows == front + [rows[n]];
      var prior := WhereIndices(front, c);
      EnumeratesExtend(front, c, Where(front, c), prior, rows[n]);
      idx := if Holds(c, rows[n]) then prior + [n] else prior;
    }
  }

  /** Two masks that agree on every row of the table keep the same rows. */
  lemma {:induction false} WhereAgrees(rows: seq<Row>, c: Criterion, d: Criterion)
    requires forall r :: r in rows ==> (Holds(c, r) <==> Holds(d, r))
    ensures Where(rows, c) == Where(rows, d)
  {
    if rows != [] {
      WhereAgrees(rows[..|rows| - 1], c, d);
    }
  }

  /** Filtering twice is filtering once by both masks. */
  lemma {:induction false} WhereWhere(rows: seq<Row>, c: Criterion, d: Criterion)
    ensures Where(Where(rows, c), d) == Where(rows, Both(c, d))
  {
    if rows != [] {
      var n := |rows| - 1;
      WhereWhere(rows[..n], c, d);
      var tail := if Holds(c, rows[n]) then [rows[n]] else [];
      WhereAppend(Where(rows[..n], c), tail, d);
    }
  }

  lemma {:induction false} WhereAppend(a: seq<Row>, b: seq<Row>, c: Criterion)
    ensures Where(a + b, c) == Where(a, c) + Where(b, c)
  {
    if b != [] {
      var n := |b| - 1;
      var last := b[n];
      var tail := if Holds(c, last) then [last] else [];
      assert (a + b)[..|a + b| - 1] == a + b[..n] && (a + b)[|a + b| - 1] == last;
      assert Where(a + b, c) == Where(a + b[..n], c) + tail;
      assert Where(b, c) == Where(b[..n], c) + tail;
      WhereAppend(a, b[..n], c);
      assert Where(a, c) + Where(b[..n], c) + tail == Where(a, c) + (Where(b[..n], c) + tail);
    } else {
      assert a + b == a;
    }
  }

  /** The table shown once days and lines are chosen (both masks applied). */
  function FinalTable(data: seq<Row>, days: seq<string>, lines: seq<string>): seq<Row> {
    Where(Where(data, DayIn(days)), LineIn(lines))
  }

  /** The chosen table is exactly the rows of a chosen day and a chosen line. */
  lemma FinalTableRows(data: seq<Row>, days: seq<string>, lines: seq<string>)
    ensures FinalTable(data, days, lines) == Where(data, Both(DayIn(days), LineIn(lines)))
    ensures forall r :: r in FinalTable(data, days, lines) <==>
      r in data && r.jour in days && r.ligne in lines
  {
    WhereWhere(data, DayIn(days), LineIn(lines));
    WhereKeeps(data, Both(DayIn(days), LineIn(lines)));
  }

  /**
   * The group of one chosen (day, line) pair taken from the chosen table is
   * the same subsequence as the one taken from the whole table.
   */
  lemma GroupOfFinalTable(data: seq<Row>, days: seq<string>, lines: seq<string>, jour: string, ligne: string)
    requires jour in days && ligne in lines
    ensures Where(FinalTable(data, days, lines), Is(jour, ligne)) == Where(data, Is(jour, ligne))
  {
    var both := Both(Both(DayIn(days), LineIn(lines)), Is(jour, ligne));
    FinalTableRows(data, days, lines);
    WhereWhere(data, Both(DayIn(days), LineIn(lines)), Is(jour, ligne));
    forall r | r in data
      ensures Holds(both, r) <==> Holds(Is(jour, ligne), r)
    {
      assert Holds(Both(DayIn(days), LineIn(lines)), r) <==> r.jour in days && r.ligne in lines;
    }
    WhereAgrees(data, Both(Both(DayIn(days), LineIn(lines)), Is(jour, ligne)), Is(jour, ligne));
  }

  /** The `Jour` column. */
  function DaysOf(rows: seq<Row>): (col: seq<string>)
    ensures |col| == |rows| && forall i :: 0 <= i < |rows| ==> col[i] == rows[i].jour
  {
    seq(|rows|, i requires 0 <= i < |rows| => rows[i].jour)
  }

  /** The `Ligne Jour` column. */
  function LinesOf(rows: seq<Row>): (col: seq<string>)
    ensures |col| == |rows| && forall i :: 0 <= i < |rows| ==> col[i] == rows[i].ligne
  {
    seq(|rows|, i requires 0 <= i < |rows| => rows[i].ligne)
  }

  /** The position of the first occurrence of `x` in `s`. */
  function FirstIndex(s: seq<string>, x: string): (k: nat)
    requires x in s
    ensures k < |s| && s[k] == x && forall j :: 0 <= j < k ==> s[j] != x
  {
    if s[0] == x then 0 else 1 + FirstIndex(s[1..], x)
  }

  /** The distinct values of a column, each once, as `unique()` returns them. */
  function Unique(s: seq<string>): (u: seq<string>)
    ensures forall i, j :: 0 <= i < j < |u| ==> u[i] != u[j]
    ensures forall x :: x in u <==> x in s
  {
    if s == [] then []
    else
      var prior := Unique(s[..|s| - 1]);
      var last := s[|s| - 1];
      if last in prior then prior else prior + [last]
  }

  lemma FirstIndexExtend(s: seq<string>, y: string, x: string)
    requires x in s
    ensures FirstIndex(s + [y], x) == FirstIndex(s, x)
  {
    var k := FirstIndex(s, x);
    var k' := FirstIndex(s + [y], x);
    assert (s + [y])[k] == x;
    assert s[k'] == x by {
      if k' >= |s| {
        assert false;
      }
    }
  }

  /** Every value of `u` occurs in `s`, and `u` lists them by first occurrence. */
  ghost predicate InFirstAppearanceOrder(s: seq<string>, u: seq<string>) {
    && (forall x :: x in u ==> x in s)
    && (forall i, j :: 0 <= i < j < |u| ==> FirstIndex(s, u[i]) < FirstIndex(s, u[j]))
  }

  /** `Unique` lists the distinct values in the order of their first appearance. */
  lemma {:induction false} UniqueFirstAppearance(s: seq<string>)
    ensures InFirstAppearanceOrder(s, Unique(s))
  {
    if s != [] {
      var n := |s| - 1;
      var front := s[..n];
      assert s == front + [s[n]];
      UniqueFirstAppearance(front);
      var prior := Unique(front);
      var u := Unique(s);
      forall x | x in prior
        ensures FirstIndex(s, x) == FirstIndex(front, x)
      {
        FirstIndexExtend(front, s[n], x);
      }
      assert InFirstAppearanceOrder(front, prior);
      forall i, j | 0 <= i < j < |u|
        ensures FirstIndex(s, u[i]) < FirstIndex(s, u[j])
      {
        if j < |prior| {
          assert u[i] == prior[i] && u[j] == prior[j];
          assert prior[i] in prior && prior[j] in prior;
          assert FirstIndex(front, prior[i]) < FirstIndex(front, prior[j]);
        } else {
          assert s[n] !in prior && u == prior + [s[n]];
          assert u[j] == s[n] && s[n] !in front;
          assert FirstIndex(s, s[n]) == n;
          assert u[i] == prior[i] && prior[i] in prior;
          assert FirstIndex(front, prior[i]) < n;
        }
      }
    }
  }

  /** The days offered for selection. */
  function OfferedDays(data: seq<Row>): seq<string> {
    Unique(DaysOf(data))
  }

  /** The lines offered for selection once `days` are chosen. */
  function OfferedLines(data: seq<Row>, days: seq<string>): seq<string> {
    Unique(LinesOf(Where(data, DayIn(days))))
  }

  /** A day is offered exactly when some row carries it, and only once. */
  lemma OfferedDaysSpec(data: seq<Row>)
    ensures var o := OfferedDays(data);
      && (forall i, j :: 0 <= i < j < |o| ==> o[i] != o[j])
      && (forall x :: x in o <==> exists r :: r in data && r.jour == x)
  {
    forall x
      ensures x in OfferedDays(data) <==> exists r :: r in data && r.jour == x
    {
      if x in DaysOf(data) {
        var i :| 0 <= i < |data| && DaysOf(data)[i] == x;
        assert data[i] in data;
      }
      if exists r :: r in data && r.jour == x {
        var r :| r in data && r.jour == x;
        var i :| 0 <= i < |data| && data[i] == r;
        assert DaysOf(data)[i] == x;
      }
    }
  }

  /** A line is offered exactly when a row of a chosen day carries it, and only once. */
  lemma OfferedLinesSpec(data: seq<Row>, days: seq<string>)
    ensures var o := OfferedLines(data, days);
      && (forall i, j :: 0 <= i < j < |o| ==> o[i] != o[j])
      && (forall x :: x in o <==> exists r :: r in data && r.jour in days && r.ligne == x)
  {
    var w := Where(data, DayIn(days));
    WhereKeeps(data, DayIn(days));
    forall x
      ensures x in OfferedLines(data, days) <==> exists r :: r in data && r.jour in days && r.ligne == x
    {
      if x in LinesOf(w) {
        var i :| 0 <= i < |w| && LinesOf(w)[i] == x;
        assert w[i] in w;
      }
      if exists r :: r in data && r.jour in days && r.ligne == x {
        var r :| r in data && r.jour in days && r.ligne == x;
        assert r in w;
        var i :| 0 <= i < |w| && w[i] == r;
        assert LinesOf(w)[i] == x;
      }
    }
  }
}
