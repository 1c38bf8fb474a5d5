/**
 * The horizontal diagram of one roster line: a box per leg on the baseline;
 * the train icon left of the first leg and, when there is more than one
 * leg, right of the last; a time label under a leg whose two times parsed;
 * and an arrow from a leg to the next one, carrying the gap in minutes, when
 * the leg's arrivee time and the next leg's depart time both parsed. The
 * diagram is the list of elements handed to the renderer, with the position
 * each one is given, the title, and the fixed axis bounds.
 */
module Layout {
  import opened Wrappers
  import opened Clock
  import opened Schedule
  import opened Builder

  /** The background colour of a leg's box. */
  datatype Colour = Green | Orange | Gray

  datatype Side = Left | Right

  datatype Point = Point(x: real, y: real)

  /** A rectangle given by its horizontal and vertical ranges. */
  datatype Extent = Extent(left: real, right: real, bottom: real, top: real)

  datatype Element =
    | Box(leg: nat, at: Point, trainId: string, colour: Colour)
    | Icon(leg: nat, side: Side, extent: Extent)
    | TimeLabel(leg: nat, at: Point, text: string)
    | Arrow(leg: nat, tail: Point, head: Point, labelAt: Point, minutes: int)

  datatype Kind = BoxKind | IconKind | LabelKind | ArrowKind

  datatype Diagram = Diagram(titleAt: Point, title: string, elements: seq<Element>, bounds: Extent)

  /** The vertical position shared by every leg. */
  const Baseline: real := 0.0

  const TitleAt: Point := Point(-0.8, 1.2)

  const Commercial: string := "Commercial"
  const Evolution: string := "Évolution"

  function KindOf(e: Element): Kind {
    match e
    case Box(_, _, _, _) => BoxKind
    case Icon(_, _, _) => IconKind
    case TimeLabel(_, _, _) => LabelKind
    case Arrow(_, _, _, _, _) => ArrowKind
  }

  /**
   * The colour depends on the train type alone, through an exact match:
   * green for "Commercial", orange for "Évolution", gray for anything else.
   */
  function ColourOf(trainType: string): (c: Colour)
    ensures c == Green <==> trainType == Commercial
    ensures c == Orange <==> trainType == Evolution
    ensures c == Gray <==> trainType != Commercial && trainType != Evolution
  {
    if trainType == Commercial then Green
    else if trainType == Evolution then Orange
    else Gray
  }

  function TitleText(jour: string, ligne: string): string {
    "Jour : " + jour + "\nLigne_de_roulement num : " + ligne
  }

  function TimeText(depart: int, arrivee: int): string
    requires 0 <= depart < DaySeconds && 0 <= arrivee < DaySeconds
  {
    FormatHM(depart) + " -> " + FormatHM(arrivee)
  }

  /** The axis bounds: x in [-1, n] and y in [-1, 1.5] for `n` legs. */
  function Bounds(n: nat): Extent {
    Extent(-1.0, n as real, -1.0, 1.5)
  }

  predicate HasTimeLabel(legs: Legs, i: nat)
    requires legs.Aligned() && i < legs.Count()
  {
    legs.departs[i].Some? && legs.arrivees[i].Some?
  }

  /** An arrow leaves leg `i` when it has a successor whose depart time and its own arrivee time parsed. */
  predicate HasArrow(legs: Legs, i: nat)
    requires legs.Aligned() && i < legs.Count()
  {
    i + 1 < legs.Count() && legs.departs[i + 1].Some? && legs.arrivees[i].Some?
  }

  function GapMinutes(legs: Legs, i: nat): int
    requires legs.Aligned() && i < legs.Count() && HasArrow(legs, i)
  {
    Minutes(legs.departs[i + 1].value - legs.arrivees[i].value)
  }

  function BoxFor(legs: Legs, i: nat): Element
    requires legs.Aligned() && i < legs.Count()
  {
    Box(i, Point(i as real, Baseline), legs.trains[i], ColourOf(legs.types[i]))
  }

  function LeftIcon(i: nat): Element {
    Icon(i, Left, Extent(i as real - 0.5, i as real, Baseline - 0.8, Baseline + 0.8))
  }

  function RightIcon(i: nat): Element {
    Icon(i, Right, Extent(i as real, i as real + 0.5, Baseline - 0.8, Baseline + 0.8))
  }

  function TimeLabelFor(legs: Legs, i: nat): Element
    requires legs.Aligned() && i < legs.Count() && HasTimeLabel(legs, i)
  {
    TimeLabel(i, Point(i as real, Baseline - 0.4), TimeText(legs.departs[i].value, legs.arrivees[i].value))
  }

  function ArrowFor(legs: Legs, i: nat): Element
    requires legs.Aligned() && i < legs.Count() && HasArrow(legs, i)
  {
    Arrow(i, Point(i as real + 0.2, Baseline), Point(i as real + 0.8, Baseline),
      Point(i as real + 0.5, Baseline + 0.2), GapMinutes(legs, i))
  }

  /** The end icon of leg `i`: left at index 0, otherwise right at index n-1. */
  function IconPart(legs: Legs, i: nat): seq<Element>
    requires legs.Aligned() && i < legs.Count()
  {
    if i == 0 then [LeftIcon(i)] else if i == legs.Count() - 1 then [RightIcon(i)] else []
  }

  function LabelPart(legs: Legs, i: nat): seq<Element>
    requires legs.Aligned() && i < legs.Count()
  {
    if HasTimeLabel(legs, i) then [TimeLabelFor(legs, i)] else []
  }

  function ArrowPart(legs: Legs, i: nat): seq<Element>
    requires legs.Aligned() && i < legs.Count()
  {
    if HasArrow(legs, i) then [ArrowFor(legs, i)] else []
  }

  /** The elements one pass of the leg loop emits for leg `i`, in emission order. */
  function LegElements(legs: Legs, i: nat): seq<Element>
    requires legs.Aligned() && i < legs.Count()
  {
    [BoxFor(legs, i)] + IconPart(legs, i) + LabelPart(legs, i) + ArrowPart(legs, i)
  }

  /** The passes of the first `k` iterations of the leg loop, in leg order. */
  function Passes(legs: Legs, k: nat): seq<seq<Element>>
    requires legs.Aligned() && k <= legs.Count()
  {
    if k == 0 then [] else Passes(legs, k - 1) + [LegElements(legs, k - 1)]
  }

  /** The elements of consecutive passes, one pass after the other. */
  function Flatten(ps: seq<seq<Element>>): seq<Element> {
    if ps == [] then [] else Flatten(ps[..|ps| - 1]) + ps[|ps| - 1]
  }

  /** The diagram of the roster line `ligne` on day `jour`. */
  function LayoutOf(jour: string, ligne: string, legs: Legs): Diagram
    requires legs.Aligned()
  {
    Diagram(TitleAt, TitleText(jour, ligne), Flatten(Passes(legs, legs.Count())), Bounds(legs.Count()))
  }

  /** One pass of the layout loop: the box, icon, time label and arrow of leg `i`. */
  method LegPass(legs: Legs, i: nat) returns (pass: seq<Element>)
    requires legs.Aligned() && i < legs.Count()
    ensures pass == LegElements(legs, i)
  {
    var n := legs.Count();
    var colour := if legs.types[i] == Commercial then Green
      else if legs.types[i] == Evolution then Orange
      else Gray;
    var box := Box(i, Point(i as real, Baseline), legs.trains[i], colour);
    var icon: seq<Element> := [];
    if i == 0 {
      icon := [LeftIcon(i)];
    } else if i == n - 1 {
      icon := [RightIcon(i)];
    }
    var timeLabel: seq<Element> := [];
    var depart, arrivee := legs.departs[i], legs.arrivees[i];
    if depart.Some? && arrivee.Some? {
      timeLabel := [TimeLabel(i, Point(i as real, Baseline - 0.4), TimeText(depart.value, arrivee.value))];
    }
    var arrow: seq<Element> := [];
    if i < n - 1 && legs.departs[i + 1].Some? && legs.arrivees[i].Some? {
      var duration := Minutes(legs.departs[i + 1].value - legs.arrivees[i].value);
      arrow := [Arrow(i, Point(i as real + 0.2, Baseline), Point(i as real + 0.8, Baseline),
        Point(i as real + 0.5, Baseline + 0.2), duration)];
    }
    assert box == BoxFor(legs, i) && icon == IconPart(legs, i);
    assert timeLabel == LabelPart(legs, i) && arrow == ArrowPart(legs, i);
    pass := [box] + icon + timeLabel + arrow;
  }

  /** The layout loop: one pass per leg, each appending that leg's elements. */
  method LayOutLegs(legs: Legs) returns (elements: seq<Element>)
    requires legs.Aligned()
    ensures elements == Flatten(Passes(legs, legs.Count()))
  {
    elements := [];
    var i := 0;
    while i < legs.Count()
      invariant 0 <= i <= legs.Count()
      invariant elements == Flatten(Passes(legs, i))
    {
      var pass := LegPass(legs, i);
      PassStep(legs, i);
      elements := elements + pass;
      i := i + 1;
    }
  }

  /** The diagram of one line: its title, the layout loop, and the axis bounds. */
  method Layout(jour: string, ligne: string, legs: Legs) returns (d: Diagram)
    requires legs.Aligned()
    ensures d == LayoutOf(jour, ligne, legs)
  {
    var title := TitleText(jour, ligne);
    var elements := LayOutLegs(legs);
    d := Diagram(TitleAt, title, elements, Bounds(legs.Count()));
  }

  /** The elements that belong to leg `i`. */
  function OfLeg(es: seq<Element>, i: nat): seq<Element> {
    if es == [] then []
    else OfLeg(es[..|es| - 1], i) + (if es[|es| - 1].leg == i then [es[|es| - 1]] else [])
  }

  /** The elements of one kind. */
  function OfKind(es: seq<Element>, k: Kind): seq<Element> {
    if es == [] then []
    else OfKind(es[..|es| - 1], k) + (if KindOf(es[|es| - 1]) == k then [es[|es| - 1]] else [])
  }

  lemma {:induction false} OfLegAppend(a: seq<Element>, b: seq<Element>, i: nat)
    ensures OfLeg(a + b, i) == OfLeg(a, i) + OfLeg(b, i)
  {
    if b == [] {
      assert a + b == a;
    } else {
      assert (a + b)[..|a + b| - 1] == a + b[..|b| - 1];
      OfLegAppend(a, b[..|b| - 1], i);
    }
  }

  lemma {:induction false} OfKindAppend(a: seq<Element>, b: seq<Element>, k: Kind)
    ensures OfKind(a + b, k) == OfKind(a, k) + OfKind(b, k)
  {
    if b == [] {
      assert a + b == a;
    } else {
      assert (a + b)[..|a + b| - 1] == a + b[..|b| - 1];
      OfKindAppend(a, b[..|b| - 1], k);
    }
  }

  lemma {:induction false} OfLegUniform(es: seq<Element>, i: nat)
    requires forall k :: 0 <= k < |es| ==> es[k].leg == i
    ensures OfLeg(es, i) == es
  {
    if es != [] {
      var n := |es| - 1;
      var front := es[..n];
      assert forall k :: 0 <= k < n ==> front[k] == es[k];
      OfLegUniform(front, i);
      assert front + [es[n]] == es;
    }
  }

  lemma {:induction false} OfLegNone(es: seq<Element>, i: nat)
    requires forall e :: e in es ==> e.leg != i
    ensures OfLeg(es, i) == []
  {
    if es != [] {
      OfLegNone(es[..|es| - 1], i);
    }
  }

  lemma PassStep(legs: Legs, i: nat)
    requires legs.Aligned() && i < legs.Count()
    ensures Flatten(Passes(legs, i + 1)) == Flatten(Passes(legs, i)) + LegElements(legs, i)
  {
    FlattenAppend(Passes(legs, i), LegElements(legs, i));
  }

  lemma FlattenAppend(ps: seq<seq<Element>>, p: seq<Element>)
    ensures Flatten(ps + [p]) == Flatten(ps) + p
  {
    assert (ps + [p])[..|ps|] == ps;
  }

  lemma {:induction false} PassesAt(legs: Legs, k: nat, j: nat)
    requires legs.Aligned() && j < k <= legs.Count()
    ensures |Passes(legs, k)| == k && Passes(legs, k)[j] == LegElements(legs, j)
  {
    if j < k - 1 {
      PassesAt(legs, k - 1, j);
    } else {
      PassesLength(legs, k - 1);
    }
  }

  lemma {:induction false} PassesLength(legs: Legs, k: nat)
    requires legs.Aligned() && k <= legs.Count()
    ensures |Passes(legs, k)| == k
  {
    if k > 0 {
      PassesLength(legs, k - 1);
    }
  }

  /** Every element of pass `j` belongs to leg `j`. */
  ghost predicate Tagged(ps: seq<seq<Element>>) {
    forall j, e :: 0 <= j < |ps| && e in ps[j] ==> e.leg == j
  }

  lemma TaggedPrefix(ps: seq<seq<Element>>, n: nat)
    requires Tagged(ps) && n <= |ps|
    ensures Tagged(ps[..n])
  {
    forall j, e | 0 <= j < n && e in ps[..n][j]
      ensures e.leg == j
    {
      assert ps[..n][j] == ps[j];
    }
  }

  /** Among the elements of tagged passes, those of leg `i` are pass `i`. */
  lemma {:induction false} FlattenOfLeg(ps: seq<seq<Element>>, i: nat)
    requires Tagged(ps)
    ensures i < |ps| ==> OfLeg(Flatten(ps), i) == ps[i]
    ensures |ps| <= i ==> OfLeg(Flatten(ps), i) == []
  {
    if ps != [] {
      var n := |ps| - 1;
      TaggedPrefix(ps, n);
      FlattenOfLeg(ps[..n], i);
      OfLegAppend(Flatten(ps[..n]), ps[n], i);
      if i == n {
        forall k | 0 <= k < |ps[n]|
          ensures ps[n][k].leg == i
        {
          assert ps[n][k] in ps[n];
        }
        OfLegUniform(ps[n], i);
      } else {
        OfLegNone(ps[n], i);
      }
    }
  }

  /** The parts of each pass that hold one kind of element. */
  function KindParts(ps: seq<seq<Element>>, kind: Kind): (qs: seq<seq<Element>>)
    ensures |qs| == |ps| && forall j :: 0 <= j < |ps| ==> qs[j] == OfKind(ps[j], kind)
  {
    seq(|ps|, j requires 0 <= j < |ps| => OfKind(ps[j], kind))
  }

  /** Filtering by kind commutes with flattening. */
  lemma {:induction false} FlattenOfKind(ps: seq<seq<Element>>, kind: Kind)
    ensures OfKind(Flatten(ps), kind) == Flatten(KindParts(ps, kind))
  {
    if ps != [] {
      var n := |ps| - 1;
      FlattenOfKind(ps[..n], kind);
      OfKindAppend(Flatten(ps[..n]), ps[n], kind);
      assert KindParts(ps, kind)[..n] == KindParts(ps[..n], kind);
    }
  }

  lemma {:induction false} FlattenSingletons(qs: seq<seq<Element>>)
    requires forall j :: 0 <= j < |qs| ==> |qs[j]| == 1
    ensures |Flatten(qs)| == |qs| && forall j :: 0 <= j < |qs| ==> Flatten(qs)[j] == qs[j][0]
  {
    if qs != [] {
      var n := |qs| - 1;
      FlattenSingletons(qs[..n]);
      assert forall j :: 0 <= j < n ==> qs[..n][j] == qs[j];
    }
  }

  lemma {:induction false} FlattenShort(qs: seq<seq<Element>>)
    requires forall j :: 0 <= j < |qs| ==> |qs[j]| <= 1
    ensures |Flatten(qs)| <= |qs|
  {
    if qs != [] {
      var n := |qs| - 1;
      FlattenShort(qs[..n]);
      assert forall j :: 0 <= j < n ==> qs[..n][j] == qs[j];
    }
  }

  lemma {:induction false} FlattenFirst(qs: seq<seq<Element>>)
    requires |qs| >= 1 && forall j :: 0 < j < |qs| ==> qs[j] == []
    ensures Flatten(qs) == qs[0]
  {
    var n := |qs| - 1;
    if n == 0 {
      assert qs[..0] == [];
    } else {
      FlattenFirst(qs[..n]);
    }
  }

  /** At most one element of `kind` per pass, none in the last: fewer elements than passes. */
  lemma CountOfKind(ps: seq<seq<Element>>, kind: Kind)
    requires |ps| > 0 && OfKind(ps[|ps| - 1], kind) == []
    requires forall j :: 0 <= j < |ps| - 1 ==> |OfKind(ps[j], kind)| <= 1
    ensures |OfKind(Flatten(ps), kind)| <= |ps| - 1
    ensures (forall j :: 0 <= j < |ps| - 1 ==> |OfKind(ps[j], kind)| == 1) ==>
      |OfKind(Flatten(ps), kind)| == |ps| - 1
  {
    var n := |ps| - 1;
    var qs := KindParts(ps, kind);
    FlattenOfKind(ps, kind);
    var front := qs[..n];
    assert Flatten(qs) == Flatten(front) + [];
    assert forall j :: 0 <= j < n ==> front[j] == OfKind(ps[j], kind);
    FlattenShort(front);
    if forall j :: 0 <= j < n ==> |OfKind(ps[j], kind)| == 1 {
      FlattenSingletons(front);
    }
  }

  /** Exactly one element of `kind` per pass: one per pass, in pass order. */
  lemma OneOfKindEach(ps: seq<seq<Element>>, kind: Kind)
    requires forall j :: 0 <= j < |ps| ==> |OfKind(ps[j], kind)| == 1
    ensures var all := OfKind(Flatten(ps), kind);
      |all| == |ps| && forall j :: 0 <= j < |ps| ==> all[j] == OfKind(ps[j], kind)[0]
  {
    FlattenOfKind(ps, kind);
    FlattenSingletons(KindParts(ps, kind));
  }

  /** Elements of `kind` only in the first and the last pass. */
  lemma KindAtEnds(ps: seq<seq<Element>>, kind: Kind)
    requires |ps| > 0 && forall j :: 0 < j < |ps| - 1 ==> OfKind(ps[j], kind) == []
    ensures |ps| == 1 ==> OfKind(Flatten(ps), kind) == OfKind(ps[0], kind)
    ensures |ps| >= 2 ==> OfKind(Flatten(ps), kind) == OfKind(ps[0], kind) + OfKind(ps[|ps| - 1], kind)
  {
    FlattenOfKind(ps, kind);
    var qs := KindParts(ps, kind);
    if |ps| == 1 {
      FlattenFirst(qs);
    } else {
      FlattenEnds(qs);
    }
  }

  /** One element of `kind` in the first pass, one in the last, none between. */
  lemma OneAtEachEnd(ps: seq<seq<Element>>, kind: Kind, first: Element, last: Element)
    requires |ps| > 0 && OfKind(ps[0], kind) == [first]
    requires forall j :: 0 < j < |ps| - 1 ==> OfKind(ps[j], kind) == []
    requires |ps| >= 2 ==> OfKind(ps[|ps| - 1], kind) == [last]
    ensures |ps| == 1 ==> OfKind(Flatten(ps), kind) == [first]
    ensures |ps| >= 2 ==> OfKind(Flatten(ps), kind) == [first, last]
  {
    KindAtEnds(ps, kind);
    if |ps| >= 2 {
      assert [first] + [last] == [first, last];
    }
  }

  lemma FlattenEnds(qs: seq<seq<Element>>)
    requires |qs| >= 2 && forall j :: 0 < j < |qs| - 1 ==> qs[j] == []
    ensures Flatten(qs) == qs[0] + qs[|qs| - 1]
  {
    var n := |qs| - 1;
    var front := qs[..n];
    assert forall j :: 0 < j < |front| ==> front[j] == qs[j];
    FlattenFirst(front);
    assert qs == front + [qs[n]];
    FlattenAppend(front, qs[n]);
  }

  lemma {:induction false} FlattenMember(ps: seq<seq<Element>>, e: Element)
    requires Tagged(ps) && e in Flatten(ps)
    ensures e.leg < |ps| && e in ps[e.leg]
  {
    var n := |ps| - 1;
    if e !in ps[n] {
      TaggedPrefix(ps, n);
      FlattenMember(ps[..n], e);
      assert ps[..n][e.leg] == ps[e.leg];
    }
  }

  /** Elements grouped by leg: the leg never decreases along the sequence. */
  ghost predicate InLegOrder(es: seq<Element>) {
    forall j, l :: 0 <= j < l < |es| ==> es[j].leg <= es[l].leg
  }

  lemma {:induction false} FlattenInLegOrder(ps: seq<seq<Element>>)
    requires Tagged(ps)
    ensures InLegOrder(Flatten(ps))
  {
    if ps != [] {
      var n := |ps| - 1;
      TaggedPrefix(ps, n);
      FlattenInLegOrder(ps[..n]);
      var a: seq<Element>, b: seq<Element> := Flatten(ps[..n]), ps[n];
      assert Flatten(ps) == a + b;
      assert InLegOrder(a);
      forall j, l | 0 <= j < l < |a + b|
        ensures (a + b)[j].leg <= (a + b)[l].leg
      {
        if l < |a| {
          assert (a + b)[j] == a[j] && (a + b)[l] == a[l];
          assert a[j].leg <= a[l].leg;
        } else {
          assert (a + b)[l] == b[l - |a|] && b[l - |a|] in ps[n];
          assert b[l - |a|].leg == n;
          if j < |a| {
            assert (a + b)[j] == a[j] && a[j] in a;
            FlattenMember(ps[..n], a[j]);
            assert a[j].leg < n;
          } else {
            assert (a + b)[j] == b[j - |a|] && b[j - |a|] in ps[n];
            assert b[j - |a|].leg == n;
          }
        }
      }
    }
  }

  lemma LegElementsAreOfLeg(legs: Legs, i: nat)
    requires legs.Aligned() && i < legs.Count()
    ensures forall e :: e in LegElements(legs, i) ==> e.leg == i
  {
  }

  lemma PassesTagged(legs: Legs)
    requires legs.Aligned()
    ensures Tagged(Passes(legs, legs.Count()))
  {
    var ps := Passes(legs, legs.Count());
    PassesLength(legs, legs.Count());
    forall j: nat, e: Element | 0 <= j < |ps| && e in ps[j]
      ensures e.leg == j
    {
      PassesAt(legs, legs.Count(), j);
      LegElementsAreOfLeg(legs, j);
    }
  }

  lemma OfKindSingle(e: Element, kind: Kind)
    ensures KindOf(e) == kind ==> OfKind([e], kind) == [e]
    ensures KindOf(e) != kind ==> OfKind([e], kind) == []
  {
    assert [e][..0] == [];
  }

  /** The part of leg `i`'s pass that holds the elements of one kind. */
  function PartOfKind(legs: Legs, i: nat, kind: Kind): seq<Element>
    requires legs.Aligned() && i < legs.Count()
  {
    match kind
    case BoxKind => [BoxFor(legs, i)]
    case IconKind => IconPart(legs, i)
    case LabelKind => LabelPart(legs, i)
    case ArrowKind => ArrowPart(legs, i)
  }

  /** An element list made of at most one element of each kind, in kind order. */
  ghost predicate KindSlots(box: seq<Element>, icon: seq<Element>, timeLabel: seq<Element>, arrow: seq<Element>) {
    && |box| <= 1 && |icon| <= 1 && |timeLabel| <= 1 && |arrow| <= 1
    && (forall e :: e in box ==> KindOf(e) == BoxKind)
    && (forall e :: e in icon ==> KindOf(e) == IconKind)
    && (forall e :: e in timeLabel ==> KindOf(e) == LabelKind)
    && (forall e :: e in arrow ==> KindOf(e) == ArrowKind)
  }

  function Slot(box: seq<Element>, icon: seq<Element>, timeLabel: seq<Element>, arrow: seq<Element>, kind: Kind): seq<Element> {
    match kind
    case BoxKind => box
    case IconKind => icon
    case LabelKind => timeLabel
    case ArrowKind => arrow
  }

  lemma OfKindSlots(box: seq<Element>, icon: seq<Element>, timeLabel: seq<Element>, arrow: seq<Element>, kind: Kind)
    requires KindSlots(box, icon, timeLabel, arrow)
    ensures OfKind(box + icon + timeLabel + arrow, kind) == Slot(box, icon, timeLabel, arrow, kind)
  {
    OfKindAppend(box + icon + timeLabel, arrow, kind);
    OfKindAppend(box + icon, timeLabel, kind);
    OfKindAppend(box, icon, kind);
    OfKindPart(box, BoxKind, kind);
    OfKindPart(icon, IconKind, kind);
    OfKindPart(timeLabel, LabelKind, kind);
    OfKindPart(arrow, ArrowKind, kind);
    match kind
    case BoxKind =>
      assert box + [] + [] + [] == box;
    case IconKind =>
      assert [] + icon + [] + [] == icon;
    case LabelKind =>
      assert [] + [] + timeLabel + [] == timeLabel;
    case ArrowKind =>
      assert [] + [] + [] + arrow == arrow;
  }

  lemma OfKindPart(part: seq<Element>, own: Kind, kind: Kind)
    requires |part| <= 1 && forall e :: e in part ==> KindOf(e) == own
    ensures own == kind ==> OfKind(part, kind) == part
    ensures own != kind ==> OfKind(part, kind) == []
  {
    if part != [] {
      OfKindSingle(part[0], kind);
      assert part == [part[0]];
    }
  }

  /** The elements of one kind in a pass are the part of the pass for that kind. */
  lemma PassByKind(legs: Legs, i: nat, kind: Kind)
    requires legs.Aligned() && i < legs.Count()
    ensures OfKind(LegElements(legs, i), kind) == PartOfKind(legs, i, kind)
  {
    OfKindSlots([BoxFor(legs, i)], IconPart(legs, i), LabelPart(legs, i), ArrowPart(legs, i), kind);
  }

  /** The elements of one kind in every pass of the diagram. */
  lemma PartsOfPasses(legs: Legs, kind: Kind)
    requires legs.Aligned()
    ensures var ps := Passes(legs, legs.Count());
      && |ps| == legs.Count()
      && forall j :: 0 <= j < |ps| ==> OfKind(ps[j], kind) == PartOfKind(legs, j, kind)
  {
    var n := legs.Count();
    var ps := Passes(legs, n);
    PassesLength(legs, n);
    forall j | 0 <= j < n
      ensures OfKind(ps[j], kind) == PartOfKind(legs, j, kind)
    {
      PassesAt(legs, n, j);
      PassByKind(legs, j, kind);
    }
  }

  lemma BoxParts(legs: Legs)
    requires legs.Aligned()
    ensures var ps := Passes(legs, legs.Count());
      |ps| == legs.Count() && forall j :: 0 <= j < |ps| ==> OfKind(ps[j], BoxKind) == [BoxFor(legs, j)]
  {
    PartsOfPasses(legs, BoxKind);
  }

  lemma IconParts(legs: Legs)
    requires legs.Aligned() && legs.Count() > 0
    ensures var ps := Passes(legs, legs.Count());
      && |ps| == legs.Count()
      && OfKind(ps[0], IconKind) == [LeftIcon(0)]
      && (forall j :: 0 < j < |ps| - 1 ==> OfKind(ps[j], IconKind) == [])
      && (|ps| >= 2 ==> OfKind(ps[|ps| - 1], IconKind) == [RightIcon(|ps| - 1)])
  {
    PartsOfPasses(legs, IconKind);
  }

  lemma ArrowParts(legs: Legs)
    requires legs.Aligned()
    ensures var ps := Passes(legs, legs.Count());
      |ps| == legs.Count() && forall j :: 0 <= j < |ps| ==> OfKind(ps[j], ArrowKind) == ArrowPart(legs, j)
  {
    PartsOfPasses(legs, ArrowKind);
  }

  /** The elements of a diagram belong to its legs and are grouped by leg, in leg order. */
  lemma ElementsInLegOrder(jour: string, ligne: string, legs: Legs)
    requires legs.Aligned()
    ensures var es := LayoutOf(jour, ligne, legs).elements;
      && (forall e :: e in es ==> e.leg < legs.Count())
      && (forall j, l :: 0 <= j < l < |es| ==> es[j].leg <= es[l].leg)
  {
    var ps := Passes(legs, legs.Count());
    PassesTagged(legs);
    PassesLength(legs, legs.Count());
    FlattenInLegOrder(ps);
    assert LayoutOf(jour, ligne, legs).elements == Flatten(ps);
    forall e | e in Flatten(ps)
      ensures e.leg < legs.Count()
    {
      FlattenMember(ps, e);
    }
  }

  /** The elements of leg `i` in a diagram are exactly that leg's pass. */
  lemma OwnPass(jour: string, ligne: string, legs: Legs, i: nat)
    requires legs.Aligned() && i < legs.Count()
    ensures OfLeg(LayoutOf(jour, ligne, legs).elements, i) == LegElements(legs, i)
  {
    PassesTagged(legs);
    PassesAt(legs, legs.Count(), i);
    FlattenOfLeg(Passes(legs, legs.Count()), i);
  }

  /** Every leg has exactly one box, at (i, 0), labelled with its train id and coloured by its type. */
  lemma LegBox(jour: string, ligne: string, legs: Legs, i: nat)
    requires legs.Aligned() && i < legs.Count()
    ensures OfKind(OfLeg(LayoutOf(jour, ligne, legs).elements, i), BoxKind)
      == [Box(i, Point(i as real, 0.0), legs.trains[i], ColourOf(legs.types[i]))]
  {
    OwnPass(jour, ligne, legs, i);
    PassByKind(legs, i, BoxKind);
  }

  /**
   * The left icon goes to index 0 only; the right icon to index n-1 only,
   * and only when that is not also index 0; interior legs get none.
   */
  lemma LegIcon(jour: string, ligne: string, legs: Legs, i: nat)
    requires legs.Aligned() && i < legs.Count()
    ensures var icons := OfKind(OfLeg(LayoutOf(jour, ligne, legs).elements, i), IconKind);
      && (i == 0 ==> icons == [Icon(0, Left, Extent(-0.5, 0.0, -0.8, 0.8))])
      && (i != 0 && i == legs.Count() - 1 ==>
           icons == [Icon(i, Right, Extent(i as real, i as real + 0.5, -0.8, 0.8))])
      && (i != 0 && i != legs.Count() - 1 ==> icons == [])
  {
    OwnPass(jour, ligne, legs, i);
    PassByKind(legs, i, IconKind);
    IconPartSpec(legs, i);
  }

  /** The per-pass step of the lemma above: the same facts about the icon part of one pass. */
  lemma IconPartSpec(legs: Legs, i: nat)
    requires legs.Aligned() && i < legs.Count()
    ensures var icons := IconPart(legs, i);
      && (i == 0 ==> icons == [Icon(0, Left, Extent(-0.5, 0.0, -0.8, 0.8))])
      && (i != 0 && i == legs.Count() - 1 ==>
           icons == [Icon(i, Right, Extent(i as real, i as real + 0.5, -0.8, 0.8))])
      && (i != 0 && i != legs.Count() - 1 ==> icons == [])
  {
  }

  /**
   * A leg has a time label exactly when both its depart and arrivee times
   * parsed; it sits under the box and reads "depart -> arrivee" in `HH:MM`.
   */
  lemma LegTimeLabel(jour: string, ligne: string, legs: Legs, i: nat)
    requires legs.Aligned() && i < legs.Count()
    ensures var labels := OfKind(OfLeg(LayoutOf(jour, ligne, legs).elements, i), LabelKind);
      && (labels != [] <==> legs.departs[i].Some? && legs.arrivees[i].Some?)
      && (legs.departs[i].Some? && legs.arrivees[i].Some? ==>
           labels == [TimeLabel(i, Point(i as real, -0.4),
             FormatHM(legs.departs[i].value) + " -> " + FormatHM(legs.arrivees[i].value))])
  {
    OwnPass(jour, ligne, legs, i);
    PassByKind(legs, i, LabelKind);
    LabelPartSpec(legs, i);
  }

  /** The per-pass step of the lemma above: the same facts about the time label part of one pass. */
  lemma LabelPartSpec(legs: Legs, i: nat)
    requires legs.Aligned() && i < legs.Count()
    ensures var labels := LabelPart(legs, i);
      && (labels != [] <==> legs.departs[i].Some? && legs.arrivees[i].Some?)
      && (legs.departs[i].Some? && legs.arrivees[i].Some? ==>
           labels == [TimeLabel(i, Point(i as real, -0.4),
             FormatHM(legs.departs[i].value) + " -> " + FormatHM(legs.arrivees[i].value))])
  {
  }

  /**
   * An arrow leaves leg `i` exactly when a next leg exists, its depart time
   * and leg `i`'s arrivee time both parsed; the arrow carries the gap
   * between them in minutes, truncated toward zero and possibly negative.
   */
  lemma LegArrow(jour: string, ligne: string, legs: Legs, i: nat)
    requires legs.Aligned() && i < legs.Count()
    ensures var arrows := OfKind(OfLeg(LayoutOf(jour, ligne, legs).elements, i), ArrowKind);
      && (arrows != [] <==> i < legs.Count() - 1 && legs.departs[i + 1].Some? && legs.arrivees[i].Some?)
      && (i < legs.Count() - 1 && legs.departs[i + 1].Some? && legs.arrivees[i].Some? ==>
           arrows == [Arrow(i, Point(i as real + 0.2, 0.0), Point(i as real + 0.8, 0.0),
             Point(i as real + 0.5, 0.2), Minutes(legs.departs[i + 1].value - legs.arrivees[i].value))])
  {
    OwnPass(jour, ligne, legs, i);
    PassByKind(legs, i, ArrowKind);
    ArrowPartSpec(legs, i);
  }

  /** The per-pass step of the lemma above: the same facts about the arrow part of one pass. */
  lemma ArrowPartSpec(legs: Legs, i: nat)
    requires legs.Aligned() && i < legs.Count()
    ensures var arrows := ArrowPart(legs, i);
      && (arrows != [] <==> i < legs.Count() - 1 && legs.departs[i + 1].Some? && legs.arrivees[i].Some?)
      && (i < legs.Count() - 1 && legs.departs[i + 1].Some? && legs.arrivees[i].Some? ==>
           arrows == [Arrow(i, Point(i as real + 0.2, 0.0), Point(i as real + 0.8, 0.0),
             Point(i as real + 0.5, 0.2), Minutes(legs.departs[i + 1].value - legs.arrivees[i].value))])
  {
  }

  /**
   * The boxes of a diagram, in order, are one per leg: box `i` belongs to
   * leg `i`, sits at (i, 0), shows the train id and has the type's colour.
   */
  lemma BoxesOfDiagram(jour: string, ligne: string, legs: Legs)
    requires legs.Aligned()
    ensures var boxes := OfKind(LayoutOf(jour, ligne, legs).elements, BoxKind);
      && |boxes| == legs.Count()
      && forall i :: 0 <= i < legs.Count() ==>
           boxes[i] == Box(i, Point(i as real, 0.0), legs.trains[i], ColourOf(legs.types[i]))
  {
    BoxParts(legs);
    OneOfKindEach(Passes(legs, legs.Count()), BoxKind);
  }

  lemma IconsOfPasses(legs: Legs)
    requires legs.Aligned() && legs.Count() > 0
    ensures var n := legs.Count(); var icons := OfKind(Flatten(Passes(legs, n)), IconKind);
      && (n == 1 ==> icons == [LeftIcon(0)])
      && (n >= 2 ==> icons == [LeftIcon(0), RightIcon(n - 1)])
  {
    var n := legs.Count();
    IconParts(legs);
    OneAtEachEnd(Passes(legs, n), IconKind, LeftIcon(0), RightIcon(n - 1));
  }

  /**
   * The icons of a diagram: none without legs, the left icon alone for a
   * single leg (the right-end test is an `elif` of the left-end test), and
   * otherwise the left icon of leg 0 and the right icon of leg n-1.
   */
  lemma IconsOfDiagram(jour: string, ligne: string, legs: Legs)
    requires legs.Aligned()
    ensures var icons := OfKind(LayoutOf(jour, ligne, legs).elements, IconKind);
      var n := legs.Count();
      && (n == 0 ==> icons == [])
      && (n == 1 ==> icons == [Icon(0, Left, Extent(-0.5, 0.0, -0.8, 0.8))])
      && (n >= 2 ==> icons == [Icon(0, Left, Extent(-0.5, 0.0, -0.8, 0.8)),
                               Icon(n - 1, Right, Extent((n - 1) as real, (n - 1) as real + 0.5, -0.8, 0.8))])
  {
    var n := legs.Count();
    if n > 0 {
      var ps := Passes(legs, n);
      IconsOfPasses(legs);
      assert LayoutOf(jour, ligne, legs).elements == Flatten(ps);
      if n >= 2 {
        assert RightIcon(n - 1) == Icon(n - 1, Right, Extent((n - 1) as real, (n - 1) as real + 0.5, -0.8, 0.8));
      }
    }
  }

  /** Every depart and every arrivee time of the line parsed. */
  predicate AllTimesPresent(legs: Legs)
    requires legs.Aligned()
  {
    forall i :: 0 <= i < legs.Count() ==> legs.departs[i].Some? && legs.arrivees[i].Some?
  }

  /** A diagram of n legs has at most n-1 arrows, and exactly n-1 when every time parsed. */
  lemma ArrowCount(jour: string, ligne: string, legs: Legs)
    requires legs.Aligned() && legs.Count() > 0
    ensures var arrows := OfKind(LayoutOf(jour, ligne, legs).elements, ArrowKind);
      && |arrows| <= legs.Count() - 1
      && (AllTimesPresent(legs) ==> |arrows| == legs.Count() - 1)
  {
    var ps := Passes(legs, legs.Count());
    ArrowSlots(legs);
    CountOfKind(ps, ArrowKind);
    assert LayoutOf(jour, ligne, legs).elements == Flatten(ps);
  }

  /** At most one arrow per pass, none in the last, one in each when every time parsed. */
  lemma ArrowSlots(legs: Legs)
    requires legs.Aligned() && legs.Count() > 0
    ensures var ps := Passes(legs, legs.Count());
      && |ps| == legs.Count() && OfKind(ps[|ps| - 1], ArrowKind) == []
      && (forall j :: 0 <= j < |ps| - 1 ==> |OfKind(ps[j], ArrowKind)| <= 1)
      && (AllTimesPresent(legs) ==> forall j :: 0 <= j < |ps| - 1 ==> |OfKind(ps[j], ArrowKind)| == 1)
  {
    ArrowParts(legs);
  }

  predicate Inside(p: Point, b: Extent) {
    b.left <= p.x <= b.right && b.bottom <= p.y <= b.top
  }

  /** Every position an element is given lies inside the axis bounds. */
  predicate Placed(e: Element, b: Extent) {
    match e
    case Box(_, at, _, _) => Inside(at, b)
    case Icon(_, _, x) => Inside(Point(x.left, x.bottom), b) && Inside(Point(x.right, x.top), b)
    case TimeLabel(_, at, _) => Inside(at, b)
    case Arrow(_, tail, head, labelAt, _) => Inside(tail, b) && Inside(head, b) && Inside(labelAt, b)
  }

  lemma PassPlaced(legs: Legs, i: nat)
    requires legs.Aligned() && i < legs.Count()
    ensures forall e :: e in LegElements(legs, i) ==> Placed(e, Bounds(legs.Count()))
  {
  }

  /** The fixed axis bounds hold the title and every element of the diagram. */
  lemma WithinBounds(jour: string, ligne: string, legs: Legs)
    requires legs.Aligned()
    ensures var d := LayoutOf(jour, ligne, legs);
      Inside(d.titleAt, d.bounds) && forall e :: e in d.elements ==> Placed(e, d.bounds)
  {
    var d := LayoutOf(jour, ligne, legs);
    var ps := Passes(legs, legs.Count());
    PassesTagged(legs);
    PassesLength(legs, legs.Count());
    forall e | e in d.elements
      ensures Placed(e, d.bounds)
    {
      FlattenMember(ps, e);
      PassesAt(legs, legs.Count(), e.leg);
      PassPlaced(legs, e.leg);
    }
  }

  /**
   * For rows whose two time cells are well formed, the time label reads the
   * first five characters of `HeureA`, then " -> ", then the first five of
   * `HeureD`.
   */
  lemma TimeLabelOfRow(group: seq<Row>, i: nat)
    requires i < |group| && WellFormed(group[i].heureA) && WellFormed(group[i].heureD)
    ensures var legs := LegsOf(group);
      HasTimeLabel(legs, i) && TimeLabelFor(legs, i).text == group[i].heureA[..5] + " -> " + group[i].heureD[..5]
  {
    FormatHMOfParse(group[i].heureA);
    FormatHMOfParse(group[i].heureD);
  }
}
