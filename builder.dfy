/**
 * Preparation of one (day, line) group for its diagram: the loop over the
 * group's rows that fills the four parallel lists of train ids, "depart"
 * times, "arrivee" times and train types.
 */
module Builder {
  import opened Wrappers
  import opened Clock
  import opened Schedule

  /**
   * The four parallel lists the diagram is drawn from. `departs[i]` is the
   * time parsed from the row's `HeureA` column and `arrivees[i]` the time
   * parsed from its `HeureD` column.
   */
  datatype Legs = Legs(
    trains: seq<string>,
    departs: seq<Option<int>>,
    arrivees: seq<Option<int>>,
    types: seq<string>)
  {
    function Count(): nat {
      |trains|
    }

    /** Equal lengths, and every present time is a time of day. */
    predicate Aligned() {
      && |departs| == |trains| && |arrivees| == |trains| && |types| == |trains|
      && (forall i :: 0 <= i < |departs| && departs[i].Some? ==> 0 <= departs[i].value < DaySeconds)
      && (forall i :: 0 <= i < |arrivees| && arrivees[i].Some? ==> 0 <= arrivees[i].value < DaySeconds)
    }
  }

  /** The lists built from a group, position by position. */
  function LegsOf(group: seq<Row>): (legs: Legs)
    ensures legs.Aligned() && legs.Count() == |group|
  {
    Legs(
      seq(|group|, i requires 0 <= i < |group| => group[i].trainA),
      seq(|group|, i requires 0 <= i < |group| => ParseTime(group[i].heureA)),
      seq(|group|, i requires 0 <= i < |group| => ParseTime(group[i].heureD)),
      seq(|group|, i requires 0 <= i < |group| => group[i].typeTrainA))
  }

  /**
   * The row loop: one entry per row in every list, in row order; a time
   * that does not parse is stored as absent and the row is kept.
   */
  method BuildLegs(group: seq<Row>)
    returns (trains: seq<string>, departs: seq<Option<int>>, arrivees: seq<Option<int>>, types: seq<string>)
    ensures |trains| == |group| && |departs| == |group| && |arrivees| == |group| && |types| == |group|
    ensures forall i :: 0 <= i < |group| ==>
      && trains[i] == group[i].trainA
      && types[i] == group[i].typeTrainA
      && departs[i] == ParseTime(group[i].heureA)
      && arrivees[i] == ParseTime(group[i].heureD)
    ensures forall i :: 0 <= i < |group| ==>
      && (departs[i] == None <==> !WellFormed(group[i].heureA))
      && (arrivees[i] == None <==> !WellFormed(group[i].heureD))
    ensures Legs(trains, departs, arrivees, types) == LegsOf(group)
  {
    trains, departs, arrivees, types := [], [], [], [];
    var k := 0;
    while k < |group|
      invariant 0 <= k <= |group|
      invariant |trains| == k && |departs| == k && |arrivees| == k && |types| == k
      invariant forall i :: 0 <= i < k ==>
        && trains[i] == group[i].trainA
        && types[i] == group[i].typeTrainA
        && departs[i] == ParseTime(group[i].heureA)
        && arrivees[i] == ParseTime(group[i].heureD)
    {
      var row := group[k];
      trains := trains + [row.trainA];
      departs := departs + [ParseTime(row.heureA)];
      arrivees := arrivees + [ParseTime(row.heureD)];
      types := types + [row.typeTrainA];
      k := k + 1;
    }
  }
}
