/**
 * The service's points store: a map from receipt id to the points the
 * receipt earned. Ids come from a supply of candidates (random UUIDs in
 * the service); a candidate already in use is skipped.
 */
module Store {
  import opened Wrappers

  /** Some candidate is not yet a key of `points`. */
  predicate HasFresh(points: map<string, int>, candidates: seq<string>)
  {
    exists k :: 0 <= k < |candidates| && candidates[k] !in points
  }

  /** Index of the first candidate that is not yet a key of `points`. */
  function FirstFresh(points: map<string, int>, candidates: seq<string>): (k: nat)
    requires HasFresh(points, candidates)
    ensures k < |candidates| && candidates[k] !in points
    ensures forall j :: 0 <= j < k ==> candidates[j] in points
  {
    if candidates[0] !in points then 0
    else
      assert forall k :: 1 <= k < |candidates| ==> candidates[1..][k - 1] == candidates[k];
      1 + FirstFresh(points, candidates[1..])
  }

  /** The id generateId settles on: the first candidate not already in use. */
  function FreshId(points: map<string, int>, candidates: seq<string>): string
    requires HasFresh(points, candidates)
  {
    candidates[FirstFresh(points, candidates)]
  }

  /** The store after a new receipt's points are recorded under a fresh id. */
  function Insert(points: map<string, int>, p: int, candidates: seq<string>): map<string, int>
    requires HasFresh(points, candidates)
  {
    points[FreshId(points, candidates) := p]
  }

  /**
   * Recording a receipt never disturbs an earlier one: the new id was
   * free, it now maps to the points, and every other key keeps its entry.
   */
  lemma InsertKeepsOthers(points: map<string, int>, p: int, candidates: seq<string>)
    requires HasFresh(points, candidates)
    ensures var id := FreshId(points, candidates); var after := Insert(points, p, candidates);
      && id !in points
      && id in after && after[id] == p
      && after.Keys == points.Keys + {id}
      && forall other :: other in points ==> other in after && after[other] == points[other]
  {
  }

  /** Two receipts recorded one after the other get different ids. */
  lemma InsertTwiceDistinct(points: map<string, int>, p: int, candidates: seq<string>, more: seq<string>)
    requires HasFresh(points, candidates)
    requires HasFresh(Insert(points, p, candidates), more)
    ensures FreshId(points, candidates) != FreshId(Insert(points, p, candidates), more)
  {
  }

  /** The global map of receipt id to points, with its three operations. */
  class PointsStore {
    var points: map<string, int>

    /** The store starts empty. */
    constructor ()
      ensures points == map[]
    {
      points := map[];
    }

    /** Walks the candidate supply until it meets an id that is not yet a key. */
    method GenerateId(candidates: seq<string>) returns (id: string)
      requires HasFresh(points, candidates)
      ensures id !in points
      ensures id == FreshId(points, candidates)
    {
      var i := 0;
      while candidates[i] in points
        invariant 0 <= i < |candidates|
        invariant forall j :: 0 <= j < i ==> candidates[j] in points
        invariant exists k :: i <= k < |candidates| && candidates[k] !in points
        decreases |candidates| - i
      {
        i := i + 1;
      }
      id := candidates[i];
      FirstFreshIsUnique(points, candidates, i);
    }

    /** Records the points of a newly accepted receipt under a fresh id. */
    method Put(p: int, candidates: seq<string>) returns (id: string)
      requires HasFresh(points, candidates)
      modifies this
      ensures id !in old(points)
      ensures id == FreshId(old(points), candidates)
      ensures points == Insert(old(points), p, candidates)
    {
      id := GenerateId(candidates);
      points := points[id := p];
    }

    /** The points stored under `id`, or nothing when no receipt has that id. */
    method GetPoints(id: string) returns (r: Option<int>)
      ensures r.Some? <==> id in points
      ensures r.Some? ==> r.value == points[id]
    {
      if id in points {
        r := Some(points[id]);
      } else {
        r := None;
      }
    }
  }

  /** The first fresh candidate is the one whose predecessors are all in use. */
  lemma FirstFreshIsUnique(points: map<string, int>, candidates: seq<string>, i: nat)
    requires i < |candidates| && candidates[i] !in points
    requires forall j :: 0 <= j < i ==> candidates[j] in points
    ensures HasFresh(points, candidates) && FirstFresh(points, candidates) == i
  {
  }
}
