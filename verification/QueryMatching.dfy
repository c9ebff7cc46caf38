/** The three scans that decide whether an archetype matches a query (src/ECS/EntityQueryManager.cpp:7-66). Both
    lists are sorted, so one pass over each is enough. */
module QueryMatching {
  import opened Types

  /** All of a query's types are among the archetype's. */
  method TestRequired(archetypeTypes: seq<nat>, queryTypes: seq<nat>) returns (r: bool)
    requires Sorted(archetypeTypes) && Sorted(queryTypes)
    ensures r <==> forall t :: t in queryTypes ==> t in archetypeTypes
  {
    if |queryTypes| == 0 {
      return true;
    }
    var iNextQueryType := 0;
    for i := 0 to |archetypeTypes|
      invariant 0 <= iNextQueryType < |queryTypes|
      invariant forall j :: 0 <= j < iNextQueryType ==> queryTypes[j] in archetypeTypes
      invariant forall j :: 0 <= j < i ==> archetypeTypes[j] < queryTypes[iNextQueryType]
    {
      if archetypeTypes[i] == queryTypes[iNextQueryType] {
        iNextQueryType := iNextQueryType + 1;
        if iNextQueryType == |queryTypes| {
          return true;
        }
      } else if archetypeTypes[i] > queryTypes[iNextQueryType] {
        assert queryTypes[iNextQueryType] !in archetypeTypes;
        return false;
      }
    }
    assert queryTypes[iNextQueryType] in queryTypes && queryTypes[iNextQueryType] !in archetypeTypes;
    return false;
  }

  /** The scan shared by the optional and the excluded test: the first query type found in the archetype, if any. */
  method FirstCommon(archetypeTypes: seq<nat>, queryTypes: seq<nat>) returns (found: bool)
    requires Sorted(archetypeTypes) && Sorted(queryTypes) && |queryTypes| > 0
    ensures found <==> exists t :: t in queryTypes && t in archetypeTypes
  {
    var iNextQueryType := 0;
    for i := 0 to |archetypeTypes|
      invariant 0 <= iNextQueryType < |queryTypes|
      invariant forall j, k :: 0 <= j < i && 0 <= k < |queryTypes| ==> archetypeTypes[j] != queryTypes[k]
      invariant forall j, k :: 0 <= k < iNextQueryType && i <= j < |archetypeTypes| ==>
        queryTypes[k] < archetypeTypes[j]
      invariant forall j :: 0 <= j < i ==> archetypeTypes[j] < queryTypes[iNextQueryType]
    {
      while archetypeTypes[i] > queryTypes[iNextQueryType]
        invariant 0 <= iNextQueryType < |queryTypes|
        invariant forall j, k :: 0 <= k < iNextQueryType && i <= j < |archetypeTypes| ==>
          queryTypes[k] < archetypeTypes[j]
        invariant forall j :: 0 <= j < i ==> archetypeTypes[j] < queryTypes[iNextQueryType]
        decreases |queryTypes| - iNextQueryType
      {
        iNextQueryType := iNextQueryType + 1;
        if iNextQueryType == |queryTypes| {
          return false;
        }
      }
      if archetypeTypes[i] == queryTypes[iNextQueryType] {
        assert queryTypes[iNextQueryType] in queryTypes && queryTypes[iNextQueryType] in archetypeTypes;
        return true;
      }
    }
    return false;
  }

  /** Some of the types are among the archetype's, or there are none. */
  method TestOptional(archetypeTypes: seq<nat>, queryTypes: seq<nat>) returns (r: bool)
    requires Sorted(archetypeTypes) && Sorted(queryTypes)
    ensures r <==> queryTypes == [] || exists t :: t in queryTypes && t in archetypeTypes
  {
    if |queryTypes| == 0 {
      return true;
    }
    r := FirstCommon(archetypeTypes, queryTypes);
  }

  /** None of the types is among the archetype's. */
  method TestExcluded(archetypeTypes: seq<nat>, queryTypes: seq<nat>) returns (r: bool)
    requires Sorted(archetypeTypes) && Sorted(queryTypes)
    ensures r <==> forall t :: t in queryTypes ==> t !in archetypeTypes
  {
    if |queryTypes| == 0 {
      return true;
    }
    var found := FirstCommon(archetypeTypes, queryTypes);
    r := !found;
  }
}
