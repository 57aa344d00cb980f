/** The static room catalog: every known room with the building it belongs to,
    and the two queries the application makes of it. */
module Catalog {
  import opened Sequences
  import opened StringOrder

  /** One catalog record, `{id, building_name}`. */
  datatype Room = Room(id: int, buildingName: string)

  /** The rooms of one building, in catalog order. The building name must match exactly:
      no trimming and no case folding, so an unknown or differently cased name selects nothing. */
  function RoomsInBuilding(catalog: seq<Room>, buildingName: string): (rooms: seq<Room>)
    ensures forall room :: multiset(rooms)[room] ==
              if room.buildingName == buildingName then multiset(catalog)[room] else 0
    ensures IsSubsequence(rooms, catalog)
  {
    if catalog == [] then []
    else
      var init, last := catalog[..|catalog| - 1], catalog[|catalog| - 1];
      assert catalog == init + [last];
      var kept := RoomsInBuilding(init, buildingName);
      if last.buildingName == buildingName then
        SubsequenceKeep(kept, init, last);
        kept + [last]
      else
        SubsequenceSkip(kept, init, last);
        kept
  }

  /** A building with no room in the catalog has no rooms to offer. */
  lemma UnknownBuildingHasNoRooms(catalog: seq<Room>, buildingName: string)
    requires forall room :: room in catalog ==> room.buildingName != buildingName
    ensures RoomsInBuilding(catalog, buildingName) == []
  {
  }

  /** The building label of every record, in catalog order. */
  function Labels(catalog: seq<Room>): (labels: seq<string>)
    ensures |labels| == |catalog|
    ensures forall i :: 0 <= i < |catalog| ==> labels[i] == catalog[i].buildingName
  {
    seq(|catalog|, i requires 0 <= i < |catalog| => catalog[i].buildingName)
  }

  predicate NoDuplicates(s: seq<string>)
  {
    forall i, j :: 0 <= i < j < |s| ==> s[i] != s[j]
  }

  /** `s.indexOf(v)`: the position of the first occurrence of `v`. */
  function IndexOf(s: seq<string>, v: string): (i: nat)
    requires v in s
    ensures i < |s| && s[i] == v && v !in s[..i]
    ensures forall j :: 0 <= j < |s| && s[j] == v ==> i <= j
  {
    if s[0] == v then 0
    else
      var i := IndexOf(s[1..], v);
      assert s[..i + 1] == [s[0]] + s[1..][..i];
      i + 1
  }

  /** `s.filter((v, i) => s.indexOf(v) === i)` over the first `n` entries:
      each value once, at the position where it first occurs. */
  function FirstOccurrences(s: seq<string>, n: nat): (r: seq<string>)
    requires n <= |s|
    ensures NoDuplicates(r)
    ensures forall v :: v in r <==> v in s[..n]
    ensures IsSubsequence(r, s[..n])
    ensures forall i, j :: 0 <= i < j < |r| ==> r[i] in s && r[j] in s && IndexOf(s, r[i]) < IndexOf(s, r[j])
  {
    if n == 0 then []
    else
      var kept := FirstOccurrences(s, n - 1);
      var v := s[n - 1];
      assert s[..n] == s[..n - 1] + [v];
      if IndexOf(s, v) == n - 1 then
        assert v !in s[..n - 1];
        assert forall k :: 0 <= k < |kept| ==> kept[k] in s && IndexOf(s, kept[k]) < n - 1 by {
          forall k | 0 <= k < |kept|
            ensures kept[k] in s && IndexOf(s, kept[k]) < n - 1
          {
            assert kept[k] in s[..n - 1];
            var at :| 0 <= at < n - 1 && s[..n - 1][at] == kept[k];
            assert s[at] == kept[k];
          }
        }
        SubsequenceKeep(kept, s[..n - 1], v);
        kept + [v]
      else
        assert v in s[..n - 1] by {
          var i := IndexOf(s, v);
          assert i < n - 1 by { assert v !in s[..i]; }
          assert s[..n - 1][i] == v;
        }
        SubsequenceSkip(kept, s[..n - 1], v);
        kept
  }

  /** A sequence without repetitions holds each value at most once. */
  lemma {:induction false} NoDuplicatesCounts(s: seq<string>, v: string)
    requires NoDuplicates(s)
    ensures multiset(s)[v] <= 1
  {
    if s != [] {
      var init, last := s[..|s| - 1], s[|s| - 1];
      assert s == init + [last];
      NoDuplicatesCounts(init, v);
      if last == v {
        forall i | 0 <= i < |init|
          ensures init[i] != v
        {
          assert s[i] != s[|s| - 1];
        }
        assert v !in init;
      }
    }
  }

  /** A value held at two positions is counted twice. */
  lemma RepeatedCounts(s: seq<string>, i: int, j: int)
    requires 0 <= i < j < |s| && s[i] == s[j]
    ensures multiset(s)[s[i]] >= 2
  {
    assert s == s[..j] + s[j..];
    assert s[i] in s[..j];
    assert s[j] in s[j..];
  }

  /** getBuildingNames: the distinct building labels of the catalog, sorted. */
  function BuildingNames(catalog: seq<Room>): (names: seq<string>)
    ensures StrictlySorted(names)
    ensures forall name :: name in names <==> exists room :: room in catalog && room.buildingName == name
  {
    var labels := Labels(catalog);
    var distinct := FirstOccurrences(labels, |labels|);
    var names := Sort(distinct);
    assert labels[..|labels|] == labels;
    assert StrictlySorted(names) by {
      forall i, j | 0 <= i < j < |names|
        ensures Below(names[i], names[j])
      {
        if names[i] == names[j] {
          RepeatedCounts(names, i, j);
          NoDuplicatesCounts(distinct, names[i]);
        }
      }
    }
    assert forall name :: name in names <==> name in distinct by {
      forall name
        ensures name in names <==> name in distinct
      {
        assert name in names <==> name in multiset(names);
      }
    }
    assert forall name :: name in labels <==> exists room :: room in catalog && room.buildingName == name by {
      forall name
        ensures name in labels <==> exists room :: room in catalog && room.buildingName == name
      {
        if name in labels {
          var i :| 0 <= i < |labels| && labels[i] == name;
          assert catalog[i] in catalog;
        }
        if exists room :: room in catalog && room.buildingName == name {
          var room :| room in catalog && room.buildingName == name;
          var i :| 0 <= i < |catalog| && catalog[i] == room;
          assert labels[i] == name;
        }
      }
    }
    names
  }

  /** The listing is THE sorted listing of the catalog's buildings: any strictly ascending
      sequence holding exactly the catalog's building labels is equal to it. */
  lemma BuildingNamesCanonical(catalog: seq<Room>, listing: seq<string>)
    requires StrictlySorted(listing)
    requires forall name :: name in listing <==> exists room :: room in catalog && room.buildingName == name
    ensures listing == BuildingNames(catalog)
  {
    StrictlySortedUnique(listing, BuildingNames(catalog));
  }

  /** Each building is listed once. */
  lemma BuildingNamesDistinct(catalog: seq<Room>)
    ensures NoDuplicates(BuildingNames(catalog))
  {
    var names := BuildingNames(catalog);
    forall i, j | 0 <= i < j < |names|
      ensures names[i] != names[j]
    {
      BelowIrreflexive(names[i]);
    }
  }
}
