/**
 * Smaller rules of the candidate and skill-zone views
 * (recruitment/views/views.py): the neighbour links of the candidate
 * profile, the average rating, the stage order of the pipeline grouping,
 * and the skill-zone membership updates.
 */
module ViewHelpers {
  import opened Common

  // ---------------------------------------------------------------------
  // candidate_view_individual: previous and next candidate.

  /** The first position of x in xs, if any. */
  function FirstIndex(xs: seq<int>, x: int): (r: Option<nat>)
    ensures r.None? <==> x !in xs
    ensures r.Some? ==> r.value < |xs| && xs[r.value] == x && forall j :: 0 <= j < r.value ==> xs[j] != x
  {
    if xs == [] then None
    else if xs[0] == x then Some(0)
    else
      match FirstIndex(xs[1..], x)
      case None => None
      case Some(k) => Some(k + 1)
  }

  /**
   * The ids just after and just before the first occurrence of the
   * candidate in the filtered list; None at either end, and both None when
   * the candidate is not in the list.
   */
  method Neighbours(requestIds: seq<int>, candId: int) returns (nextId: Option<int>, previousId: Option<int>)
    ensures FirstIndex(requestIds, candId).None? ==> nextId == None && previousId == None
    ensures FirstIndex(requestIds, candId).Some? ==>
              var i := FirstIndex(requestIds, candId).value;
              && nextId == (if i == |requestIds| - 1 then None else Some(requestIds[i + 1]))
              && previousId == (if i == 0 then None else Some(requestIds[i - 1]))
  {
    nextId := None;
    previousId := None;
    var index := 0;
    while index < |requestIds|
      invariant 0 <= index <= |requestIds|
      invariant forall j :: 0 <= j < index ==> requestIds[j] != candId
      invariant nextId == None && previousId == None
    {
      if requestIds[index] == candId {
        if index == |requestIds| - 1 {
          nextId := None;
        } else {
          nextId := Some(requestIds[index + 1]);
        }
        if index == 0 {
          previousId := None;
        } else {
          previousId := Some(requestIds[index - 1]);
        }
        return;
      }
      index := index + 1;
    }
  }

  // ---------------------------------------------------------------------
  // candidate_view_individual: the average rating.

  function Sum(xs: seq<int>): int
  {
    if xs == [] then 0 else Sum(xs[..|xs| - 1]) + xs[|xs| - 1]
  }

  /** Python's round() of the quotient s / n: to the nearest integer, halves to the even one. */
  function RoundHalfEven(s: int, n: pos): (r: int)
    ensures -(n as int) <= 2 * (r * n - s) <= n
    ensures 2 * (r * n - s) == n || 2 * (r * n - s) == -(n as int) ==> r % 2 == 0
  {
    var f := s / n;
    var rem := s % n;
    assert s == f * n + rem && 0 <= rem < n;
    assert (f + 1) * n - s == n - rem;
    if 2 * rem < n then f
    else if 2 * rem > n then f + 1
    else if f % 2 == 0 then f else f + 1
  }

  /** The rating shown on the profile: 0 with no ratings, else the rounded mean. */
  function AverageRating(ratings: seq<int>): (avg: int)
  {
    if |ratings| != 0 then RoundHalfEven(Sum(ratings), |ratings|) else 0
  }

  lemma {:induction false} SumBounds(xs: seq<int>, lo: int, hi: int)
    requires forall k :: 0 <= k < |xs| ==> lo <= xs[k] <= hi
    ensures lo * |xs| <= Sum(xs) <= hi * |xs|
  {
    if xs != [] {
      SumBounds(xs[..|xs| - 1], lo, hi);
    }
  }

  /** The average lies between the lowest and the highest rating. */
  lemma AverageRatingBounds(ratings: seq<int>, lo: int, hi: int)
    requires ratings != [] && forall k :: 0 <= k < |ratings| ==> lo <= ratings[k] <= hi
    ensures lo <= AverageRating(ratings) <= hi
  {
    var n := |ratings|;
    var s := Sum(ratings);
    SumBounds(ratings, lo, hi);
    var r := AverageRating(ratings);
    assert 2 * (r * n) > 2 * ((lo - 1) * n);
    MulLtCancel(lo - 1, r, n);
    assert 2 * (r * n) < 2 * ((hi + 1) * n);
    MulLtCancel(r, hi + 1, n);
  }

  lemma MulLtCancel(a: int, b: int, n: nat)
    requires a * n < b * n
    ensures a < b
  {
    if b <= a {
      MulLe(b, a, n);
    }
  }

  lemma MulLe(a: int, b: int, n: nat)
    requires a <= b
    ensures a * n <= b * n
  {
    assert (b - a) * n >= 0;
  }

  // ---------------------------------------------------------------------
  // pipeline_grouper: one group per stage, in stage order.

  /** A group of the grouping: its stage, and its page of candidates when the grouping produced one. */
  datatype Grouper = Grouper(grouper: int, list: Option<seq<int>>)

  /** The first group for the stage, else a bare group for it. */
  function GroupFor(groupers: seq<Grouper>, stage: int): (g: Grouper)
    ensures g.grouper == stage
    ensures g in groupers || g == Grouper(stage, None)
    ensures (forall k :: 0 <= k < |groupers| ==> groupers[k].grouper != stage) ==> g == Grouper(stage, None)
  {
    if groupers == [] then Grouper(stage, None)
    else if groupers[0].grouper == stage then groupers[0]
    else
      assert forall k :: 1 <= k < |groupers| ==> groupers[k] == groupers[1..][k - 1];
      GroupFor(groupers[1..], stage)
  }

  /** The combining loop of pipeline_grouper. */
  method OrderGroupers(stages: seq<int>, groupers: seq<Grouper>) returns (orderedData: seq<Grouper>)
    ensures |orderedData| == |stages|
    ensures forall k :: 0 <= k < |stages| ==> orderedData[k] == GroupFor(groupers, stages[k])
  {
    orderedData := [];
    var s := 0;
    while s < |stages|
      invariant 0 <= s <= |stages|
      invariant |orderedData| == s
      invariant forall k :: 0 <= k < s ==> orderedData[k] == GroupFor(groupers, stages[k])
    {
      var stage := stages[s];
      var found := false;
      var g := 0;
      while g < |groupers|
        invariant 0 <= g <= |groupers|
        invariant GroupFor(groupers, stage) == GroupFor(groupers[g..], stage)
      {
        if groupers[g].grouper == stage {
          orderedData := orderedData + [groupers[g]];
          found := true;
          break;
        }
        assert groupers[g..][1..] == groupers[g + 1..];
        g := g + 1;
      }
      if !found {
        orderedData := orderedData + [Grouper(stage, None)];
      }
      s := s + 1;
    }
  }

  // ---------------------------------------------------------------------
  // Skill zones.

  datatype ZoneMember = ZoneMember(candidate: int, zone: int, reason: string, isActive: bool)

  predicate IsMember(members: seq<ZoneMember>, candidate: int, zone: int)
  {
    exists k :: 0 <= k < |members| && members[k].candidate == candidate && members[k].zone == zone
  }

  /** to_skill_zone's loop: an entry for each zone the candidate is not yet in, in zone order. */
  function WithZones(members: seq<ZoneMember>, candidate: int, zones: seq<int>, reason: string): seq<ZoneMember>
  {
    if zones == [] then members
    else
      var m := WithZones(members, candidate, zones[..|zones| - 1], reason);
      var z := zones[|zones| - 1];
      if IsMember(m, candidate, z) then m else m + [ZoneMember(candidate, z, reason, true)]
  }

  /**
   * Afterwards the candidate is in every chosen zone, the old entries are
   * kept as they were, and every new entry is the candidate's in a chosen zone.
   */
  lemma {:induction false} WithZonesSpec(members: seq<ZoneMember>, candidate: int, zones: seq<int>, reason: string)
    ensures var r := WithZones(members, candidate, zones, reason);
            && |members| <= |r| && r[..|members|] == members
            && (forall z :: z in zones ==> IsMember(r, candidate, z))
            && (forall k :: |members| <= k < |r| ==> r[k] == ZoneMember(candidate, r[k].zone, reason, true) && r[k].zone in zones)
  {
    if zones != [] {
      var pre := zones[..|zones| - 1];
      var z := zones[|zones| - 1];
      WithZonesSpec(members, candidate, pre, reason);
      var m := WithZones(members, candidate, pre, reason);
      assert zones == pre + [z];
      if !IsMember(m, candidate, z) {
        var r := m + [ZoneMember(candidate, z, reason, true)];
        assert r[..|members|] == m[..|members|];
        forall y | y in zones ensures IsMember(r, candidate, y) {
          if y == z {
            assert r[|m|].candidate == candidate && r[|m|].zone == z;
          } else {
            var k :| 0 <= k < |m| && m[k].candidate == candidate && m[k].zone == y;
            assert r[k] == m[k];
          }
        }
      }
    }
  }

  lemma {:induction false} WithZonesUnchanged(members: seq<ZoneMember>, candidate: int, zones: seq<int>, reason: string)
    requires forall z :: z in zones ==> IsMember(members, candidate, z)
    ensures WithZones(members, candidate, zones, reason) == members
  {
    if zones != [] {
      WithZonesUnchanged(members, candidate, zones[..|zones| - 1], reason);
    }
  }

  /** Adding the same zones a second time adds nothing. */
  lemma WithZonesIdempotent(members: seq<ZoneMember>, candidate: int, zones: seq<int>, reason: string)
    ensures var once := WithZones(members, candidate, zones, reason);
            WithZones(once, candidate, zones, reason) == once
  {
    WithZonesSpec(members, candidate, zones, reason);
    WithZonesUnchanged(WithZones(members, candidate, zones, reason), candidate, zones, reason);
  }

  /** skill_zone_archive: every member of the zone takes the given flag; the others stay. */
  function SetZoneActive(members: seq<ZoneMember>, zone: int, flag: bool): (r: seq<ZoneMember>)
    ensures |r| == |members|
    ensures forall k :: 0 <= k < |members| ==>
              r[k] == if members[k].zone == zone then members[k].(isActive := flag) else members[k]
  {
    seq(|members|, k requires 0 <= k < |members| =>
          if members[k].zone == zone then members[k].(isActive := flag) else members[k])
  }

  class SkillZones {
    /** Each zone's is_active flag, by id. */
    var zones: map<int, bool>
    var members: seq<ZoneMember>

    constructor(zones: map<int, bool>, members: seq<ZoneMember>)
      ensures this.zones == zones && this.members == members
    {
      this.zones := zones;
      this.members := members;
    }

    /** to_skill_zone, POST: adds the candidate to each chosen zone it is not in yet. */
    method ToSkillZone(candidate: int, chosen: seq<int>, reason: string)
      modifies this
      ensures zones == old(zones)
      ensures members == WithZones(old(members), candidate, chosen, reason)
    {
      var i := 0;
      while i < |chosen|
        invariant 0 <= i <= |chosen|
        invariant zones == old(zones)
        invariant members == WithZones(old(members), candidate, chosen[..i], reason)
      {
        var zone := chosen[i];
        assert chosen[..i + 1][..i] == chosen[..i];
        var exists_ := false;
        var k := 0;
        while k < |members|
          invariant 0 <= k <= |members|
          invariant exists_ <==> exists j :: 0 <= j < k && members[j].candidate == candidate && members[j].zone == zone
        {
          if members[k].candidate == candidate && members[k].zone == zone {
            exists_ := true;
          }
          k := k + 1;
        }
        if !exists_ {
          members := members + [ZoneMember(candidate, zone, reason, true)];
        }
        i := i + 1;
      }
      assert chosen[..i] == chosen;
    }

    /**
     * skill_zone_archive: flips the zone's flag and sets every member of the
     * zone to the new value; false when the zone is not found.
     */
    method SkillZoneArchive(zoneId: int) returns (found: bool)
      modifies this
      ensures found <==> zoneId in old(zones)
      ensures !found ==> zones == old(zones) && members == old(members)
      ensures found ==> zones == old(zones)[zoneId := !old(zones)[zoneId]]
                        && members == SetZoneActive(old(members), zoneId, !old(zones)[zoneId])
    {
      if zoneId !in zones {
        return false;
      }
      var flag := !zones[zoneId];
      var k := 0;
      while k < |members|
        invariant 0 <= k <= |members|
        invariant zones == old(zones)
        invariant |members| == |old(members)|
        invariant forall j :: 0 <= j < |members| ==>
                    members[j] == if j < k && old(members)[j].zone == zoneId then old(members)[j].(isActive := flag) else old(members)[j]
      {
        if members[k].zone == zoneId {
          members := members[k := members[k].(isActive := flag)];
        }
        k := k + 1;
      }
      zones := zones[zoneId := flag];
      return true;
    }
  }
}
