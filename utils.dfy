/**
 * The scoring engine of a round, the band the next shared target must lie in,
 * and the per-round distances used by the final ranking.
 */
module Utils {
  import opened Types

  // ---------------------------------------------------------------------------
  // Effective target and distance
  // ---------------------------------------------------------------------------

  /** The "Schnapszahl" allow-list: a normal-round result equal to one of these earns a point. */
  const SpecialNumbers: seq<int> := [444, 333, 222, 111, 99, 88, 77, 66, 55, 44, 33]

  predicate IsSpecial(w: int) {
    w in SpecialNumbers
  }

  function Abs(x: int): nat {
    if x < 0 then -x else x
  }

  /**
   * The target a player's result is compared with: the player's own declared target
   * in a final round that carries individual targets, the shared target otherwise.
   * None is JavaScript's `undefined` (a final round without an entry for the player);
   * every comparison with the resulting NaN distance is false.
   */
  function TargetFor(round: Round, id: string): Option<int> {
    if round.isFinal && round.individualTargets.Some? then
      if id in round.individualTargets.value then Some(round.individualTargets.value[id]) else None
    else
      Some(round.targetWeight)
  }

  /** The player has a result and a target, so a distance exists. */
  predicate Measured(round: Round, p: Player) {
    p.id in round.results && TargetFor(round, p.id).Some?
  }

  function Distance(round: Round, p: Player): nat
    requires Measured(round, p)
  {
    Abs(round.results[p.id] - TargetFor(round, p.id).value)
  }

  predicate IsExactHit(round: Round, p: Player) {
    Measured(round, p) && round.results[p.id] == TargetFor(round, p.id).value
  }

  /** The player takes part in the weight grouping: a normal round in which the player has a result. */
  predicate IsGrouped(round: Round, p: Player) {
    !round.isFinal && p.id in round.results
  }

  predicate IsSpecialHit(round: Round, p: Player) {
    IsGrouped(round, p) && IsSpecial(round.results[p.id])
  }

  // ---------------------------------------------------------------------------
  // The four categories, defined over the roster independently of the scan
  // ---------------------------------------------------------------------------

  /** Roster entry i is at least as far from its target as every other measured entry. */
  predicate IsFurthest(round: Round, ps: seq<Player>, i: int)
    requires 0 <= i < |ps|
  {
    && Measured(round, ps[i])
    && forall j :: 0 <= j < |ps| && Measured(round, ps[j]) ==> Distance(round, ps[j]) <= Distance(round, ps[i])
  }

  /** Roster entry i weighed the same as some other roster entry in a normal round. */
  predicate SharesWeight(round: Round, ps: seq<Player>, i: int)
    requires 0 <= i < |ps|
  {
    && IsGrouped(round, ps[i])
    && exists j :: 0 <= j < |ps| && j != i && IsGrouped(round, ps[j]) && round.results[ps[j].id] == round.results[ps[i].id]
  }

  function FurthestIds(round: Round, ps: seq<Player>): set<string> {
    set i | 0 <= i < |ps| && IsFurthest(round, ps, i) :: ps[i].id
  }

  function ExactHitIds(round: Round, ps: seq<Player>): set<string> {
    set i | 0 <= i < |ps| && IsExactHit(round, ps[i]) :: ps[i].id
  }

  function SpecialHitIds(round: Round, ps: seq<Player>): set<string> {
    set i | 0 <= i < |ps| && IsSpecialHit(round, ps[i]) :: ps[i].id
  }

  function DuplicateIds(round: Round, ps: seq<Player>): set<string> {
    set i | 0 <= i < |ps| && SharesWeight(round, ps, i) :: ps[i].id
  }

  /** Everybody who earns a Schnaps this round: one point however many categories apply. */
  function PointsToAward(round: Round, ps: seq<Player>): set<string> {
    FurthestIds(round, ps) + ExactHitIds(round, ps) + SpecialHitIds(round, ps) + DuplicateIds(round, ps)
  }

  /** The ids of the grouped roster entries that weighed w, in roster order. */
  function WeightGroup(round: Round, ps: seq<Player>, w: int): seq<string>
    decreases |ps|
  {
    if ps == [] then []
    else
      var last := ps[|ps| - 1];
      WeightGroup(round, ps[..|ps| - 1], w)
        + (if IsGrouped(round, last) && round.results[last.id] == w then [last.id] else [])
  }

  // ---------------------------------------------------------------------------
  // The summary and what it must contain
  // ---------------------------------------------------------------------------

  datatype SpecialHit = SpecialHit(playerId: string, value: int)

  /**
   * The result of scoring one round, by player id. `duplicates` maps a shared
   * weight to the ids that weighed it; `exactHits` and `specialHits` are in roster order.
   */
  datatype RoundSummary = RoundSummary(
    furthest: set<string>,
    specialHits: seq<SpecialHit>,
    duplicates: map<int, seq<string>>,
    exactHits: seq<string>,
    pointsToAward: set<string>,
    isFinal: bool)

  /** The ids named by a list of special hits. */
  function HitPlayers(hits: seq<SpecialHit>): set<string>
    decreases |hits|
  {
    if hits == [] then {} else HitPlayers(hits[..|hits| - 1]) + {hits[|hits| - 1].playerId}
  }

  /** s is a correct summary of round for the roster ps. */
  ghost predicate Summarizes(s: RoundSummary, round: Round, ps: seq<Player>) {
    && s.isFinal == round.isFinal
    && s.furthest == FurthestIds(round, ps)
    && (forall id :: id in s.exactHits <==> id in ExactHitIds(round, ps))
    && (forall h :: h in s.specialHits ==>
          h.playerId in round.results && h.value == round.results[h.playerId] && IsSpecial(h.value))
    && HitPlayers(s.specialHits) == SpecialHitIds(round, ps)
    && (forall w :: w in s.duplicates ==> |s.duplicates[w]| >= 2 && s.duplicates[w] == WeightGroup(round, ps, w))
    && (forall id :: id in DuplicateIds(round, ps) <==> exists w :: w in s.duplicates && id in s.duplicates[w])
    && s.pointsToAward == PointsToAward(round, ps)
  }

  // ---------------------------------------------------------------------------
  // The scan over a roster prefix, one entry at a time
  // ---------------------------------------------------------------------------

  /** The largest distance among the measured entries of ps, or -1 when none is measured. */
  function MaxDistance(round: Round, ps: seq<Player>): int
    decreases |ps|
  {
    if ps == [] then -1
    else
      var last := ps[|ps| - 1];
      var m := MaxDistance(round, ps[..|ps| - 1]);
      if Measured(round, last) && Distance(round, last) > m then Distance(round, last) else m
  }

  /** The running list of furthest ids: restarted by a larger distance, extended by a tie. */
  function FurthestScan(round: Round, ps: seq<Player>): seq<string>
    decreases |ps|
  {
    if ps == [] then []
    else
      var last := ps[|ps| - 1];
      var m := MaxDistance(round, ps[..|ps| - 1]);
      var f := FurthestScan(round, ps[..|ps| - 1]);
      if !Measured(round, last) then f
      else if Distance(round, last) > m then [last.id]
      else if Distance(round, last) == m then f + [last.id]
      else f
  }

  /** The exact hits of ps in roster order. */
  function ExactScan(round: Round, ps: seq<Player>): seq<string>
    decreases |ps|
  {
    if ps == [] then []
    else
      var last := ps[|ps| - 1];
      ExactScan(round, ps[..|ps| - 1]) + (if IsExactHit(round, last) then [last.id] else [])
  }

  /** The special-number hits of ps in roster order. */
  function SpecialScan(round: Round, ps: seq<Player>): seq<SpecialHit>
    decreases |ps|
  {
    if ps == [] then []
    else
      var last := ps[|ps| - 1];
      SpecialScan(round, ps[..|ps| - 1])
        + (if IsSpecialHit(round, last) then [SpecialHit(last.id, round.results[last.id])] else [])
  }

  lemma {:induction false} HitPlayersEmpty(hs: seq<SpecialHit>)
    ensures HitPlayers(hs) == {} <==> hs == []
  {
    if hs != [] {
      assert hs[|hs| - 1].playerId in HitPlayers(hs);
    }
  }

  lemma HitPlayersAppend(hs: seq<SpecialHit>, more: seq<SpecialHit>)
    requires |more| <= 1
    ensures HitPlayers(hs + more) == HitPlayers(hs) + HitPlayers(more)
  {
    if more != [] {
      assert (hs + more)[..|hs|] == hs;
      assert more[..0] == [];
    } else {
      assert hs + more == hs;
    }
  }

  /** The scan's maximum bounds every measured distance and is attained when it is not -1. */
  lemma {:induction false} MaxDistanceIsMaximum(round: Round, ps: seq<Player>)
    ensures -1 <= MaxDistance(round, ps)
    ensures forall j :: 0 <= j < |ps| && Measured(round, ps[j]) ==> Distance(round, ps[j]) <= MaxDistance(round, ps)
    ensures MaxDistance(round, ps) >= 0 ==>
      exists j :: 0 <= j < |ps| && Measured(round, ps[j]) && Distance(round, ps[j]) == MaxDistance(round, ps)
    decreases |ps|
  {
    if ps != [] {
      var n := |ps| - 1;
      MaxDistanceIsMaximum(round, ps[..n]);
      assert forall j :: 0 <= j < n ==> ps[..n][j] == ps[j];
    }
  }

  /** The running list holds exactly the ids of the entries at the maximum distance. */
  lemma {:induction false} FurthestScanMembers(round: Round, ps: seq<Player>, id: string)
    ensures id in FurthestScan(round, ps) <==>
      exists j :: 0 <= j < |ps| && Measured(round, ps[j]) && Distance(round, ps[j]) == MaxDistance(round, ps) && ps[j].id == id
    decreases |ps|
  {
    if ps != [] {
      var n := |ps| - 1;
      FurthestScanMembers(round, ps[..n], id);
      MaxDistanceIsMaximum(round, ps[..n]);
      assert forall j :: 0 <= j < n ==> ps[..n][j] == ps[j];
    }
  }

  lemma {:induction false} ExactScanMembers(round: Round, ps: seq<Player>, id: string)
    ensures id in ExactScan(round, ps) <==> id in ExactHitIds(round, ps)
    decreases |ps|
  {
    if ps != [] {
      var n := |ps| - 1;
      ExactScanMembers(round, ps[..n], id);
      assert forall j :: 0 <= j < n ==> ps[..n][j] == ps[j];
      if id in ExactHitIds(round, ps) {
        var j :| 0 <= j < |ps| && IsExactHit(round, ps[j]) && ps[j].id == id;
        if j < n {
          assert id in ExactHitIds(round, ps[..n]);
        }
      }
    }
  }

  lemma {:induction false} SpecialScanValues(round: Round, ps: seq<Player>)
    ensures forall h :: h in SpecialScan(round, ps) ==>
      h.playerId in round.results && h.value == round.results[h.playerId] && IsSpecial(h.value)
    decreases |ps|
  {
    if ps != [] {
      SpecialScanValues(round, ps[..|ps| - 1]);
    }
  }

  lemma {:induction false} SpecialScanMembers(round: Round, ps: seq<Player>, id: string)
    ensures id in HitPlayers(SpecialScan(round, ps)) <==> id in SpecialHitIds(round, ps)
    decreases |ps|
  {
    if ps != [] {
      var n := |ps| - 1;
      var last := ps[n];
      SpecialScanMembers(round, ps[..n], id);
      HitPlayersAppend(SpecialScan(round, ps[..n]),
        if IsSpecialHit(round, last) then [SpecialHit(last.id, round.results[last.id])] else []);
      assert forall j :: 0 <= j < n ==> ps[..n][j] == ps[j];
      if id in SpecialHitIds(round, ps) {
        var j :| 0 <= j < |ps| && IsSpecialHit(round, ps[j]) && ps[j].id == id;
        if j < n {
          assert id in SpecialHitIds(round, ps[..n]);
        }
      }
    }
  }

  lemma ElementsAppend(xs: seq<string>, x: string)
    ensures (set id | id in xs + [x]) == (set id | id in xs) + {x}
  {
  }

  /** The grouping looked up at w: the ids that weighed w so far, none if w was not seen. */
  function GroupAt(groups: map<int, seq<string>>, w: int): seq<string> {
    if w in groups then groups[w] else []
  }

  /** The `weightGroupsIds` dictionary the scan builds: each grouped entry appended under its weight. */
  function Grouping(round: Round, ps: seq<Player>): map<int, seq<string>>
    decreases |ps|
  {
    if ps == [] then map[]
    else
      var last := ps[|ps| - 1];
      var g := Grouping(round, ps[..|ps| - 1]);
      if IsGrouped(round, last) then
        var w := round.results[last.id];
        g[w := GroupAt(g, w) + [last.id]]
      else g
  }

  /** Ids of every group of two or more. */
  function DuplicateMembers(groups: map<int, seq<string>>): set<string> {
    set w, id | w in groups && |groups[w]| > 1 && id in groups[w] :: id
  }

  /** The points the scan hands out itself: one per exact hit and per special-number hit. */
  function ScanPoints(round: Round, ps: seq<Player>): set<string>
    decreases |ps|
  {
    if ps == [] then {}
    else
      var last := ps[|ps| - 1];
      ScanPoints(round, ps[..|ps| - 1])
        + (if IsExactHit(round, last) then {last.id} else {})
        + (if IsSpecialHit(round, last) then {last.id} else {})
  }

  /** The scan's own points are the ids of its exact hits and of its special-number hits. */
  lemma {:induction false} ScanPointsSplit(round: Round, ps: seq<Player>)
    ensures ScanPoints(round, ps) == (set id | id in ExactScan(round, ps)) + HitPlayers(SpecialScan(round, ps))
    decreases |ps|
  {
    if ps == [] {
      HitPlayersEmpty([]);
    } else {
      var prefix, last := ps[..|ps| - 1], ps[|ps| - 1];
      ScanPointsSplit(round, prefix);
      ElementsAppend(ExactScan(round, prefix), last.id);
      var more := if IsSpecialHit(round, last) then [SpecialHit(last.id, round.results[last.id])] else [];
      HitPlayersAppend(SpecialScan(round, prefix), more);
      assert ExactScan(round, prefix) + [] == ExactScan(round, prefix);
    }
  }

  /** How each scan function moves on by roster entry i. */
  lemma ScanStep(round: Round, ps: seq<Player>, i: int)
    requires 0 <= i < |ps|
    ensures var p, m := ps[i], MaxDistance(round, ps[..i]);
      && MaxDistance(round, ps[..i + 1]) == (if Measured(round, p) && Distance(round, p) > m then Distance(round, p) else m)
      && FurthestScan(round, ps[..i + 1]) ==
           (if !Measured(round, p) then FurthestScan(round, ps[..i])
            else if Distance(round, p) > m then [p.id]
            else if Distance(round, p) == m then FurthestScan(round, ps[..i]) + [p.id]
            else FurthestScan(round, ps[..i]))
      && ExactScan(round, ps[..i + 1]) == ExactScan(round, ps[..i]) + (if IsExactHit(round, p) then [p.id] else [])
      && SpecialScan(round, ps[..i + 1]) ==
           SpecialScan(round, ps[..i]) + (if IsSpecialHit(round, p) then [SpecialHit(p.id, round.results[p.id])] else [])
      && ScanPoints(round, ps[..i + 1]) ==
           ScanPoints(round, ps[..i]) + (if IsExactHit(round, p) then {p.id} else {})
             + (if IsSpecialHit(round, p) then {p.id} else {})
      && var g := Grouping(round, ps[..i]);
         Grouping(round, ps[..i + 1]) ==
           if IsGrouped(round, p) then g[round.results[p.id] := GroupAt(g, round.results[p.id]) + [p.id]] else g
  {
    assert ps[..i + 1][..i] == ps[..i];
  }

  /**
   * The `forEach` over the roster: keeps the running maximum distance and its ties, the
   * exact and special hits, the ids per weight, and the points for exact and special hits.
   */
  method ScanRoster(round: Round, players: seq<Player>)
    returns (maxDist: int, furthestPlayerIds: seq<string>, specialHits: seq<SpecialHit>,
             weightGroupsIds: map<int, seq<string>>, exactHits: seq<string>, points: set<string>)
    ensures maxDist == MaxDistance(round, players)
    ensures furthestPlayerIds == FurthestScan(round, players)
    ensures exactHits == ExactScan(round, players)
    ensures specialHits == SpecialScan(round, players)
    ensures weightGroupsIds == Grouping(round, players)
    ensures points == ScanPoints(round, players)
  {
    maxDist := -1;
    furthestPlayerIds, specialHits, weightGroupsIds, exactHits, points := [], [], map[], [], {};
    var i := 0;
    while i < |players|
      invariant 0 <= i <= |players|
      invariant maxDist == MaxDistance(round, players[..i])
      invariant furthestPlayerIds == FurthestScan(round, players[..i])
      invariant exactHits == ExactScan(round, players[..i])
      invariant specialHits == SpecialScan(round, players[..i])
      invariant weightGroupsIds == Grouping(round, players[..i])
      invariant points == ScanPoints(round, players[..i])
    {
      var p := players[i];
      ScanStep(round, players, i);
      if p.id in round.results {
        maxDist, furthestPlayerIds, exactHits, points := TrackTarget(round, p, maxDist, furthestPlayerIds, exactHits, points);
        if !round.isFinal {
          specialHits, weightGroupsIds, points := TrackWeight(round, p, specialHits, weightGroupsIds, points);
        }
      }
      i := i + 1;
    }
    assert players[..|players|] == players;
  }

  /**
   * The loop body's comparison of a weighed entry with its target: a larger distance
   * restarts the furthest list, an equal one joins it, and hitting the target exactly
   * is recorded and earns a point. Without a target (NaN distance) nothing happens.
   */
  method TrackTarget(round: Round, p: Player, maxDist: int, furthestPlayerIds: seq<string>,
                     exactHits: seq<string>, points: set<string>)
    returns (maxDist': int, furthestPlayerIds': seq<string>, exactHits': seq<string>, points': set<string>)
    requires p.id in round.results
    ensures maxDist' == (if Measured(round, p) && Distance(round, p) > maxDist then Distance(round, p) else maxDist)
    ensures furthestPlayerIds' ==
      (if !Measured(round, p) then furthestPlayerIds
       else if Distance(round, p) > maxDist then [p.id]
       else if Distance(round, p) == maxDist then furthestPlayerIds + [p.id]
       else furthestPlayerIds)
    ensures exactHits' == exactHits + (if IsExactHit(round, p) then [p.id] else [])
    ensures points' == points + (if IsExactHit(round, p) then {p.id} else {})
  {
    maxDist', furthestPlayerIds', exactHits', points' := maxDist, furthestPlayerIds, exactHits, points;
    var weight := round.results[p.id];
    var target := TargetFor(round, p.id);
    if target.Some? {
      var dist := Abs(weight - target.value);
      if dist > maxDist {
        maxDist' := dist;
        furthestPlayerIds' := [p.id];
      } else if dist == maxDist && dist >= 0 {
        furthestPlayerIds' := furthestPlayerIds + [p.id];
      }
      if weight == target.value {
        exactHits' := exactHits + [p.id];
        points' := points + {p.id};
      }
    }
  }

  /**
   * The loop body's normal-round bonuses: a special number is recorded and earns a
   * point, and the entry joins the group of its weight, opened empty when the weight is new.
   */
  method TrackWeight(round: Round, p: Player, specialHits: seq<SpecialHit>,
                     weightGroupsIds: map<int, seq<string>>, points: set<string>)
    returns (specialHits': seq<SpecialHit>, weightGroupsIds': map<int, seq<string>>, points': set<string>)
    requires IsGrouped(round, p)
    ensures specialHits' ==
      specialHits + (if IsSpecialHit(round, p) then [SpecialHit(p.id, round.results[p.id])] else [])
    ensures var w := round.results[p.id];
      weightGroupsIds' == weightGroupsIds[w := GroupAt(weightGroupsIds, w) + [p.id]]
    ensures points' == points + (if IsSpecialHit(round, p) then {p.id} else {})
  {
    specialHits', weightGroupsIds', points' := specialHits, weightGroupsIds, points;
    var weight := round.results[p.id];
    if IsSpecial(weight) {
      specialHits' := specialHits + [SpecialHit(p.id, weight)];
      points' := points + {p.id};
    }
    if weight !in weightGroupsIds' {
      weightGroupsIds' := weightGroupsIds'[weight := []];
    }
    weightGroupsIds' := weightGroupsIds'[weight := weightGroupsIds'[weight] + [p.id]];
  }

  /** `furthestPlayerIds.forEach(id => pointsToAwardSet.add(id))` */
  method AwardFurthest(points: set<string>, furthestPlayerIds: seq<string>) returns (points': set<string>)
    ensures points' == points + (set id | id in furthestPlayerIds)
  {
    points' := points;
    for k := 0 to |furthestPlayerIds|
      invariant points' == points + (set id | id in furthestPlayerIds[..k])
    {
      assert furthestPlayerIds[..k + 1] == furthestPlayerIds[..k] + [furthestPlayerIds[k]];
      points' := points' + {furthestPlayerIds[k]};
    }
    assert furthestPlayerIds[..|furthestPlayerIds|] == furthestPlayerIds;
  }

  /** Scores one round: a single pass over the roster, then the furthest and duplicate awards. */
  method GetRoundSummary(round: Round, players: seq<Player>) returns (s: RoundSummary)
    ensures Summarizes(s, round, players)
  {
    var maxDist, furthestPlayerIds, specialHits, weightGroupsIds, exactHits, points := ScanRoster(round, players);

    // Award a point for being furthest (all rounds).
    points := AwardFurthest(points, furthestPlayerIds);

    // Award points for duplicates (normal rounds only): every group of two or more adds its
    // ids to the set, so the order the groups are visited in does not matter.
    if !round.isFinal {
      points := points + DuplicateMembers(weightGroupsIds);
    }

    var duplicates := map w | w in weightGroupsIds && |weightGroupsIds[w]| > 1 :: weightGroupsIds[w];
    var furthest := set id | id in furthestPlayerIds;
    s := RoundSummary(furthest, specialHits, duplicates, exactHits, points, round.isFinal);

    SummaryFromScan(round, players, s);
  }

  /** A summary assembled from the scan and the two awards is a correct summary of the round. */
  lemma SummaryFromScan(round: Round, ps: seq<Player>, s: RoundSummary)
    requires s.isFinal == round.isFinal
    requires s.furthest == (set id | id in FurthestScan(round, ps))
    requires s.specialHits == SpecialScan(round, ps)
    requires s.exactHits == ExactScan(round, ps)
    requires s.duplicates == map w | w in Grouping(round, ps) && |Grouping(round, ps)[w]| > 1 :: Grouping(round, ps)[w]
    requires s.pointsToAward ==
      ScanPoints(round, ps) + s.furthest + (if !round.isFinal then DuplicateMembers(Grouping(round, ps)) else {})
    ensures Summarizes(s, round, ps)
  {
    var g := Grouping(round, ps);
    ScanPointsSplit(round, ps);
    ScanMeetsCategories(round, ps, MaxDistance(round, ps), FurthestScan(round, ps), s.specialHits, s.exactHits);
    GroupingMeetsDuplicates(round, ps, g, s.duplicates);
    var dup := if !round.isFinal then DuplicateMembers(g) else {};
    assert ScanPoints(round, ps) == ExactHitIds(round, ps) + SpecialHitIds(round, ps);
    assert s.furthest == FurthestIds(round, ps);
    assert dup == DuplicateIds(round, ps);
    assert s.pointsToAward == PointsToAward(round, ps);
  }

  /** What the scan leaves behind is the furthest, exact and special categories. */
  lemma ScanMeetsCategories(round: Round, ps: seq<Player>, maxDist: int, furthestPlayerIds: seq<string>,
                            specialHits: seq<SpecialHit>, exactHits: seq<string>)
    requires maxDist == MaxDistance(round, ps)
    requires furthestPlayerIds == FurthestScan(round, ps)
    requires exactHits == ExactScan(round, ps)
    requires specialHits == SpecialScan(round, ps)
    ensures (set id | id in furthestPlayerIds) == FurthestIds(round, ps)
    ensures forall id :: id in exactHits <==> id in ExactHitIds(round, ps)
    ensures (set id | id in exactHits) == ExactHitIds(round, ps)
    ensures forall h :: h in specialHits ==>
      h.playerId in round.results && h.value == round.results[h.playerId] && IsSpecial(h.value)
    ensures HitPlayers(specialHits) == SpecialHitIds(round, ps)
  {
    MaxDistanceIsMaximum(round, ps);
    forall id
      ensures id in furthestPlayerIds <==>
        exists j :: 0 <= j < |ps| && Measured(round, ps[j]) && Distance(round, ps[j]) == maxDist && ps[j].id == id
      ensures id in exactHits <==> id in ExactHitIds(round, ps)
    {
      FurthestScanMembers(round, ps, id);
      ExactScanMembers(round, ps, id);
    }
    FurthestByMaximum(round, ps, maxDist, furthestPlayerIds);
    SpecialScanValues(round, ps);
    forall id
      ensures id in HitPlayers(specialHits) <==> id in SpecialHitIds(round, ps)
    {
      SpecialScanMembers(round, ps, id);
    }
  }

  /** The dictionary the scan builds holds, under every weight, exactly that weight's group. */
  lemma {:induction false} GroupingIsWeightGroups(round: Round, ps: seq<Player>, w: int)
    ensures GroupAt(Grouping(round, ps), w) == WeightGroup(round, ps, w)
    decreases |ps|
  {
    if ps != [] {
      GroupingIsWeightGroups(round, ps[..|ps| - 1], w);
    }
  }

  /** The groups of two or more, taken from the scan's dictionary, hold exactly the players who share a weight. */
  lemma GroupingMeetsDuplicates(round: Round, ps: seq<Player>, groups: map<int, seq<string>>, duplicates: map<int, seq<string>>)
    requires groups == Grouping(round, ps)
    requires duplicates == map w | w in groups && |groups[w]| > 1 :: groups[w]
    ensures forall w :: w in duplicates ==> |duplicates[w]| >= 2 && duplicates[w] == WeightGroup(round, ps, w)
    ensures forall id :: id in DuplicateIds(round, ps) <==> exists w :: w in duplicates && id in duplicates[w]
    ensures DuplicateMembers(groups) == DuplicateIds(round, ps)
    ensures round.isFinal ==> DuplicateIds(round, ps) == {}
  {
    forall w
      ensures GroupAt(groups, w) == WeightGroup(round, ps, w)
    {
      GroupingIsWeightGroups(round, ps, w);
    }
    forall id
      ensures id in DuplicateIds(round, ps) <==> exists w :: w in duplicates && id in duplicates[w]
    {
      DuplicateIdInGroups(round, ps, groups, duplicates, id);
    }
    forall id
      ensures id in DuplicateMembers(groups) <==> id in DuplicateIds(round, ps)
    {
      if id in DuplicateMembers(groups) {
        var w :| w in groups && |groups[w]| > 1 && id in groups[w];
        assert w in duplicates && id in duplicates[w];
      }
      if id in DuplicateIds(round, ps) {
        var w :| w in duplicates && id in duplicates[w];
        assert w in groups && |groups[w]| > 1 && id in groups[w];
      }
    }
  }

  // ---------------------------------------------------------------------------
  // Lemmas about the categories
  // ---------------------------------------------------------------------------

  /** The scan's maximum and its list of ties give exactly the furthest players. */
  lemma FurthestByMaximum(round: Round, ps: seq<Player>, maxDist: int, furthest: seq<string>)
    requires forall j :: 0 <= j < |ps| && Measured(round, ps[j]) ==> Distance(round, ps[j]) <= maxDist
    requires maxDist >= 0 ==> exists j :: 0 <= j < |ps| && Measured(round, ps[j]) && Distance(round, ps[j]) == maxDist
    requires forall id :: id in furthest <==>
      exists j :: 0 <= j < |ps| && Measured(round, ps[j]) && Distance(round, ps[j]) == maxDist && ps[j].id == id
    ensures (set id | id in furthest) == FurthestIds(round, ps)
  {
    forall i | 0 <= i < |ps| && IsFurthest(round, ps, i)
      ensures Distance(round, ps[i]) == maxDist
    {
      var j :| 0 <= j < |ps| && Measured(round, ps[j]) && Distance(round, ps[j]) == maxDist;
    }
  }

  /** Someone with a result and a target is furthest: the category is never empty then. */
  lemma {:induction false} FurthestExists(round: Round, ps: seq<Player>) returns (k: int)
    requires exists i :: 0 <= i < |ps| && Measured(round, ps[i])
    ensures 0 <= k < |ps| && IsFurthest(round, ps, k)
    ensures ps[k].id in FurthestIds(round, ps)
    decreases |ps|
  {
    var n := |ps| - 1;
    var prefix := ps[..n];
    if exists i :: 0 <= i < n && Measured(round, ps[i]) {
      assert exists i :: 0 <= i < |prefix| && Measured(round, prefix[i]);
      var k' := FurthestExists(round, prefix);
      assert forall j :: 0 <= j < n ==> prefix[j] == ps[j];
      if Measured(round, ps[n]) && Distance(round, ps[n]) > Distance(round, ps[k']) {
        k := n;
      } else {
        k := k';
      }
    } else {
      k := n;
    }
  }

  lemma {:induction false} WeightGroupMembers(round: Round, ps: seq<Player>, w: int, id: string)
    ensures id in WeightGroup(round, ps, w) <==>
      exists j :: 0 <= j < |ps| && IsGrouped(round, ps[j]) && round.results[ps[j].id] == w && ps[j].id == id
    decreases |ps|
  {
    if ps != [] {
      var n := |ps| - 1;
      WeightGroupMembers(round, ps[..n], w, id);
      assert forall j :: 0 <= j < n ==> ps[..n][j] == ps[j];
    }
  }

  /** Two roster entries with the same weight put at least two ids in that weight's group. */
  lemma {:induction false} WeightGroupPair(round: Round, ps: seq<Player>, w: int, i: int, j: int)
    requires 0 <= i < j < |ps|
    requires IsGrouped(round, ps[i]) && round.results[ps[i].id] == w
    requires IsGrouped(round, ps[j]) && round.results[ps[j].id] == w
    ensures |WeightGroup(round, ps, w)| >= 2
    decreases |ps|
  {
    var n := |ps| - 1;
    assert ps[..n][i] == ps[i];
    if j == n {
      WeightGroupMembers(round, ps[..n], w, ps[i].id);
    } else {
      assert ps[..n][j] == ps[j];
      WeightGroupPair(round, ps[..n], w, i, j);
    }
  }

  /** In a group of two or more, every member's roster entry has a partner with the same weight. */
  lemma {:induction false} WeightGroupPartner(round: Round, ps: seq<Player>, w: int, i: int) returns (j: int)
    requires 0 <= i < |ps| && IsGrouped(round, ps[i]) && round.results[ps[i].id] == w
    requires |WeightGroup(round, ps, w)| >= 2
    ensures 0 <= j < |ps| && j != i && IsGrouped(round, ps[j]) && round.results[ps[j].id] == w
    decreases |ps|
  {
    var n := |ps| - 1;
    var prefix := ps[..n];
    if IsGrouped(round, ps[n]) && round.results[ps[n].id] == w {
      if i == n {
        var g := WeightGroup(round, prefix, w);
        assert |g| >= 1;
        WeightGroupMembers(round, prefix, w, g[0]);
        var k :| 0 <= k < n && IsGrouped(round, prefix[k]) && round.results[prefix[k].id] == w && prefix[k].id == g[0];
        j := k;
      } else {
        j := n;
      }
    } else {
      assert prefix[i] == ps[i];
      j := WeightGroupPartner(round, prefix, w, i);
    }
  }

  /** One id's side of GroupingMeetsDuplicates: it shares a weight exactly when some duplicate group lists it. */
  lemma DuplicateIdInGroups(round: Round, ps: seq<Player>, groups: map<int, seq<string>>,
                            duplicates: map<int, seq<string>>, id: string)
    requires forall w :: GroupAt(groups, w) == WeightGroup(round, ps, w)
    requires duplicates == map w | w in groups && |groups[w]| > 1 :: groups[w]
    ensures id in DuplicateIds(round, ps) <==> exists w :: w in duplicates && id in duplicates[w]
  {
    DuplicatesByGroups(round, ps, id);
    if id in DuplicateIds(round, ps) {
      var w :| |WeightGroup(round, ps, w)| >= 2 && id in WeightGroup(round, ps, w);
      assert GroupAt(groups, w) == WeightGroup(round, ps, w);
      assert w in groups && |groups[w]| > 1;
      assert w in duplicates && id in duplicates[w];
    }
    if exists w :: w in duplicates && id in duplicates[w] {
      var w :| w in duplicates && id in duplicates[w];
      assert WeightGroup(round, ps, w) == GroupAt(groups, w) == duplicates[w];
      assert |WeightGroup(round, ps, w)| >= 2 && id in WeightGroup(round, ps, w);
    }
  }

  /**
   * A player shares a weight with someone else exactly when the player's id sits in a
   * weight group of two or more: every group has a pair, every pair lands in a group.
   */
  lemma DuplicatesByGroups(round: Round, ps: seq<Player>, id: string)
    ensures id in DuplicateIds(round, ps) <==>
      exists w :: |WeightGroup(round, ps, w)| >= 2 && id in WeightGroup(round, ps, w)
  {
    if id in DuplicateIds(round, ps) {
      var i :| 0 <= i < |ps| && SharesWeight(round, ps, i) && ps[i].id == id;
      var j :| 0 <= j < |ps| && j != i && IsGrouped(round, ps[j]) && round.results[ps[j].id] == round.results[ps[i].id];
      var w := round.results[id];
      if i < j {
        WeightGroupPair(round, ps, w, i, j);
      } else {
        WeightGroupPair(round, ps, w, j, i);
      }
      WeightGroupMembers(round, ps, w, id);
    }
    if exists w :: |WeightGroup(round, ps, w)| >= 2 && id in WeightGroup(round, ps, w) {
      var w :| |WeightGroup(round, ps, w)| >= 2 && id in WeightGroup(round, ps, w);
      WeightGroupMembers(round, ps, w, id);
      var i :| 0 <= i < |ps| && IsGrouped(round, ps[i]) && round.results[ps[i].id] == w && ps[i].id == id;
      var j := WeightGroupPartner(round, ps, w, i);
      assert SharesWeight(round, ps, i);
    }
  }

  /** Every id in a duplicate group weighed that group's weight. */
  lemma GroupMembersShareWeight(s: RoundSummary, round: Round, ps: seq<Player>, w: int, id: string)
    requires Summarizes(s, round, ps)
    requires w in s.duplicates && id in s.duplicates[w]
    ensures id in round.results && round.results[id] == w
  {
    WeightGroupMembers(round, ps, w, id);
  }

  /** A final round earns no Schnapszahl and no duplicate points: only furthest and exact hits. */
  lemma SummaryOfFinalRound(s: RoundSummary, round: Round, ps: seq<Player>)
    requires Summarizes(s, round, ps)
    requires round.isFinal
    ensures s.specialHits == [] && s.duplicates == map[]
    ensures s.pointsToAward == FurthestIds(round, ps) + ExactHitIds(round, ps)
  {
    HitPlayersEmpty(s.specialHits);
    forall w | w in s.duplicates
      ensures false
    {
      WeightGroupMembers(round, ps, w, s.duplicates[w][0]);
    }
    assert s.duplicates.Keys == {};
  }

  /** An exact hit is a distance of zero. */
  lemma ExactHitIsZeroDistance(round: Round, p: Player)
    requires Measured(round, p)
    ensures IsExactHit(round, p) <==> Distance(round, p) == 0
  {
  }

  /** Nobody scores in a round in which no roster entry has a result. */
  lemma ResultlessRoundAwardsNothing(round: Round, ps: seq<Player>)
    requires forall i :: 0 <= i < |ps| ==> ps[i].id !in round.results
    ensures FurthestIds(round, ps) == {} && ExactHitIds(round, ps) == {}
    ensures SpecialHitIds(round, ps) == {} && DuplicateIds(round, ps) == {}
    ensures PointsToAward(round, ps) == {}
  {
  }

  // ---------------------------------------------------------------------------
  // The band for the next shared target
  // ---------------------------------------------------------------------------

  datatype TargetRange = TargetRange(min: int, max: int)

  predicate InRange(r: TargetRange, t: int) {
    r.min <= t <= r.max
  }

  function Lowest(ws: seq<int>): (m: int)
    requires |ws| > 0
    ensures m in ws && forall w :: w in ws ==> m <= w
  {
    if |ws| == 1 then ws[0]
    else
      assert ws == [ws[0]] + ws[1..];
      var rest := Lowest(ws[1..]);
      if ws[0] <= rest then ws[0] else rest
  }

  function Highest(ws: seq<int>): (m: int)
    requires |ws| > 0
    ensures m in ws && forall w :: w in ws ==> w <= m
  {
    if |ws| == 1 then ws[0]
    else
      assert ws == [ws[0]] + ws[1..];
      var rest := Highest(ws[1..]);
      if ws[0] >= rest then ws[0] else rest
  }

  /** Math.max(0, x) */
  function ClampAtZero(x: int): nat {
    if x < 0 then 0 else x
  }

  /** The legal band for the next target: at most 100 g below the heaviest, at least 10 g below the lightest, never negative. */
  function GetTargetRange(previousWeights: seq<int>): (r: TargetRange)
    ensures 0 <= r.min && 0 <= r.max
    ensures |previousWeights| == 0 ==> r == TargetRange(0, 0)
  {
    if |previousWeights| == 0 then TargetRange(0, 0)
    else TargetRange(ClampAtZero(Highest(previousWeights) - 100), ClampAtZero(Lowest(previousWeights) - 10))
  }

  /**
   * The targets the band admits, stated per weight: not negative, no more than 100 g
   * below any weight, and at least 10 g below every weight unless the target is 0.
   */
  lemma TargetRangeAdmits(ws: seq<int>, t: int)
    requires |ws| > 0
    ensures InRange(GetTargetRange(ws), t) <==>
      && 0 <= t
      && (forall w :: w in ws ==> w - 100 <= t)
      && (t == 0 || forall w :: w in ws ==> t <= w - 10)
  {
    var lo, hi := Lowest(ws), Highest(ws);
    if (forall w :: w in ws ==> w - 100 <= t) {
      assert hi - 100 <= t;
    }
    if (forall w :: w in ws ==> t <= w - 10) {
      assert t <= lo - 10;
    }
  }

  /**
   * The band admits some target exactly when the heaviest weight is at most 100 g or all
   * weights lie within 90 g of each other; otherwise no target can be entered at all.
   */
  lemma TargetRangeNonEmpty(ws: seq<int>)
    requires |ws| > 0
    ensures (exists t :: InRange(GetTargetRange(ws), t)) <==> Highest(ws) <= 100 || Highest(ws) - Lowest(ws) <= 90
  {
    var r := GetTargetRange(ws);
    if Highest(ws) <= 100 || Highest(ws) - Lowest(ws) <= 90 {
      assert InRange(r, r.max);
    }
  }

  // ---------------------------------------------------------------------------
  // Distances collected for the final ranking
  // ---------------------------------------------------------------------------

  /** A round's distance for a player, present when the round has both a result and a target for the player. */
  function RoundDistance(r: Round, id: string): Option<nat> {
    if id in r.results && TargetFor(r, id).Some? then Some(Abs(r.results[id] - TargetFor(r, id).value)) else None
  }

  /** The player's distances over the rounds that have one, in round order. */
  function Distances(id: string, rounds: seq<Round>): (ds: seq<nat>)
    ensures |ds| <= |rounds|
  {
    if rounds == [] then []
    else
      var rest := Distances(id, rounds[1..]);
      match RoundDistance(rounds[0], id)
      case Some(d) => [d] + rest
      case None => rest
  }

  lemma {:induction false} DistancesMembers(id: string, rounds: seq<Round>, d: nat)
    ensures d in Distances(id, rounds) <==>
      exists k :: 0 <= k < |rounds| && RoundDistance(rounds[k], id) == Some(d)
  {
    if rounds != [] {
      DistancesMembers(id, rounds[1..], d);
      assert forall k :: 1 <= k < |rounds| ==> rounds[1..][k - 1] == rounds[k];
      if exists k :: 0 <= k < |rounds| && RoundDistance(rounds[k], id) == Some(d) {
        var k :| 0 <= k < |rounds| && RoundDistance(rounds[k], id) == Some(d);
        if k > 0 {
          assert RoundDistance(rounds[1..][k - 1], id) == Some(d);
        }
      }
    }
  }

  /** No distance is collected (the average is then 0) exactly when no round measures the player. */
  lemma {:induction false} DistancesEmpty(id: string, rounds: seq<Round>)
    ensures Distances(id, rounds) == [] <==> forall k :: 0 <= k < |rounds| ==> RoundDistance(rounds[k], id) == None
  {
    if rounds != [] {
      DistancesEmpty(id, rounds[1..]);
      assert forall k :: 1 <= k < |rounds| ==> rounds[1..][k - 1] == rounds[k];
    }
  }

  /** Collecting over a longer history extends the list by the new rounds' distances. */
  lemma {:induction false} DistancesAppend(id: string, a: seq<Round>, b: seq<Round>)
    ensures Distances(id, a + b) == Distances(id, a) + Distances(id, b)
  {
    if a == [] {
      assert a + b == b;
    } else {
      assert (a + b)[1..] == a[1..] + b;
      DistancesAppend(id, a[1..], b);
    }
  }
}
