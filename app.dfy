/**
 * The game flow: the screens, the roster, the rounds played so far and the
 * inputs being typed, with the handlers that move the game from screen to screen.
 * A text field's content is modelled by what `parseInt` makes of it: `Some(n)`
 * for a number, `None` for an empty or non-numeric field.
 */
module App {
  import opened Types
  import opened Utils

  /** A result below this many grams in a normal round announces the final round. */
  const FinalTriggerWeight := 75

  /** The player-count menu offers 2 to 10 players. */
  const MinPlayers := 2
  const MaxPlayers := 10

  // ---------------------------------------------------------------------------
  // Player ids: `p0`, `p1`, ... and default names `Spieler 1`, `Spieler 2`, ...
  // ---------------------------------------------------------------------------

  function DigitChar(d: nat): char
    requires d < 10
  {
    "0123456789"[d]
  }

  function DigitValue(c: char): nat {
    if '0' <= c <= '9' then (c - '0') as nat else 0
  }

  /** The decimal numeral of n, as a template literal renders a whole number. */
  function NatToString(n: nat): (s: string)
    ensures |s| > 0
    decreases n
  {
    if n < 10 then [DigitChar(n)] else NatToString(n / 10) + [DigitChar(n % 10)]
  }

  /** Reads a string of decimal digits back as a number. */
  function ParseDigits(s: string): nat
    decreases |s|
  {
    if s == [] then 0 else ParseDigits(s[..|s| - 1]) * 10 + DigitValue(s[|s| - 1])
  }

  /** Reading a numeral back gives the number it was written from. */
  lemma {:induction false} ParseNatToString(n: nat)
    ensures ParseDigits(NatToString(n)) == n
    decreases n
  {
    var s := NatToString(n);
    if n < 10 {
      assert s[..|s| - 1] == [];
    } else {
      ParseNatToString(n / 10);
      assert s[..|s| - 1] == NatToString(n / 10);
    }
  }

  /** Different numbers are written differently. */
  lemma NatToStringInjective(a: nat, b: nat)
    ensures NatToString(a) == NatToString(b) ==> a == b
  {
    ParseNatToString(a);
    ParseNatToString(b);
  }

  function PlayerId(i: nat): string {
    "p" + NatToString(i)
  }

  /** Different roster positions get different ids. */
  lemma PlayerIdInjective(i: nat, j: nat)
    ensures PlayerId(i) == PlayerId(j) ==> i == j
  {
    if PlayerId(i) == PlayerId(j) {
      assert NatToString(i) == PlayerId(i)[1..];
      assert NatToString(j) == PlayerId(j)[1..];
      NatToStringInjective(i, j);
    }
  }

  /** No two roster entries share an id. */
  predicate DistinctIds(ps: seq<Player>) {
    forall i, j :: 0 <= i < j < |ps| ==> ps[i].id != ps[j].id
  }

  /** The roster created when the player count is confirmed. */
  function InitialPlayers(n: nat): (ps: seq<Player>)
    ensures |ps| == n
    ensures DistinctIds(ps)
    ensures forall i :: 0 <= i < n ==>
      ps[i].id == PlayerId(i) && ps[i].name == "Spieler " + NatToString(i + 1) &&
      ps[i].startWeight == 0 && ps[i].schnaepse == 0
  {
    var ps := seq(n, i requires 0 <= i => Player(PlayerId(i), "Spieler " + NatToString(i + 1), 0, 0));
    forall i, j | 0 <= i < j < n
      ensures ps[i].id != ps[j].id
    {
      PlayerIdInjective(i, j);
    }
    ps
  }

  // ---------------------------------------------------------------------------
  // Reading the per-player input fields
  // ---------------------------------------------------------------------------

  /** What `parseInt(inputs[id])` gives: nothing for a field never typed in. */
  function Parsed(inputs: map<string, Option<int>>, id: string): Option<int> {
    if id in inputs then inputs[id] else None
  }

  /** Every roster entry's field holds a number. */
  predicate AllFilled(ps: seq<Player>, inputs: map<string, Option<int>>) {
    forall i :: 0 <= i < |ps| ==> Parsed(inputs, ps[i].id).Some?
  }

  /** `results` after `results[p.id] = parseInt(inputs[p.id])` for every roster entry in turn. */
  function Overlay(results: map<string, int>, ps: seq<Player>, inputs: map<string, Option<int>>): map<string, int>
    requires AllFilled(ps, inputs)
    decreases |ps|
  {
    if ps == [] then results
    else
      var last := ps[|ps| - 1];
      Overlay(results, ps[..|ps| - 1], inputs)[last.id := Parsed(inputs, last.id).value]
  }

  /**
   * After the writes every roster id holds its parsed input, and every other key keeps
   * its earlier value.
   */
  lemma {:induction false} OverlayRecords(results: map<string, int>, ps: seq<Player>, inputs: map<string, Option<int>>, k: string)
    requires AllFilled(ps, inputs)
    ensures k in Overlay(results, ps, inputs) <==> k in results || exists i :: 0 <= i < |ps| && ps[i].id == k
    ensures (exists i :: 0 <= i < |ps| && ps[i].id == k) ==> Overlay(results, ps, inputs)[k] == Parsed(inputs, k).value
    ensures (forall i :: 0 <= i < |ps| ==> ps[i].id != k) && k in results ==> Overlay(results, ps, inputs)[k] == results[k]
    decreases |ps|
  {
    if ps != [] {
      var prefix := ps[..|ps| - 1];
      OverlayRecords(results, prefix, inputs, k);
      if exists i :: 0 <= i < |ps| && ps[i].id == k {
        var i :| 0 <= i < |ps| && ps[i].id == k;
        if i < |ps| - 1 {
          assert prefix[i].id == k;
        }
      }
      if exists i :: 0 <= i < |prefix| && prefix[i].id == k {
        var i :| 0 <= i < |prefix| && prefix[i].id == k;
        assert ps[i].id == k;
      }
    }
  }

  /** Every roster id is recorded after the writes. */
  lemma OverlayCovers(results: map<string, int>, ps: seq<Player>, inputs: map<string, Option<int>>)
    requires AllFilled(ps, inputs)
    ensures forall i :: 0 <= i < |ps| ==>
      ps[i].id in Overlay(results, ps, inputs) && Overlay(results, ps, inputs)[ps[i].id] == Parsed(inputs, ps[i].id).value
  {
    forall i | 0 <= i < |ps|
      ensures ps[i].id in Overlay(results, ps, inputs) && Overlay(results, ps, inputs)[ps[i].id] == Parsed(inputs, ps[i].id).value
    {
      OverlayRecords(results, ps, inputs, ps[i].id);
    }
  }

  /** The `players.forEach` that writes each parsed input into the map. */
  method RecordInputs(results: map<string, int>, ps: seq<Player>, inputs: map<string, Option<int>>) returns (r: map<string, int>)
    requires AllFilled(ps, inputs)
    ensures r == Overlay(results, ps, inputs)
  {
    r := results;
    for i := 0 to |ps|
      invariant r == Overlay(results, ps[..i], inputs)
    {
      assert ps[..i + 1][..i] == ps[..i];
      r := r[ps[i].id := Parsed(inputs, ps[i].id).value];
    }
    assert ps[..|ps|] == ps;
  }

  /** The round with the entered results written into it. */
  function Recorded(round: Round, ps: seq<Player>, inputs: map<string, Option<int>>): Round
    requires AllFilled(ps, inputs)
  {
    round.(results := Overlay(round.results, ps, inputs))
  }

  /** Every roster entry has a result in the round. */
  predicate HasAllResults(round: Round, ps: seq<Player>) {
    forall i :: 0 <= i < |ps| ==> ps[i].id in round.results
  }

  // ---------------------------------------------------------------------------
  // Awarding the round's Schnaepse
  // ---------------------------------------------------------------------------

  /** Each roster entry named in `points` drinks one more Schnaps; nothing else changes. */
  function AwardPoints(ps: seq<Player>, points: set<string>): (r: seq<Player>)
    ensures |r| == |ps|
    ensures forall i :: 0 <= i < |ps| ==>
      r[i].id == ps[i].id && r[i].name == ps[i].name && r[i].startWeight == ps[i].startWeight
    ensures forall i :: 0 <= i < |ps| ==>
      (ps[i].id in points ==> r[i].schnaepse == ps[i].schnaepse + 1) &&
      (ps[i].id !in points ==> r[i].schnaepse == ps[i].schnaepse)
  {
    seq(|ps|, i requires 0 <= i < |ps| =>
      if ps[i].id in points then ps[i].(schnaepse := ps[i].schnaepse + 1) else ps[i])
  }

  /** Awarding keeps the ids, so their distinctness and the round's results for them, and adds at most one Schnaps each. */
  lemma AwardKeepsRoster(ps: seq<Player>, points: set<string>, round: Round, n: int)
    requires DistinctIds(ps) && HasAllResults(round, ps)
    requires AtMost(ps, n)
    ensures DistinctIds(AwardPoints(ps, points)) && HasAllResults(round, AwardPoints(ps, points))
    ensures AtMost(AwardPoints(ps, points), n + 1)
    ensures HasAllTargets(round, ps) ==> HasAllTargets(round, AwardPoints(ps, points))
  {
  }

  /** All Schnaepse drunk so far, summed over the roster. */
  function TotalSchnaepse(ps: seq<Player>): nat
    decreases |ps|
  {
    if ps == [] then 0 else TotalSchnaepse(ps[..|ps| - 1]) + ps[|ps| - 1].schnaepse
  }

  function Ids(ps: seq<Player>): set<string> {
    set i | 0 <= i < |ps| :: ps[i].id
  }

  /** The ids of a roster are those of all but its last entry, plus the last one's, which is new. */
  lemma IdsOfPrefix(ps: seq<Player>)
    requires DistinctIds(ps) && ps != []
    ensures Ids(ps) == Ids(ps[..|ps| - 1]) + {ps[|ps| - 1].id}
    ensures ps[|ps| - 1].id !in Ids(ps[..|ps| - 1])
  {
    var prefix := ps[..|ps| - 1];
    forall id | id in Ids(ps) ensures id in Ids(prefix) + {ps[|ps| - 1].id} {
      var i :| 0 <= i < |ps| && ps[i].id == id;
      if i < |prefix| { assert prefix[i].id == id; }
    }
    forall id | id in Ids(prefix) ensures id in Ids(ps) {
      var i :| 0 <= i < |prefix| && prefix[i].id == id;
      assert ps[i].id == id;
    }
  }

  /** Adding a new id to a roster's id set adds one to its intersection with the award set exactly when the id is awarded. */
  lemma AwardedCountStep(points: set<string>, ids: set<string>, id: string)
    requires id !in ids
    ensures |points * (ids + {id})| == |points * ids| + (if id in points then 1 else 0)
  {
    if id in points {
      assert points * (ids + {id}) == (points * ids) + {id};
    } else {
      assert points * (ids + {id}) == points * ids;
    }
  }

  /**
   * Awarding a round adds to the total exactly one Schnaps per roster player in the
   * award set, however many categories that player fell into.
   */
  lemma {:induction false} AwardPointsTotal(ps: seq<Player>, points: set<string>)
    requires DistinctIds(ps)
    ensures TotalSchnaepse(AwardPoints(ps, points)) == TotalSchnaepse(ps) + |points * Ids(ps)|
    decreases |ps|
  {
    if ps == [] {
      assert points * Ids(ps) == {};
    } else {
      var prefix := ps[..|ps| - 1];
      var last := ps[|ps| - 1];
      AwardPointsTotal(prefix, points);
      var r := AwardPoints(ps, points);
      assert r[..|r| - 1] == AwardPoints(prefix, points);
      IdsOfPrefix(ps);
      AwardedCountStep(points, Ids(prefix), last.id);
    }
  }

  /** `players.some(p => currentRound.results[p.id] < 75)` */
  predicate Triggered(round: Round, ps: seq<Player>) {
    exists i :: 0 <= i < |ps| && ps[i].id in round.results && round.results[ps[i].id] < FinalTriggerWeight
  }

  /** Once the results are written, the final round is announced exactly when some entered weight is below 75 g. */
  lemma TriggeredByInputs(round: Round, ps: seq<Player>, inputs: map<string, Option<int>>)
    requires AllFilled(ps, inputs)
    ensures Triggered(Recorded(round, ps, inputs), ps) <==>
      exists i :: 0 <= i < |ps| && Parsed(inputs, ps[i].id).value < FinalTriggerWeight
  {
    OverlayCovers(round.results, ps, inputs);
  }

  /** The weights the next target is checked against: the start weights before the first round, else the last results. */
  function PreviousWeights(ps: seq<Player>, rounds: seq<Round>): (ws: seq<int>)
    requires |rounds| > 0 ==> HasAllResults(rounds[|rounds| - 1], ps)
    ensures |ws| == |ps|
  {
    if |rounds| == 0 then seq(|ps|, i requires 0 <= i < |ps| => ps[i].startWeight)
    else seq(|ps|, i requires 0 <= i < |ps| => rounds[|rounds| - 1].results[ps[i].id])
  }

  /**
   * The scoring both result handlers share: the entered results are written into the
   * round, the round is summarised, and every awarded roster entry drinks one Schnaps.
   */
  method ScoreRound(round: Round, ps: seq<Player>, inputs: map<string, Option<int>>)
    returns (played: Round, summary: RoundSummary, awarded: seq<Player>)
    requires AllFilled(ps, inputs) && DistinctIds(ps)
    ensures played == Recorded(round, ps, inputs) && HasAllResults(played, ps)
    ensures Summarizes(summary, played, ps)
    ensures awarded == AwardPoints(ps, PointsToAward(played, ps))
  {
    var results := RecordInputs(round.results, ps, inputs);
    played := round.(results := results);
    OverlayCovers(round.results, ps, inputs);
    summary := GetRoundSummary(played, ps);
    awarded := AwardPoints(ps, summary.pointsToAward);
  }

  // ---------------------------------------------------------------------------
  // The game
  // ---------------------------------------------------------------------------

  function Last(rounds: seq<Round>): Round
    requires |rounds| > 0
  {
    rounds[|rounds| - 1]
  }

  /** A final round carrying an own target for every roster entry. */
  predicate HasAllTargets(round: Round, ps: seq<Player>) {
    round.isFinal && round.individualTargets.Some? &&
    forall i :: 0 <= i < |ps| ==> ps[i].id in round.individualTargets.value
  }

  /** On the screens where results are entered, before the summary is shown. */
  predicate Awaiting(gameState: GameState, showSummary: bool, showFinalIntro: bool) {
    (gameState == Gameplay || gameState == FinalRoundResults) && !showSummary && !showFinalIntro
  }

  /** No roster entry has drunk more than n Schnaepse. */
  predicate AtMost(ps: seq<Player>, n: int) {
    forall i :: 0 <= i < |ps| ==> ps[i].schnaepse <= n
  }

  /** The state of one game session, field by field as the component keeps it. */
  class Game {
    var gameState: GameState
    var playerCount: nat
    var players: seq<Player>
    var rounds: seq<Round>
    var currentRoundResults: map<string, Option<int>>
    var currentRoundTargets: map<string, Option<int>>
    var showSummary: bool
    var showFinalIntro: bool
    var finalTriggered: bool
    var nextTargetInput: Option<int>
    var summaryData: Option<RoundSummary>

    /** The last round has been created but its results are not scored yet. */
    predicate AwaitingScore()
      reads this
    {
      Awaiting(gameState, showSummary, showFinalIntro)
    }

    /** What holds on every screen the game can reach. */
    ghost predicate Valid()
      reads this
    {
      && DistinctIds(players)
      && MinPlayers <= playerCount <= MaxPlayers
      && (gameState == PlayerCount || gameState == PlayerNames || gameState == StartWeights ==> rounds == [])
      && (gameState == RoundTarget && |rounds| > 0 ==> HasAllResults(Last(rounds), players))
      && (gameState == Gameplay ==> |rounds| > 0 && !Last(rounds).isFinal)
      && (gameState == FinalRoundResults ==> |rounds| > 0 && HasAllTargets(Last(rounds), players))
      && (showSummary ==>
            (gameState == Gameplay || gameState == FinalRoundResults) && summaryData.Some? &&
            HasAllResults(Last(rounds), players))
      && (showFinalIntro ==> gameState == Gameplay && !showSummary && HasAllResults(Last(rounds), players))
      // each scored round gives a player at most one Schnaps
      && AtMost(players, if Awaiting(gameState, showSummary, showFinalIntro) then |rounds| - 1 else |rounds|)
    }

    /** The opening screen with two players preselected. */
    constructor ()
      ensures Valid()
      ensures gameState == Start && playerCount == 2 && players == [] && rounds == []
      ensures currentRoundResults == map[] && currentRoundTargets == map[]
      ensures !showSummary && !showFinalIntro && !finalTriggered
      ensures nextTargetInput == None && summaryData == None
    {
      gameState := Start;
      playerCount := 2;
      players := [];
      rounds := [];
      currentRoundResults := map[];
      currentRoundTargets := map[];
      showSummary := false;
      showFinalIntro := false;
      finalTriggered := false;
      nextTargetInput := None;
      summaryData := None;
    }

    /** Starts a new game: clears roster, rounds and the last summary. */
    method StartGame()
      requires Valid() && gameState == Start
      modifies this`gameState, this`rounds, this`players, this`finalTriggered, this`summaryData
      ensures Valid()
      ensures gameState == PlayerCount && rounds == [] && players == []
      ensures !finalTriggered && summaryData == None
    {
      gameState := PlayerCount;
      rounds := [];
      players := [];
      finalTriggered := false;
      summaryData := None;
    }

    /** The player-count menu. */
    method SelectPlayerCount(n: nat)
      requires Valid() && gameState == PlayerCount && MinPlayers <= n <= MaxPlayers
      modifies this`playerCount
      ensures Valid() && playerCount == n
    {
      playerCount := n;
    }

    /** Creates the roster `p0`, `p1`, ... with default names, no start weight and no Schnaps. */
    method HandlePlayerCountConfirm()
      requires Valid() && gameState == PlayerCount
      modifies this`players, this`gameState
      ensures Valid()
      ensures players == InitialPlayers(playerCount) && gameState == PlayerNames
    {
      players := InitialPlayers(playerCount);
      gameState := PlayerNames;
    }

    /** Typing into a name field. */
    method EditName(i: nat, name: string)
      requires Valid() && gameState == PlayerNames && i < |players|
      modifies this`players
      ensures Valid()
      ensures players == old(players)[i := old(players)[i].(name := name)]
    {
      players := players[i := players[i].(name := name)];
    }

    /** Keeps the roster's order and ids; an empty (or missing) name keeps the current one. */
    method HandlePlayerNamesConfirm(names: seq<string>)
      requires Valid() && gameState == PlayerNames
      modifies this`players, this`gameState
      ensures Valid() && gameState == StartWeights && |players| == |old(players)|
      ensures forall i :: 0 <= i < |players| ==>
        players[i] == old(players)[i].(name := if i < |names| && names[i] != "" then names[i] else old(players)[i].name)
    {
      var ps := players;
      players := seq(|ps|, i requires 0 <= i < |ps| =>
        ps[i].(name := if i < |names| && names[i] != "" then names[i] else ps[i].name));
      gameState := StartWeights;
    }

    /** Typing into a start-weight field: `parseInt(value) || 0`. */
    method EditStartWeight(i: nat, input: Option<int>)
      requires Valid() && gameState == StartWeights && i < |players|
      modifies this`players
      ensures Valid()
      ensures players == old(players)[i := old(players)[i].(startWeight := if input.Some? then input.value else 0)]
    {
      players := players[i := players[i].(startWeight := if input.Some? then input.value else 0)];
    }

    /** Takes over the entered start weights and asks for the first target. */
    method HandleStartWeightsConfirm(weights: seq<int>)
      requires Valid() && gameState == StartWeights && |weights| == |players|
      modifies this`players, this`gameState
      ensures Valid() && gameState == RoundTarget && |players| == |old(players)|
      ensures forall i :: 0 <= i < |players| ==> players[i] == old(players)[i].(startWeight := weights[i])
    {
      var ps := players;
      players := seq(|ps|, i requires 0 <= i < |ps| => ps[i].(startWeight := weights[i]));
      gameState := RoundTarget;
    }

    /** Typing into the next-target field. */
    method EnterNextTarget(input: Option<int>)
      requires Valid() && gameState == RoundTarget
      modifies this`nextTargetInput
      ensures Valid() && nextTargetInput == input
    {
      nextTargetInput := input;
    }

    /**
     * Opens a round with the entered shared target when it lies in the band the previous
     * weights allow; otherwise nothing changes (the player is told the band).
     */
    method HandleTargetWeightConfirm() returns (accepted: bool)
      requires Valid() && gameState == RoundTarget
      modifies this`rounds, this`currentRoundResults, this`nextTargetInput, this`gameState
      ensures Valid()
      ensures accepted <==>
        old(nextTargetInput).Some? &&
        InRange(GetTargetRange(PreviousWeights(old(players), old(rounds))), old(nextTargetInput).value)
      ensures !accepted ==> unchanged(this)
      ensures accepted ==>
        && rounds == old(rounds) + [Round(old(nextTargetInput).value, None, map[], false)]
        && currentRoundResults == map[] && nextTargetInput == None && gameState == Gameplay
    {
      var prevResults := PreviousWeights(players, rounds);
      var range := GetTargetRange(prevResults);
      if nextTargetInput.None? || nextTargetInput.value < range.min || nextTargetInput.value > range.max {
        return false;
      }
      var newRound := Round(nextTargetInput.value, None, map[], false);
      rounds := rounds + [newRound];
      currentRoundResults := map[];
      nextTargetInput := None;
      gameState := Gameplay;
      accepted := true;
    }

    /** Typing into a player's result field. */
    method EnterResult(i: nat, input: Option<int>)
      requires Valid() && AwaitingScore() && i < |players|
      modifies this`currentRoundResults
      ensures Valid() && currentRoundResults == old(currentRoundResults)[old(players)[i].id := input]
    {
      currentRoundResults := currentRoundResults[players[i].id := input];
    }

    /**
     * Scores a normal round once every result is entered: writes the results into the
     * round, summarises it, gives each awarded player one Schnaps, notes whether the
     * final round is due and shows the summary. With a result missing nothing changes.
     */
    method HandleNextRound() returns (filled: bool)
      requires Valid() && gameState == Gameplay && !showSummary && !showFinalIntro
      modifies this`players, this`rounds, this`summaryData, this`showSummary, this`finalTriggered
      ensures Valid()
      ensures filled <==> AllFilled(old(players), old(currentRoundResults))
      ensures !filled ==> unchanged(this)
      ensures filled ==>
        var played := Recorded(old(Last(rounds)), old(players), old(currentRoundResults));
        && rounds == old(rounds)[..|old(rounds)| - 1] + [played]
        && summaryData.Some? && Summarizes(summaryData.value, played, old(players))
        && players == AwardPoints(old(players), PointsToAward(played, old(players)))
        && finalTriggered == Triggered(played, old(players))
        && showSummary
    {
      if !AllFilled(players, currentRoundResults) {
        return false;
      }
      filled := true;
      var currentRound, summary, updatedPlayers := ScoreRound(Last(rounds), players, currentRoundResults);
      AwardKeepsRoster(players, summary.pointsToAward, currentRound, |rounds| - 1);
      var trigger := Triggered(currentRound, players);
      finalTriggered := trigger;

      players := updatedPlayers;
      summaryData := Some(summary);
      rounds := rounds[..|rounds| - 1] + [currentRound];
      showSummary := true;
      assert Last(rounds) == currentRound;
    }

    /** Leaves the summary: to the result screen after the final round, to the final-round announcement, or to the next target. */
    method ProceedFromSummary()
      requires Valid() && showSummary
      modifies this`showSummary, this`gameState, this`showFinalIntro
      ensures Valid() && !showSummary
      ensures old(gameState) == FinalRoundResults ==> gameState == ResultScreen && showFinalIntro == old(showFinalIntro)
      ensures old(gameState) != FinalRoundResults && finalTriggered ==> gameState == old(gameState) && showFinalIntro
      ensures old(gameState) != FinalRoundResults && !finalTriggered ==>
        gameState == RoundTarget && showFinalIntro == old(showFinalIntro)
    {
      showSummary := false;
      if gameState == FinalRoundResults {
        gameState := ResultScreen;
      } else if finalTriggered {
        showFinalIntro := true;
      } else {
        gameState := RoundTarget;
      }
    }

    /** Dismisses the final-round announcement and asks every player for an own target. */
    method StartLastRound()
      requires Valid() && showFinalIntro
      modifies this`showFinalIntro, this`finalTriggered, this`currentRoundTargets, this`gameState
      ensures Valid()
      ensures !showFinalIntro && !finalTriggered && currentRoundTargets == map[] && gameState == FinalRoundTargets
    {
      showFinalIntro := false;
      finalTriggered := false;
      currentRoundTargets := map[];
      gameState := FinalRoundTargets;
    }

    /** Typing into a player's final-target field. */
    method EnterFinalTarget(i: nat, input: Option<int>)
      requires Valid() && gameState == FinalRoundTargets && i < |players|
      modifies this`currentRoundTargets
      ensures Valid() && currentRoundTargets == old(currentRoundTargets)[old(players)[i].id := input]
    {
      currentRoundTargets := currentRoundTargets[players[i].id := input];
    }

    /**
     * Opens the final round once every player has entered an own target: a round with
     * shared target 0 that carries the individual targets. With a target missing nothing changes.
     */
    method HandleFinalTargetsConfirm() returns (filled: bool)
      requires Valid() && gameState == FinalRoundTargets
      modifies this`rounds, this`currentRoundResults, this`gameState
      ensures Valid()
      ensures filled <==> AllFilled(old(players), old(currentRoundTargets))
      ensures !filled ==> unchanged(this)
      ensures filled ==>
        && rounds == old(rounds) + [Round(0, Some(Overlay(map[], old(players), old(currentRoundTargets))), map[], true)]
        && currentRoundResults == map[] && gameState == FinalRoundResults
    {
      if !AllFilled(players, currentRoundTargets) {
        return false;
      }
      filled := true;
      var targets := RecordInputs(map[], players, currentRoundTargets);
      OverlayCovers(map[], players, currentRoundTargets);
      var finalRound := Round(0, Some(targets), map[], true);
      rounds := rounds + [finalRound];
      currentRoundResults := map[];
      gameState := FinalRoundResults;
    }

    /**
     * Scores the final round once every result is entered: writes the results, summarises
     * the round, gives each awarded player one Schnaps and shows the summary.
     */
    method HandleFinalResultsConfirm() returns (filled: bool)
      requires Valid() && gameState == FinalRoundResults && !showSummary
      modifies this`players, this`rounds, this`summaryData, this`showSummary
      ensures Valid()
      ensures filled <==> AllFilled(old(players), old(currentRoundResults))
      ensures !filled ==> unchanged(this)
      ensures filled ==>
        var played := Recorded(old(Last(rounds)), old(players), old(currentRoundResults));
        && rounds == old(rounds)[..|old(rounds)| - 1] + [played]
        && summaryData.Some? && Summarizes(summaryData.value, played, old(players))
        && players == AwardPoints(old(players), PointsToAward(played, old(players)))
        && showSummary
    {
      if !AllFilled(players, currentRoundResults) {
        return false;
      }
      filled := true;
      var lastRound, summary, updatedPlayers := ScoreRound(Last(rounds), players, currentRoundResults);
      AwardKeepsRoster(players, summary.pointsToAward, lastRound, |rounds| - 1);

      players := updatedPlayers;
      rounds := rounds[..|rounds| - 1] + [lastRound];
      summaryData := Some(summary);
      showSummary := true;
      assert Last(rounds) == lastRound;
    }

    /** The result screen's button back to the opening screen; roster and rounds stay until a new game starts. */
    method BackToStart()
      requires Valid() && gameState == ResultScreen
      modifies this`gameState
      ensures Valid() && gameState == Start
    {
      gameState := Start;
    }
  }

  /** In the final round every roster entry is measured against an own declared target. */
  lemma FinalRoundMeasuresEveryone(round: Round, ps: seq<Player>, i: int)
    requires HasAllTargets(round, ps) && HasAllResults(round, ps) && 0 <= i < |ps|
    ensures Measured(round, ps[i])
    ensures TargetFor(round, ps[i].id) == Some(round.individualTargets.value[ps[i].id])
  {
  }
}
