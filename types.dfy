/**
 * The game's records: a player, a round and the screens of the game flow.
 * Weights are whole grams.
 */
module Types {

  /** A value that may be absent: JavaScript's `undefined`, or a text input that does not parse as a number. */
  datatype Option<+T> = None | Some(value: T)

  /** A player of the session; `id` is the key of every per-player map. */
  datatype Player = Player(id: string, name: string, startWeight: int, schnaepse: nat)

  /**
   * One round. `individualTargets` is present only on the final round, where each
   * player has declared an own target; `results` maps a player id to the weighed grams.
   */
  datatype Round = Round(
    targetWeight: int,
    individualTargets: Option<map<string, int>>,
    results: map<string, int>,
    isFinal: bool)

  /** The screens the game moves through. */
  datatype GameState =
    | Start
    | PlayerCount
    | PlayerNames
    | StartWeights
    | RoundTarget
    | Gameplay
    | FinalRoundTargets
    | FinalRoundResults
    | ResultScreen
}
