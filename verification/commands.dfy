/** The `commands` module of the protocol: the internal control subject and
    the command and response shapes exchanged between the arena coordinator
    and the mechs. `MatchState` and `MechCommand` are the game engine's
    types, carried as type parameters. */
module Commands {
  import opened Protocol
  import Events

  /** The control subject, the internal channel reserved for
      `ArenaControlCommand` traffic. It lives under the same `wasmdome.` root as the
      event subjects, yet no value `EventsSubject` can return equals it, so
      control traffic never lands on an event feed: position 9, just after
      the shared root, holds 'i' (for `internal`) here, 'p' in the public
      feed and 'm' in every per-match subject. */
  function ArenaControlSubject(): (r: string)
    ensures |r| >= |Events.SubjectRoot| && r[..|Events.SubjectRoot|] == Events.SubjectRoot
    ensures forall m :: Events.EventsSubject(m) != r
  {
    "wasmdome.internal.arena.control"
  }

  datatype ArenaControlCommand =
    | StartMatch(create: CreateMatch)
    | QueryMechs

  /** Sent on a match subject to tell one mech to take its turn. */
  datatype TakeTurn<MatchState> = TakeTurn(actor: string, matchId: string, turn: U32, state: MatchState)

  /** The acknowledgement to `TakeTurn`: the commands the mech performed. */
  datatype TakeTurnResponse<MechCommand> = TakeTurnResponse(commands: seq<MechCommand>)

  /** Signals the desire to create a new match. */
  datatype CreateMatch = CreateMatch(
    matchId: string,
    actors: seq<string>,
    boardHeight: U32,
    boardWidth: U32,
    maxTurns: U32,
    apsPerTurn: U32)

  datatype MechQueryResponse = MechQueryResponse(mechs: seq<MechInfo>)
}
