/** The `scheduler` module of the protocol: records of matches planned for
    later. `Time` stands for the time library's UTC timestamp. */
module Scheduler {
  import opened Protocol

  datatype MatchScheduleEntry<Time> = MatchScheduleEntry(
    maxActors: U32,
    boardHeight: U32,
    boardWidth: U32,
    maxTurns: U32,
    matchStart: Time)

  datatype MatchIdentifier = MatchIdentifier(matchId: string)

  datatype StoredMatch<Time> = StoredMatch(matchId: string, entry: MatchScheduleEntry<Time>, apsPerTurn: U32)
}
