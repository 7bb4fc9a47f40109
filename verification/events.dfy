/** The `events` module of the protocol: the subject an event stream is
    published on, and the two event families carried on those subjects.

    The types the game engine and the time library define are carried as
    type parameters: `Time` for a UTC timestamp, `Cause` for the engine's
    end-of-match cause, `GameEvent` for its per-turn outcome. */
module Events {
  import opened Protocol

  /** The first segment every wasmdome subject shares. */
  const SubjectRoot: string := "wasmdome."

  /** The public arena feed, used when no match is named. */
  const PublicEventsSubject: string := "wasmdome.public.arena.events"

  /** A per-match subject is `MatchPrefix + id + EventsSuffix`. */
  const MatchPrefix: string := "wasmdome.match."
  const EventsSuffix: string := ".events"

  /** Maps an optional match id to the subject its events travel on. The id
      is interpolated as is: the empty id and ids holding dots are accepted.
      The result is a fixed prefix, the id itself, and a fixed suffix, so the
      id can be read back from positions 15 to |r| - 7. */
  function EventsSubject(matchId: Option<string>): (r: string)
    ensures |r| >= |SubjectRoot| && r[..|SubjectRoot|] == SubjectRoot
    ensures matchId.None? ==> r == PublicEventsSubject
    ensures matchId.Some? ==>
      && |r| == |matchId.value| + |MatchPrefix| + |EventsSuffix|
      && r[..|MatchPrefix|] == MatchPrefix
      && r[|MatchPrefix|..|r| - |EventsSuffix|] == matchId.value
      && r[|r| - |EventsSuffix|..] == EventsSuffix
  {
    match matchId
    case Some(id) => MatchPrefix + id + EventsSuffix
    case None => PublicEventsSubject
  }

  /** Public lifecycle events of the arena. */
  datatype ArenaEvent<Time, Cause> =
    | MechConnected(actor: string, name: string, avatar: string, team: string, time: Time)
    | MechDisconnected(actor: string, time: Time)
    | MatchStarted(matchId: string, actors: seq<string>, boardHeight: U32, boardWidth: U32, startTime: Time)
    | MatchCompleted(matchId: string, cause: Cause, time: Time)

  /** Events emitted by the core engine for downstream listeners such as a
      historian or a leaderboard. */
  datatype MatchEvent<GameEvent> =
    | TurnEvent(actor: string, matchId: string, turn: U32, turnEvent: GameEvent)
}
