# wasmdome protocol: subject router and message catalogue

A Dafny model of the `protocol` crate of wasmdome, a distributed arena game
whose coordinator, mechs (player actors) and observers talk over a
publish/subscribe bus. The crate holds two things:

- the **subject router**: `events_subject`, which maps an optional match id
  to the bus subject its events travel on; `arena_control_subject`, the
  fixed internal control channel; and `OP_TAKE_TURN`, the fixed operation
  name of the turn exchange;
- the **message catalogue**: the wire shapes carried on those subjects
  (`MechInfo`, `ArenaEvent`, `MatchEvent`, `ArenaControlCommand`,
  `CreateMatch`, `TakeTurn`, `TakeTurnResponse`, `MechQueryResponse`,
  `TokenRequest`, `CredentialsRequest`, `CredentialsResponse`,
  `MatchScheduleEntry`, `MatchIdentifier`, `StoredMatch`).

Publishers and subscribers compute subjects independently, so routing is
only sound if the mapping is a function (same input, same subject) and free
of collisions. Purity holds by construction: the router is a Dafny
`function`. Collision freedom is proved. `Routing` names the three logical
channels (public feed, one match's feed, control), renders each with the
router, and defines `Classify`, the reverse reading of a subject. The two
are proved inverse in both directions. Injectivity in the match id and the
disjointness of the public, per-match and control subjects follow from that.

Layout, one module per Rust module:

| file | module | Rust module |
|---|---|---|
| protocol.dfy | `Protocol` | crate root: `OP_TAKE_TURN`, `MechInfo`, `u32` as `U32`, and `Option` |
| events.dfy | `Events` | `events`: `events_subject`, `ArenaEvent`, `MatchEvent` |
| commands.dfy | `Commands` | `commands`: `arena_control_subject` and the command shapes |
| tools.dfy | `Tools` | `tools`: the credential-exchange shapes |
| scheduler.dfy | `Scheduler` | `scheduler`: the schedule records |
| routing.dfy | `Routing` | none: the channel view and the collision-freedom proofs |

The types defined outside the crate are type parameters of the datatypes
that carry them. `Time` stands for `chrono::DateTime<Utc>`. `Cause`,
`GameEvent`, `MatchState` and `MechCommand` stand for the game-engine
types `EndCause`, `GameEvent`, `MatchState` and `MechCommand`. Every
`u32` field is the newtype `U32`, ranging over 0 to 2^32 - 1.

Match ids are not validated: `events_subject` interpolates any string,
including the empty one and ones holding dots (protocol/src/lib.rs:20-21).
The model follows the code: `EventsSubject` has no precondition, and
injectivity is proved for all strings.

## Model

| member | source | states |
|---|---|---|
| Events.EventsSubject | protocol/src/lib.rs:19-25 | every subject starts with `wasmdome.`; with no id it is exactly `wasmdome.public.arena.events`; with an id it is `wasmdome.match.`, then the id unchanged at positions 15 to \|r\|-7, then `.events`, and it is 22 characters longer than the id, for any id at all |
| Commands.ArenaControlSubject | protocol/src/lib.rs:70-72 | the control subject `wasmdome.internal.arena.control` lies under the `wasmdome.` root and equals no value `events_subject` returns, so control traffic never reaches an event feed |
| Routing.MatchSubjectIsNotPublic | protocol/src/lib.rs:19-25 | a per-match subject never equals the public feed, whatever the id |
| Routing.Classify | protocol/src/lib.rs:19-25 | reading a subject back never invents a channel: any channel it reports renders to exactly that subject |
| Routing.ClassifySubject | protocol/src/lib.rs:19-25 | every channel (public feed, match feed for any id, control) is read back unchanged from the subject the router gives it |
| Routing.ClassifyIffSubject | protocol/src/lib.rs:19-25 | a subject belongs to a channel if and only if the router renders that channel to it |
| Routing.SubjectInjective | protocol/src/lib.rs:19-25 | two channels with the same subject are the same channel |
| Routing.EventsSubjectInjective | protocol/src/lib.rs:19-25 | distinct match ids map to distinct per-match subjects |
| Routing.SubjectsDisjoint | protocol/src/lib.rs:19-25 | per-match, public and control subjects are pairwise different |
| Routing.MatchSubjectLength | protocol/src/lib.rs:20-21 | a per-match subject has the id's length plus 22 |
| Routing.OpTakeTurnIsNoSubject | protocol/src/lib.rs:4 | the operation name `wdTakeTurn` is not the subject of any channel |

The message shapes (`Protocol.MechInfo`, `Events.ArenaEvent`,
`Events.MatchEvent`, `Commands.ArenaControlCommand`, `Commands.CreateMatch`,
`Commands.TakeTurn`, `Commands.TakeTurnResponse`,
`Commands.MechQueryResponse`, `Tools.TokenRequest`,
`Tools.CredentialsRequest`, `Tools.CredentialsResponse`,
`Scheduler.MatchScheduleEntry`, `Scheduler.MatchIdentifier`,
`Scheduler.StoredMatch`) mirror protocol/src/lib.rs:6-12, 27-63, 74-110,
113-133 and 135-158 field for field. The code gives them no behaviour, so no
property beyond their structure is stated.

## Left out

- Serialisation: encoding, decoding, round-trips and the failure on an unknown variant come from `serde` derives, a library outside this model.
- `chrono::DateTime<Utc>` and the game-engine types `EndCause`, `GameEvent`, `MatchState`, `MechCommand` are defined outside the crate and are type parameters here.
- The per-match turn-taking state machine, `CreateMatch` validation (positive dimensions, unique ids, non-empty actor list), connect/disconnect alternation and single-use token redemption: the crate does not implement any of them.
- The bus itself (transport, per-subject ordering, timeouts) is I/O and concurrency outside the crate.
- The derived `Debug`, `Clone` and `PartialEq` implementations: Dafny datatypes are values with structural equality, which covers what `Clone` and `PartialEq` give.
