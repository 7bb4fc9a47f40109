/** The subject router seen as a whole. Publishers and subscribers each
    compute subjects on their own, so routing is sound only if every logical
    channel has exactly one subject and no two channels share one. This
    module names the channels, renders each with the router's functions,
    and defines the reverse reading of a subject; the two are proved to be
    inverse, which gives determinism, injectivity and disjointness. */
module Routing {
  import Events
  import Commands
  import Protocol

  /** The logical channels the protocol publishes on. */
  datatype Channel =
    | PublicEvents
    | MatchEvents(matchId: string)
    | ArenaControl

  /** The subject a channel is published on, computed by the router. */
  function Subject(c: Channel): string
  {
    match c
    case PublicEvents => Events.EventsSubject(Protocol.None)
    case MatchEvents(id) => Events.EventsSubject(Protocol.Some(id))
    case ArenaControl => Commands.ArenaControlSubject()
  }

  /** Reads a subject back to its channel, or `None` when the subject is none
      the router produces. Whatever channel it reports is one whose subject
      is exactly `s`. */
  function Classify(s: string): (r: Protocol.Option<Channel>)
    ensures r.Some? ==> Subject(r.value) == s
  {
    var lo := |Events.MatchPrefix|;
    var tail := |Events.EventsSuffix|;
    if s == Events.PublicEventsSubject then Protocol.Some(PublicEvents)
    else if s == Commands.ArenaControlSubject() then Protocol.Some(ArenaControl)
    else if |s| >= lo + tail && s[..lo] == Events.MatchPrefix && s[|s| - tail..] == Events.EventsSuffix then
      var id := s[lo..|s| - tail];
      assert s == Events.MatchPrefix + id + Events.EventsSuffix;
      Protocol.Some(MatchEvents(id))
    else Protocol.None
  }

  /** A per-match subject never equals the public feed: they part at
      position 9, 'm' against 'p'. */
  lemma MatchSubjectIsNotPublic(id: string)
    ensures Events.EventsSubject(Protocol.Some(id)) != Events.PublicEventsSubject
  {
    var s := Events.EventsSubject(Protocol.Some(id));
    assert s[..15] == Events.MatchPrefix;
    assert s[9] == 'm';
    assert Events.PublicEventsSubject[9] == 'p';
  }

  /** Every channel is read back from its own subject. */
  lemma ClassifySubject(c: Channel)
    ensures Classify(Subject(c)) == Protocol.Some(c)
  {
    match c
    case PublicEvents =>
    case ArenaControl =>
    case MatchEvents(id) =>
      MatchSubjectIsNotPublic(id);
  }

  /** A subject belongs to a channel exactly when the channel renders to it. */
  lemma ClassifyIffSubject(s: string, c: Channel)
    ensures Classify(s) == Protocol.Some(c) <==> Subject(c) == s
  {
    if Subject(c) == s {
      ClassifySubject(c);
    }
  }

  /** Distinct channels have distinct subjects. */
  lemma SubjectInjective(c1: Channel, c2: Channel)
    ensures Subject(c1) == Subject(c2) ==> c1 == c2
  {
    ClassifySubject(c1);
    ClassifySubject(c2);
  }

  /** Distinct match ids give distinct per-match subjects. */
  lemma EventsSubjectInjective(a: string, b: string)
    ensures Events.EventsSubject(Protocol.Some(a)) == Events.EventsSubject(Protocol.Some(b)) ==> a == b
  {
  }

  /** No events subject, public or per-match, is the control subject, and
      no per-match subject is the public one: the three pairwise facts, here
      read off the channel view as a corollary of `SubjectInjective`. */
  lemma SubjectsDisjoint(id: string)
    ensures Events.EventsSubject(Protocol.Some(id)) != Events.EventsSubject(Protocol.None)
    ensures Events.EventsSubject(Protocol.Some(id)) != Commands.ArenaControlSubject()
    ensures Events.EventsSubject(Protocol.None) != Commands.ArenaControlSubject()
  {
    SubjectInjective(MatchEvents(id), PublicEvents);
    SubjectInjective(MatchEvents(id), ArenaControl);
    SubjectInjective(PublicEvents, ArenaControl);
  }

  /** A per-match subject is 22 characters longer than its id: a named
      corollary of `Events.EventsSubject`'s contract, with the prefix and
      suffix lengths (15 and 7) added up. */
  lemma MatchSubjectLength(id: string)
    ensures |Events.EventsSubject(Protocol.Some(id))| == |id| + 22
  {
  }

  /** The operation name is not the subject of any channel. */
  lemma OpTakeTurnIsNoSubject()
    ensures forall c :: Subject(c) != Protocol.OpTakeTurn
  {
  }
}
