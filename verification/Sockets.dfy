/**
 Socket sessions on one node, over Socket.IO: a connecting channel displaces the character's previous
 channel, becomes the one stored on the user, and gets the event and disconnect listeners. Every
 connection and every disconnection is one step, in which any call of the user table, the session
 table or the binding table may throw, before or after it was applied.
 */
module Sockets {
  import opened Runs

  type Character = string
  type ChannelId = string

  /** Who opened a channel, and which listeners it has. */
  datatype Channel = Channel(character: Character, events: bool, disconnect: bool)

  datatype State = State(
    users: map<Character, ChannelId>,     // the channel stored on each user, "" for none
    sessions: set<Character>,             // the "socket-sessions" hash
    bound: set<ChannelId>,                // the "channel-bound-events" hash
    channels: map<ChannelId, Channel>,    // the sockets the server knows
    seen: set<ChannelId>                  // history: ids the server has given out
  )

  /** A connection names a character, or has none in its query, or has no query at all. */
  datatype Query = NoQuery | NoCharacter | ForCharacter(character: Character)

  /** How far displacing a previous channel gets; what throws in it is logged, and the connection goes on. */
  datatype Displacing = LeaveThrows | Stripped | Unmarked | Displaced

  /** Where a connection of a known character throws, if it does; it is closed then. */
  datatype Ending =
    | Completes
    | LookupThrows
    | StoreThrows(applied: bool)
    | SessionThrows(applied: bool)
    | BindingThrows(marked: bool)

  /** How far the disconnect listener gets. */
  datatype Leaving = NothingCleared | ChannelCleared | AllCleared

  datatype Event =
    | Connect(channel: ChannelId, query: Query, displacing: Displacing, ending: Ending)
    | Disconnect(channel: ChannelId, leaving: Leaving)

  function Listening(c: Channel): bool {
    c.events && c.disconnect
  }

  /** handleExistingCharacterSession, for a character the user table knows. */
  function DisplacePrevious(s: State, character: Character, how: Displacing): State
    requires character in s.users
  {
    var previous := s.users[character];
    if character !in s.sessions || previous !in s.channels || how.LeaveThrows? then s
    else
      s.(channels := s.channels[previous := s.channels[previous].(events := false, disconnect := false)],
         bound := if how.Stripped? then s.bound else s.bound - {previous},
         sessions := if how.Displaced? then s.sessions - {character} else s.sessions)
  }

  /** updateCharacterConnection and the disconnect listener, for a channel the server knows. */
  function Attach(s: State, character: Character, channel: ChannelId): State
    requires channel in s.channels
  {
    var events := s.channels[channel].events || channel !in s.bound;
    s.(users := s.users[character := channel],
       sessions := s.sessions + {character},
       bound := s.bound + {channel},
       channels := s.channels[channel := Channel(character, events, true)])
  }

  /** The server gives a channel an id it has not used; "" is not one. */
  function Open(s: State, channel: ChannelId, query: Query): State {
    var character := if query.ForCharacter? then query.character else "";
    s.(channels := s.channels[channel := Channel(character, false, false)], seen := s.seen + {channel})
  }

  function Close(s: State, channel: ChannelId): State {
    s.(channels := s.channels - {channel})
  }

  /** The rest of a connection once a previous channel has been displaced. */
  function Establish(s: State, character: Character, channel: ChannelId, ending: Ending): State
    requires channel in s.channels
  {
    var stored := s.(users := s.users[character := channel]);
    var session := stored.(sessions := s.sessions + {character});
    match ending
    case Completes => Attach(s, character, channel)
    case LookupThrows => Close(s, channel)
    case StoreThrows(applied) => Close(if applied then stored else s, channel)
    case SessionThrows(applied) => Close(if applied then session else stored, channel)
    case BindingThrows(marked) =>
      Close(if marked then session.(bound := s.bound + {channel}) else session, channel)
  }

  predicate Known(s: State, query: Query) {
    query.ForCharacter? && query.character != "" && query.character in s.users
  }

  function Step(s: State, e: Event): State {
    match e
    case Connect(channel, query, displacing, ending) =>
      if channel == "" || channel in s.seen then s
      else
        var accepted := Open(s, channel, query);
        if query.NoQuery? then accepted
        else if !Known(s, query) || ending.LookupThrows? then Close(accepted, channel)
        else Establish(DisplacePrevious(accepted, query.character, displacing), query.character, channel, ending)
    case Disconnect(channel, leaving) =>
      if channel !in s.channels then s
      else
        var closed := Close(s, channel);
        var character := s.channels[channel].character;
        if s.channels[channel].disconnect && character in s.users && !leaving.NothingCleared? then
          closed.(users := s.users[character := ""],
                  sessions := if leaving.AllCleared? then s.sessions - {character} else s.sessions)
        else closed
  }

  /** The node before any connection: the characters are there, without channels or sessions. */
  function Initial(characters: set<Character>): State {
    State(map character | character in characters :: "", {}, {}, map[], {})
  }

  ghost predicate LiveFor(s: State, channel: ChannelId, character: Character) {
    channel in s.channels && Listening(s.channels[channel]) && s.channels[channel].character == character
  }

  /** What every run keeps, whatever throws. */
  ghost predicate Base(s: State) {
    && (forall id :: id in s.channels ==>
          id in s.seen && id != "" && s.channels[id].events == s.channels[id].disconnect)
    && (forall id :: id in s.channels && Listening(s.channels[id]) ==>
          s.channels[id].character in s.users && s.channels[id].character != "")
    && (forall character :: character in s.users && s.users[character] != "" ==> s.users[character] in s.seen)
    && (forall character :: character in s.users && s.users[character] in s.channels ==>
          s.channels[s.users[character]].character == character)
    && s.bound <= s.seen
    && s.sessions <= s.users.Keys && "" !in s.sessions
  }

  /** A live channel is the one stored on its character, and the character has a session. */
  ghost predicate Tracked(s: State) {
    forall id, character :: LiveFor(s, id, character) ==>
      character in s.users && s.users[character] == id && character in s.sessions
  }

  /** In addition, a stored channel is live, and sessions belong to stored channels. */
  ghost predicate Exact(s: State) {
    && Tracked(s)
    && (forall character :: character in s.users && s.users[character] != "" ==>
          LiveFor(s, s.users[character], character))
    && (forall character :: character in s.sessions <==> character in s.users && s.users[character] != "")
  }

  lemma BaseDisplace(s: State, character: Character, how: Displacing)
    requires Base(s) && character in s.users
    ensures Base(DisplacePrevious(s, character, how))
  {
  }

  lemma BaseEstablish(s: State, character: Character, channel: ChannelId, ending: Ending)
    requires Base(s) && character in s.users && character != ""
    requires channel in s.channels && s.channels[channel] == Channel(character, false, false) && channel !in s.bound
    ensures Base(Establish(s, character, channel, ending))
  {
  }

  lemma BaseOpen(s: State, channel: ChannelId, query: Query)
    requires Base(s) && channel != "" && channel !in s.seen
    ensures Base(Open(s, channel, query)) && Base(Close(Open(s, channel, query), channel))
  {
  }

  lemma StepKeepsBase(s: State, e: Event)
    requires Base(s)
    ensures Base(Step(s, e))
  {
    if e.Connect? && e.channel != "" && e.channel !in s.seen {
      var accepted := Open(s, e.channel, e.query);
      BaseOpen(s, e.channel, e.query);
      if Known(s, e.query) && !e.ending.LookupThrows? {
        BaseDisplace(accepted, e.query.character, e.displacing);
        BaseEstablish(DisplacePrevious(accepted, e.query.character, e.displacing), e.query.character, e.channel, e.ending);
      }
    }
  }

  lemma EveryRunKeepsBase(characters: set<Character>, events: seq<Event>)
    ensures Base(Run(Step, Initial(characters), events))
  {
    forall s, e | Base(s) ensures Base(Step(s, e)) {
      StepKeepsBase(s, e);
    }
    Invariance(Step, Base, Initial(characters), events);
  }

  predicate Arrives(s: State, e: Event) {
    e.Connect? && e.channel != "" && e.channel !in s.seen && Known(s, e.query)
  }

  /** The connection has stored its channel on the user before it completes or throws. */
  predicate Stores(ending: Ending) {
    match ending
    case LookupThrows => false
    case StoreThrows(applied) => applied
    case _ => true
  }

  /** The channel stored on the character is live, so a new connection has to displace it. */
  predicate Occupied(s: State, character: Character) {
    && character in s.sessions && character in s.users && s.users[character] in s.channels
    && Listening(s.channels[s.users[character]])
  }

  /** A live channel is not displaced, because leaving its rooms throws, and another is stored all the same. */
  predicate LosesTrack(s: State, e: Event) {
    Arrives(s, e) && e.displacing.LeaveThrows? && Stores(e.ending) && Occupied(s, e.query.character)
  }

  lemma LiveAfterDisplacing(s: State, c: Character, how: Displacing, id: ChannelId, character: Character)
    requires Base(s) && c in s.users
    ensures LiveFor(DisplacePrevious(s, c, how), id, character)
            <==> LiveFor(s, id, character) && !(id == s.users[c] && c in s.sessions && !how.LeaveThrows?)
  {
  }

  lemma LiveAfterEstablish(s: State, c: Character, channel: ChannelId, ending: Ending, id: ChannelId, character: Character)
    requires channel in s.channels && s.channels[channel] == Channel(c, false, false) && channel !in s.bound
    ensures LiveFor(Establish(s, c, channel, ending), id, character)
            <==> if id == channel then character == c && ending.Completes? else LiveFor(s, id, character)
  {
  }

  lemma LiveAfterConnect(s: State, e: Event, id: ChannelId, character: Character)
    requires Base(s) && Arrives(s, e)
    ensures LiveFor(Step(s, e), id, character)
            <==> || (id == e.channel && character == e.query.character && e.ending.Completes?)
                 || (LiveFor(s, id, character)
                     && !(&& character == e.query.character && id == s.users[character] && character in s.sessions
                          && !e.ending.LookupThrows? && !e.displacing.LeaveThrows?))
  {
    var accepted, c := Open(s, e.channel, e.query), e.query.character;
    BaseOpen(s, e.channel, e.query);
    LiveAfterDisplacing(accepted, c, e.displacing, id, character);
    LiveAfterEstablish(DisplacePrevious(accepted, c, e.displacing), c, e.channel, e.ending, id, character);
  }

  lemma UsersAfterConnect(s: State, e: Event)
    requires Base(s) && Arrives(s, e)
    ensures var character := e.query.character;
            Step(s, e).users == if Stores(e.ending) then s.users[character := e.channel] else s.users
  {
  }

  lemma SessionsAfterConnect(s: State, e: Event)
    requires Base(s) && Arrives(s, e)
    ensures Step(s, e).sessions - {e.query.character} == s.sessions - {e.query.character}
    ensures e.ending.Completes? ==> e.query.character in Step(s, e).sessions
  {
  }

  lemma ConnectKeepsTrackIff(s: State, e: Event)
    requires Base(s) && Tracked(s) && Arrives(s, e)
    ensures Tracked(Step(s, e)) <==> !LosesTrack(s, e)
  {
    var t, c := Step(s, e), e.query.character;
    UsersAfterConnect(s, e);
    SessionsAfterConnect(s, e);
    if LosesTrack(s, e) {
      LiveAfterConnect(s, e, s.users[c], c);
      assert LiveFor(s, s.users[c], c);
      assert LiveFor(t, s.users[c], c);
    } else {
      forall id, character | LiveFor(t, id, character)
        ensures character in t.users && t.users[character] == id && character in t.sessions
      {
        LiveAfterConnect(s, e, id, character);
        if character == c && id != e.channel {
          assert LiveFor(s, id, c) && Occupied(s, c);
        }
      }
    }
  }

  /** Any other event only takes channels, sessions and listeners away from a character without another live one. */
  lemma OthersKeepTrack(s: State, e: Event)
    requires Base(s) && Tracked(s) && !Arrives(s, e)
    ensures Tracked(Step(s, e))
  {
    forall id, character | LiveFor(Step(s, e), id, character) ensures LiveFor(s, id, character) {
    }
    if e.Disconnect? && e.channel in s.channels && s.channels[e.channel].disconnect {
      assert LiveFor(s, e.channel, s.channels[e.channel].character);
    }
  }

  lemma StepKeepsTrackIff(s: State, e: Event)
    requires Base(s) && Tracked(s)
    ensures Tracked(Step(s, e)) <==> !LosesTrack(s, e)
  {
    if Arrives(s, e) {
      ConnectKeepsTrackIff(s, e);
    } else {
      OthersKeepTrack(s, e);
    }
  }

  ghost predicate NeverLosesTrack(characters: set<Character>, events: seq<Event>) {
    forall k :: 0 <= k < |events| ==> !LosesTrack(Run(Step, Initial(characters), events[..k]), events[k])
  }

  /**
   Main result: whatever call throws, at every point of a run each live channel is the one stored on its
   character, which has a session, if and only if no connection that is stored found a live channel whose
   leaving threw.
   */
  lemma TrackedThroughoutIff(characters: set<Character>, events: seq<Event>)
    ensures (forall k :: 0 <= k <= |events| ==> Tracked(Run(Step, Initial(characters), events[..k])))
            <==> NeverLosesTrack(characters, events)
  {
    var safe := (s: State, e: Event) => !LosesTrack(s, e);
    forall s, e | Base(s) ensures Base(Step(s, e)) && (Tracked(s) ==> (Tracked(Step(s, e)) <==> safe(s, e))) {
      StepKeepsBase(s, e);
      if Tracked(s) {
        StepKeepsTrackIff(s, e);
      }
    }
    HoldsThroughoutIff(Step, Base, Tracked, safe, Initial(characters), events);
  }

  lemma TrackedAtEnd(characters: set<Character>, events: seq<Event>)
    requires NeverLosesTrack(characters, events)
    ensures Base(Run(Step, Initial(characters), events)) && Tracked(Run(Step, Initial(characters), events))
  {
    TrackedThroughoutIff(characters, events);
    EveryRunKeepsBase(characters, events);
    assert events[..|events|] == events;
  }

  /** So, whatever store call throws, a character has at most one live channel: the one stored on the user. */
  lemma OneLiveChannelPerCharacter(characters: set<Character>, events: seq<Event>, character: Character)
    requires NeverLosesTrack(characters, events)
    ensures var s := Run(Step, Initial(characters), events);
            && (forall a, b :: LiveFor(s, a, character) && LiveFor(s, b, character) ==> a == b)
            && (forall a :: LiveFor(s, a, character) ==>
                  character in s.users && s.users[character] == a && character in s.sessions)
  {
    TrackedAtEnd(characters, events);
  }

  // ----- Sessions without a live channel -----

  /** A step that leaves a stored channel or a session without a live channel, or loses track of one. */
  predicate Strands(s: State, e: Event) {
    match e
    case Connect(_, query, displacing, ending) =>
      Arrives(s, e) && !ending.LookupThrows?
      && (if ending.Completes? then LosesTrack(s, e)
          else Stores(ending) || (Occupied(s, query.character) && !displacing.LeaveThrows?))
    case Disconnect(channel, leaving) =>
      channel in s.channels && Listening(s.channels[channel]) && !leaving.AllCleared?
  }

  lemma ConnectKeepsExactIff(s: State, e: Event)
    requires Base(s) && Exact(s) && Arrives(s, e)
    ensures Exact(Step(s, e)) <==> !Strands(s, e)
  {
    var t, c := Step(s, e), e.query.character;
    UsersAfterConnect(s, e);
    SessionsAfterConnect(s, e);
    ConnectKeepsTrackIff(s, e);
    forall id, character
      ensures LiveFor(t, id, character)
              <==> || (id == e.channel && character == c && e.ending.Completes?)
                   || (LiveFor(s, id, character)
                       && !(&& character == c && id == s.users[character] && character in s.sessions
                            && !e.ending.LookupThrows? && !e.displacing.LeaveThrows?))
    {
      LiveAfterConnect(s, e, id, character);
    }
    if Strands(s, e) && !LosesTrack(s, e) {
      assert t.users[c] != "" && !LiveFor(t, t.users[c], c);
    }
    if !Strands(s, e) {
      forall other | other in t.users && t.users[other] != "" ensures LiveFor(t, t.users[other], other) {
        assert other != c ==> LiveFor(s, s.users[other], other);
      }
    }
  }

  lemma DisconnectKeepsExactIff(s: State, e: Event)
    requires Base(s) && Exact(s) && e.Disconnect?
    ensures Exact(Step(s, e)) <==> !Strands(s, e)
  {
    var t := Step(s, e);
    OthersKeepTrack(s, e);
    if e.channel in s.channels {
      var c := s.channels[e.channel].character;
      if Strands(s, e) {
        assert LiveFor(s, e.channel, c) && !LiveFor(t, e.channel, c);
      } else {
        forall other | other in t.users && t.users[other] != "" ensures LiveFor(t, t.users[other], other) {
          assert LiveFor(s, s.users[other], other);
        }
      }
    }
  }

  lemma StepKeepsExactIff(s: State, e: Event)
    requires Base(s) && Exact(s)
    ensures Exact(Step(s, e)) <==> !Strands(s, e)
  {
    if Arrives(s, e) {
      ConnectKeepsExactIff(s, e);
    } else if e.Disconnect? {
      DisconnectKeepsExactIff(s, e);
    } else {
      OthersKeepTrack(s, e);
      forall other | other in s.users && s.users[other] != "" ensures LiveFor(Step(s, e), s.users[other], other) {
        assert LiveFor(s, s.users[other], other);
      }
    }
  }

  /**
   Main result: at every point of a run, sessions and stored channels are exactly those of live channels if
   and only if no throw came between storing a channel and its listeners, between displacing a live channel
   and storing the next, or between the disconnection of a live channel and the end of its session.
   */
  lemma ExactThroughoutIff(characters: set<Character>, events: seq<Event>)
    ensures (forall k :: 0 <= k <= |events| ==> Exact(Run(Step, Initial(characters), events[..k])))
            <==> (forall k :: 0 <= k < |events| ==> !Strands(Run(Step, Initial(characters), events[..k]), events[k]))
  {
    var safe := (s: State, e: Event) => !Strands(s, e);
    forall s, e | Base(s) ensures Base(Step(s, e)) && (Exact(s) ==> (Exact(Step(s, e)) <==> safe(s, e))) {
      StepKeepsBase(s, e);
      if Exact(s) {
        StepKeepsExactIff(s, e);
      }
    }
    HoldsThroughoutIff(Step, Base, Exact, safe, Initial(characters), events);
  }

  // ----- What connections and disconnections do -----

  /** Everything but the server's own list of sockets. */
  ghost predicate SameSessions(s: State, t: State) {
    && s.users == t.users && s.sessions == t.sessions
    && (forall a, character :: LiveFor(s, a, character) <==> LiveFor(t, a, character))
  }

  lemma StepKeepsCharacters(s: State, e: Event)
    ensures Step(s, e).users.Keys == s.users.Keys
  {
  }

  lemma CharactersStay(characters: set<Character>, events: seq<Event>)
    ensures Run(Step, Initial(characters), events).users.Keys == characters
  {
    var known := (s: State) => s.users.Keys == characters;
    forall s, e | known(s) ensures known(Step(s, e)) {
      StepKeepsCharacters(s, e);
    }
    Invariance(Step, known, Initial(characters), events);
  }

  /** A connection that names no known character is closed, or kept without listeners, and changes no session. */
  lemma UnknownCharacterChangesNothing(characters: set<Character>, events: seq<Event>, e: Event)
    requires e.Connect? && !(e.query.ForCharacter? && e.query.character != "" && e.query.character in characters)
    ensures var s := Run(Step, Initial(characters), events);
            SameSessions(s, Step(s, e))
  {
    EveryRunKeepsBase(characters, events);
    CharactersStay(characters, events);
  }

  /** The newest connection wins: it is live, and the channel it displaced has no listener left. */
  lemma NewestConnectionWins(characters: set<Character>, events: seq<Event>, channel: ChannelId, character: Character)
    requires NeverLosesTrack(characters, events)
    requires character != "" && character in Run(Step, Initial(characters), events).users
    requires channel != "" && channel !in Run(Step, Initial(characters), events).seen
    ensures var s := Run(Step, Initial(characters), events);
            var t := Step(s, Connect(channel, ForCharacter(character), Displaced, Completes));
            && LiveFor(t, channel, character)
            && (forall a :: LiveFor(s, a, character) ==>
                  a in t.channels && !t.channels[a].events && !t.channels[a].disconnect && a !in t.bound)
            && (forall other, a :: other != character ==> (LiveFor(t, a, other) <==> LiveFor(s, a, other)))
  {
    TrackedAtEnd(characters, events);
    var s := Run(Step, Initial(characters), events);
    var e := Connect(channel, ForCharacter(character), Displaced, Completes);
    LiveAfterConnect(s, e, channel, character);
    forall other, a | other != character ensures LiveFor(Step(s, e), a, other) <==> LiveFor(s, a, other) {
      LiveAfterConnect(s, e, a, other);
    }
  }

  ghost predicate Deaf(s: State, channel: ChannelId) {
    channel in s.seen && (channel in s.channels ==> !s.channels[channel].events && !s.channels[channel].disconnect)
  }

  lemma StepLeavesDeaf(s: State, e: Event, channel: ChannelId)
    requires Base(s) && Deaf(s, channel)
    ensures Deaf(Step(s, e), channel)
  {
  }

  /** However much later it comes, and whatever throws, the disconnection of a displaced channel changes nothing. */
  lemma DisplacedDisconnectChangesNothing(characters: set<Character>, before: seq<Event>, after: seq<Event>,
                                          channel: ChannelId, leaving: Leaving)
    requires Deaf(Run(Step, Initial(characters), before), channel)
    ensures var s := Run(Step, Initial(characters), before + after);
            SameSessions(s, Step(s, Disconnect(channel, leaving)))
  {
    EveryRunKeepsBase(characters, before);
    RunConcat(Step, Initial(characters), before, after);
    var inv := (s: State) => Base(s) && Deaf(s, channel);
    forall s, e | inv(s) ensures inv(Step(s, e)) {
      StepKeepsBase(s, e);
      StepLeavesDeaf(s, e, channel);
    }
    Invariance(Step, inv, Run(Step, Initial(characters), before), after);
    assert Deaf(Run(Step, Initial(characters), before + after), channel);
  }

  /** The live channel's own disconnection, when nothing throws in it, ends exactly its character's session. */
  lemma LiveDisconnectEndsTheSession(characters: set<Character>, events: seq<Event>, channel: ChannelId,
                                     character: Character)
    requires NeverLosesTrack(characters, events)
    requires LiveFor(Run(Step, Initial(characters), events), channel, character)
    ensures var s := Run(Step, Initial(characters), events);
            var t := Step(s, Disconnect(channel, AllCleared));
            && t.sessions == s.sessions - {character} && t.users == s.users[character := ""]
            && (forall other, a :: LiveFor(t, a, other) <==> LiveFor(s, a, other) && other != character)
  {
    TrackedAtEnd(characters, events);
  }

  // ----- The server's sockets and the tables, field by field -----

  /**
   A new channel is kept open if and only if it came without a query, or named a known character and nothing
   threw; no other channel is opened or closed by it, and its id is used up.
   */
  lemma KeptOpenIff(s: State, e: Event, id: ChannelId)
    requires e.Connect? && e.channel != "" && e.channel !in s.seen
    ensures e.channel in Step(s, e).channels <==> e.query.NoQuery? || (Known(s, e.query) && e.ending.Completes?)
    ensures id != e.channel ==> (id in Step(s, e).channels <==> id in s.channels)
    ensures Step(s, e).seen == s.seen + {e.channel}
  {
  }

  /** An open channel belongs to the character of its query, and has its listeners exactly if it named a known one. */
  lemma NewChannelIs(s: State, e: Event)
    requires Base(s) && e.Connect? && e.channel != "" && e.channel !in s.seen && e.channel in Step(s, e).channels
    ensures var c := Step(s, e).channels[e.channel];
            && (e.query.ForCharacter? ==> c.character == e.query.character)
            && c.events == c.disconnect == Known(s, e.query)
  {
  }

  lemma ChannelsAfterDisplacing(s: State, c: Character, how: Displacing, id: ChannelId)
    requires c in s.users && id in s.channels
    ensures var t := DisplacePrevious(s, c, how);
            var stripped := id == s.users[c] && c in s.sessions && !how.LeaveThrows?;
            && id in t.channels && t.channels[id].character == s.channels[id].character
            && t.channels[id].events == (s.channels[id].events && !stripped)
            && t.channels[id].disconnect == (s.channels[id].disconnect && !stripped)
  {
  }

  lemma OtherChannelsAfterEstablish(s: State, c: Character, channel: ChannelId, ending: Ending, id: ChannelId)
    requires channel in s.channels && id in s.channels && id != channel
    ensures id in Establish(s, c, channel, ending).channels
    ensures Establish(s, c, channel, ending).channels[id] == s.channels[id]
  {
  }

  /** Of the other channels exactly the displaced one loses its listeners. */
  lemma OtherChannelsAfterConnect(s: State, e: Event, id: ChannelId)
    requires Base(s) && Arrives(s, e) && id in s.channels
    ensures id in Step(s, e).channels && Step(s, e).channels[id].character == s.channels[id].character
    ensures var stripped := id == s.users[e.query.character] && e.query.character in s.sessions
                            && !e.ending.LookupThrows? && !e.displacing.LeaveThrows?;
            && Step(s, e).channels[id].events == (s.channels[id].events && !stripped)
            && Step(s, e).channels[id].disconnect == (s.channels[id].disconnect && !stripped)
  {
    var accepted, c := Open(s, e.channel, e.query), e.query.character;
    ChannelsAfterDisplacing(accepted, c, e.displacing, id);
    if !e.ending.LookupThrows? {
      OtherChannelsAfterEstablish(DisplacePrevious(accepted, c, e.displacing), c, e.channel, e.ending, id);
    }
  }

  /** The character's session after a connection, and the marks of bound channels. */
  lemma TablesAfterConnect(s: State, e: Event, id: ChannelId)
    requires Base(s) && Arrives(s, e)
    ensures var c, previous := e.query.character, s.users[e.query.character];
            var displacing := c in s.sessions && previous in s.channels && !e.ending.LookupThrows?;
            && (c in Step(s, e).sessions <==>
                  || e.ending.Completes? || e.ending == SessionThrows(true) || e.ending.BindingThrows?
                  || (c in s.sessions && !(displacing && e.displacing.Displaced?)))
            && (id in Step(s, e).bound <==>
                  || (id == e.channel && (e.ending.Completes? || e.ending == BindingThrows(true)))
                  || (id in s.bound
                      && !(displacing && id == previous && (e.displacing.Unmarked? || e.displacing.Displaced?))))
  {
  }

  /** A disconnection takes exactly its own channel off the server, and no mark. */
  lemma DisconnectRemovesItsChannel(s: State, channel: ChannelId, leaving: Leaving)
    ensures Step(s, Disconnect(channel, leaving)).channels == s.channels - {channel}
    ensures Step(s, Disconnect(channel, leaving)).bound == s.bound && Step(s, Disconnect(channel, leaving)).seen == s.seen
  {
    assert channel !in s.channels ==> s.channels - {channel} == s.channels;
  }

  /** A listening channel's disconnection clears its own character, as far as nothing throws, and no other. */
  lemma TablesAfterDisconnect(s: State, channel: ChannelId, leaving: Leaving, other: Character)
    requires Base(s) && channel in s.channels && other in s.users
    ensures var t := Step(s, Disconnect(channel, leaving));
            var leaves := Listening(s.channels[channel]) && s.channels[channel].character == other;
            && other in t.users
            && t.users[other] == (if leaves && !leaving.NothingCleared? then "" else s.users[other])
            && (other in t.sessions <==> other in s.sessions && !(leaves && leaving.AllCleared?))
  {
  }

  /** Ids are given out once, and a connection without a query touches no table. */
  lemma TablesWithoutCharacter(s: State, e: Event)
    requires !Arrives(s, e) && e.Connect?
    ensures var t := Step(s, e);
            && t.users == s.users && t.sessions == s.sessions && t.bound == s.bound
            && (e.channel == "" || e.channel in s.seen ==> t == s)
            && (forall id :: id in s.channels && id != e.channel ==> id in t.channels && t.channels[id] == s.channels[id])
  {
  }

  /** The adapter, its session and binding tables, and the server's sockets. */
  class SocketAdapter {
    var users: map<Character, ChannelId>
    var sessions: set<Character>
    var bound: set<ChannelId>
    var channels: map<ChannelId, Channel>
    ghost var seen: set<ChannelId>

    ghost function View(): State
      reads this
    {
      State(users, sessions, bound, channels, seen)
    }

    constructor (characters: set<Character>)
      ensures View() == Initial(characters)
    {
      users := map character | character in characters :: "";
      sessions, bound, channels, seen := {}, {}, map[], {};
    }

    method RemoveAllListeners(channel: ChannelId)
      requires channel in channels
      modifies this`channels
      ensures channels == old(channels)[channel := old(channels)[channel].(events := false, disconnect := false)]
    {
      channels := channels[channel := channels[channel].(events := false, disconnect := false)];
    }

    /** Binds the events unless the channel is marked; marks it unless that throws before it is applied. */
    method BindEvents(channel: ChannelId, ending: Ending)
      requires channel in channels && (ending.Completes? || ending.BindingThrows?)
      modifies this`channels, this`bound
      ensures bound == if ending == BindingThrows(false) then old(bound) else old(bound) + {channel}
      ensures channels == old(channels)[channel := old(channels)[channel].(
                            events := old(channels)[channel].events || channel !in old(bound))]
    {
      if channel in bound {
        return;
      }
      channels := channels[channel := channels[channel].(events := true)];
      if ending != BindingThrows(false) {
        bound := bound + {channel};
      }
    }

    /** The mark stays when a call of the binding table throws before it is applied. */
    method UnbindEvents(channel: ChannelId, how: Displacing)
      requires channel in channels && !channels[channel].events && !channels[channel].disconnect
      modifies this`channels, this`bound
      ensures channels == old(channels)
      ensures bound == if how.Stripped? then old(bound) else old(bound) - {channel}
    {
      if channel !in bound || how.Stripped? {
        return;
      }
      RemoveAllListeners(channel);
      bound := bound - {channel};
    }

    method HandleExistingCharacterSession(character: Character, how: Displacing)
      requires character in users
      modifies this
      ensures View() == DisplacePrevious(old(View()), character, how)
    {
      if character in sessions {
        var previous := users[character];
        if previous in channels && !how.LeaveThrows? {
          RemoveAllListeners(previous);
          UnbindEvents(previous, how);
          if how.Displaced? {
            sessions := sessions - {character};
          }
        }
      }
    }

    /** The writes of updateCharacterConnection up to the one that throws. */
    method UpdateCharacterConnection(character: Character, channel: ChannelId, ending: Ending) returns (ok: bool)
      requires channel in channels && channels[channel] == Channel(character, false, false)
      modifies this
      ensures ok == ending.Completes? && channel in channels && seen == old(seen)
      ensures ok ==> View() == Attach(old(View()), character, channel).(channels := channels)
                     && channels == old(channels)[channel := Channel(character, channel !in old(bound), false)]
      ensures !ok ==> Close(View(), channel) == Establish(old(View()), character, channel, ending)
    {
      ok := false;
      if ending.LookupThrows? || ending == StoreThrows(false) {
        return;
      }
      users := users[character := channel];
      if ending.StoreThrows? || ending == SessionThrows(false) {
        return;
      }
      sessions := sessions + {character};
      if ending.SessionThrows? {
        return;
      }
      BindEvents(channel, ending);
      ok := ending.Completes?;
      assert ending == BindingThrows(true) ==> bound == old(bound) + {channel};
    }

    method OnConnect(channel: ChannelId, query: Query, displacing: Displacing, ending: Ending)
      requires channel != "" && channel !in seen
      modifies this
      ensures View() == Step(old(View()), Connect(channel, query, displacing, ending))
    {
      var character := if query.ForCharacter? then query.character else "";
      channels := channels[channel := Channel(character, false, false)];
      seen := seen + {channel};
      ghost var accepted := View();
      assert accepted == Open(old(View()), channel, query);
      if query.NoQuery? {
        return;
      }
      if query.NoCharacter? || character == "" || character !in users || ending.LookupThrows? {
        channels := channels - {channel};
        return;
      }
      ConnectCharacter(character, channel, displacing, ending);
    }

    method ConnectCharacter(character: Character, channel: ChannelId, displacing: Displacing, ending: Ending)
      requires character in users && channel in channels && channels[channel] == Channel(character, false, false)
      modifies this
      ensures View() == Establish(DisplacePrevious(old(View()), character, displacing), character, channel, ending)
    {
      HandleExistingCharacterSession(character, displacing);
      var ok := UpdateCharacterConnection(character, channel, ending);
      if ok {
        channels := channels[channel := channels[channel].(disconnect := true)];
      } else {
        channels := channels - {channel};
      }
    }

    method HandleDisconnect(character: Character, leaving: Leaving)
      requires character in users
      modifies this`users, this`sessions
      ensures users == if leaving.NothingCleared? then old(users) else old(users)[character := ""]
      ensures sessions == if leaving.AllCleared? then old(sessions) - {character} else old(sessions)
    {
      if leaving.NothingCleared? {
        return;
      }
      users := users[character := ""];
      if leaving.AllCleared? {
        sessions := sessions - {character};
      }
    }

    method OnDisconnect(channel: ChannelId, leaving: Leaving)
      requires channel in channels
      modifies this
      ensures View() == Step(old(View()), Disconnect(channel, leaving))
    {
      var closed := channels[channel];
      channels := channels - {channel};
      if closed.disconnect && closed.character in users {
        HandleDisconnect(closed.character, leaving);
      }
    }
  }
}
