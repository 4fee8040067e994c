/** The per-room game server of the Imposters party game (party/imposters.ts).

    A room holds one RoomState: the players in join order, the host, the settings,
    the phase, the current word, the dealt cards and a round counter. Commands from
    the clients change it through six guarded handlers. This module states each
    handler as a function on RoomState (AfterJoin, AfterLeave, ...), proves what the
    room promises about them, and implements them in the class ImpostersRoom, whose
    methods update the `state` field step by step and are proved against those
    functions. */
module Imposters {
  import opened Sequences
  import opened Random

  datatype Option<T> = None | Some(value: T)

  datatype Player = Player(playerId: string, displayName: string, isHost: bool, isReady: bool)

  datatype Settings = Settings(imposterCount: int, language: string, category: string)

  /** `Partial<GameSettings>`: the fields a settings-update message supplies. */
  datatype SettingsPatch = SettingsPatch(imposterCount: Option<int>, language: Option<string>, category: Option<string>)

  datatype Status = Waiting | Playing | Finished

  /** A dealt card: imposters get no word. */
  datatype Card = Card(playerId: string, displayName: string, isImposter: bool, word: Option<string>)

  datatype RoomState = RoomState(
    roomId: string,
    hostId: string,
    players: seq<Player>,
    settings: Settings,
    status: Status,
    currentWord: Option<string>,
    cards: Option<seq<Card>>,
    gameKey: nat)

  /** A client message once parsed. Unrecognized: valid JSON whose `type` matches no
      handler; Malformed: a message that does not parse. */
  datatype Command =
    | Join(playerId: string, displayName: string)
    | Leave(playerId: string)
    | SettingsUpdate(playerId: string, patch: SettingsPatch)
    | StartGame(playerId: string, word: string)
    | NewRound(playerId: string, word: string)
    | ResetGame(playerId: string)
    | Unrecognized
    | Malformed

  /** What onMessage does besides changing the state, as flags. */
  datatype Effects = Effects(saved: bool, broadcast: bool, directorySync: bool, directoryDelete: bool, errorReply: bool)

  function PlayerIdOf(p: Player): string { p.playerId }

  function CardIdOf(c: Card): string { c.playerId }

  function Ids(players: seq<Player>): seq<string> { Keys(players, PlayerIdOf) }

  function CardIds(cards: seq<Card>): seq<string> { Keys(cards, CardIdOf) }

  // ---------------------------------------------------------------------------
  // Dealing the secret roles

  /** The ids of the imposters: the first imposterCount entries of a shuffle of the ids. */
  function ImposterIds(players: seq<Player>, imposterCount: int, rand: nat -> Word): set<string> {
    var shuffledIds := Shuffle(Ids(players), rand);
    SetOf(shuffledIds[..SliceEnd(|shuffledIds|, imposterCount)])
  }

  function CardFor(player: Player, imposters: set<string>, word: string): Card {
    var isImposter := player.playerId in imposters;
    Card(player.playerId, player.displayName, isImposter, if isImposter then None else Some(word))
  }

  function CardsFor(players: seq<Player>, imposters: set<string>, word: string): seq<Card> {
    seq(|players|, i requires 0 <= i < |players| => CardFor(players[i], imposters, word))
  }

  /** dealCards: one card per player, in the players' order; a card carries no word
      exactly when it is an imposter's, and every other card carries the given word. */
  function DealCards(players: seq<Player>, imposterCount: int, word: string, rand: nat -> Word): (cards: seq<Card>)
    ensures |cards| == |players|
    ensures CardIds(cards) == Ids(players)
    ensures forall i :: 0 <= i < |cards| ==> cards[i].displayName == players[i].displayName
    ensures forall c :: c in cards ==> (c.isImposter <==> c.word == None)
    ensures forall c :: c in cards ==> !c.isImposter ==> c.word == Some(word)
  {
    var cards := CardsFor(players, ImposterIds(players, imposterCount, rand), word);
    assert CardIds(cards) == Ids(players);
    cards
  }

  /** The number of imposter cards. */
  function CountImposters(cards: seq<Card>): (n: nat)
    ensures n <= |cards|
  {
    if cards == [] then 0
    else (if cards[0].isImposter then 1 else 0) + CountImposters(cards[1..])
  }

  /** With pairwise different ids, the cards dealt against an imposter set S show as
      many imposters as there are players whose id is in S. */
  lemma {:induction false} CountCardsFor(players: seq<Player>, imposters: set<string>, word: string)
    requires Distinct(Ids(players))
    ensures CountImposters(CardsFor(players, imposters, word)) == |imposters * SetOf(Ids(players))|
  {
    if players == [] {
      assert SetOf(Ids(players)) == {};
    } else {
      var rest := players[1..];
      var id := players[0].playerId;
      var ids := Ids(players);
      assert CardsFor(players, imposters, word)[1..] == CardsFor(rest, imposters, word);
      assert Ids(rest) == ids[1..];
      DistinctTail(ids);
      CountCardsFor(rest, imposters, word);
      SetOfCons(ids);
      IntersectCons(imposters, id, SetOf(Ids(rest)));
    }
  }

  /** Intersecting with a set grown by one new element grows by at most that element. */
  lemma IntersectCons<T>(a: set<T>, x: T, b: set<T>)
    requires x !in b
    ensures |a * ({x} + b)| == (if x in a then 1 else 0) + |a * b|
  {
    var front := a * {x};
    assert a * ({x} + b) == front + a * b;
    assert front * (a * b) == {};
    if x in a {
      assert front == {x};
    } else {
      assert front == {};
    }
  }

  /** The imposter-count property of the deal: with pairwise different player ids, a
      non-negative imposterCount yields min(imposterCount, number of players)
      imposters; a negative one counts back from the end of the shuffled ids, as
      `slice(0, imposterCount)` does. */
  lemma DealImposterCount(players: seq<Player>, imposterCount: int, word: string, rand: nat -> Word)
    requires Distinct(Ids(players))
    ensures 0 <= imposterCount ==>
      CountImposters(DealCards(players, imposterCount, word, rand))
        == if imposterCount < |players| then imposterCount else |players|
    ensures imposterCount < 0 ==>
      CountImposters(DealCards(players, imposterCount, word, rand))
        == if |players| + imposterCount < 0 then 0 else |players| + imposterCount
  {
    var ids := Ids(players);
    var shuffled := Shuffle(ids, rand);
    var m := SliceEnd(|shuffled|, imposterCount);
    var prefix := shuffled[..m];
    var imposters := SetOf(prefix);
    ShuffleDistinct(ids, rand);
    assert Distinct(prefix) by {
      forall p, q | 0 <= p < q < |prefix| ensures prefix[p] != prefix[q] {
        assert prefix[p] == shuffled[p] && prefix[q] == shuffled[q];
      }
    }
    DistinctSetSize(prefix);
    assert imposters <= SetOf(ids) by {
      forall x | x in imposters ensures x in SetOf(ids) {
        assert x in multiset(shuffled);
      }
    }
    CountCardsFor(players, imposters, word);
    assert imposters * SetOf(ids) == imposters;
  }

  /** An imposterCount of at least the number of players makes every card an imposter's. */
  lemma DealAllImposters(players: seq<Player>, imposterCount: int, word: string, rand: nat -> Word)
    requires imposterCount >= |players|
    ensures forall c :: c in DealCards(players, imposterCount, word, rand) ==> c.isImposter && c.word == None
  {
    var ids := Ids(players);
    var shuffled := Shuffle(ids, rand);
    assert shuffled[..SliceEnd(|shuffled|, imposterCount)] == shuffled;
    forall i | 0 <= i < |players| ensures players[i].playerId in ImposterIds(players, imposterCount, rand) {
      assert ids[i] == players[i].playerId;
      assert ids[i] in multiset(shuffled);
    }
  }

  // ---------------------------------------------------------------------------
  // The room invariant

  /** Every player is host exactly when their id is hostId, and a non-empty room's
      hostId belongs to one of its players. */
  predicate HostConsistent(s: RoomState) {
    && (forall i :: 0 <= i < |s.players| ==> (s.players[i].isHost <==> s.players[i].playerId == s.hostId))
    && (|s.players| > 0 ==> s.hostId in Ids(s.players))
  }

  /** A card is well formed against the round's word. */
  predicate CardMatches(c: Card, word: string) {
    (c.isImposter <==> c.word == None) && (!c.isImposter ==> c.word == Some(word))
  }

  /** Cards exist exactly when a word does; they have pairwise different ids, each
      belongs to a current player, and each matches the current word. */
  predicate CardsConsistent(s: RoomState) {
    && s.cards.Some? == s.currentWord.Some?
    && (s.cards.Some? ==>
          && Distinct(CardIds(s.cards.value))
          && (forall c :: c in s.cards.value ==> c.playerId in Ids(s.players))
          && (forall c :: c in s.cards.value ==> CardMatches(c, s.currentWord.value)))
  }

  /** What every reachable room state satisfies. `Finished` is declared but never set. */
  predicate Consistent(s: RoomState) {
    && Distinct(Ids(s.players))
    && HostConsistent(s)
    && CardsConsistent(s)
    && s.status != Finished
  }

  /** Host uniqueness: a consistent non-empty room has exactly one host, and it is hostId. */
  lemma ExactlyOneHost(s: RoomState)
    requires Consistent(s)
    requires |s.players| > 0
    ensures exists h :: 0 <= h < |s.players| && s.players[h].isHost && s.players[h].playerId == s.hostId
    ensures forall i, j :: 0 <= i < |s.players| && 0 <= j < |s.players| && s.players[i].isHost && s.players[j].isHost ==> i == j
  {
    var ids := Ids(s.players);
    var h :| 0 <= h < |ids| && ids[h] == s.hostId;
    assert s.players[h].isHost;
    forall i, j | 0 <= i < |s.players| && 0 <= j < |s.players| && s.players[i].isHost && s.players[j].isHost
      ensures i == j
    {
      assert ids[i] == ids[j];
    }
  }

  // ---------------------------------------------------------------------------
  // The handlers as functions on RoomState

  /** The state of a newly constructed room. */
  function InitialState(roomId: string): RoomState {
    RoomState(roomId, "", [], Settings(1, "", ""), Waiting, None, None, 0)
  }

  /** `players.find(p => p.playerId === id)`, as the index of the first match. */
  function IndexOf(players: seq<Player>, id: string): (r: Option<nat>)
    ensures r.Some? ==> r.value < |players| && players[r.value].playerId == id
    ensures r.Some? ==> forall j :: 0 <= j < r.value ==> players[j].playerId != id
    ensures r.None? ==> forall j :: 0 <= j < |players| ==> players[j].playerId != id
  {
    if players == [] then None
    else if players[0].playerId == id then Some(0)
    else
      match IndexOf(players[1..], id)
      case Some(k) => Some(k + 1)
      case None => None
  }

  /** The search fails exactly when no player has the id. */
  lemma IndexOfNone(players: seq<Player>, id: string)
    ensures IndexOf(players, id).None? <==> id !in Ids(players)
  {
    var r := IndexOf(players, id);
    if r.Some? {
      assert Ids(players)[r.value] == id;
    }
  }

  /** handleJoin: a known player is renamed in place; a new one is appended, not
      ready, and becomes host (and hostId) only if the room was empty. */
  function AfterJoin(s: RoomState, playerId: string, displayName: string): RoomState {
    match IndexOf(s.players, playerId)
    case Some(k) => s.(players := s.players[k := s.players[k].(displayName := displayName)])
    case None =>
      var isHost := |s.players| == 0;
      s.(hostId := if isHost then playerId else s.hostId,
         players := s.players + [Player(playerId, displayName, isHost, false)])
  }

  /** handleLeave: drops the player and their card; if the host left and someone
      remains, the earliest remaining player becomes host. */
  function AfterLeave(s: RoomState, playerId: string): RoomState {
    var rest := Filter(s.players, PlayerIdOf, playerId);
    var promote := s.hostId == playerId && |rest| > 0;
    s.(players := if promote then rest[0 := rest[0].(isHost := true)] else rest,
       hostId := if promote then rest[0].playerId else s.hostId,
       cards := match s.cards
                case Some(cs) => Some(Filter(cs, CardIdOf, playerId))
                case None => None)
  }

  /** `{ ...settings, ...patch }`: each supplied field overwrites, the rest stay. */
  function Merge(settings: Settings, patch: SettingsPatch): Settings {
    Settings(
      match patch.imposterCount case Some(n) => n case None => settings.imposterCount,
      match patch.language case Some(l) => l case None => settings.language,
      match patch.category case Some(c) => c case None => settings.category)
  }

  /** handleSettingsUpdate: only the host, only while waiting. */
  function AfterSettingsUpdate(s: RoomState, playerId: string, patch: SettingsPatch): RoomState {
    if playerId != s.hostId || s.status != Waiting then s
    else s.(settings := Merge(s.settings, patch))
  }

  /** handleStartGame: only the host, only with at least three players. */
  function AfterStartGame(s: RoomState, playerId: string, word: string, rand: nat -> Word): RoomState {
    if playerId != s.hostId || |s.players| < 3 then s
    else s.(status := Playing, currentWord := Some(word), gameKey := s.gameKey + 1,
            cards := Some(DealCards(s.players, s.settings.imposterCount, word, rand)))
  }

  /** handleNewRound: only the host; neither the phase nor the player count is checked. */
  function AfterNewRound(s: RoomState, playerId: string, word: string, rand: nat -> Word): RoomState {
    if playerId != s.hostId then s
    else s.(currentWord := Some(word), gameKey := s.gameKey + 1,
            cards := Some(DealCards(s.players, s.settings.imposterCount, word, rand)))
  }

  /** handleResetGame: only the host; back to waiting without word or cards. */
  function AfterResetGame(s: RoomState, playerId: string): RoomState {
    if playerId != s.hostId then s
    else s.(status := Waiting, currentWord := None, cards := None)
  }

  /** The dispatch switch of onMessage. */
  function Next(s: RoomState, cmd: Command, rand: nat -> Word): RoomState {
    match cmd
    case Join(id, name) => AfterJoin(s, id, name)
    case Leave(id) => AfterLeave(s, id)
    case SettingsUpdate(id, patch) => AfterSettingsUpdate(s, id, patch)
    case StartGame(id, word) => AfterStartGame(s, id, word, rand)
    case NewRound(id, word) => AfterNewRound(s, id, word, rand)
    case ResetGame(id) => AfterResetGame(s, id)
    case Unrecognized => s
    case Malformed => s
  }

  /** One message together with the random words the server draws while handling it. */
  datatype Input = Input(cmd: Command, rand: nat -> Word)

  /** The room after a sequence of messages, handled one at a time. */
  function Run(s: RoomState, inputs: seq<Input>): RoomState
    decreases |inputs|
  {
    if inputs == [] then s
    else Run(Next(s, inputs[0].cmd, inputs[0].rand), inputs[1..])
  }

  /** Whether a command deals new cards (and so advances gameKey). */
  predicate Deals(s: RoomState, cmd: Command) {
    || (cmd.StartGame? && cmd.playerId == s.hostId && |s.players| >= 3)
    || (cmd.NewRound? && cmd.playerId == s.hostId)
  }

  // ---------------------------------------------------------------------------
  // What the handlers promise

  /** Joining under a known id changes only that player's displayName. */
  lemma JoinExisting(s: RoomState, playerId: string, displayName: string)
    requires Consistent(s)
    requires playerId in Ids(s.players)
    ensures var t := AfterJoin(s, playerId, displayName);
      && t.(players := s.players) == s
      && |t.players| == |s.players|
      && forall i :: 0 <= i < |s.players| ==>
           t.players[i] == if s.players[i].playerId == playerId
                           then s.players[i].(displayName := displayName)
                           else s.players[i]
  {
    var k := IndexOf(s.players, playerId).value;
    var ids := Ids(s.players);
    forall i | 0 <= i < |s.players| && s.players[i].playerId == playerId ensures i == k {
      assert ids[i] == ids[k];
    }
  }

  /** Joining under a new id appends one player, not ready, who is host exactly when
      the room was empty; hostId follows. */
  lemma JoinNew(s: RoomState, playerId: string, displayName: string)
    requires playerId !in Ids(s.players)
    ensures var t := AfterJoin(s, playerId, displayName);
      && t.players == s.players + [Player(playerId, displayName, s.players == [], false)]
      && t.hostId == (if s.players == [] then playerId else s.hostId)
      && t.(players := s.players, hostId := s.hostId) == s
  {
  }

  lemma {:induction false} JoinPreservesConsistent(s: RoomState, playerId: string, displayName: string)
    requires Consistent(s)
    ensures Consistent(AfterJoin(s, playerId, displayName))
  {
    var t := AfterJoin(s, playerId, displayName);
    var ids := Ids(s.players);
    match IndexOf(s.players, playerId)
    case Some(k) =>
      assert Ids(t.players) == ids;
    case None =>
      var p := Player(playerId, displayName, |s.players| == 0, false);
      assert Ids(t.players) == ids + [playerId];
      assert Distinct(Ids(t.players)) by {
        forall i, j | 0 <= i < j < |t.players| ensures Ids(t.players)[i] != Ids(t.players)[j] {
          if j == |s.players| {
            assert Ids(t.players)[i] == ids[i];
            assert ids[i] in ids;
          }
        }
      }
      forall x | x in ids ensures x in Ids(t.players) {
        var i :| 0 <= i < |ids| && ids[i] == x;
        assert Ids(t.players)[i] == x;
      }
      if |s.players| > 0 {
        assert s.hostId in ids;
        assert playerId != s.hostId;
      }
      assert s.hostId in ids ==> s.hostId in Ids(t.players);
      assert Ids(t.players)[|s.players|] == playerId;
  }

  /** Leaving removes the player (exactly one entry if present) and their card; every
      other player stays; every remaining card still belongs to a current player. */
  lemma LeaveRemoves(s: RoomState, playerId: string)
    requires Consistent(s)
    ensures var t := AfterLeave(s, playerId);
      && playerId !in Ids(t.players)
      && (forall x :: x in Ids(s.players) && x != playerId ==> x in Ids(t.players))
      && (playerId in Ids(s.players) ==> |t.players| == |s.players| - 1)
      && (playerId !in Ids(s.players) ==> t == s)
      && (playerId != s.hostId ==> t.hostId == s.hostId)
      && (t.cards.Some? ==>
            && playerId !in CardIds(t.cards.value)
            && forall c :: c in t.cards.value ==> c.playerId in Ids(t.players))
      && t.(players := s.players, hostId := s.hostId, cards := s.cards) == s
  {
    var rest := Filter(s.players, PlayerIdOf, playerId);
    var t := AfterLeave(s, playerId);
    FilterKeys(s.players, PlayerIdOf, playerId);
    assert Ids(t.players) == Ids(rest);
    if playerId in Ids(s.players) {
      FilterDropsOne(s.players, PlayerIdOf, playerId);
    } else {
      FilterAbsent(s.players, PlayerIdOf, playerId);
      if s.cards.Some? {
        assert playerId !in CardIds(s.cards.value) by {
          forall k | 0 <= k < |s.cards.value| ensures CardIds(s.cards.value)[k] != playerId {
            assert s.cards.value[k] in s.cards.value;
          }
        }
        FilterAbsent(s.cards.value, CardIdOf, playerId);
      }
      if |s.players| > 0 {
        assert s.hostId in Ids(s.players);
      }
    }
    LeavePreservesConsistent(s, playerId);
    if t.cards.Some? {
      FilterKeys(s.cards.value, CardIdOf, playerId);
    }
  }

  /** A leave keeps the other players' records and their join order: the leaver's entry
      at position p is removed. A non-host leave keeps hostId; a host leave marks the
      new first player as host and changes no other record. */
  lemma LeaveKeepsOrder(s: RoomState, p: nat)
    requires Consistent(s)
    requires p < |s.players|
    ensures var id := s.players[p].playerId;
      var t := AfterLeave(s, id);
      var rest := s.players[..p] + s.players[p + 1..];
      && (id != s.hostId ==> t.hostId == s.hostId && t.players == rest)
      && (id == s.hostId && rest != [] ==>
            t.hostId == rest[0].playerId && t.players == rest[0 := rest[0].(isHost := true)])
      && (id == s.hostId && rest == [] ==> t.hostId == s.hostId && t.players == [])
  {
    FilterAt(s.players, PlayerIdOf, s.players[p].playerId, p);
  }

  /** A leave removes the leaver's card and keeps every other card in its order; when
      the leaver holds no card the cards stay as they were. */
  lemma LeaveKeepsCards(s: RoomState, playerId: string)
    requires Consistent(s)
    ensures var t := AfterLeave(s, playerId);
      && t.cards.Some? == s.cards.Some?
      && (s.cards.Some? && playerId !in CardIds(s.cards.value) ==> t.cards == s.cards)
      && (forall q :: s.cards.Some? && 0 <= q < |s.cards.value| && s.cards.value[q].playerId == playerId ==>
            t.cards == Some(s.cards.value[..q] + s.cards.value[q + 1..]))
  {
    if s.cards.Some? {
      var cs := s.cards.value;
      if playerId !in CardIds(cs) {
        FilterAbsent(cs, CardIdOf, playerId);
      }
      forall q | 0 <= q < |cs| && cs[q].playerId == playerId
        ensures Filter(cs, CardIdOf, playerId) == cs[..q] + cs[q + 1..]
      {
        FilterAt(cs, CardIdOf, playerId, q);
      }
    }
  }

  /** Host migration: when the host leaves and others remain, the earliest-joined
      remaining player becomes host and hostId moves to them. */
  lemma LeavePromotesEarliest(s: RoomState)
    requires Consistent(s)
    requires |s.players| >= 2
    ensures var t := AfterLeave(s, s.hostId);
      var e := if s.players[0].playerId == s.hostId then 1 else 0;
      && t.hostId == s.players[e].playerId
      && t.players[0] == s.players[e].(isHost := true)
  {
    var tail := s.players[1..];
    FilterCons(s.players, PlayerIdOf, s.hostId);
    if s.players[0].playerId == s.hostId {
      assert Ids(s.players)[1] == s.players[1].playerId && Ids(s.players)[0] == s.hostId;
      assert tail[0] == s.players[1];
      FilterCons(tail, PlayerIdOf, s.hostId);
    }
  }

  lemma LeavePreservesConsistent(s: RoomState, playerId: string)
    requires Consistent(s)
    ensures Consistent(AfterLeave(s, playerId))
  {
    var rest := Filter(s.players, PlayerIdOf, playerId);
    var t := AfterLeave(s, playerId);
    FilterDistinct(s.players, PlayerIdOf, playerId);
    FilterKeys(s.players, PlayerIdOf, playerId);
    assert Ids(t.players) == Ids(rest);
    var promote := s.hostId == playerId && |rest| > 0;
    // Everyone who remains was not the one who left, so only hostId's owner is host.
    forall i | 0 <= i < |rest| ensures rest[i].isHost <==> rest[i].playerId == s.hostId {
      assert rest[i] in s.players;
    }
    if promote {
      forall i | 0 <= i < |t.players| ensures t.players[i].isHost <==> t.players[i].playerId == t.hostId {
        if i != 0 {
          assert Ids(rest)[i] != Ids(rest)[0];
        }
      }
      assert Ids(t.players)[0] == t.hostId;
    } else if |rest| > 0 {
      assert s.hostId in Ids(s.players);
    }
    if s.cards.Some? {
      var cs := Filter(s.cards.value, CardIdOf, playerId);
      FilterDistinct(s.cards.value, CardIdOf, playerId);
      forall c | c in cs ensures c.playerId in Ids(t.players) && CardMatches(c, t.currentWord.value) {
        assert c in s.cards.value;
      }
    }
  }

  /** Settings change only for the host while waiting, and then only in the supplied
      fields; nothing else in the room changes. */
  lemma SettingsUpdateOverwritesSupplied(s: RoomState, playerId: string, patch: SettingsPatch)
    ensures var t := AfterSettingsUpdate(s, playerId, patch);
      && t.(settings := s.settings) == s
      && (playerId != s.hostId || s.status != Waiting ==> t == s)
      && (playerId == s.hostId && s.status == Waiting ==>
            && t.settings.imposterCount == (if patch.imposterCount.Some? then patch.imposterCount.value else s.settings.imposterCount)
            && t.settings.language == (if patch.language.Some? then patch.language.value else s.settings.language)
            && t.settings.category == (if patch.category.Some? then patch.category.value else s.settings.category))
  {
  }

  /** Start-game from the host with at least three players enters `playing`, sets the
      word, advances gameKey by one and deals one card per player; otherwise nothing. */
  lemma StartGameEffect(s: RoomState, playerId: string, word: string, rand: nat -> Word)
    requires Consistent(s)
    ensures var t := AfterStartGame(s, playerId, word, rand);
      && (playerId != s.hostId || |s.players| < 3 ==> t == s)
      && (playerId == s.hostId && |s.players| >= 3 ==>
            && t.status == Playing && t.currentWord == Some(word) && t.gameKey == s.gameKey + 1
            && t.cards.Some? && |t.cards.value| == |t.players|
            && CardIds(t.cards.value) == Ids(t.players)
            && (0 <= s.settings.imposterCount ==>
                  CountImposters(t.cards.value)
                    == if s.settings.imposterCount < |s.players| then s.settings.imposterCount else |s.players|)
            && t.(status := s.status, currentWord := s.currentWord, gameKey := s.gameKey, cards := s.cards) == s)
  {
    DealImposterCount(s.players, s.settings.imposterCount, word, rand);
  }

  /** New-round from the host deals again and advances gameKey by one, in any phase and
      with any number of players; the phase is left as it was. */
  lemma NewRoundEffect(s: RoomState, playerId: string, word: string, rand: nat -> Word)
    requires Consistent(s)
    ensures var t := AfterNewRound(s, playerId, word, rand);
      && (playerId != s.hostId ==> t == s)
      && (playerId == s.hostId ==>
            && t.status == s.status && t.currentWord == Some(word) && t.gameKey == s.gameKey + 1
            && t.cards.Some? && CardIds(t.cards.value) == Ids(t.players)
            && (0 <= s.settings.imposterCount ==>
                  CountImposters(t.cards.value)
                    == if s.settings.imposterCount < |s.players| then s.settings.imposterCount else |s.players|)
            && t.(currentWord := s.currentWord, gameKey := s.gameKey, cards := s.cards) == s)
  {
    DealImposterCount(s.players, s.settings.imposterCount, word, rand);
  }

  /** Reset-game from the host returns to `waiting` and clears word and cards; players,
      settings and gameKey survive. */
  lemma ResetGameEffect(s: RoomState, playerId: string)
    ensures var t := AfterResetGame(s, playerId);
      && (playerId != s.hostId ==> t == s)
      && (playerId == s.hostId ==>
            && t.status == Waiting && t.currentWord == None && t.cards == None
            && t.(status := s.status, currentWord := s.currentWord, cards := s.cards) == s)
  {
  }

  /** Privilege: settings-update, start-game, new-round and reset-game from anyone but
      the host leave the room unchanged. */
  lemma NonHostCommandIsIgnored(s: RoomState, cmd: Command, rand: nat -> Word)
    requires cmd.SettingsUpdate? || cmd.StartGame? || cmd.NewRound? || cmd.ResetGame?
    requires cmd.playerId != s.hostId
    ensures Next(s, cmd, rand) == s
  {
  }

  /** gameKey advances by exactly one on every deal and is otherwise untouched. */
  lemma NextGameKey(s: RoomState, cmd: Command, rand: nat -> Word)
    ensures Next(s, cmd, rand).gameKey == s.gameKey + (if Deals(s, cmd) then 1 else 0)
  {
  }

  /** A fresh deal for the current players is consistent with the room. */
  lemma DealKeepsConsistent(s: RoomState, word: string, rand: nat -> Word)
    requires Consistent(s)
    ensures CardsConsistent(s.(currentWord := Some(word), cards := Some(DealCards(s.players, s.settings.imposterCount, word, rand))))
  {
    var cards := DealCards(s.players, s.settings.imposterCount, word, rand);
    forall c | c in cards ensures c.playerId in Ids(s.players) {
      var i :| 0 <= i < |cards| && cards[i] == c;
      assert CardIds(cards)[i] == c.playerId;
    }
  }

  lemma StartGamePreservesConsistent(s: RoomState, playerId: string, word: string, rand: nat -> Word)
    requires Consistent(s)
    ensures Consistent(AfterStartGame(s, playerId, word, rand))
  {
    DealKeepsConsistent(s, word, rand);
  }

  lemma NewRoundPreservesConsistent(s: RoomState, playerId: string, word: string, rand: nat -> Word)
    requires Consistent(s)
    ensures Consistent(AfterNewRound(s, playerId, word, rand))
  {
    DealKeepsConsistent(s, word, rand);
  }

  /** Every handler keeps the room consistent. */
  lemma NextPreservesConsistent(s: RoomState, cmd: Command, rand: nat -> Word)
    requires Consistent(s)
    ensures Consistent(Next(s, cmd, rand))
  {
    match cmd
    case Join(id, name) => JoinPreservesConsistent(s, id, name);
    case Leave(id) => LeavePreservesConsistent(s, id);
    case StartGame(id, word) => StartGamePreservesConsistent(s, id, word, rand);
    case NewRound(id, word) => NewRoundPreservesConsistent(s, id, word, rand);
    case SettingsUpdate(id, patch) =>
      assert Next(s, cmd, rand) == AfterSettingsUpdate(s, id, patch);
    case ResetGame(id) =>
      assert Next(s, cmd, rand) == AfterResetGame(s, id);
    case Unrecognized =>
    case Malformed =>
  }

  /** The invariant holds after any sequence of messages. */
  lemma {:induction false} RunPreservesConsistent(s: RoomState, inputs: seq<Input>)
    requires Consistent(s)
    ensures Consistent(Run(s, inputs))
    decreases |inputs|
  {
    if inputs != [] {
      NextPreservesConsistent(s, inputs[0].cmd, inputs[0].rand);
      RunPreservesConsistent(Next(s, inputs[0].cmd, inputs[0].rand), inputs[1..]);
    }
  }

  /** Every room reachable from a fresh one is consistent: in particular, whenever it
      has players, exactly one of them is host and that is hostId. */
  lemma ReachableConsistent(roomId: string, inputs: seq<Input>)
    ensures Consistent(Run(InitialState(roomId), inputs))
  {
    RunPreservesConsistent(InitialState(roomId), inputs);
  }

  /** gameKey never decreases over any sequence of messages. */
  lemma {:induction false} RunGameKeyMonotone(s: RoomState, inputs: seq<Input>)
    ensures Run(s, inputs).gameKey >= s.gameKey
    decreases |inputs|
  {
    if inputs != [] {
      NextGameKey(s, inputs[0].cmd, inputs[0].rand);
      RunGameKeyMonotone(Next(s, inputs[0].cmd, inputs[0].rand), inputs[1..]);
    }
  }

  // ---------------------------------------------------------------------------
  // Behaviour of the code that one might not expect

  /** When the last player leaves, hostId is not cleared: the departed host's id still
      passes the host check, so a new-round from it deals an empty hand and advances
      gameKey in the empty room. */
  lemma DepartedHostKeepsPrivilege(s: RoomState, word: string, rand: nat -> Word)
    requires Consistent(s)
    requires |s.players| == 1
    ensures var t := AfterLeave(s, s.hostId);
      && t.players == [] && t.hostId == s.hostId
      && AfterNewRound(t, s.hostId, word, rand).gameKey == s.gameKey + 1
      && AfterNewRound(t, s.hostId, word, rand).cards == Some([])
  {
    assert Ids(s.players)[0] == s.hostId;
    assert s.players == [s.players[0]];
    assert Filter(s.players, PlayerIdOf, s.hostId) == [];
  }

  /** new-round does not look at the phase: from a waiting room it sets a word and
      deals cards while the room stays waiting. */
  lemma NewRoundWhileWaitingDeals(s: RoomState, word: string, rand: nat -> Word)
    requires s.status == Waiting
    ensures var t := Next(s, NewRound(s.hostId, word), rand);
      && t.status == Waiting && t.currentWord == Some(word)
      && t.cards == Some(DealCards(s.players, s.settings.imposterCount, word, rand))
  {
  }

  /** A join during play adds a player without a card, so a playing room can hold
      fewer cards than players. */
  lemma JoinDuringPlayLeavesPlayerWithoutCard(s: RoomState, playerId: string, displayName: string)
    requires Consistent(s)
    requires s.status == Playing && s.cards.Some?
    requires playerId !in Ids(s.players)
    ensures var t := AfterJoin(s, playerId, displayName);
      && t.status == Playing && t.cards == s.cards
      && playerId in Ids(t.players) && playerId !in CardIds(t.cards.value)
  {
    JoinNew(s, playerId, displayName);
    var t := AfterJoin(s, playerId, displayName);
    assert Ids(t.players)[|s.players|] == playerId;
    forall k | 0 <= k < |s.cards.value| ensures CardIds(s.cards.value)[k] != playerId {
      assert s.cards.value[k] in s.cards.value;
    }
  }

  // ---------------------------------------------------------------------------
  // Scenarios

  /** The room ABC123 after P1 (Ann), P2 (Bob) and P3 (Cy) have joined, in that order. */
  function ThreeJoined(): RoomState {
    RoomState("ABC123", "P1",
      [Player("P1", "Ann", true, false), Player("P2", "Bob", false, false), Player("P3", "Cy", false, false)],
      Settings(1, "", ""), Waiting, None, None, 0)
  }

  /** Three joins to a fresh room: the first joiner is host, the others follow in
      order, none is ready, and nothing else changes. */
  lemma ThreeJoins(rand: nat -> Word)
    ensures var s1 := Next(InitialState("ABC123"), Join("P1", "Ann"), rand);
      var s2 := Next(s1, Join("P2", "Bob"), rand);
      Next(s2, Join("P3", "Cy"), rand) == ThreeJoined()
  {
    var s1 := AfterJoin(InitialState("ABC123"), "P1", "Ann");
    assert s1.players == [Player("P1", "Ann", true, false)] && s1.hostId == "P1";
    assert Ids(s1.players) == ["P1"];
    var s2 := AfterJoin(s1, "P2", "Bob");
    assert s2.players == s1.players + [Player("P2", "Bob", false, false)];
    assert Ids(s2.players) == ["P1", "P2"];
    var s3 := AfterJoin(s2, "P3", "Cy");
    assert s3.players == s2.players + [Player("P3", "Cy", false, false)];
  }

  lemma ThreeJoinedConsistent()
    ensures Consistent(ThreeJoined())
  {
    assert Ids(ThreeJoined().players) == ["P1", "P2", "P3"];
  }

  /** Three players join room ABC123; the first is host and starts with "tiger" and the
      default of one imposter: the room is playing, in round 1, with three cards of
      which exactly one is an imposter's. */
  lemma HappyPath(rand: nat -> Word)
    ensures var s1 := Next(InitialState("ABC123"), Join("P1", "Ann"), rand);
      var s2 := Next(s1, Join("P2", "Bob"), rand);
      var s3 := Next(s2, Join("P3", "Cy"), rand);
      var s4 := Next(s3, StartGame("P1", "tiger"), rand);
      && s3.hostId == "P1" && s3.players[0].isHost
      && s4.status == Playing && s4.gameKey == 1 && s4.currentWord == Some("tiger")
      && s4.cards.Some? && |s4.cards.value| == 3 && CountImposters(s4.cards.value) == 1
  {
    ThreeJoins(rand);
    var s3 := ThreeJoined();
    ThreeJoinedConsistent();
    DealImposterCount(s3.players, 1, "tiger", rand);
  }

  /** Host migration: P1 hosts, P2 and P3 join, P1 leaves: P2 becomes host. */
  lemma HostMigration(rand: nat -> Word)
    ensures var s1 := Next(InitialState("ABC123"), Join("P1", "Ann"), rand);
      var s2 := Next(s1, Join("P2", "Bob"), rand);
      var s3 := Next(s2, Join("P3", "Cy"), rand);
      var s4 := Next(s3, Leave("P1"), rand);
      && s4.hostId == "P2" && s4.players[0].playerId == "P2" && s4.players[0].isHost
      && |s4.players| == 2
  {
    ThreeJoins(rand);
    var s3 := ThreeJoined();
    ThreeJoinedConsistent();
    LeavePromotesEarliest(s3);
    LeaveRemoves(s3, "P1");
  }

  /** While playing, a settings-update from the host changes nothing. */
  lemma SettingsLockedDuringPlay(s: RoomState, patch: SettingsPatch, rand: nat -> Word)
    requires s.status == Playing
    ensures Next(s, SettingsUpdate(s.hostId, patch), rand) == s
  {
  }

  /** A playing room left with two players still accepts the host's new-round. */
  lemma NewRoundWithTwoPlayers(s: RoomState, word: string, rand: nat -> Word)
    requires Consistent(s)
    requires s.status == Playing && |s.players| == 2
    ensures var t := Next(s, NewRound(s.hostId, word), rand);
      t.gameKey == s.gameKey + 1 && t.status == Playing && t.cards.Some? && |t.cards.value| == 2
  {
  }

  // ---------------------------------------------------------------------------
  // The room object

  /** ImpostersRoom: one room's server object, holding the room state that the
      handlers update in place. Storage, broadcast and the directory's HTTP calls are
      reported as Effects flags by Step. */
  class ImpostersRoom {
    var state: RoomState

    ghost predicate Valid()
      reads this
    {
      Consistent(state)
    }

    constructor (roomId: string)
      ensures Valid()
      ensures state == InitialState(roomId)
    {
      state := RoomState(roomId, "", [], Settings(1, "", ""), Waiting, None, None, 0);
    }

    method HandleJoin(playerId: string, displayName: string)
      requires Valid()
      modifies this
      ensures Valid()
      ensures state == AfterJoin(old(state), playerId, displayName)
    {
      JoinPreservesConsistent(state, playerId, displayName);
      var existing := IndexOf(state.players, playerId);
      if existing.Some? {
        var k := existing.value;
        state := state.(players := state.players[k := state.players[k].(displayName := displayName)]);
        return;
      }
      var isHost := |state.players| == 0;
      if isHost {
        state := state.(hostId := playerId);
      }
      state := state.(players := state.players + [Player(playerId, displayName, isHost, false)]);
    }

    method HandleLeave(playerId: string) returns (deleteRoom: bool)
      requires Valid()
      modifies this
      ensures Valid()
      ensures state == AfterLeave(old(state), playerId)
      ensures deleteRoom == (state.players == [])
    {
      LeavePreservesConsistent(state, playerId);
      state := state.(players := Filter(state.players, PlayerIdOf, playerId));
      if state.hostId == playerId && |state.players| > 0 {
        state := state.(hostId := state.players[0].playerId);
        state := state.(players := state.players[0 := state.players[0].(isHost := true)]);
      }
      if state.cards.Some? {
        state := state.(cards := Some(Filter(state.cards.value, CardIdOf, playerId)));
      }
      deleteRoom := |state.players| == 0;
    }

    method HandleSettingsUpdate(playerId: string, patch: SettingsPatch)
      requires Valid()
      modifies this
      ensures Valid()
      ensures state == AfterSettingsUpdate(old(state), playerId, patch)
    {
      if playerId != state.hostId { return; }
      if state.status != Waiting { return; }
      state := state.(settings := Merge(state.settings, patch));
    }

    method HandleStartGame(playerId: string, word: string, rand: nat -> Word)
      requires Valid()
      modifies this
      ensures Valid()
      ensures state == AfterStartGame(old(state), playerId, word, rand)
    {
      StartGamePreservesConsistent(state, playerId, word, rand);
      if playerId != state.hostId { return; }
      if |state.players| < 3 { return; }
      state := state.(status := Playing);
      state := state.(currentWord := Some(word));
      state := state.(gameKey := state.gameKey + 1);
      state := state.(cards := Some(DealCards(state.players, state.settings.imposterCount, word, rand)));
    }

    method HandleNewRound(playerId: string, word: string, rand: nat -> Word)
      requires Valid()
      modifies this
      ensures Valid()
      ensures state == AfterNewRound(old(state), playerId, word, rand)
    {
      NewRoundPreservesConsistent(state, playerId, word, rand);
      if playerId != state.hostId { return; }
      state := state.(currentWord := Some(word));
      state := state.(gameKey := state.gameKey + 1);
      state := state.(cards := Some(DealCards(state.players, state.settings.imposterCount, word, rand)));
    }

    method HandleResetGame(playerId: string)
      requires Valid()
      modifies this
      ensures Valid()
      ensures state == AfterResetGame(old(state), playerId)
    {
      if playerId != state.hostId { return; }
      state := state.(status := Waiting);
      state := state.(currentWord := None);
      state := state.(cards := None);
    }

    /** onMessage without its I/O: dispatches a parsed message to its handler. Every
        parsed message is then saved and broadcast, and join, leave, start-game and
        reset-game are mirrored to the directory; a leave that empties the room also
        deletes its directory entry. A message that does not parse only gets an error
        reply. */
    method Step(cmd: Command, rand: nat -> Word) returns (fx: Effects)
      requires Valid()
      modifies this
      ensures Valid()
      ensures state == Next(old(state), cmd, rand)
      ensures fx.errorReply == cmd.Malformed?
      ensures fx.saved == fx.broadcast == !cmd.Malformed?
      ensures fx.directorySync == (cmd.Join? || cmd.Leave? || cmd.StartGame? || cmd.ResetGame?)
      ensures fx.directoryDelete == (cmd.Leave? && state.players == [])
    {
      var deleteRoom := false;
      match cmd {
        case Join(id, name) => HandleJoin(id, name);
        case Leave(id) => deleteRoom := HandleLeave(id);
        case SettingsUpdate(id, patch) => HandleSettingsUpdate(id, patch);
        case StartGame(id, word) => HandleStartGame(id, word, rand);
        case NewRound(id, word) => HandleNewRound(id, word, rand);
        case ResetGame(id) => HandleResetGame(id);
        case Unrecognized =>
        case Malformed =>
          return Effects(false, false, false, false, true);
      }
      var sync := cmd.Join? || cmd.Leave? || cmd.StartGame? || cmd.ResetGame?;
      fx := Effects(true, true, sync, deleteRoom, false);
    }
  }
}
