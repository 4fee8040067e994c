# Imposters room server, modelled in Dafny

This project models the server side of the online "Imposters" party game. One
`ImpostersRoom` object holds a room's state:

- the players in join order, with one host;
- the settings: imposter count, language and category;
- the phase: waiting or playing;
- the current word, the dealt cards, and a `gameKey` that counts deals.

Clients send six commands: join, leave, settings-update, start-game, new-round and
reset-game. Each handler updates the state in place. A deal shuffles the player ids
with a Fisher-Yates shuffle and makes the first `imposterCount` of them imposters.
Imposters get no word; everyone else gets the round's word.

Files:

- `sequences.dfy` (module `Sequences`): the JavaScript array operations the server
  uses, as functions on sequences. These are `map` to keys (`Keys`), `filter` by key
  (`Filter`), `new Set(...)` (`SetOf`) and the length `slice(0, end)` keeps
  (`SliceEnd`, including negative `end`).
- `random.dfy` (module `Random`): the library in `lib/random.ts`.
  - The crypto draw `word % max`.
  - The shuffle, both as a function `Shuffle` and as the array method `ShuffleArray`.
    The method copies its input and runs the descending swap loop on the copy. It is
    proved equal to the function. The function is proved to be a permutation that
    keeps elements pairwise different.
  - `generateImposterIndices`.
- `imposters.dfy` (module `Imposters`): the room.
  - Its records as datatypes.
  - `dealCards`.
  - Each handler as a function on `RoomState` (`AfterJoin`, `AfterLeave`, ...), and
    the `onMessage` switch as `Next`.
  - A room invariant, `Consistent`: ids pairwise different, exactly one host and it
    is `hostId`, and cards that belong to players and match the word. It is proved
    preserved by every command and by every sequence of commands (`Run`).
  - The class `ImpostersRoom`. Its field `state` is updated by methods that are
    proved to produce exactly the handler functions' results.

Randomness is a parameter. `rand: nat -> Word` is a stream of 32-bit words, and the
draw for loop index `i` is `rand(i) % (i + 1)`. Every property holds for every
stream. `EveryDrawReachable` shows that every draw in `[0, max)` comes from some
word, so "for every stream" covers every sequence of draws the shuffle can make.

Some behaviours of the code may be unexpected. The model follows the code, and each
behaviour is proved as a lemma:

- One would expect hostId to be cleared when the room empties. The code never
  clears it (`DepartedHostKeepsPrivilege`), so the departed host can still send
  new-round to the empty room.
- One would expect a playing room to hold one card per player. A join during play
  adds a player without a card (`JoinDuringPlayLeavesPlayerWithoutCard`).
- One would expect cards only while playing. A new-round in the waiting phase deals
  cards and leaves the room waiting (`NewRoundWhileWaitingDeals`).
- The `finished` status is declared but never set (`Consistent` includes
  `status != Finished`).
- A negative `imposterCount` is treated as `slice` treats it: it counts back from
  the end (`DealImposterCount`).
- A message that parses but names no handler is saved and broadcast unchanged
  (`Unrecognized`).

## Model

| member | source | states |
|---|---|---|
| Sequences.Filter | party/imposters.ts:242-244 | the filtered sequence holds exactly the elements of the input whose key differs from the removed key, and is no longer than the input |
| Sequences.FilterKeys | party/imposters.ts:242-244 | the ids remaining after the leave filter are exactly the previous ids other than the removed one |
| Sequences.FilterDistinct | party/imposters.ts:252-254 | filtering keeps ids pairwise different |
| Sequences.FilterDropsOne | party/imposters.ts:242-244 | with pairwise different ids, removing a present id shortens the sequence by exactly one |
| Sequences.FilterAt | party/imposters.ts:242-244 | with pairwise different ids, filtering out the id at position p removes exactly that position and keeps every other element in its order |
| Sequences.FilterAbsent | party/imposters.ts:242-244 | removing an id that nobody has leaves the sequence unchanged |
| Sequences.SliceEnd | party/imposters.ts:87 | the length kept by `slice(0, end)` never exceeds the array length |
| Sequences.DistinctSetSize | party/imposters.ts:87 | a `Set` built from pairwise different elements has as many members as the sequence has entries |
| Sequences.Keys | party/imposters.ts:85 | `map` to keys keeps the length, and entry i is the key of element i |
| Random.SecureRandomNumber | lib/random.ts:10-28 | the crypto-backed draw is below max |
| Random.EveryDrawReachable | lib/random.ts:13-15 | every value below max, for max up to 2^32, is the draw of some 32-bit word |
| Random.Swap | lib/random.ts:42 | the destructuring swap exchanges positions i and j and leaves every other position alone |
| Random.ShuffleFromPermutation | lib/random.ts:40-43 | the swap iterations from any index down to 1 permute the sequence |
| Random.Shuffle | lib/random.ts:38-45 | the shuffle is a permutation of its input, keeps its length, and returns arrays of length 0 or 1 unchanged |
| Random.ShuffleArray | lib/random.ts:38-45 | the method returns a fresh array whose contents are the shuffle of the input's contents, a permutation of them; the input array is outside every frame and so is unchanged |
| Random.CopyArray | lib/random.ts:39 | the spread copy is a fresh array with the input's contents |
| Random.SwapLoop | lib/random.ts:40-43 | the descending swap loop, run in place, leaves the array holding the shuffle of its previous contents |
| Random.SwapDistinct | lib/random.ts:42 | a swap keeps elements pairwise different |
| Random.ShuffleDistinct | lib/random.ts:38-45 | a shuffle of pairwise different elements has pairwise different elements |
| Random.ImposterIndices | lib/random.ts:51-58 | the result has the length `slice` keeps, which is min(imposterCount, playerCount) for a non-negative count; its indices are pairwise different and each lies in 1..playerCount |
| Imposters.DealCards | party/imposters.ts:80-95 | one card per player in the players' order, with the player's id and name; a card has no word exactly when it is an imposter's; every other card has the given word |
| Imposters.CountImposters | party/imposters.ts:89-94 | the number of imposter cards is at most the number of cards |
| Imposters.CountCardsFor | party/imposters.ts:89-94 | with pairwise different ids, the imposter cards number as many as the players whose id is in the imposter set |
| Imposters.IntersectCons | party/imposters.ts:92 | adding one new id to the player ids adds one imposter exactly when the new id is in the imposter set |
| Imposters.DealImposterCount | party/imposters.ts:85-87 | with pairwise different ids, a deal has min(imposterCount, players) imposters for a non-negative count, and max(players + imposterCount, 0) for a negative one |
| Imposters.DealAllImposters | party/imposters.ts:87-93 | an imposterCount of at least the number of players makes every card an imposter's without a word |
| Imposters.ExactlyOneHost | party/imposters.ts:228-249 | in a consistent non-empty room some player is host with id hostId, and no two players are host |
| Imposters.IndexOf | party/imposters.ts:220-222 | the search finds the first player with the id, or reports that no player has it |
| Imposters.IndexOfNone | party/imposters.ts:220-223 | the search fails exactly when the id is not among the player ids |
| Imposters.JoinExisting | party/imposters.ts:219-226 | a join under a known id renames exactly that player and changes nothing else |
| Imposters.JoinNew | party/imposters.ts:228-238 | a join under a new id appends a player who is not ready and is host exactly when the room was empty; hostId moves to the new player only then; nothing else changes |
| Imposters.JoinPreservesConsistent | party/imposters.ts:219-238 | a join keeps the room consistent |
| Imposters.LeaveRemoves | party/imposters.ts:241-255 | after a leave the id is gone from players and cards, every other id is still present, a present id shortens the list by one, an absent id changes nothing, a non-host leave keeps hostId, remaining cards belong to remaining players, and settings, phase, word and gameKey are untouched |
| Imposters.LeaveKeepsOrder | party/imposters.ts:241-249 | the leaver's entry is removed and every other player record stays, in join order; a non-host leave keeps hostId; a host leave makes the new first player host and hostId and changes no other record; when the room empties hostId is kept |
| Imposters.LeaveKeepsCards | party/imposters.ts:251-255 | cards stay present or absent as before; the leaver's card is removed and every other card stays in order; when the leaver holds no card the cards are unchanged |
| Imposters.LeavePromotesEarliest | party/imposters.ts:246-249 | when the host leaves a room of two or more, the earliest remaining player becomes host and hostId |
| Imposters.LeavePreservesConsistent | party/imposters.ts:241-255 | a leave keeps the room consistent |
| Imposters.SettingsUpdateOverwritesSupplied | party/imposters.ts:276-284 | only the host while waiting changes settings, each supplied field overwrites and each missing one stays; nothing else changes |
| Imposters.StartGameEffect | party/imposters.ts:286-298 | with the host and at least three players the room is playing with the word, gameKey one higher, one card per player with matching ids and min(imposterCount, players) imposters, and nothing else changed; otherwise nothing changes |
| Imposters.NewRoundEffect | party/imposters.ts:300-310 | the host's new-round keeps the phase, sets the word, advances gameKey by one and deals afresh with the same imposter count property; anyone else's changes nothing |
| Imposters.ResetGameEffect | party/imposters.ts:312-318 | the host's reset returns to waiting without word or cards and changes nothing else (room id, host, players, settings and gameKey stay); anyone else's changes nothing |
| Imposters.NonHostCommandIsIgnored | party/imposters.ts:276-318 | settings-update, start-game, new-round and reset-game from a non-host leave the state unchanged |
| Imposters.NextGameKey | party/imposters.ts:286-310 | a command raises gameKey by exactly one when it deals and leaves it unchanged otherwise |
| Imposters.DealKeepsConsistent | party/imposters.ts:293-297 | a fresh deal for the current players, stored with its word, is consistent with the room |
| Imposters.StartGamePreservesConsistent | party/imposters.ts:286-298 | start-game keeps the room consistent |
| Imposters.NewRoundPreservesConsistent | party/imposters.ts:300-310 | new-round keeps the room consistent |
| Imposters.NextPreservesConsistent | party/imposters.ts:176-200 | every command, including one of unknown type, keeps the room consistent |
| Imposters.RunPreservesConsistent | party/imposters.ts:172-217 | any sequence of commands keeps the room consistent |
| Imposters.ReachableConsistent | party/imposters.ts:100-113 | every room reached from a freshly constructed one is consistent, so it has exactly one host whenever it has players |
| Imposters.RunGameKeyMonotone | party/imposters.ts:292 | gameKey never decreases over any sequence of commands |
| Imposters.DepartedHostKeepsPrivilege | party/imposters.ts:246-249 | when the last player, the host, leaves, hostId keeps the departed id, and a new-round from it deals no cards and still advances gameKey |
| Imposters.NewRoundWhileWaitingDeals | party/imposters.ts:300-310 | a new-round in the waiting phase sets the word and the cards and leaves the room waiting |
| Imposters.JoinDuringPlayLeavesPlayerWithoutCard | party/imposters.ts:228-238 | a new player who joins during play gets no card, and the room stays playing with the old cards |
| Imposters.ThreeJoins | party/imposters.ts:219-238 | P1, P2 and P3 joining room ABC123 give a waiting room hosted by P1 with the three players in order |
| Imposters.ThreeJoinedConsistent | party/imposters.ts:219-238 | that three-player room is consistent |
| Imposters.HappyPath | party/imposters.ts:286-298 | after those joins, P1's start-game with "tiger" gives a playing room at gameKey 1 with three cards, exactly one of them an imposter's |
| Imposters.HostMigration | party/imposters.ts:246-249 | after those joins, P1 leaving makes P2 host with two players left |
| Imposters.SettingsLockedDuringPlay | party/imposters.ts:278 | while playing, the host's settings-update changes nothing |
| Imposters.NewRoundWithTwoPlayers | party/imposters.ts:300-310 | a playing room with two players still accepts the host's new-round, which deals two cards and advances gameKey |
| Imposters.ImpostersRoom.constructor | party/imposters.ts:100-113 | a new room is empty, waiting, with one imposter, empty language and category, no host and gameKey 0, and is consistent |
| Imposters.ImpostersRoom.HandleJoin | party/imposters.ts:219-239 | the in-place join produces exactly AfterJoin of the previous state and keeps the room consistent |
| Imposters.ImpostersRoom.HandleLeave | party/imposters.ts:241-261 | the in-place leave produces exactly AfterLeave of the previous state, keeps the room consistent, and asks for directory deletion exactly when no players remain |
| Imposters.ImpostersRoom.HandleSettingsUpdate | party/imposters.ts:276-284 | the in-place update produces exactly AfterSettingsUpdate of the previous state and keeps the room consistent |
| Imposters.ImpostersRoom.HandleStartGame | party/imposters.ts:286-298 | the in-place start produces exactly AfterStartGame of the previous state and keeps the room consistent |
| Imposters.ImpostersRoom.HandleNewRound | party/imposters.ts:300-310 | the in-place new round produces exactly AfterNewRound of the previous state and keeps the room consistent |
| Imposters.ImpostersRoom.HandleResetGame | party/imposters.ts:312-318 | the in-place reset produces exactly AfterResetGame of the previous state and keeps the room consistent |
| Imposters.ImpostersRoom.Step | party/imposters.ts:172-217 | a message changes the state as Next says. A parsed message is saved and broadcast, and join, leave, start-game and reset-game are mirrored to the directory. A leave that empties the room deletes the directory entry. A message that does not parse only gets an error reply |

## Left out

- Storage (`onStart`, `saveState`): the persisted copy is not modelled. `Step` only reports that a save happens. A stored state loaded by `onStart` is not checked against `Consistent`; the model assumes the room starts from its constructor.
- Broadcast: it is reported only as the `broadcast` flag of Effects. Its JSON payload is not modelled.
- `onConnect` is not modelled. It sends the current state to the new connection only (party/imposters.ts:163-170). `onClose` does nothing.
- The directory calls (`syncToMongoDB`, `deleteRoomFromMongoDB`): HTTP I/O. They appear as the `directorySync` and `directoryDelete` flags. The players' `joinedAt` timestamps and failed requests are not modelled.
- `JSON.parse` and field typing are not modelled. The model supposes that a parsed message carries fields of the declared types. A message that fails to parse, or that throws while its type is read, is `Malformed`. A handler that throws on a field of the wrong type is not modelled.
- An exception from `saveState` after a handler has run is not modelled. In the code it would bring an error reply after the state change.
- Random.SecureRandomNumber: does not model the `Math.random` fallback of lib/random.ts:31. It relies on floating point. It runs when no crypto API exists, and also when `getRandomValues` throws (lib/random.ts:20-27). Every draw is modelled as a 32-bit word reduced modulo max.
- Sequences.Filter: its own contract states membership and a length bound. The order that `filter` keeps is proved only for pairwise different keys (`FilterAt`, `FilterAbsent`), which is the only case a consistent room reaches.
- Random.ImposterIndices: takes `playerCount` as a natural number. The source accepts any number; `Array.from` with a negative length gives an empty array (lib/random.ts:55), and a non-integer length is not modelled. The function has no caller in the repository.
- Random.Shuffle: uniformity of the shuffle is not stated. It is a probabilistic property outside a model of single runs.
- `imposterCount` is an unbounded integer. Non-integer, NaN or non-number counts are not modelled. `gameKey` is an unbounded natural number; the limit of JavaScript's doubles is not modelled.
- The `readonly room` handle of the constructor is reduced to its id. The UI, the offline game, the API routes and the directory database are not part of this model.
