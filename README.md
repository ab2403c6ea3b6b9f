# Imposter game-session store, modelled in Dafny

This project models the session store of the "who is the imposter" party game: the
`GameStore` class of `src/lib/store.ts` running over its in-memory backend, a process-wide
map from a six-character join code to the game record. A host creates a lobby,
players join it (or reconnect under a new name), the host starts a round, and the host votes
players out.

- `ascii.dfy`, module `Ascii`: lower-casing, used to compare names ignoring case.
- `types.dfy`, module `Types`: the records of `src/lib/types.ts`. These are `Player`,
  `GameConfig` and `GameState`, with status `Lobby | Playing | Finished`. Optional
  TypeScript fields are `Option`s. There are also the catalog's `Entry` and `Catalog`.
- `session.dfy`, module `Session`: what each operation does to the one record it reads.
  These are pure functions: `JoinOutcome`, `StartOutcome`, `VoteOutcome`, `Sweep` and
  `NewGame`, plus the `some`/`find` lookups `NameTaken` and `FindPlayer`.
- `session_lemmas.dfy`, module `SessionLemmas`: the game's rules, proved about those
  functions. They cover rejection cases, reconnect and append, and unique ids and names.
  For a started round they cover the single imposter, how the word and hint are split,
  and the drawn category. They also cover vote idempotence and the rule that status
  never goes back to lobby.
- `store.dfy`, module `Store`: class `GameStore`, whose field `games: map<string, GameState>`
  is the in-memory backend. Its methods change the map step by step, as the source does:
  - the sweep loop deletes expired entries;
  - the join path renames a seat or appends one;
  - the `forEach` loop gives every seat its role;
  - the vote path sets the flag.

  CreateGame, JoinGame, StartGame and VoteOut are proved equal to `Sweep`/`NewGame`,
  `JoinOutcome`, `StartOutcome` and `VoteOutcome`; GetGame and SaveGame state the lookup
  and the overwrite directly. The methods also keep two invariants:
  every record is stored under its own `code` (`Valid`), and every roster has distinct ids
  and names that differ ignoring case (`RostersOk`). `LobbyOfThree` and
  `ThreePlayerRound` are a client. They play one full round using only the methods'
  contracts.

Values the store gets from outside are parameters:
- the join code that `Math.random` generates is `code`;
- `Date.now()` is `now`;
- each `Math.floor(Math.random() * n)` draw is an index in `Draws`, assumed to be below
  `n` whenever `n > 0` (`DrawsFit`);
- `categories.json` is a `Catalog`. It pairs a map from category to entries with the key
  order that `Object.keys` reports.

Three behaviours of the in-memory backend are easy to miss:
- the in-memory `saveGame` (store.ts:97) does not refresh `createdAt`, so there is no
  sliding TTL in this backend. `SaveGame` keeps whatever `createdAt` the record carries.
- `getGame` (store.ts:84) returns expired records too; only `createGame` sweeps. `GetGame`
  does no expiry filtering.
- `startGame` throws a TypeError when the drawn category has no entry list or an empty
  one, or when there is no category to draw from at all. This happens before anything is
  changed. The model gives this the result `Threw` and leaves the store unchanged.

## Model

| member | source | states |
|---|---|---|
| Store.GameStore.constructor | src/lib/store.ts:5 | the backend starts as an empty map |
| Store.GameStore.CreateGame | src/lib/store.ts:19-68 | the new map is the old one with exactly the records created before `now - 10800000` removed, then `code` mapped to a fresh lobby (empty roster, the given config, empty word, imposter and category, `createdAt == now`), overwriting any record under that code; returns `code`; keeps both store invariants |
| Store.GameStore.GetGame | src/lib/store.ts:84 | returns the record stored under the code, expired or not, and None exactly when the code is absent |
| Store.GameStore.SaveGame | src/lib/store.ts:97 | overwrites the entry keyed by the record's own code, with the record's `createdAt` unchanged; keeps `RostersOk` when the saved roster is well formed |
| Store.GameStore.JoinGame | src/lib/store.ts:101-132 | returns true, and stores the new record, exactly when `JoinOutcome` admits the player; otherwise the map is unchanged; keeps unique ids and case-insensitively unique names |
| Store.GameStore.StartGame | src/lib/store.ts:134-185 | returns `StartOutcome`: the role loop gives every seat what `AssignRoles` gives it, and only a `Started` result changes the map; keeps the roster invariant |
| Store.GameStore.VoteOut | src/lib/store.ts:187-199 | returns true, and stores the record with the target flagged, exactly when `VoteOutcome` accepts; otherwise the map is unchanged |
| Store.HostedLobby | src/lib/store.ts:121-131 | a host joining its own fresh lobby takes the only seat, flagged `isHost` |
| Store.LobbyOfThree | src/lib/store.ts:101-132 | three joins with distinct names on a fresh lobby leave exactly those three seats, in join order, with only the host flagged `isHost` |
| Store.ThreePlayerRound | src/lib/store.ts:101-199 | the host's start of that lobby, with seat 1 drawn, makes seat 1 the only imposter, holding the hint and no word, while seats 0 and 2 are civilians holding the word "Cat" and no hint; `imposterId` and `starterId` are the drawn ids; the host's vote of that seat then succeeds (on the way, the body also asserts that a case-variant name and a guest's start are refused) |
| Session.NameTaken | src/lib/store.ts:106 | true exactly when some seat with a different id has the same name ignoring case |
| Session.FindPlayer | src/lib/store.ts:110 | the first seat holding the id, or None exactly when no seat holds it |
| Session.Lookup | src/lib/store.ts:84 | Some exactly when the code is stored, holding the stored record |
| Session.NewGame | src/lib/store.ts:22-32 | a lobby under the given code, host, config and `createdAt == now`, with no players, empty word, imposter and category, and no starter, start time or next game |
| Session.NewPlayer | src/lib/store.ts:123-128 | the joining id and name, `isHost` as given, no role, word or hint, and `votedOut == false` |
| Session.JoinOutcome | src/lib/store.ts:101-132 | mirrors joinGame on the looked-up record: on success only `players` changes, either keeping its length or gaining `NewPlayer` at the end, and some seat then holds the id under the new name; its rules are proved in SessionLemmas.JoinRejects, JoinReconnects, JoinAppends, JoinKeepsRoster and JoinOnlyTouchesRoster |
| Session.StartOutcome | src/lib/store.ts:134-185 | mirrors startGame on the looked-up record: a start needs a lobby with the caller as host and at least two players, turns it into a playing round of the same size, and anything else is a refusal on one of those checks or a throw; its rules are proved in SessionLemmas.StartRefusals, StartThrows, StartThrowsListedCatalog, StartOneImposter, StartSplitsSecret, StartKeepsWordFromImposter, StartKeepsSeats, StartPicksCategory, StartOnlyOnce and StartKeepsRoster |
| Session.VoteOutcome | src/lib/store.ts:187-199 | mirrors voteOut on the looked-up record: success needs the caller to be the host, changes only `players`, keeps its length, and leaves a seat with the target id flagged out; its rules are proved in SessionLemmas.VoteRejects, VoteMarksTarget, VoteIdempotent and VoteKeepsRoster |
| Session.Assigned | src/lib/store.ts:162-174 | one seat of the role loop: id, name, host flag and vote kept; imposter exactly when the id is the drawn one, and then its word kept and the hint (or `""` with hints off) given; civilian otherwise, with the entry's word given and its hint kept |
| Session.AssignRoles | src/lib/store.ts:162-174 | the whole loop: same length, ids and names kept seat by seat, and a seat is imposter exactly when its id is the drawn one |
| Session.CategoryKeys | src/lib/store.ts:143-145 | empty exactly when neither the config nor the catalog lists a category; every key is a configured category, or a catalog key when none is configured |
| Session.DrawsFit | src/lib/store.ts:147-158 | draws that are all zero always fit, so the assumption on the draws can be met |
| Session.Sweep | src/lib/store.ts:58-64 | keeps exactly the entries whose `createdAt` is not below `now - 10800000`, each unchanged |
| Ascii.LowerChar | src/lib/store.ts:106 | the result is never an upper-case ASCII letter; an upper-case letter becomes its lower-case partner and any other character is kept |
| Ascii.Lower | src/lib/store.ts:106 | same length, no upper-case ASCII letter left, upper-case letters mapped to their lower-case partner, every other character kept |
| Ascii.LowerIdempotent | src/lib/store.ts:106 | lowering is idempotent |
| SessionLemmas.JoinRejects | src/lib/store.ts:102-119 | joinGame fails exactly when the code is absent, another id already holds the name ignoring case, or the id is new and the status is not lobby |
| SessionLemmas.JoinReconnects | src/lib/store.ts:109-115 | a seated id, with no clash, only renames its first seat, at any status; length, order and all other fields stay |
| SessionLemmas.JoinAppends | src/lib/store.ts:117-131 | a new id with no clash in a lobby is appended last with `isHost == (id == hostId)`, `votedOut == false` and no role, word or hint; earlier seats unchanged |
| SessionLemmas.JoinKeepsRoster | src/lib/store.ts:105-131 | joinGame keeps ids distinct and names distinct ignoring case |
| SessionLemmas.JoinOnlyTouchesRoster | src/lib/store.ts:109-131 | on success only `players` changes, and a roster without roles, words or hints stays so |
| SessionLemmas.StartRefusals | src/lib/store.ts:135-140 | refused exactly when absent, not host, not lobby or under two players; 404 exactly when absent, 403 exactly when present and not host, whatever the roster size; 400 otherwise |
| SessionLemmas.StartThrows | src/lib/store.ts:142-151 | throws exactly when all checks pass but the drawn category is missing from the catalog, has no entries, or there is no category to draw |
| SessionLemmas.StartThrowsListedCatalog | src/lib/store.ts:143-151 | with no configured categories and a catalog whose key list names each category exactly once, the drawn key is always in the catalog, so startGame throws exactly when the checks pass and the catalog is empty or the drawn category has no entries |
| SessionLemmas.StartOneImposter | src/lib/store.ts:153-178 | with distinct ids, the set of imposter seats is exactly the drawn seat, so there is exactly one, and `imposterId` is its id |
| SessionLemmas.StartSplitsSecret | src/lib/store.ts:161-177 | the imposter's hint is the entry's hint if hints are enabled and `""` otherwise, and its word is untouched; every other seat is civilian with `word == currentWord` and its hint untouched |
| SessionLemmas.StartKeepsWordFromImposter | src/lib/store.ts:161-174 | on a roster with no words or hints yet, the imposter holds no word, no civilian holds a hint, and with hints off no seat holds a non-empty hint |
| SessionLemmas.StartKeepsSeats | src/lib/store.ts:157-181 | ids, names, host flags, votes and order unchanged; lobby becomes playing, `startedAt == now`, `starterId` is a seated id; code, host, config, `createdAt` and `nextGameCode` unchanged |
| SessionLemmas.StartPicksCategory | src/lib/store.ts:142-177 | the category is from `config.categories` when that is non-empty and from the catalog keys otherwise; it is in the catalog and `currentWord` is the drawn entry's word |
| SessionLemmas.StartOnlyOnce | src/lib/store.ts:138 | starting a started game is refused with "Game already started" and 400 |
| SessionLemmas.StartKeepsRoster | src/lib/store.ts:161-174 | startGame keeps ids and names distinct |
| SessionLemmas.VoteRejects | src/lib/store.ts:187-198 | voteOut fails exactly when the code is absent, the caller is not the host, or no seat holds the target id |
| SessionLemmas.VoteMarksTarget | src/lib/store.ts:192-196 | on success only the first seat with the target id changes, and only its `votedOut`, which becomes true |
| SessionLemmas.VoteIdempotent | src/lib/store.ts:192-196 | voting the same target again succeeds and changes nothing |
| SessionLemmas.VoteKeepsRoster | src/lib/store.ts:192-194 | voteOut keeps ids and names distinct |
| SessionLemmas.StatusNeverReturnsToLobby | src/lib/store.ts:117-180 | joinGame and voteOut keep the status; a started round was in lobby and is now playing |

## Left out

- The D1 database branches of `createGame`, `getGame` and `saveGame` (store.ts:34-56, 72-83, 88-95) are left out. They call an external database, and `JSON.stringify`/`JSON.parse` are library behaviour. The sliding TTL exists only there (store.ts:91).
- Code generation with `Math.random().toString(36)` (store.ts:20) is not modelled. The code is a parameter, and the model does not enforce six upper-case base-36 characters.
- The random draws of `startGame` (store.ts:147-158) are not modelled as floating point. They are indices in `Draws`, assumed only to lie below a positive range.
- `Date.now()` becomes a parameter. `createGame` reads the clock twice (store.ts:31, 59), and the model uses one `now` for both.
- The contents of `categories.json` are not part of this model; the catalog is a parameter. JavaScript property lookup on it (inherited keys such as `toString`) is not modelled.
- Ascii.Lower: only ASCII letters are case-folded; `toLowerCase` also maps non-ASCII letters, which the model leaves unchanged.
- The HTTP handlers under src/pages/api/game, cookies and `crypto.randomUUID` are left out. So is the replay handler's `nextGameCode` link, which is a handler and not a store operation.
- Concurrency between requests, `async`/`await` and the lost-update race between two read-modify-write requests are left out; the model is sequential.
- Aliasing is not modelled. The in-memory `getGame` hands out the shared record, which `joinGame`, `startGame` and `voteOut` change in place. Every such path ends in `saveGame` of that same record, so the model reads a copy, changes it and writes it back. Several `GameStore` objects share the one module-level map; the model has a single store object.
- The public-view projection is left out: src/lib/types.ts:30-45 declares only its type, and its construction lives in the handlers.
- No code shown sets the `finished` status, so the model has no transition into it.
- `console.error` logging is left out.
