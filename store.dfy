/**
 * GameStore over its in-memory backend (src/lib/store.ts). The process-wide map from game
 * code to record is the field `games`; every operation reads one record, changes a copy and
 * writes it back with SaveGame, which is what the in-place mutation of the shared record
 * amounts to.
 */
module Store {
  import opened Types
  import opened Session
  import SessionLemmas
  import opened Ascii

  class GameStore {
    var games: map<string, GameState>

    /** Every record is stored under its own code. */
    ghost predicate Valid()
      reads this
    {
      forall k :: k in games ==> games[k].code == k
    }

    /** Every stored roster has distinct ids and case-insensitively distinct names. */
    ghost predicate RostersOk()
      reads this
    {
      forall k :: k in games ==> RosterOk(games[k])
    }

    /** The map starts empty when the process starts. */
    constructor ()
      ensures Valid() && RostersOk()
      ensures games == map[]
    {
      games := map[];
    }

    /** Sweeps expired records, then stores a fresh lobby under `code`, replacing any record already there. */
    method CreateGame(hostId: string, config: GameConfig, code: string, now: int) returns (c: string)
      requires Valid()
      modifies this
      ensures Valid()
      ensures c == code
      ensures games == Sweep(old(games), now)[code := NewGame(code, hostId, config, now)]
      ensures old(RostersOk()) ==> RostersOk()
    {
      var game := NewGame(code, hostId, config, now);
      var threeHoursAgo := now - ExpiryMillis;
      var pending := games.Keys;
      while pending != {}
        invariant pending <= old(games).Keys
        invariant games == map k | k in old(games) && (k in pending || !(old(games)[k].createdAt < threeHoursAgo)) :: old(games)[k]
        decreases pending
      {
        var key :| key in pending;
        if games[key].createdAt < threeHoursAgo {
          games := games - {key};
        }
        pending := pending - {key};
      }
      games := games[code := game];
      c := code;
    }

    /** The stored record, expired or not. */
    method GetGame(code: string) returns (r: Option<GameState>)
      ensures r.Some? <==> code in games
      ensures r.Some? ==> r.value == games[code]
    {
      if code in games {
        r := Some(games[code]);
      } else {
        r := None;
      }
    }

    /** Overwrites the record under its own code; createdAt is whatever the record carries. */
    method SaveGame(game: GameState)
      requires Valid()
      modifies this
      ensures Valid()
      ensures games == old(games)[game.code := game]
      ensures old(RostersOk()) && RosterOk(game) ==> RostersOk()
    {
      games := games[game.code := game];
    }

    method JoinGame(code: string, playerId: string, name: string) returns (ok: bool)
      requires Valid()
      modifies this
      ensures Valid()
      ensures ok <==> JoinOutcome(Lookup(old(games), code), playerId, name).Some?
      ensures games == if ok then old(games)[code := JoinOutcome(Lookup(old(games), code), playerId, name).value]
                       else old(games)
      ensures old(RostersOk()) ==> RostersOk()
    {
      var found := GetGame(code);
      if found.None? {
        return false;
      }
      var game := found.value;
      if NameTaken(game.players, name, playerId) {
        return false;
      }
      if old(RostersOk()) {
        SessionLemmas.JoinKeepsRoster(game, playerId, name);
      }
      var existing := FindPlayer(game.players, playerId);
      if existing.Some? {
        var i := existing.value;
        game := game.(players := game.players[i := game.players[i].(name := name)]);
        SaveGame(game);
        return true;
      }
      if game.status != Lobby {
        return false;
      }
      var isHostUser := game.hostId == playerId;
      game := game.(players := game.players + [NewPlayer(playerId, name, isHostUser)]);
      SaveGame(game);
      return true;
    }

    method StartGame(code: string, hostId: string, catalog: Catalog, d: Draws, now: int) returns (r: StartResult)
      requires Valid()
      requires code in games ==> DrawsFit(games[code], catalog, d)
      modifies this
      ensures Valid()
      ensures r == StartOutcome(Lookup(old(games), code), hostId, catalog, d, now)
      ensures games == if r.Started? then old(games)[code := r.game] else old(games)
      ensures old(RostersOk()) ==> RostersOk()
    {
      var found := GetGame(code);
      if found.None? {
        return Refused("Game not found", 404);
      }
      var game := found.value;
      if game.hostId != hostId {
        return Refused("Only host can start", 403);
      }
      if game.status != Lobby {
        return Refused("Game already started", 400);
      }
      if |game.players| < MinPlayers {
        return Refused("Need at least 2 players", 400);
      }

      // 1. Pick the category and an entry of it.
      var categoryKeys := CategoryKeys(game.config, catalog);
      if |categoryKeys| == 0 {
        // categoryKeys[0] is undefined, so the catalog lookup yields undefined and `words.length` throws.
        return Threw;
      }
      var randomCatKey := categoryKeys[d.category];
      if randomCatKey !in catalog.words || |catalog.words[randomCatKey]| == 0 {
        // `words` or `randomEntry` is undefined, and reading a field of it throws.
        return Threw;
      }
      var randomEntry := catalog.words[randomCatKey][d.entry];

      // 2. and 3. Pick the imposter and the starter.
      var imposterId := game.players[d.imposter].id;
      var starterId := game.players[d.starter].id;

      // 4. Assign roles seat by seat.
      ghost var before := game.players;
      var players := game.players;
      var i := 0;
      while i < |players|
        invariant 0 <= i <= |players| == |before|
        invariant forall j :: 0 <= j < i ==> players[j] == Assigned(before[j], imposterId, game.config.hintsEnabled, randomEntry)
        invariant forall j :: i <= j < |players| ==> players[j] == before[j]
      {
        var p := players[i];
        if p.id == imposterId {
          if game.config.hintsEnabled {
            p := p.(role := Some(Imposter), hint := Some(randomEntry.hint));
          } else {
            p := p.(role := Some(Imposter), hint := Some(""));
          }
        } else {
          p := p.(role := Some(Civilian), word := Some(randomEntry.word));
        }
        players := players[i := p];
        i := i + 1;
      }
      assert players == AssignRoles(before, imposterId, game.config.hintsEnabled, randomEntry);

      if old(RostersOk()) {
        SessionLemmas.StartKeepsRoster(game, hostId, catalog, d, now);
      }
      game := game.(
        players := players,
        category := randomCatKey,
        currentWord := randomEntry.word,
        imposterId := imposterId,
        starterId := Some(starterId),
        status := Playing,
        startedAt := Some(now));
      SaveGame(game);
      return Started(game);
    }

    method VoteOut(code: string, hostId: string, targetId: string) returns (ok: bool)
      requires Valid()
      modifies this
      ensures Valid()
      ensures ok <==> VoteOutcome(Lookup(old(games), code), hostId, targetId).Some?
      ensures games == if ok then old(games)[code := VoteOutcome(Lookup(old(games), code), hostId, targetId).value]
                       else old(games)
      ensures old(RostersOk()) ==> RostersOk()
    {
      var found := GetGame(code);
      if found.None? {
        return false;
      }
      var game := found.value;
      if game.hostId != hostId {
        return false;
      }
      var target := FindPlayer(game.players, targetId);
      if target.Some? {
        var i := target.value;
        if old(RostersOk()) {
          SessionLemmas.VoteKeepsRoster(game, hostId, targetId);
        }
        game := game.(players := game.players[i := game.players[i].(votedOut := Some(true))]);
        SaveGame(game);
        return true;
      }
      return false;
    }
  }

  /** The three seats of the round below, as joinGame builds them. */
  function RoundRoster(): seq<Player> {
    [NewPlayer("h", "Hana", true), NewPlayer("a", "Ari", false), NewPlayer("b", "Bo", false)]
  }

  /** "ARI" and "Ari" are one name ignoring case. */
  lemma CaseVariantsCollide()
    ensures Lower("ARI") == Lower("Ari") == "ari"
  {
    var upper, mixed := Lower("ARI"), Lower("Ari");
    assert upper[0] == 'a' == mixed[0];
    assert upper[1] == 'r' == mixed[1];
    assert upper[2] == 'i' == mixed[2];
  }

  /** A new lobby that its host has joined. */
  method HostedLobby(now: int) returns (store: GameStore, code: string)
    ensures fresh(store) && store.Valid() && store.RostersOk()
    ensures store.games.Keys == {code}
    ensures store.games[code] == NewGame(code, "h", GameConfig([], true), now).(players := [NewPlayer("h", "Hana", true)])
  {
    store := new GameStore();
    code := store.CreateGame("h", GameConfig([], true), "ABC123", now);
    var g0 := NewGame(code, "h", GameConfig([], true), now);
    var g1 := g0.(players := [NewPlayer("h", "Hana", true)]);
    assert g0.players + [NewPlayer("h", "Hana", true)] == g1.players;
    SessionLemmas.JoinAppends(g0, "h", "Hana");
    assert store.games.Keys == {code} && store.games[code] == g0;

    var ok := store.JoinGame(code, "h", "Hana");
    assert ok && store.games.Keys == {code} && store.games[code] == g1;
  }

  /** Two guests with names distinct from each other and from the host's join the hosted lobby. */
  method LobbyOfThree(now: int) returns (store: GameStore, code: string)
    ensures fresh(store) && store.Valid() && store.RostersOk()
    ensures store.games.Keys == {code}
    ensures store.games[code] == NewGame(code, "h", GameConfig([], true), now).(players := RoundRoster())
  {
    store, code := HostedLobby(now);
    var g0 := NewGame(code, "h", GameConfig([], true), now);
    var g1 := g0.(players := [NewPlayer("h", "Hana", true)]);
    var g2 := g0.(players := [NewPlayer("h", "Hana", true), NewPlayer("a", "Ari", false)]);
    var g3 := g0.(players := RoundRoster());
    assert g1.players + [NewPlayer("a", "Ari", false)] == g2.players;
    assert g2.players + [NewPlayer("b", "Bo", false)] == g3.players;
    SessionLemmas.JoinAppends(g1, "a", "Ari");
    SessionLemmas.JoinAppends(g2, "b", "Bo");

    var ok := store.JoinGame(code, "a", "Ari");
    assert ok && store.games.Keys == {code} && store.games[code] == g2;
    ok := store.JoinGame(code, "b", "Bo");
    assert ok && store.games.Keys == {code} && store.games[code] == g3;
  }

  /**
   * The round itself: a fourth id is turned away for reusing a name in other case, a guest
   * may not start the round, the host does, and the drawn seat is the
   * only imposter, holding the hint and no word while the other two hold the word and no
   * hint; the host then votes that seat out.
   */
  method ThreePlayerRound(now: int) returns (r: StartResult, voted: bool)
    ensures r.Started? && |r.game.players| == 3 && r.game.status == Playing
    ensures r.game.imposterId == "a" && r.game.starterId == Some("b") && r.game.currentWord == "Cat"
    ensures r.game.players[1].role == Some(Imposter) && r.game.players[1].hint == Some("Has whiskers") && r.game.players[1].word.None?
    ensures forall i :: 0 <= i < 3 && i != 1 ==> r.game.players[i].role == Some(Civilian) && r.game.players[i].word == Some("Cat") && r.game.players[i].hint.None?
    ensures voted
  {
    var store, code := LobbyOfThree(now);
    var lobby := store.games[code];
    var catalog := Catalog(["Animals"], map["Animals" := [Entry("Cat", "Has whiskers")]]);
    var d := Draws(0, 0, 1, 2);

    // What the contracts promise, worked out on the record before the calls.
    assert JoinOutcome(Some(lobby), "c", "ARI") == None by {
      CaseVariantsCollide();
      assert RoundRoster()[1].name == "Ari" && RoundRoster()[1].id != "c";
    }
    assert StartOutcome(Some(lobby), "a", catalog, d, now) == Refused("Only host can start", 403);
    SessionLemmas.StartKeepsWordFromImposter(lobby, "h", catalog, d, now);
    SessionLemmas.StartSplitsSecret(lobby, "h", catalog, d, now);
    ghost var s := StartOutcome(Some(lobby), "h", catalog, d, now).game;
    assert s.players[1].role == Some(Imposter) && s.players[1].hint == Some("Has whiskers") && s.players[1].word.None?;
    assert s.players[0].role == Some(Civilian) && s.players[0].word == Some("Cat") && s.players[0].hint.None?;
    assert s.players[2].role == Some(Civilian) && s.players[2].word == Some("Cat") && s.players[2].hint.None?;
    assert s.imposterId == "a" && s.starterId == Some("b");

    var ok := store.JoinGame(code, "c", "ARI");
    assert !ok && store.games[code] == lobby;

    var refused := store.StartGame(code, "a", catalog, d, now);
    assert refused == Refused("Only host can start", 403);

    r := store.StartGame(code, "h", catalog, d, now);
    assert r == Started(s);

    voted := store.VoteOut(code, "h", "a");
    assert voted && store.games[code].players[1].votedOut == Some(true);
  }
}
