/** The rules of a game session, proved about the value-level model of each store operation. */
module SessionLemmas {
  import opened Types
  import opened Ascii
  import opened Session

  // ---------------------------------------------------------------- joinGame

  /** joinGame returns false exactly when the code is unknown, the name is held by another id, or a new id arrives after the lobby. */
  lemma JoinRejects(g: Option<GameState>, playerId: string, name: string)
    ensures JoinOutcome(g, playerId, name).None? <==>
      || g.None?
      || (exists i :: 0 <= i < |g.value.players|
            && Lower(g.value.players[i].name) == Lower(name) && g.value.players[i].id != playerId)
      || ((forall i :: 0 <= i < |g.value.players| ==> g.value.players[i].id != playerId)
            && g.value.status != Lobby)
  {
  }

  /** A seated id only renames its seat, whatever the status; length, order and every other field stay. */
  lemma JoinReconnects(g: GameState, playerId: string, name: string, i: nat)
    requires i < |g.players| && g.players[i].id == playerId
    requires forall j :: 0 <= j < i ==> g.players[j].id != playerId
    requires forall j :: 0 <= j < |g.players| && g.players[j].id != playerId ==> Lower(g.players[j].name) != Lower(name)
    ensures JoinOutcome(Some(g), playerId, name) == Some(g.(players := g.players[i := g.players[i].(name := name)]))
  {
  }

  /** A new id joining a lobby is appended at the end with no role, word or hint; earlier seats are untouched. */
  lemma JoinAppends(g: GameState, playerId: string, name: string)
    requires forall j :: 0 <= j < |g.players| ==> g.players[j].id != playerId
    requires forall j :: 0 <= j < |g.players| ==> Lower(g.players[j].name) != Lower(name)
    requires g.status == Lobby
    ensures JoinOutcome(Some(g), playerId, name) ==
      Some(g.(players := g.players + [Player(playerId, name, playerId == g.hostId, None, None, None, Some(false))]))
  {
  }

  /** joinGame keeps ids distinct and names distinct ignoring case. */
  lemma JoinKeepsRoster(g: GameState, playerId: string, name: string)
    requires RosterOk(g)
    ensures JoinOutcome(Some(g), playerId, name).Some? ==> RosterOk(JoinOutcome(Some(g), playerId, name).value)
  {
    var ps := g.players;
    if !NameTaken(ps, name, playerId) {
      match FindPlayer(ps, playerId)
      case Some(i) =>
        var qs := ps[i := ps[i].(name := name)];
        forall a, b | 0 <= a < b < |qs| ensures Lower(qs[a].name) != Lower(qs[b].name) {
          if a == i || b == i {
            var other := if a == i then b else a;
            assert ps[other].id != playerId;
          }
        }
      case None =>
        if g.status == Lobby {
          var qs := ps + [NewPlayer(playerId, name, g.hostId == playerId)];
          forall a, b | 0 <= a < b < |qs| ensures qs[a].id != qs[b].id && Lower(qs[a].name) != Lower(qs[b].name) {
            if b == |ps| {
              assert qs[a] == ps[a];
            }
          }
        }
    }
  }

  /** joinGame changes nothing but the roster, and never hands out a role, word or hint. */
  lemma JoinOnlyTouchesRoster(g: GameState, playerId: string, name: string)
    ensures JoinOutcome(Some(g), playerId, name).Some? ==>
      JoinOutcome(Some(g), playerId, name).value == g.(players := JoinOutcome(Some(g), playerId, name).value.players)
    ensures JoinOutcome(Some(g), playerId, name).Some? && NoSecrets(g.players) ==>
      NoSecrets(JoinOutcome(Some(g), playerId, name).value.players)
  {
  }

  // ---------------------------------------------------------------- startGame

  /** The refusals, in order: 404 unknown code, 403 not the host, 400 not in the lobby, 400 under two players. */
  lemma StartRefusals(g: Option<GameState>, hostId: string, catalog: Catalog, d: Draws, now: int)
    requires g.Some? ==> DrawsFit(g.value, catalog, d)
    ensures var r := StartOutcome(g, hostId, catalog, d, now);
      && (r.Refused? <==> g.None? || g.value.hostId != hostId || g.value.status != Lobby || |g.value.players| < 2)
      && (r.Refused? && r.status == 404 <==> g.None?)
      && (r.Refused? && r.status == 403 <==> g.Some? && g.value.hostId != hostId)
      && (r.Refused? && r.status != 404 && r.status != 403 ==> r.status == 400)
  {
  }

  /** startGame throws exactly when it passes the checks but the drawn category has no entries to draw from. */
  lemma StartThrows(g: GameState, hostId: string, catalog: Catalog, d: Draws, now: int)
    requires DrawsFit(g, catalog, d)
    ensures var keys := CategoryKeys(g.config, catalog);
      StartOutcome(Some(g), hostId, catalog, d, now).Threw? <==>
        && g.hostId == hostId && g.status == Lobby && |g.players| >= 2
        && (|keys| == 0 || keys[d.category] !in catalog.words || |catalog.words[keys[d.category]]| == 0)
  {
  }

  /**
   * With no configured categories and a catalog listed as Object.keys lists it, startGame
   * throws only when the catalog has no category or the drawn category has no entries.
   */
  lemma StartThrowsListedCatalog(g: GameState, hostId: string, catalog: Catalog, d: Draws, now: int)
    requires DrawsFit(g, catalog, d)
    requires CatalogOk(catalog) && g.config.categories == []
    ensures |catalog.order| > 0 ==> d.category < |catalog.order| && catalog.order[d.category] in catalog.words
    ensures StartOutcome(Some(g), hostId, catalog, d, now).Threw? <==>
        && g.hostId == hostId && g.status == Lobby && |g.players| >= 2
        && (|catalog.order| == 0 || |catalog.words[catalog.order[d.category]]| == 0)
  {
    if |catalog.order| > 0 {
      assert catalog.order[d.category] in catalog.order;
    }
  }

  /** With distinct ids, the drawn seat is the only imposter and imposterId names it. */
  lemma StartOneImposter(g: GameState, hostId: string, catalog: Catalog, d: Draws, now: int)
    requires DrawsFit(g, catalog, d)
    requires IdsDistinct(g.players)
    requires StartOutcome(Some(g), hostId, catalog, d, now).Started?
    ensures var s := StartOutcome(Some(g), hostId, catalog, d, now).game;
      && d.imposter < |s.players|
      && ImposterSeats(s.players) == {d.imposter}
      && |ImposterSeats(s.players)| == 1
      && s.imposterId == s.players[d.imposter].id
  {
    var s := StartOutcome(Some(g), hostId, catalog, d, now).game;
    var ps := s.players;
    forall i: nat | i < |ps| ensures ps[i].role == Some(Imposter) <==> i == d.imposter {
      assert ps[i] == Assigned(g.players[i], s.imposterId, g.config.hintsEnabled, catalog.words[s.category][d.entry]);
      if i != d.imposter {
        assert g.players[i].id != g.players[d.imposter].id;
      }
    }
    assert ImposterSeats(ps) == {d.imposter};
  }

  /**
   * The secret is split as the game needs: the imposter gets the hint only when hints are
   * enabled (otherwise ""), every other seat becomes civilian with the chosen word, and
   * no seat's other secret slot is written.
   */
  lemma StartSplitsSecret(g: GameState, hostId: string, catalog: Catalog, d: Draws, now: int)
    requires DrawsFit(g, catalog, d)
    requires IdsDistinct(g.players)
    requires StartOutcome(Some(g), hostId, catalog, d, now).Started?
    ensures var s := StartOutcome(Some(g), hostId, catalog, d, now).game;
      var ps := s.players;
      var k := d.imposter;
      && s.category in catalog.words && d.entry < |catalog.words[s.category]|
      && k < |ps| && |ps| == |g.players|
      && ps[k].role == Some(Imposter)
      && ps[k].hint == Some(if g.config.hintsEnabled then catalog.words[s.category][d.entry].hint else "")
      && ps[k].word == g.players[k].word
      && (forall i :: 0 <= i < |ps| && i != k ==>
            ps[i].role == Some(Civilian) && ps[i].word == Some(s.currentWord) && ps[i].hint == g.players[i].hint)
  {
    var s := StartOutcome(Some(g), hostId, catalog, d, now).game;
    forall i | 0 <= i < |s.players| && i != d.imposter
      ensures s.players[i].role == Some(Civilian)
    {
      assert g.players[i].id != g.players[d.imposter].id;
    }
  }

  /** On a roster built by joinGame, the imposter never holds the word and no civilian holds a hint. */
  lemma StartKeepsWordFromImposter(g: GameState, hostId: string, catalog: Catalog, d: Draws, now: int)
    requires DrawsFit(g, catalog, d)
    requires IdsDistinct(g.players) && NoSecrets(g.players)
    requires StartOutcome(Some(g), hostId, catalog, d, now).Started?
    ensures var s := StartOutcome(Some(g), hostId, catalog, d, now).game;
      && (forall i :: 0 <= i < |s.players| && s.players[i].role == Some(Imposter) ==> s.players[i].word.None?)
      && (forall i :: 0 <= i < |s.players| && s.players[i].role == Some(Civilian) ==> s.players[i].hint.None?)
      && (!g.config.hintsEnabled ==>
            forall i :: 0 <= i < |s.players| ==> s.players[i].hint.None? || s.players[i].hint == Some(""))
  {
    var s := StartOutcome(Some(g), hostId, catalog, d, now).game;
    StartSplitsSecret(g, hostId, catalog, d, now);
    StartOneImposter(g, hostId, catalog, d, now);
    forall i | 0 <= i < |s.players| && s.players[i].role == Some(Imposter) ensures i == d.imposter {
      assert i in ImposterSeats(s.players);
    }
  }

  /** Seats keep their ids, names, host flags, votes and order; the round is recorded as started now. */
  lemma StartKeepsSeats(g: GameState, hostId: string, catalog: Catalog, d: Draws, now: int)
    requires DrawsFit(g, catalog, d)
    requires StartOutcome(Some(g), hostId, catalog, d, now).Started?
    ensures var s := StartOutcome(Some(g), hostId, catalog, d, now).game;
      && |s.players| == |g.players|
      && (forall i :: 0 <= i < |s.players| ==>
            && s.players[i].id == g.players[i].id && s.players[i].name == g.players[i].name
            && s.players[i].isHost == g.players[i].isHost && s.players[i].votedOut == g.players[i].votedOut)
      && g.status == Lobby && s.status == Playing && s.startedAt == Some(now)
      && s.starterId.Some? && (exists i :: 0 <= i < |s.players| && s.players[i].id == s.starterId.value)
      && s.code == g.code && s.hostId == g.hostId && s.config == g.config
      && s.createdAt == g.createdAt && s.nextGameCode == g.nextGameCode
  {
    var s := StartOutcome(Some(g), hostId, catalog, d, now).game;
    assert s.players[d.starter].id == s.starterId.value;
  }

  /** The category comes from the configured list when it is non-empty, else from the catalog, and the word from its entries. */
  lemma StartPicksCategory(g: GameState, hostId: string, catalog: Catalog, d: Draws, now: int)
    requires DrawsFit(g, catalog, d)
    requires StartOutcome(Some(g), hostId, catalog, d, now).Started?
    ensures var s := StartOutcome(Some(g), hostId, catalog, d, now).game;
      && (|g.config.categories| > 0 ==> s.category in g.config.categories)
      && (|g.config.categories| == 0 ==> s.category in catalog.order)
      && s.category in catalog.words
      && d.entry < |catalog.words[s.category]|
      && s.currentWord == catalog.words[s.category][d.entry].word
  {
  }

  /** A started game cannot be started again. */
  lemma StartOnlyOnce(g: GameState, hostId: string, catalog: Catalog, d: Draws, d': Draws, now: int, now': int)
    requires DrawsFit(g, catalog, d)
    requires StartOutcome(Some(g), hostId, catalog, d, now).Started?
    requires DrawsFit(StartOutcome(Some(g), hostId, catalog, d, now).game, catalog, d')
    ensures StartOutcome(Some(StartOutcome(Some(g), hostId, catalog, d, now).game), hostId, catalog, d', now')
      == Refused("Game already started", 400)
  {
  }

  // ---------------------------------------------------------------- voteOut

  /** voteOut returns false exactly when the code is unknown, the caller is not the host, or nobody holds the target id. */
  lemma VoteRejects(g: Option<GameState>, hostId: string, targetId: string)
    ensures VoteOutcome(g, hostId, targetId).None? <==>
      || g.None?
      || g.value.hostId != hostId
      || (forall i :: 0 <= i < |g.value.players| ==> g.value.players[i].id != targetId)
  {
  }

  /** On success only the target's votedOut flag is set; every other field and seat is kept. */
  lemma VoteMarksTarget(g: GameState, targetId: string, i: nat)
    requires i < |g.players| && g.players[i].id == targetId
    requires forall j :: 0 <= j < i ==> g.players[j].id != targetId
    ensures VoteOutcome(Some(g), g.hostId, targetId) ==
      Some(g.(players := g.players[i := g.players[i].(votedOut := Some(true))]))
  {
  }

  /** Voting out an already voted-out player succeeds and changes nothing. */
  lemma VoteIdempotent(g: GameState, hostId: string, targetId: string)
    requires VoteOutcome(Some(g), hostId, targetId).Some?
    ensures VoteOutcome(VoteOutcome(Some(g), hostId, targetId), hostId, targetId) == VoteOutcome(Some(g), hostId, targetId)
  {
    var i := FindPlayer(g.players, targetId).value;
    var g1 := VoteOutcome(Some(g), hostId, targetId).value;
    assert g1.players[i] == g.players[i].(votedOut := Some(true));
    assert FindPlayer(g1.players, targetId) == Some(i);
    assert g1.players[i := g1.players[i].(votedOut := Some(true))] == g1.players;
  }

  // ---------------------------------------------------------------- across operations

  /** startGame leaves ids and names alone, so it keeps the roster invariant. */
  lemma StartKeepsRoster(g: GameState, hostId: string, catalog: Catalog, d: Draws, now: int)
    requires RosterOk(g)
    requires DrawsFit(g, catalog, d)
    ensures StartOutcome(Some(g), hostId, catalog, d, now).Started? ==> RosterOk(StartOutcome(Some(g), hostId, catalog, d, now).game)
  {
    if StartOutcome(Some(g), hostId, catalog, d, now).Started? {
      StartKeepsSeats(g, hostId, catalog, d, now);
    }
  }

  /** voteOut only flips a vote flag, so it keeps the roster invariant. */
  lemma VoteKeepsRoster(g: GameState, hostId: string, targetId: string)
    requires RosterOk(g)
    ensures VoteOutcome(Some(g), hostId, targetId).Some? ==> RosterOk(VoteOutcome(Some(g), hostId, targetId).value)
  {
  }

  /** The status never goes back to lobby: joinGame and voteOut keep it, startGame only moves lobby to playing. */
  lemma StatusNeverReturnsToLobby(g: GameState, playerId: string, name: string, hostId: string, targetId: string,
                                 catalog: Catalog, d: Draws, now: int)
    requires DrawsFit(g, catalog, d)
    ensures JoinOutcome(Some(g), playerId, name).Some? ==> JoinOutcome(Some(g), playerId, name).value.status == g.status
    ensures VoteOutcome(Some(g), hostId, targetId).Some? ==> VoteOutcome(Some(g), hostId, targetId).value.status == g.status
    ensures StartOutcome(Some(g), hostId, catalog, d, now).Started? ==>
      g.status == Lobby && StartOutcome(Some(g), hostId, catalog, d, now).game.status == Playing
  {
  }
}
