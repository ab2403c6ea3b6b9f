/**
 * What each GameStore operation does to one stored record, stated on values.
 * The imperative methods of Store.GameStore are proved equal to these functions,
 * and SessionLemmas proves the game's rules about them.
 */
module Session {
  import opened Types
  import opened Ascii

  /** A game whose createdAt is older than three hours before `now` is swept by createGame. */
  const ExpiryMillis: int := 3 * 60 * 60 * 1000

  /** startGame refuses a roster with fewer players than this. */
  const MinPlayers: int := 2

  /** What startGame resolves to: the updated record, a refusal with an HTTP status, or an exception. */
  datatype StartResult =
    | Started(game: GameState)
    | Refused(error: string, status: int)
    | Threw

  /** The random draws of startGame, as indices: category, entry of that category, imposter seat, starter seat. */
  datatype Draws = Draws(category: nat, entry: nat, imposter: nat, starter: nat)

  /** `players.some(p => lower(p.name) == lower(name) && p.id != playerId)`. */
  function NameTaken(ps: seq<Player>, name: string, playerId: string): (r: bool)
    ensures r <==> exists i :: 0 <= i < |ps| && Lower(ps[i].name) == Lower(name) && ps[i].id != playerId
  {
    if |ps| == 0 then false
    else if Lower(ps[0].name) == Lower(name) && ps[0].id != playerId then true
    else
      var r := NameTaken(ps[1..], name, playerId);
      assert forall i :: 1 <= i < |ps| ==> ps[i] == ps[1..][i - 1];
      r
  }

  /** `players.find(p => p.id == id)`, as the seat of the first match. */
  function FindPlayer(ps: seq<Player>, id: string): (r: Option<nat>)
    ensures r.Some? ==> r.value < |ps| && ps[r.value].id == id
    ensures r.Some? ==> forall j :: 0 <= j < r.value ==> ps[j].id != id
    ensures r.None? <==> forall j :: 0 <= j < |ps| ==> ps[j].id != id
  {
    if |ps| == 0 then None
    else if ps[0].id == id then Some(0)
    else match FindPlayer(ps[1..], id)
      case None => None
      case Some(k) => Some(k + 1)
  }

  /** `map.get(code) || null`: the stored record, with no expiry filtering. */
  function Lookup(m: map<string, GameState>, code: string): (r: Option<GameState>)
    ensures r.Some? <==> code in m
    ensures r.Some? ==> r.value == m[code]
  {
    if code in m then Some(m[code]) else None
  }

  /** The in-memory sweep: remove exactly the records created before `now - ExpiryMillis`. */
  function Sweep(m: map<string, GameState>, now: int): (r: map<string, GameState>)
    ensures forall k :: k in r <==> k in m && !(m[k].createdAt < now - ExpiryMillis)
    ensures forall k :: k in r ==> r[k] == m[k]
  {
    map k | k in m && !(m[k].createdAt < now - ExpiryMillis) :: m[k]
  }

  /** The record createGame stores: a lobby with no players and no secret chosen yet. */
  function NewGame(code: string, hostId: string, config: GameConfig, now: int): (r: GameState)
    ensures r.code == code && r.hostId == hostId && r.config == config && r.createdAt == now
    ensures r.status == Lobby && r.players == [] && RosterOk(r)
    ensures r.currentWord == "" && r.imposterId == "" && r.category == ""
    ensures r.starterId.None? && r.startedAt.None? && r.nextGameCode.None?
  {
    GameState(code, hostId, [], Lobby, config, "", "", "", now, None, None, None)
  }

  /** The player joinGame appends: no role, word or hint, not voted out. */
  function NewPlayer(id: string, name: string, isHost: bool): (r: Player)
    ensures r.id == id && r.name == name && r.isHost == isHost
    ensures NoSecrets([r]) && r.votedOut == Some(false)
  {
    Player(id, name, isHost, None, None, None, Some(false))
  }

  /** joinGame on the looked-up record: None when it returns false, otherwise the record it saves. */
  function JoinOutcome(g: Option<GameState>, playerId: string, name: string): (r: Option<GameState>)
    ensures r.Some? ==> g.Some? && r.value == g.value.(players := r.value.players)
    ensures r.Some? ==> |r.value.players| == |g.value.players| || r.value.players == g.value.players + [NewPlayer(playerId, name, g.value.hostId == playerId)]
    ensures r.Some? ==> exists i :: 0 <= i < |r.value.players| && r.value.players[i].id == playerId && r.value.players[i].name == name
  {
    match g
    case None => None
    case Some(game) =>
      if NameTaken(game.players, name, playerId) then None
      else match FindPlayer(game.players, playerId)
        case Some(i) =>
          var players := game.players[i := game.players[i].(name := name)];
          assert players[i].id == playerId;
          Some(game.(players := players))
        case None =>
          if game.status != Lobby then None
          else
            var players := game.players + [NewPlayer(playerId, name, game.hostId == playerId)];
            assert players[|game.players|].id == playerId;
            Some(game.(players := players))
  }

  /** The body of startGame's forEach for one player. */
  function Assigned(p: Player, imposterId: string, hintsEnabled: bool, e: Entry): (r: Player)
    ensures r.id == p.id && r.name == p.name && r.isHost == p.isHost && r.votedOut == p.votedOut
    ensures r.role == Some(Imposter) <==> p.id == imposterId
    ensures r.role == Some(Civilian) <==> p.id != imposterId
    ensures r.role == Some(Imposter) ==> r.word == p.word && r.hint == Some(if hintsEnabled then e.hint else "")
    ensures r.role == Some(Civilian) ==> r.word == Some(e.word) && r.hint == p.hint
  {
    if p.id == imposterId then
      p.(role := Some(Imposter), hint := Some(if hintsEnabled then e.hint else ""))
    else
      p.(role := Some(Civilian), word := Some(e.word))
  }

  /** The whole forEach: every seat as Assigned leaves it, in the same order. */
  function AssignRoles(ps: seq<Player>, imposterId: string, hintsEnabled: bool, e: Entry): (r: seq<Player>)
    ensures |r| == |ps|
    ensures forall i :: 0 <= i < |ps| ==> r[i].id == ps[i].id && r[i].name == ps[i].name
    ensures forall i :: 0 <= i < |ps| ==> (r[i].role == Some(Imposter) <==> ps[i].id == imposterId)
  {
    seq(|ps|, i requires 0 <= i < |ps| => Assigned(ps[i], imposterId, hintsEnabled, e))
  }

  /** The configured categories when there are any, otherwise every catalog category. */
  function CategoryKeys(config: GameConfig, catalog: Catalog): (r: seq<string>)
    ensures |r| == 0 <==> |config.categories| == 0 && |catalog.order| == 0
    ensures forall k :: k in r ==> (k in config.categories) || (|config.categories| == 0 && k in catalog.order)
  {
    if |config.categories| > 0 then config.categories else catalog.order
  }

  /**
   * `Math.floor(Math.random() * n)` lies below n whenever n is positive; this is all
   * the model assumes of the draws.
   */
  predicate DrawsFit(g: GameState, catalog: Catalog, d: Draws): (r: bool)
    ensures d == Draws(0, 0, 0, 0) ==> r
  {
    var keys := CategoryKeys(g.config, catalog);
    && (|keys| > 0 ==> d.category < |keys|)
    && (|keys| > 0 && keys[d.category] in catalog.words ==>
          (|catalog.words[keys[d.category]]| > 0 ==> d.entry < |catalog.words[keys[d.category]]|))
    && (|g.players| > 0 ==> d.imposter < |g.players| && d.starter < |g.players|)
  }

  /**
   * startGame on the looked-up record. The checks run in order and the first failing one
   * decides the refusal. A drawn category that has no entry list, or an empty one, or no
   * category to draw from at all, makes the body dereference undefined: Threw.
   */
  function StartOutcome(g: Option<GameState>, hostId: string, catalog: Catalog, d: Draws, now: int): (r: StartResult)
    requires g.Some? ==> DrawsFit(g.value, catalog, d)
    ensures r.Started? ==> g.Some? && g.value.status == Lobby && r.game.status == Playing
    ensures r.Started? ==> |r.game.players| == |g.value.players| >= MinPlayers && r.game.hostId == hostId
    ensures !r.Started? ==> g.None? || g.value.hostId != hostId || g.value.status != Lobby || |g.value.players| < MinPlayers || r.Threw?
  {
    match g
    case None => Refused("Game not found", 404)
    case Some(game) =>
      if game.hostId != hostId then Refused("Only host can start", 403)
      else if game.status != Lobby then Refused("Game already started", 400)
      else if |game.players| < MinPlayers then Refused("Need at least 2 players", 400)
      else
        var keys := CategoryKeys(game.config, catalog);
        if |keys| == 0 || keys[d.category] !in catalog.words || |catalog.words[keys[d.category]]| == 0 then Threw
        else
          var category := keys[d.category];
          var entry := catalog.words[category][d.entry];
          var imposterId := game.players[d.imposter].id;
          Started(game.(
            players := AssignRoles(game.players, imposterId, game.config.hintsEnabled, entry),
            category := category,
            currentWord := entry.word,
            imposterId := imposterId,
            starterId := Some(game.players[d.starter].id),
            status := Playing,
            startedAt := Some(now)))
  }

  /** voteOut on the looked-up record: None when it returns false, otherwise the record it saves. */
  function VoteOutcome(g: Option<GameState>, hostId: string, targetId: string): (r: Option<GameState>)
    ensures r.Some? ==> g.Some? && g.value.hostId == hostId && r.value == g.value.(players := r.value.players)
    ensures r.Some? ==> |r.value.players| == |g.value.players|
    ensures r.Some? ==> exists i :: 0 <= i < |r.value.players| && r.value.players[i].id == targetId && r.value.players[i].votedOut == Some(true)
  {
    match g
    case None => None
    case Some(game) =>
      if game.hostId != hostId then None
      else match FindPlayer(game.players, targetId)
        case None => None
        case Some(i) =>
          var players := game.players[i := game.players[i].(votedOut := Some(true))];
          assert players[i].id == targetId;
          Some(game.(players := players))
  }

  /** A catalog as Object.keys reports it: `order` lists each category of `words` exactly once. */
  predicate CatalogOk(catalog: Catalog) {
    && (forall k :: k in catalog.order ==> k in catalog.words)
    && (forall k :: k in catalog.words ==> k in catalog.order)
    && (forall i, j :: 0 <= i < j < |catalog.order| ==> catalog.order[i] != catalog.order[j])
  }

  /** No two seats share an id. */
  predicate IdsDistinct(ps: seq<Player>) {
    forall i, j :: 0 <= i < j < |ps| ==> ps[i].id != ps[j].id
  }

  /** No two seats share a name, ignoring case. */
  predicate NamesDistinct(ps: seq<Player>) {
    forall i, j :: 0 <= i < j < |ps| ==> Lower(ps[i].name) != Lower(ps[j].name)
  }

  predicate RosterOk(g: GameState) {
    IdsDistinct(g.players) && NamesDistinct(g.players)
  }

  /** No seat has been given a role, word or hint: what createGame and joinGame build. */
  predicate NoSecrets(ps: seq<Player>) {
    forall i :: 0 <= i < |ps| ==> ps[i].role.None? && ps[i].word.None? && ps[i].hint.None?
  }

  /** The seats holding the imposter role. */
  function ImposterSeats(ps: seq<Player>): set<nat> {
    set i: nat | i < |ps| && ps[i].role == Some(Imposter)
  }
}
