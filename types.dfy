/** The records of one game session (src/lib/types.ts). Optional TypeScript fields become Option. */
module Types {

  datatype Option<T> = None | Some(value: T)

  datatype Role = Imposter | Civilian

  datatype Status = Lobby | Playing | Finished

  datatype Player = Player(
    id: string,
    name: string,
    isHost: bool,
    role: Option<Role>,
    word: Option<string>,
    hint: Option<string>,
    votedOut: Option<bool>)

  datatype GameConfig = GameConfig(categories: seq<string>, hintsEnabled: bool)

  /** `startedAt` is not declared in the TypeScript type but is assigned by startGame. */
  datatype GameState = GameState(
    code: string,
    hostId: string,
    players: seq<Player>,
    status: Status,
    config: GameConfig,
    currentWord: string,
    imposterId: string,
    category: string,
    createdAt: int,
    nextGameCode: Option<string>,
    starterId: Option<string>,
    startedAt: Option<int>)

  /** One word of the catalog with the hint an imposter may be given. */
  datatype Entry = Entry(word: string, hint: string)

  /** The word catalog: category name to entries, with the key order that Object.keys reports. */
  datatype Catalog = Catalog(order: seq<string>, words: map<string, seq<Entry>>)
}
