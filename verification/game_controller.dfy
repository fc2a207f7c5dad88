/**
 * The response reshaping done by `GameController`: each handler takes the
 * upstream HTTP status code and the already-decoded upstream payload and
 * either answers `Ok` with a narrower structure or forwards the upstream
 * status code with no body.
 */
module GameController {
  import opened Wrappers
  import opened Linq

  // ---------------------------------------------------------------------
  // Data model
  // ---------------------------------------------------------------------

  /** What an action returns: `Ok(value)` or a bare status code with an empty body. */
  datatype ActionResult<T> = Ok(value: T) | StatusCode(code: int)

  /** `HttpResponseMessage.IsSuccessStatusCode`: the status lies in 200..299. */
  predicate IsSuccessStatusCode(status: int) {
    200 <= status <= 299
  }

  /** An upstream genre record. */
  datatype Genre = Genre(name: string)

  /** A genre as this service returns it. */
  datatype GenreInfo = GenreInfo(name: string)

  /** A game entry of an upstream tab; it is passed through untouched, so its shape does not matter. */
  type GameIdInfo(==)

  /** A named group of games in the upstream genre-browsing payload. */
  datatype Tab = Tab(name: string, items: seq<GameIdInfo>)

  /** The `data` part of one upstream app-details entry. */
  datatype GameData = GameData(
    name: string,
    isFree: bool,
    aboutTheGame: string,
    headerImage: string,
    website: string,
    developers: seq<string>,
    publishers: seq<string>)

  /** One value of the upstream app-details mapping; its `Data` may decode to null (`None`). */
  datatype AppDetails = AppDetails(data: Option<GameData>)

  /** The game details this service returns. */
  datatype GameDetails = GameDetails(
    name: string,
    isFree: bool,
    about: string,
    headerImage: string,
    website: string,
    developers: seq<string>,
    publishers: seq<string>)

  /** How many genres `GetGenres` returns at most. */
  const GENRE_LIMIT: nat := 10

  /** How many items `GetGamesByName` takes from each tab. */
  const TAB_ITEM_LIMIT: nat := 5

  /** How many items `GetGamesByName` returns overall. */
  const GAMES_LIMIT: nat := 5

  // ---------------------------------------------------------------------
  // GET /genres
  // ---------------------------------------------------------------------

  /**
   * The genre entries whose name is read: the projection is lazy, so only the
   * first ten entries are dereferenced and only they must be non-null.
   */
  predicate FirstGenresPresent(genres: seq<Option<Genre>>) {
    forall i :: 0 <= i < Min(GENRE_LIMIT, |genres|) ==> genres[i].Some?
  }

  /** Each genre entry becomes a `GenreInfo` carrying the same name, in the same order. */
  function ToGenreInfos(genres: seq<Option<Genre>>): (r: seq<GenreInfo>)
    requires forall i :: 0 <= i < |genres| ==> genres[i].Some?
    ensures |r| == |genres|
    ensures forall i :: 0 <= i < |genres| ==> r[i].name == genres[i].value.name
  {
    seq(|genres|, i requires 0 <= i < |genres| && genres[i].Some? => GenreInfo(genres[i].value.name))
  }

  /**
   * `GetGenres`, given the upstream status and the decoded `Genres` field
   * (`None` when the payload or the field is null; an entry is `None` when
   * it decoded to null).
   */
  function GetGenres(status: int, genres: Option<seq<Option<Genre>>>): (r: ActionResult<seq<GenreInfo>>)
    requires IsSuccessStatusCode(status) && genres.Some? ==> FirstGenresPresent(genres.value)
    ensures r.Ok? <==> IsSuccessStatusCode(status) && genres.Some?
    ensures r.StatusCode? ==> r.code == status
    ensures r.Ok? ==> |r.value| == Min(GENRE_LIMIT, |genres.value|)
    ensures r.Ok? ==> forall i :: 0 <= i < |r.value| ==> r.value[i].name == genres.value[i].value.name
  {
    if IsSuccessStatusCode(status) && genres.Some? then
      Ok(ToGenreInfos(Take(genres.value, GENRE_LIMIT)))
    else
      StatusCode(status)
  }

  /** Entries after the tenth, null or not, never affect the answer. */
  lemma GenresReadOnlyFirstTen(status: int, genres: seq<Option<Genre>>, other: seq<Option<Genre>>)
    requires IsSuccessStatusCode(status) ==> FirstGenresPresent(genres)
    requires Take(genres, GENRE_LIMIT) == Take(other, GENRE_LIMIT)
    ensures IsSuccessStatusCode(status) ==> FirstGenresPresent(other)
    ensures GetGenres(status, Some(genres)) == GetGenres(status, Some(other))
  {
    if IsSuccessStatusCode(status) {
      forall i | 0 <= i < Min(GENRE_LIMIT, |other|)
        ensures other[i].Some?
      {
        assert other[i] == Take(other, GENRE_LIMIT)[i] == genres[i];
      }
    }
  }

  // ---------------------------------------------------------------------
  // GET /games/{name}
  // ---------------------------------------------------------------------

  /**
   * The accumulator after visiting `tabs` in order: each tab contributes its
   * first five items, appended after those of the tabs before it.
   */
  function Collect(tabs: seq<Tab>): (r: seq<GameIdInfo>)
    ensures |r| <= TAB_ITEM_LIMIT * |tabs|
  {
    if tabs == [] then []
    else Collect(tabs[..|tabs| - 1]) + Take(tabs[|tabs| - 1].items, TAB_ITEM_LIMIT)
  }

  /** An independent count of what the tabs contribute: the sum of min(5, |items|). */
  function CappedCount(tabs: seq<Tab>): nat {
    if tabs == [] then 0
    else Min(TAB_ITEM_LIMIT, |tabs[0].items|) + CappedCount(tabs[1..])
  }

  /**
   * What `GetGamesByName` answers for the upstream status and the decoded
   * `tabs` field (`None` when the payload or the field is null), the tabs
   * given in the dictionary's iteration order.
   */
  function GamesByName(status: int, tabs: Option<seq<Tab>>): (r: ActionResult<seq<GameIdInfo>>)
    ensures r.Ok? <==> IsSuccessStatusCode(status) && tabs.Some?
    ensures r.StatusCode? ==> r.code == status
    ensures r.Ok? ==> |r.value| == Min(GAMES_LIMIT, CappedCount(tabs.value))
    ensures r.Ok? ==> r.value <= Collect(tabs.value)
  {
    if IsSuccessStatusCode(status) && tabs.Some? then
      CollectLength(tabs.value);
      Ok(Take(Collect(tabs.value), GAMES_LIMIT))
    else
      StatusCode(status)
  }

  /** `GetGamesByName`: the `foreach`/`AddRange` accumulation, then `Take(5)`. */
  method GetGamesByName(status: int, tabs: Option<seq<Tab>>) returns (r: ActionResult<seq<GameIdInfo>>)
    ensures r == GamesByName(status, tabs)
  {
    if IsSuccessStatusCode(status) && tabs.Some? {
      var values := tabs.value;
      var games: seq<GameIdInfo> := [];
      for i := 0 to |values|
        invariant games == Collect(values[..i])
      {
        assert values[..i + 1][..i] == values[..i];
        games := games + Take(values[i].items, TAB_ITEM_LIMIT);
      }
      assert values[..|values|] == values;
      return Ok(Take(games, GAMES_LIMIT));
    }
    return StatusCode(status);
  }

  /** Collecting can equally be read front to back: the first tab's items come first. */
  lemma {:induction false} CollectCons(tabs: seq<Tab>)
    requires tabs != []
    ensures Collect(tabs) == Take(tabs[0].items, TAB_ITEM_LIMIT) + Collect(tabs[1..])
  {
    if |tabs| == 1 {
      assert tabs[1..] == [];
      assert tabs[..0] == [];
    } else {
      CollectCons(tabs[..|tabs| - 1]);
      CollectConsStep(tabs);
    }
  }

  /** The inductive step of `CollectCons`: from the tabs without the last one to all of them. */
  lemma CollectConsStep(tabs: seq<Tab>)
    requires |tabs| > 1
    requires var init := tabs[..|tabs| - 1];
             Collect(init) == Take(init[0].items, TAB_ITEM_LIMIT) + Collect(init[1..])
    ensures Collect(tabs) == Take(tabs[0].items, TAB_ITEM_LIMIT) + Collect(tabs[1..])
  {
    var init, rest := tabs[..|tabs| - 1], tabs[1..];
    assert init[0] == tabs[0];
    assert init[1..] == rest[..|rest| - 1];
    assert rest[|rest| - 1] == tabs[|tabs| - 1];
  }

  /** The accumulator holds exactly as many items as the tabs' capped sizes add up to. */
  lemma {:induction false} CollectLength(tabs: seq<Tab>)
    ensures |Collect(tabs)| == CappedCount(tabs)
  {
    if tabs != [] {
      CollectCons(tabs);
      CollectLength(tabs[1..]);
    }
  }

  /** The accumulator only grows: what the first `j` tabs contributed stays at its front. */
  lemma {:induction false} CollectPrefix(tabs: seq<Tab>, j: nat)
    requires j <= |tabs|
    ensures Collect(tabs[..j]) <= Collect(tabs)
  {
    if j < |tabs| {
      var init := tabs[..|tabs| - 1];
      CollectPrefix(init, j);
      assert init[..j] == tabs[..j];
    } else {
      assert tabs[..j] == tabs;
    }
  }

  /**
   * Order: tab `t`'s first five items sit in one contiguous block of the
   * accumulator, right after the blocks of the tabs before it.
   */
  lemma CollectBlock(tabs: seq<Tab>, t: nat)
    requires t < |tabs|
    ensures var off := |Collect(tabs[..t])|;
            var block := Take(tabs[t].items, TAB_ITEM_LIMIT);
            off + |block| <= |Collect(tabs)| &&
            Collect(tabs)[off..off + |block|] == block
  {
    CollectPrefix(tabs, t + 1);
    var upTo := tabs[..t + 1];
    assert upTo[..|upTo| - 1] == tabs[..t];
    assert Collect(upTo) == Collect(tabs[..t]) + Take(tabs[t].items, TAB_ITEM_LIMIT);
  }

  /** Every collected item is one of the first five items of some tab. */
  lemma {:induction false} CollectOrigin(tabs: seq<Tab>, k: nat)
    requires k < |Collect(tabs)|
    ensures exists t, p :: 0 <= t < |tabs| && 0 <= p < Min(TAB_ITEM_LIMIT, |tabs[t].items|) &&
                           Collect(tabs)[k] == tabs[t].items[p]
  {
    var init := tabs[..|tabs| - 1];
    var last := |tabs| - 1;
    if k < |Collect(init)| {
      CollectOrigin(init, k);
      var t, p :| 0 <= t < |init| && 0 <= p < Min(TAB_ITEM_LIMIT, |init[t].items|) &&
                  Collect(init)[k] == init[t].items[p];
      assert tabs[t] == init[t];
    } else {
      var p := k - |Collect(init)|;
      assert Collect(tabs)[k] == tabs[last].items[p];
    }
  }

  /** Every game `GetGamesByName` returns is one of the first five items of some tab. */
  lemma GamesComeFromTabPrefixes(status: int, tabs: Option<seq<Tab>>, k: nat)
    requires GamesByName(status, tabs).Ok?
    requires k < |GamesByName(status, tabs).value|
    ensures exists t, p :: 0 <= t < |tabs.value| && 0 <= p < Min(TAB_ITEM_LIMIT, |tabs.value[t].items|) &&
                           GamesByName(status, tabs).value[k] == tabs.value[t].items[p]
  {
    CollectOrigin(tabs.value, k);
  }

  /**
   * Games keep their order: the returned list, read from the offset of tab
   * `t`'s block, shows tab `t`'s items in their own order, for as long as the
   * overall cap leaves room.
   */
  lemma GamesKeepTabOrder(status: int, tabs: Option<seq<Tab>>, t: nat, p: nat)
    requires GamesByName(status, tabs).Ok?
    requires t < |tabs.value| && p < Min(TAB_ITEM_LIMIT, |tabs.value[t].items|)
    requires |Collect(tabs.value[..t])| + p < |GamesByName(status, tabs).value|
    ensures GamesByName(status, tabs).value[|Collect(tabs.value[..t])| + p] == tabs.value[t].items[p]
  {
    CollectBlock(tabs.value, t);
    var off := |Collect(tabs.value[..t])|;
    assert Collect(tabs.value)[off..off + Min(TAB_ITEM_LIMIT, |tabs.value[t].items|)][p] == tabs.value[t].items[p];
  }

  /** With fewer than five items over all tab prefixes, every one of them is returned. */
  lemma GamesWhenFewItems(status: int, tabs: Option<seq<Tab>>)
    requires IsSuccessStatusCode(status) && tabs.Some?
    requires CappedCount(tabs.value) < GAMES_LIMIT
    ensures GamesByName(status, tabs) == Ok(Collect(tabs.value))
    ensures |GamesByName(status, tabs).value| == CappedCount(tabs.value)
  {
    CollectLength(tabs.value);
  }

  /** With at least five items over all tab prefixes, exactly five are returned. */
  lemma GamesWhenManyItems(status: int, tabs: Option<seq<Tab>>)
    requires IsSuccessStatusCode(status) && tabs.Some?
    requires CappedCount(tabs.value) >= GAMES_LIMIT
    ensures |GamesByName(status, tabs).value| == GAMES_LIMIT
  {
    CollectLength(tabs.value);
  }

  /**
   * A first tab with at least five items decides the answer alone: its first
   * five items, whatever the later tabs hold.
   */
  lemma GamesFromFullFirstTab(status: int, tabs: seq<Tab>, others: seq<Tab>)
    requires IsSuccessStatusCode(status)
    requires tabs != [] && |tabs[0].items| >= TAB_ITEM_LIMIT
    requires others != [] && others[0] == tabs[0]
    ensures GamesByName(status, Some(tabs)) == Ok(tabs[0].items[..GAMES_LIMIT])
    ensures GamesByName(status, Some(others)) == GamesByName(status, Some(tabs))
  {
    CollectCons(tabs);
    CollectCons(others);
    var first := Take(tabs[0].items, TAB_ITEM_LIMIT);
    assert first == tabs[0].items[..GAMES_LIMIT];
    assert Collect(tabs)[..GAMES_LIMIT] == first;
    assert Collect(others)[..GAMES_LIMIT] == first;
    assert Take(Collect(tabs), GAMES_LIMIT) == first;
    assert Take(Collect(others), GAMES_LIMIT) == first;
  }

  // ---------------------------------------------------------------------
  // GET /game/{appId}
  // ---------------------------------------------------------------------

  /** The object initializer copying `Data` into `GameDetails`, `AboutTheGame` becoming `About`. */
  function ToGameDetails(d: GameData): (r: GameDetails)
    ensures ToGameData(r) == d
  {
    GameDetails(d.name, d.isFree, d.aboutTheGame, d.headerImage, d.website, d.developers, d.publishers)
  }

  /** The reverse reading of a `GameDetails`, naming which upstream field each value came from. */
  function ToGameData(g: GameDetails): GameData {
    GameData(g.name, g.isFree, g.about, g.headerImage, g.website, g.developers, g.publishers)
  }

  /**
   * The entry that is dereferenced: the value under exactly `appId`, when
   * present, must be non-null and so must its `Data`. Null values under
   * other keys are never read.
   */
  predicate EntryReadable(appId: string, data: map<string, Option<AppDetails>>) {
    appId in data ==> data[appId].Some? && data[appId].value.data.Some?
  }

  /**
   * `GetGameDetails`, given the upstream status, the requested id and the
   * decoded mapping from app id to details (`None` for a null value).
   */
  function GetGameDetails(status: int, appId: string, data: map<string, Option<AppDetails>>): (r: ActionResult<GameDetails>)
    requires IsSuccessStatusCode(status) ==> EntryReadable(appId, data)
    ensures r.Ok? <==> IsSuccessStatusCode(status) && appId in data
    ensures r.StatusCode? ==> r.code == status
    ensures r.Ok? ==> ToGameData(r.value) == data[appId].value.data.value
  {
    if IsSuccessStatusCode(status) && appId in data then
      Ok(ToGameDetails(data[appId].value.data.value))
    else
      StatusCode(status)
  }

  /** The copy loses nothing: reading the details back gives the upstream data, and vice versa. */
  lemma GameDetailsCopyIsLossless(d: GameData, g: GameDetails)
    ensures ToGameData(ToGameDetails(d)) == d
    ensures ToGameDetails(ToGameData(g)) == g
  {
  }

  /** Only the entry under exactly `appId` matters; every other entry of the mapping is ignored. */
  lemma GameDetailsReadsOnlyItsKey(status: int, appId: string,
                                   data: map<string, Option<AppDetails>>, other: map<string, Option<AppDetails>>)
    requires IsSuccessStatusCode(status) ==> EntryReadable(appId, data)
    requires (appId in data) == (appId in other)
    requires appId in data ==> data[appId] == other[appId]
    ensures IsSuccessStatusCode(status) ==> EntryReadable(appId, other)
    ensures GetGameDetails(status, appId, data) == GetGameDetails(status, appId, other)
  {
  }

  // ---------------------------------------------------------------------
  // Failure semantics shared by the three handlers
  // ---------------------------------------------------------------------

  /** A non-success upstream status is forwarded unchanged by every handler, whatever was decoded. */
  lemma UpstreamFailurePassesThrough(status: int, genres: Option<seq<Option<Genre>>>, tabs: Option<seq<Tab>>,
                                     appId: string, data: map<string, Option<AppDetails>>)
    requires !IsSuccessStatusCode(status)
    ensures GetGenres(status, genres) == StatusCode(status)
    ensures GamesByName(status, tabs) == StatusCode(status)
    ensures GetGameDetails(status, appId, data) == StatusCode(status)
  {
  }

  /**
   * A successful call whose expected field is missing is answered with the
   * upstream's own status, which is then a success code with an empty body.
   */
  lemma MissingFieldForwardsSuccessCode(status: int, appId: string, data: map<string, Option<AppDetails>>)
    requires IsSuccessStatusCode(status)
    ensures GetGenres(status, None) == StatusCode(status) && IsSuccessStatusCode(GetGenres(status, None).code)
    ensures GamesByName(status, None) == StatusCode(status) && IsSuccessStatusCode(GamesByName(status, None).code)
    ensures appId !in data ==>
              GetGameDetails(status, appId, data) == StatusCode(status) &&
              IsSuccessStatusCode(GetGameDetails(status, appId, data).code)
  {
  }

  /** The two-genre payload `{"Genres":[{"Name":"Action"},{"Name":"RPG"}]}` under status 200. */
  lemma GenresExample()
    ensures GetGenres(200, Some([Some(Genre("Action")), Some(Genre("RPG"))])) ==
            Ok([GenreInfo("Action"), GenreInfo("RPG")])
  {
    var infos := ToGenreInfos([Some(Genre("Action")), Some(Genre("RPG"))]);
    assert infos == [GenreInfo("Action"), GenreInfo("RPG")];
  }
}
