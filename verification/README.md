# Game API controller, modelled in Dafny

This project models `GameController`. The controller is a thin backend that
forwards three requests to a public game-store web API and reshapes what
comes back:

- `GET /genres` returns up to 10 genre names, in upstream order.
- `GET /games/{name}` takes up to 5 games from each upstream "tab", in tab
  order, and returns the first 5 of them overall.
- `GET /game/{appId}` copies seven fields of the upstream entry stored under
  exactly `appId`.

When the upstream answered and its body decoded, every other case gets the
upstream HTTP status code back with an empty body. Exceptions thrown by the
HTTP call or by the decoder are a different outcome (see "Left out").

The outbound HTTP call and the JSON decoding are inputs to the model. Each
handler takes two things: the upstream status code, and the decoded payload.
`None` means the payload, the field or the entry decoded to null:

- the genre list arrives as `Option<seq<Option<Genre>>>`;
- the tabs arrive as `Option<seq<Tab>>`;
- the app-details dictionary arrives as `map<string, Option<AppDetails>>`,
  and an `AppDetails` holds an `Option<GameData>`.

A handler's precondition asks for non-null values only where the source
dereferences them. For `GetGenres` that is the first ten genres, because the
projection is lazy. For `GetGameDetails` it is the value under `appId` and its
`Data`. Null entries anywhere else are accepted, as they are in the source. Handler results are `ActionResult<T>`, which is
either `Ok(value)` or `StatusCode(code)`.

Files:

- `wrappers.dfy`: the `Option` datatype.
- `linq.dfy`: `Take`, as LINQ defines it on sequences.
- `game_controller.dfy`: module `GameController`. It holds the DTOs, the
  three handlers, and the lemmas.
  - `GetGenres` and `GetGameDetails` are functions, because the source does
    them with a LINQ pipeline and an object initializer.
  - `GetGamesByName` is a method whose `for` loop mirrors the source's
    `foreach`/`AddRange`. It is proved equal to the pure specification
    `GamesByName`. That specification first builds `Collect(tabs)`, the
    concatenation of each tab's first five items, and then keeps its first
    five.

`IsSuccessStatusCode` is modelled as .NET documents it: a status from 200 to
299 inclusive.

## Model

| member | source | states |
|---|---|---|
| `GameController.GetGenres` | TestAPI/TestAPI/Controllers/GameController.cs:18-29 | Returns `Ok` exactly when the status is a success and `Genres` is non-null; otherwise returns the upstream status unchanged. On `Ok`, returns min(10, N) genres, and genre i has the name of upstream genre i (order kept, nothing sorted). Only the first ten entries must be non-null. |
| `GameController.ToGenreInfos` | TestAPI/TestAPI/Controllers/GameController.cs:24 | The `Select` keeps length and order, and copies each name. |
| `GameController.GenresReadOnlyFirstTen` | TestAPI/TestAPI/Controllers/GameController.cs:24 | Entries after the tenth never affect the answer, even when they are null. |
| `Linq.Take` | TestAPI/TestAPI/Controllers/GameController.cs:24 | `Take(n)` yields a prefix of the input whose length is min(n, length). |
| `GameController.Collect` | TestAPI/TestAPI/Controllers/GameController.cs:59-63 | The accumulator after the `foreach`/`AddRange` over the tabs holds at most 5 items per tab. |
| `GameController.GamesByName` | TestAPI/TestAPI/Controllers/GameController.cs:53-69 | Returns `Ok` exactly when the status is a success and `tabs` is non-null; otherwise returns the upstream status. On `Ok`, returns exactly min(5, sum over tabs of min(5, items)) games, and they form a prefix of the concatenated per-tab prefixes. |
| `GameController.GetGamesByName` | TestAPI/TestAPI/Controllers/GameController.cs:57-65 | The loop over the tabs, appending each tab's first 5 items and then truncating to 5, computes exactly `GamesByName`. The loop invariant says the accumulator equals `Collect` of the tabs visited so far. |
| `GameController.CollectCons` | TestAPI/TestAPI/Controllers/GameController.cs:59-63 | The accumulator starts with the first tab's first 5 items, followed by what the remaining tabs contribute. |
| `GameController.CollectLength` | TestAPI/TestAPI/Controllers/GameController.cs:59-63 | The accumulator's length equals the sum, over all tabs, of min(5, number of items). |
| `GameController.CollectPrefix` | TestAPI/TestAPI/Controllers/GameController.cs:60-63 | The accumulator only grows: after any number of tabs, what is collected so far is a prefix of the final accumulator. |
| `GameController.CollectBlock` | TestAPI/TestAPI/Controllers/GameController.cs:60-63 | The first 5 items of each tab form one contiguous block, in the tab's own order, placed right after the blocks of earlier tabs. |
| `GameController.CollectOrigin` | TestAPI/TestAPI/Controllers/GameController.cs:60-62 | Every accumulated item is one of the first 5 items of some tab. |
| `GameController.GamesComeFromTabPrefixes` | TestAPI/TestAPI/Controllers/GameController.cs:60-65 | Every game returned is one of the first 5 items of some tab. |
| `GameController.GamesKeepTabOrder` | TestAPI/TestAPI/Controllers/GameController.cs:60-65 | In the result, tab t's p-th item sits at tab t's block offset plus p, whenever that position is within the 5 returned. |
| `GameController.GamesWhenFewItems` | TestAPI/TestAPI/Controllers/GameController.cs:59-65 | If the per-tab prefixes hold fewer than 5 items in total, all of them are returned, and the result length equals that total. |
| `GameController.GamesWhenManyItems` | TestAPI/TestAPI/Controllers/GameController.cs:59-65 | If the per-tab prefixes hold at least 5 items in total, exactly 5 games are returned. |
| `GameController.GamesFromFullFirstTab` | TestAPI/TestAPI/Controllers/GameController.cs:62-65 | If the first tab has at least 5 items, the result is exactly its first 5 items. Any tab list with the same first tab gives the same result. |
| `GameController.ToGameDetails` | TestAPI/TestAPI/Controllers/GameController.cs:99-108 | The object initializer copies all seven `GameData` fields, with `AboutTheGame` going to `About`. Reading the result back gives the input exactly. |
| `GameController.GetGameDetails` | TestAPI/TestAPI/Controllers/GameController.cs:93-114 | Returns `Ok` exactly when the status is a success and `appId` is a key of the decoded map; otherwise returns the upstream status. On `Ok`, the details read back as exactly the `Data` stored under `appId`. |
| `GameController.GameDetailsCopyIsLossless` | TestAPI/TestAPI/Controllers/GameController.cs:99-108 | The copy from `GameData` to `GameDetails` is a bijection, with `AboutTheGame` going to `About`. No field is lost or altered. |
| `GameController.GameDetailsReadsOnlyItsKey` | TestAPI/TestAPI/Controllers/GameController.cs:97 | Only the entry stored under exactly `appId` affects the answer; all other entries are ignored, even null ones. |
| `GameController.UpstreamFailurePassesThrough` | TestAPI/TestAPI/Controllers/GameController.cs:15-115 | On a non-success upstream status, all three handlers return that status, whatever was decoded. |
| `GameController.MissingFieldForwardsSuccessCode` | TestAPI/TestAPI/Controllers/GameController.cs:15-115 | If the call succeeded but `Genres` or `tabs` is null, or `appId` is not a key, the handler forwards the upstream status. That status is then a success code with an empty body. |
| `GameController.GenresExample` | TestAPI/TestAPI/Controllers/GameController.cs:21-25 | A status of 200 with genres Action and RPG yields `Ok([Action, RPG])`. |

## Left out

- The outbound `HttpClient.GetAsync` call and the body read are left out, as
  is the `IHttpClientFactory` constructor. They are network I/O, so the
  upstream status and the decoded payload are parameters instead.
- Exceptions are not modelled: one thrown by `GetAsync` on a transport
  failure, or by the decoder on a body it cannot decode (a 200 with an HTML
  body, say, or `tabs` arriving as a JSON array). The source does not catch
  them, so they end the request as an unhandled server error, not as the
  forwarded upstream status. The model has no input for either case.
- The URL each handler builds is left out. It only formats the outbound
  request and is never escaped.
- Newtonsoft JSON decoding is left out. Its output is an input of the model:
  - `GenreResponse` becomes an `Option<seq<Option<Genre>>>`;
  - the `tabs` field of the JSON tree becomes an `Option<seq<Tab>>`;
  - the details dictionary becomes a `map<string, Option<AppDetails>>`,
    and each `AppDetails` holds an `Option<GameData>`.
- .NET does not specify the order in which the tabs dictionary is iterated.
  The tabs are taken as a sequence in whatever order is supplied.
- Crashes on null values are left out, because they are not designed
  behaviour. A precondition or a type excludes each one:
  - a null genre among the first ten (a precondition; later null genres are
    accepted, as in the source);
  - a null tab, or a tab whose `Items` is null (the types; every tab's items
    are read, so these always throw in the source);
  - a null decoded details dictionary (the types);
  - a null value, or a null `Data`, under `appId` (a precondition; null values
    under other keys are accepted, as in the source).
- Null string and array fields are left out: a null `Genre.Name` and the
  null string and array fields of `GameData`. The source copies them verbatim
  without a crash. Their model types, `string` and `seq<string>`, cannot
  represent null, so those payloads have no counterpart in the model.
- The shape of `GameIdInfo` is left out: it is an opaque type with equality.
  The controller only passes these values through, and its declaration is
  not part of this model.
- `async`/`await`, request concurrency, and the routing and Swagger setup in
  `Startup.cs` are left out. None of them contains reshaping logic.
