# Weather server core, modelled in Dafny

This project models the two pieces of the weather backend that make decisions.

- **The side-menu favourite-location service** keeps a per-device list of saved places in the
  COM_FAVORITE_LOCATIONS table, through a persistence mapper. Adding a place first checks the
  exact key (device id, latitude, longitude). It then inserts the row, fails when the insert
  wrote no row, and otherwise re-reads the device's list and returns the first entry at the
  requested coordinates. Deleting a place and changing its sort order address a row by the same
  key, and each fails when the database reports that no row was affected. Listing and the
  duplicate check are read-only.
- **The Open-Meteo API manager** builds the outbound URL from a routing flag and a parameter
  bag. `weather` selects the forecast endpoint, `airPollution` the air-quality endpoint, and any
  other flag selects none. The manager then wraps the HTTP client's answer as an optional body.
  An older copy of the manager, kept in the nested project directory, has no flag and always
  targets the forecast endpoint. Both copies are modelled, and the model proves that they agree.

Files and modules:

| file | module | what it holds |
|---|---|---|
| `wrappers.dfy` | `Wrappers` | `Option`, standing for Java's nullable references and `Optional` |
| `favorite_table.dfy` | `FavoriteTable` | the row and request records, and what each mapper statement does to a sequence of rows, with lemmas |
| `favorite_mapper.dfy` | `FavoriteMapper` | the mapper as a class holding the whole table as a `seq<Row>` |
| `favorite_service.dfy` | `FavoriteService` | the service class, the first-match search, and a client run |
| `api_call.dfy` | `ApiCall` | the parameter bag, `StringBuilder.append` of a map lookup, and the HTTP client's outcome |
| `open_api_manager.dfy` | `OpenApiManager` | the flag-routed URL builder and `executeContext` |
| `legacy_open_api_manager.dfy` | `LegacyOpenApiManager` | the older, single-endpoint copy |

Conventions used by the model:

- Coordinates are an abstract type `Coord` that supports only equality. The code never does
  arithmetic on them, and it matches them exactly, with no tolerance.
- The database's answer to an INSERT is an input, `InsertOutcome`. It is either `Stored(createdAt)`,
  meaning the row was written with that creation time, or `Refused`, meaning no row was written.
  Sequence numbers come from a counter held by the store.
- The HTTP call is an input too: a function from the URL to `CallOutcome`, which is either
  `Threw` or `Responded(body)` with a body that may be null.
- Parameter values are held as text. A key that is absent is appended as the text `null`,
  as Java's `StringBuilder.append(Object)` does with `null`.
- The service's exceptions become a `Result` with one `Failure` per error message:
  `AlreadyRegistered`, `SaveFailed`, `DeleteFailed` and `SortOrderUpdateFailed`. The code raises
  one `RuntimeException` type with four different messages, and the model keeps those four apart.
- For an unknown flag, the code emits neither a base URL nor a path, so the URL begins with
  `?latitude=`. The model follows the code here as well.

## Model

| member | source | states |
|---|---|---|
| `FavoriteService.SmFavoriteLocationService.AddSmFavoriteLocation` | src/main/java/com/server/KH_StudyProjects_WeatherServer/common/sidemenu/service/SmFavoriteLocationService.java:51-69 | If the key already exists, the result is AlreadyRegistered and the table is unchanged. If the INSERT writes no row, the result is SaveFailed and the table is unchanged. Otherwise exactly one new row is appended, and the result is the first entry of the re-read device list at the requested coordinates, which is that new row. A success always returns a row at exactly the requested coordinates, whose key then exists. The new row's sequence number differs from every earlier row's. Unique keys stay unique. |
| `FavoriteService.SmFavoriteLocationService.GetSmFavoriteLocations` | src/main/java/com/server/KH_StudyProjects_WeatherServer/common/sidemenu/service/SmFavoriteLocationService.java:84-88 | Returns the list query's answer unchanged. Every entry belongs to the device, and the length equals the count query. |
| `FavoriteService.SmFavoriteLocationService.DeleteSmFavoriteLocation` | src/main/java/com/server/KH_StudyProjects_WeatherServer/common/sidemenu/service/SmFavoriteLocationService.java:104-114 | Succeeds exactly when the key existed, and fails with DeleteFailed otherwise. Exactly the rows with that key are removed, so the key no longer exists. Every other device's list is unchanged. With unique keys, the table shrinks by one on success and by none on failure. |
| `FavoriteService.SmFavoriteLocationService.CheckDuplicateLocation` | src/main/java/com/server/KH_StudyProjects_WeatherServer/common/sidemenu/service/SmFavoriteLocationService.java:132-137 | Read-only. Returns the existence query's answer, which holds exactly when the device's list has an entry at those exact coordinates. |
| `FavoriteService.SmFavoriteLocationService.UpdateSmFavoriteLocationSortOrder` | src/main/java/com/server/KH_StudyProjects_WeatherServer/common/sidemenu/service/SmFavoriteLocationService.java:154-166 | Succeeds exactly when the key existed, and fails with SortOrderUpdateFailed otherwise. The table keeps its length, and every row stays equal to its old self except for its sort order. Only rows with the key get the new sort order. Other devices' lists are unchanged, and unique keys stay unique. |
| `FavoriteService.SmFavoriteLocationService.GetSmFavoriteLocationByCoordinates` | src/main/java/com/server/KH_StudyProjects_WeatherServer/common/sidemenu/service/SmFavoriteLocationService.java:184-191 | Returns the first entry of the device's list at the coordinates. A returned entry belongs to the device and lies at exactly those coordinates. The result is null exactly when the key does not exist. |
| `FavoriteService.FirstByCoordinates` | src/main/java/com/server/KH_StudyProjects_WeatherServer/common/sidemenu/service/SmFavoriteLocationService.java:187-190 | The filter and findFirst step. The result is null exactly when no entry lies at the coordinates. A found entry is in the list and lies at exactly those coordinates. |
| `FavoriteService.FirstMatchWins` | src/main/java/com/server/KH_StudyProjects_WeatherServer/common/sidemenu/service/SmFavoriteLocationService.java:187-189 | First match wins: a matching entry with no match before it is the one returned. |
| `FavoriteService.FirstByCoordinatesSkips` | src/main/java/com/server/KH_StudyProjects_WeatherServer/common/sidemenu/service/SmFavoriteLocationService.java:187-189 | Entries at other coordinates placed in front of a list do not change which entry is found. |
| `FavoriteService.HasKeyIffListed` | src/main/java/com/server/KH_StudyProjects_WeatherServer/common/sidemenu/service/SmFavoriteLocationService.java:55-56 | The existence check agrees with the list: a key exists exactly when the device's list has an entry at those coordinates. |
| `FavoriteMapper.FavoriteLocationMapper.InsertFavoriteLocation` | src/main/java/com/server/KH_StudyProjects_WeatherServer/common/sidemenu/mapper/SmFavoriteLocationMapper.java:32 | A refused INSERT reports 0 and changes nothing. A stored INSERT reports 1 and appends one row holding the request's fields, the next sequence number and the creation time, with no sort order. That sequence number differs from every row already stored, and stored sequence numbers stay pairwise distinct and below the generator's next value. |
| `FavoriteMapper.FavoriteLocationMapper.SelectFavoriteLocationsByUserId` | src/main/java/com/server/KH_StudyProjects_WeatherServer/common/sidemenu/mapper/SmFavoriteLocationMapper.java:37 | The list holds exactly the table's rows that carry the device id. |
| `FavoriteMapper.FavoriteLocationMapper.ExistsByLatitudeAndLongitude` | src/main/java/com/server/KH_StudyProjects_WeatherServer/common/sidemenu/mapper/SmFavoriteLocationMapper.java:42-44 | The answer is true exactly when some row carries the device id, the latitude and the longitude. |
| `FavoriteMapper.FavoriteLocationMapper.CountFavoriteLocationsByDeviceId` | src/main/java/com/server/KH_StudyProjects_WeatherServer/common/sidemenu/mapper/SmFavoriteLocationMapper.java:49 | The count equals the length of the device's list. |
| `FavoriteMapper.FavoriteLocationMapper.DeleteFavoriteLocation` | src/main/java/com/server/KH_StudyProjects_WeatherServer/common/sidemenu/mapper/SmFavoriteLocationMapper.java:54-56 | Reports how many rows carried the key, and leaves the table without them. |
| `FavoriteMapper.FavoriteLocationMapper.UpdateFavoriteLocationSortOrder` | src/main/java/com/server/KH_StudyProjects_WeatherServer/common/sidemenu/mapper/SmFavoriteLocationMapper.java:61-64 | Reports how many rows carried the key, and sets their sort order. Sequence numbers stay distinct and below the generator's next value. |
| `FavoriteMapper.WithSortOrderKeeps` | src/main/java/com/server/KH_StudyProjects_WeatherServer/common/sidemenu/mapper/SmFavoriteLocationMapper.java:61-64 | After a sort-order update, row i still carries row i's own sequence number, so distinct sequence numbers stay distinct. |
| `FavoriteTable.RowsOf` | src/main/java/com/server/KH_StudyProjects_WeatherServer/common/sidemenu/mapper/SmFavoriteLocationMapper.java:37 | The device's list holds exactly the rows that carry its id, and is no longer than the table. |
| `FavoriteTable.DeviceCount` | src/main/java/com/server/KH_StudyProjects_WeatherServer/common/sidemenu/mapper/SmFavoriteLocationMapper.java:49 | Counting row by row gives the length of the device's list. |
| `FavoriteTable.MatchCount` | src/main/java/com/server/KH_StudyProjects_WeatherServer/common/sidemenu/mapper/SmFavoriteLocationMapper.java:42-56 | The number of rows with the key is positive exactly when the key exists, and is at most the table size. |
| `FavoriteTable.Without` | src/main/java/com/server/KH_StudyProjects_WeatherServer/common/sidemenu/mapper/SmFavoriteLocationMapper.java:54-56 | After a delete, exactly the rows without the key remain, and the table is shorter by the match count. |
| `FavoriteTable.WithSortOrder` | src/main/java/com/server/KH_StudyProjects_WeatherServer/common/sidemenu/mapper/SmFavoriteLocationMapper.java:61-64 | An update keeps the table's length. |
| `FavoriteTable.RowsOfAppend` | src/main/java/com/server/KH_StudyProjects_WeatherServer/common/sidemenu/service/SmFavoriteLocationService.java:61-65 | An inserted row appears at the end of its own device's list and in no other device's list. |
| `FavoriteTable.UniqueKeyMatchesAtMostOnce` | src/main/java/com/server/KH_StudyProjects_WeatherServer/common/sidemenu/service/SmFavoriteLocationService.java:104-113 | In a table with unique keys, a delete or update affects at most one row. |
| `FavoriteTable.AppendKeepsKeysUnique` | src/main/java/com/server/KH_StudyProjects_WeatherServer/common/sidemenu/service/SmFavoriteLocationService.java:54-61 | Inserting only after a negative duplicate check keeps keys unique. |
| `FavoriteTable.WithoutKeepsOtherDevices` | src/main/java/com/server/KH_StudyProjects_WeatherServer/common/sidemenu/service/SmFavoriteLocationService.java:95-97 | A delete leaves every other device's list exactly as it was. |
| `FavoriteTable.WithoutKeepsKeysUnique` | src/main/java/com/server/KH_StudyProjects_WeatherServer/common/sidemenu/service/SmFavoriteLocationService.java:104-113 | A delete keeps keys unique. |
| `FavoriteTable.WithoutKeepsSeqNosDistinct` | src/main/java/com/server/KH_StudyProjects_WeatherServer/common/sidemenu/mapper/SmFavoriteLocationMapper.java:54-56 | A delete keeps sequence numbers pairwise distinct. |
| `FavoriteTable.WithSortOrderAt` | src/main/java/com/server/KH_StudyProjects_WeatherServer/common/sidemenu/service/SmFavoriteLocationService.java:158-159 | Row i gets the new sort order exactly when it carries the key. Every other row is untouched. |
| `FavoriteTable.WithSortOrderOnlyTouchesSortOrder` | src/main/java/com/server/KH_StudyProjects_WeatherServer/common/sidemenu/service/SmFavoriteLocationService.java:144-146 | An update changes nothing but sort orders. Positions, keys, sequence numbers, labels and timestamps are kept. |
| `FavoriteTable.WithSortOrderKeepsOtherDevices` | src/main/java/com/server/KH_StudyProjects_WeatherServer/common/sidemenu/service/SmFavoriteLocationService.java:144-146 | An update leaves every other device's list exactly as it was. |
| `FavoriteTable.WithSortOrderKeepsKeysUnique` | src/main/java/com/server/KH_StudyProjects_WeatherServer/common/sidemenu/service/SmFavoriteLocationService.java:154-159 | An update keeps keys unique. |
| `ApiCall.CatchToOptional` | src/main/java/com/server/KH_StudyProjects_WeatherServer/component/OpenApiManager.java:26-33 | A thrown call gives empty. An answered call gives its body wrapped as present, and gives empty when the body is null. |
| `OpenApiManager.MakeUrl` | src/main/java/com/server/KH_StudyProjects_WeatherServer/component/OpenApiManager.java:38-57 | The URL starts with the flag's endpoint followed by `?latitude=`. It ends with `&longitude=`, the longitude, `&` and the raw query fragment, with no escaping. |
| `OpenApiManager.ExecuteContext` | src/main/java/com/server/KH_StudyProjects_WeatherServer/component/OpenApiManager.java:22-34 | The call is made on the built URL. A throw gives empty, and an answer gives its possibly-null body. |
| `OpenApiManager.EndpointsSpelled` | src/main/java/com/server/KH_StudyProjects_WeatherServer/component/OpenApiManager.java:17-18 | The two endpoints spell `https://api.open-meteo.com/v1/forecast` and `https://air-quality-api.open-meteo.com/v1/air-quality`. |
| `OpenApiManager.UrlPrefixes` | src/main/java/com/server/KH_StudyProjects_WeatherServer/component/OpenApiManager.java:39-52 | With `weather` the URL starts with the forecast endpoint, and with `airPollution` with the air-quality endpoint. With any other flag it starts with `?latitude=`. |
| `OpenApiManager.RouteRoundTrip` | src/main/java/com/server/KH_StudyProjects_WeatherServer/component/OpenApiManager.java:39-50 | The route can be read back from any URL. The branches are exclusive: a URL never starts with the forecast endpoint unless the flag is `weather`, and never with the air-quality endpoint unless the flag is `airPollution`. |
| `OpenApiManager.ExactlyOneBaseUrl` | src/main/java/com/server/KH_StudyProjects_WeatherServer/component/OpenApiManager.java:17-50 | The forecast base URL is emitted exactly for `weather`, and the air-quality base URL exactly for `airPollution`. |
| `OpenApiManager.QueryAfterEndpoint` | src/main/java/com/server/KH_StudyProjects_WeatherServer/component/OpenApiManager.java:51-54 | Everything after the endpoint is the query string, whatever the parameter values contain. |
| `OpenApiManager.AbsentLatitude` | src/main/java/com/server/KH_StudyProjects_WeatherServer/component/OpenApiManager.java:52 | A bag without a latitude yields the literal text `?latitude=null` after the endpoint. |
| `OpenApiManager.PresentParamsVerbatim` | src/main/java/com/server/KH_StudyProjects_WeatherServer/component/OpenApiManager.java:51-54 | With all three keys present, the query after the endpoint holds their values verbatim and unescaped. |
| `OpenApiManager.ForecastExample` | src/main/java/com/server/KH_StudyProjects_WeatherServer/component/OpenApiManager.java:38-57 | Latitude 37.5, longitude 127.0 and `hourly=temperature_2m` with `weather` give the forecast URL with exactly those parameters. |
| `OpenApiManager.AirQualityExample` | src/main/java/com/server/KH_StudyProjects_WeatherServer/component/OpenApiManager.java:38-57 | The same parameters with `airPollution` give the air-quality URL. |
| `LegacyOpenApiManager.MakeUrl` | KH_StudyProjects_WeatherServer/src/main/java/com/server/KH_StudyProjects_WeatherServer/component/OpenApiManager.java:35-45 | The URL always starts with `https://api.open-meteo.com/v1/forecast?latitude=`. It ends with `&longitude=`, the longitude, `&` and the raw query fragment. |
| `LegacyOpenApiManager.ExecuteContext` | KH_StudyProjects_WeatherServer/src/main/java/com/server/KH_StudyProjects_WeatherServer/component/OpenApiManager.java:20-32 | A throw gives empty. The result is present exactly when the call answered with a non-null body, and an answer gives exactly its body. |
| `LegacyOpenApiManager.SameAsWeatherRoute` | KH_StudyProjects_WeatherServer/src/main/java/com/server/KH_StudyProjects_WeatherServer/component/OpenApiManager.java:35-45 | The older copy's URL equals the newer copy's URL for the `weather` flag. |
| `LegacyOpenApiManager.ExecuteSameAsWeatherRoute` | KH_StudyProjects_WeatherServer/src/main/java/com/server/KH_StudyProjects_WeatherServer/component/OpenApiManager.java:20-32 | Both copies give the same answer for the forecast call. |
| `LegacyOpenApiManager.AlwaysForecastRoute` | KH_StudyProjects_WeatherServer/src/main/java/com/server/KH_StudyProjects_WeatherServer/component/OpenApiManager.java:17-37 | Every URL of the older copy reads back as the forecast route. |

## Left out

- List ordering: the list query's ORDER BY (sort order ascending, then creation time descending) lives in mapper SQL that is not part of this model. The model's list comes back in table order. The model does not prove that the service properties hold for any other order. We argue they do, because the service passes the list through and its only order-sensitive step, taking the first match at given coordinates, sees at most one match while keys are unique. That argument is not a proved lemma.
- Concurrency and `@Transactional`: the model is sequential. It therefore does not show the race in which two concurrent adds both pass the duplicate check. Key uniqueness is proved only for sequential use of the service.
- Infrastructure failures: database exceptions and lost connections are not modelled. The one store failure modelled is an INSERT that reports zero rows.
- Network I/O, URI parsing and JSON decoding: these become the call outcome given to `ExecuteContext`.
- Logging: not modelled.
- A null routing flag or a null parameter map: in the code these throw inside `makeUrl`, outside the try block. The model takes both as non-null.
- `region3DepthHName`: it is part of the request, but the response record has no such field, so the stored row in the model does not carry it.
- Controllers, the response envelope and the global exception handler are not part of this model.
  - The add endpoint's required-field check appears only in the types: the address name, coordinates and device id of a `Request` cannot be null.
  - The delete endpoint uses a return value that the service's `void` delete does not produce. The model's delete therefore returns only success or failure.
- FavoriteService.SmFavoriteLocationService.AddSmFavoriteLocation: the store keeps the request's coordinates exactly, and the list query returns every stored row. The source re-reads the row after a successful insert and returns null when no listed row equals the request's coordinates, which can happen if the schema rounds a stored double. In the model that null return after a successful insert cannot happen.
- Coordinates are treated as opaque values, not floating-point numbers. Java's `Double.equals` and SQL equality on doubles are both modelled as plain equality.
