/** The records the catalogue works with (types.ts), plus the JSON values the import
    file is parsed into. Timestamps stay the strings the app stores; the list views
    turn them into instants through an abstract date parser. */
module Types {
  import opened Wrappers

  /** A saved developer. `tags` is optional: records created before tagging existed,
      or imported without tags, have none. */
  datatype Developer = Developer(
    id: int,
    name: string,
    url: string,
    dateAdded: string,
    iconUrl: string,
    tags: Option<seq<string>>)

  /** A developer as resolved from the store, before it is stamped and tagged
      (`Omit<Developer, 'dateAdded' | 'tags'>`). */
  datatype DeveloperInfo = DeveloperInfo(id: int, name: string, url: string, iconUrl: string)

  /** An application record: the `software` variant of a lookup result, and the
      AppInfo the app list shows (the two share their fields). */
  datatype App = App(
    trackId: int,
    trackName: string,
    artistId: int,
    artistName: string,
    artworkUrl100: string,
    artworkUrl512: string,
    trackViewUrl: string,
    formattedPrice: string,
    genres: seq<string>,
    description: string,
    averageUserRatingForCurrentVersion: Option<real>,
    userRatingCount: Option<int>,
    releaseDate: string,
    artistViewUrl: string,
    screenshotUrls: seq<string>)

  /** The `artist` variant of a lookup result. */
  datatype Artist = Artist(
    artistType: string,
    artistName: string,
    artistLinkUrl: string,
    artistId: int,
    primaryGenreName: string,
    primaryGenreId: int)

  /** One entry of a lookup or search response, tagged by its `wrapperType`.
      `OtherRecord` stands for any other or missing discriminant. */
  datatype LookupRecord =
    | ArtistRecord(artist: Artist)
    | SoftwareRecord(app: App)
    | OtherRecord

  /** The response envelope `{resultCount, results}`. */
  datatype LookupEnvelope = LookupEnvelope(resultCount: int, results: seq<LookupRecord>)

  /** A parsed JSON value. Object members are keyed by name, the last duplicate winning
      as `JSON.parse` does. Numbers are integers here. */
  datatype Json =
    | JNull
    | JBool(b: bool)
    | JNumber(n: int)
    | JString(s: string)
    | JArray(items: seq<Json>)
    | JObject(members: map<string, Json>)

  /** The developer's tags, an absent list read as empty (`developer.tags || []`). */
  function TagsOf(d: Developer): seq<string> {
    d.tags.GetOr([])
  }
}
