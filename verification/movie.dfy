/**
 * The record shapes of the importer: the nested list entries, the all-text
 * row read from the CSV file, and the typed document written to the
 * database.
 */
module Movie {
  import opened Wrappers

  /** An entry of the `genres` list. */
  datatype Genre = Genre(id: int, name: string)

  /** An entry of `production_companies`; only the logo path may be absent. */
  datatype ProductionCompany =
    ProductionCompany(id: int, name: string, logoPath: Option<string>, originCountry: string)

  /** An entry of `production_countries`, keyed by its ISO 3166-1 code. */
  datatype ProductionCountry = ProductionCountry(iso3166_1: string, name: string)

  /** An entry of `spoken_languages`, keyed by its ISO 639-1 code. */
  datatype SpokenLanguage = SpokenLanguage(iso639_1: string, name: string, englishName: string)

  /** An entry of the `keywords` list. */
  datatype Keyword = Keyword(id: int, name: string)

  /**
   * A JavaScript `Date`: either a point in time (milliseconds since the
   * epoch) or the "Invalid Date" that `new Date` yields for text it cannot
   * read.
   */
  datatype JsDate = Valid(epochMillis: int) | Invalid

  /**
   * One CSV row. Every column is untyped text, including the numeric,
   * boolean, date and nested-list columns.
   */
  datatype RawMovie = RawMovie(
    id: string,
    title: string,
    voteAverage: string,
    voteCount: string,
    status: string,
    releaseDate: string,
    revenue: string,
    runtime: string,
    adult: string,
    backdropPath: string,
    budget: string,
    homepage: string,
    imdbId: string,
    originalLanguage: string,
    originalTitle: string,
    overview: string,
    popularity: string,
    posterPath: string,
    tagline: string,
    genres: string,
    productionCompanies: string,
    productionCountries: string,
    spokenLanguages: string,
    keywords: string)

  /**
   * The normalised document. `releaseDate` is the only field that may be
   * null; the two provenance stamps are always dates. JavaScript numbers
   * are modelled as `int` for the integer columns and `real` for the two
   * floating-point columns.
   */
  datatype CleanMovie = CleanMovie(
    movieId: int,
    title: string,
    originalTitle: string,
    overview: string,
    tagline: string,
    status: string,
    releaseDate: Option<JsDate>,
    runtime: int,
    adult: bool,
    originalLanguage: string,
    homepage: string,
    imdbId: string,
    budget: int,
    revenue: int,
    voteAverage: real,
    voteCount: int,
    popularity: real,
    backdropPath: string,
    posterPath: string,
    genres: seq<Genre>,
    productionCompanies: seq<ProductionCompany>,
    productionCountries: seq<ProductionCountry>,
    spokenLanguages: seq<SpokenLanguage>,
    keywords: seq<Keyword>,
    insertedAt: JsDate,
    updatedAt: JsDate)
}
