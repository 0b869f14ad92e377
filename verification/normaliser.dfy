/**
 * The record normaliser: one all-text CSV row in, one typed document out.
 * Every field has a fixed fallback, so the normaliser is total. The
 * foreign parsers it calls (`new Date`, `parseFloat`, `JSON.parse`,
 * `eval`) and the clock are parameters.
 */
module Normaliser {
  import opened Wrappers
  import opened Movie
  import opened JsParseInt
  import opened ListField

  /** The foreign parsers the normaliser relies on. */
  datatype Foreign = Foreign(
    parseDate: string -> JsDate,
    parseFloat: string -> Option<real>,
    genres: Decoders<Genre>,
    companies: Decoders<ProductionCompany>,
    countries: Decoders<ProductionCountry>,
    languages: Decoders<SpokenLanguage>,
    keywords: Decoders<Keyword>)

  /** The integer columns: `parseInt(text) || 0`, so NaN becomes 0. */
  predicate IntColumn(v: int, text: string) {
    match ParseInt(text)
    case Some(n) => v == n
    case None => v == 0
  }

  /** The floating-point columns: `parseFloat(text) || 0`. */
  predicate FloatColumn(v: real, text: string, f: Foreign) {
    match f.parseFloat(text)
    case Some(x) => v == x
    case None => v == 0.0
  }

  /**
   * `cleanMovieData`: the default table. Text columns are copied (an empty
   * one stays empty, since `'' || ''` is `''`) except `status`, whose
   * empty value becomes "Unknown"; `adult` holds only for the exact texts
   * "True" and "true"; an empty release date is null and any other text
   * goes through `new Date`; both stamps are the same `now`.
   */
  function CleanMovieData(raw: RawMovie, now: JsDate, f: Foreign): (r: CleanMovie)
    ensures IntColumn(r.movieId, raw.id) && IntColumn(r.runtime, raw.runtime)
    ensures IntColumn(r.budget, raw.budget) && IntColumn(r.revenue, raw.revenue)
    ensures IntColumn(r.voteCount, raw.voteCount)
    ensures FloatColumn(r.voteAverage, raw.voteAverage, f) && FloatColumn(r.popularity, raw.popularity, f)
    ensures r.title == raw.title && r.originalTitle == raw.originalTitle
    ensures r.overview == raw.overview && r.tagline == raw.tagline
    ensures r.originalLanguage == raw.originalLanguage && r.homepage == raw.homepage
    ensures r.imdbId == raw.imdbId
    ensures r.backdropPath == raw.backdropPath && r.posterPath == raw.posterPath
    ensures raw.status != "" ==> r.status == raw.status
    ensures raw.status == "" ==> r.status == "Unknown"
    ensures r.adult <==> raw.adult == "True" || raw.adult == "true"
    ensures r.releaseDate.None? <==> raw.releaseDate == ""
    ensures r.releaseDate.Some? ==> r.releaseDate.value == f.parseDate(raw.releaseDate)
    ensures r.genres == ParseJsonField(raw.genres, f.genres)
    ensures r.productionCompanies == ParseJsonField(raw.productionCompanies, f.companies)
    ensures r.productionCountries == ParseJsonField(raw.productionCountries, f.countries)
    ensures r.spokenLanguages == ParseJsonField(raw.spokenLanguages, f.languages)
    ensures r.keywords == ParseJsonField(raw.keywords, f.keywords)
    ensures StoredAs(r.genres, ParseJsonFieldAsWritten(raw.genres, f.genres))
    ensures StoredAs(r.productionCompanies, ParseJsonFieldAsWritten(raw.productionCompanies, f.companies))
    ensures StoredAs(r.productionCountries, ParseJsonFieldAsWritten(raw.productionCountries, f.countries))
    ensures StoredAs(r.spokenLanguages, ParseJsonFieldAsWritten(raw.spokenLanguages, f.languages))
    ensures StoredAs(r.keywords, ParseJsonFieldAsWritten(raw.keywords, f.keywords))
    ensures r.insertedAt == now && r.updatedAt == now
  {
    CleanMovie(
      movieId := IntOrZero(raw.id),
      title := raw.title,
      originalTitle := raw.originalTitle,
      overview := raw.overview,
      tagline := raw.tagline,
      status := if raw.status == "" then "Unknown" else raw.status,
      releaseDate := if raw.releaseDate == "" then None else Some(f.parseDate(raw.releaseDate)),
      runtime := IntOrZero(raw.runtime),
      adult := raw.adult == "True" || raw.adult == "true",
      originalLanguage := raw.originalLanguage,
      homepage := raw.homepage,
      imdbId := raw.imdbId,
      budget := IntOrZero(raw.budget),
      revenue := IntOrZero(raw.revenue),
      voteAverage := f.parseFloat(raw.voteAverage).GetOr(0.0),
      voteCount := IntOrZero(raw.voteCount),
      popularity := f.parseFloat(raw.popularity).GetOr(0.0),
      backdropPath := raw.backdropPath,
      posterPath := raw.posterPath,
      genres := ParseJsonField(raw.genres, f.genres),
      productionCompanies := ParseJsonField(raw.productionCompanies, f.companies),
      productionCountries := ParseJsonField(raw.productionCountries, f.countries),
      spokenLanguages := ParseJsonField(raw.spokenLanguages, f.languages),
      keywords := ParseJsonField(raw.keywords, f.keywords),
      insertedAt := now,
      updatedAt := now)
  }

  // ---------------------------------------------------------------------
  // The partner of the normaliser: writing a document back out as a row.

  /** The foreign printers that undo the foreign parsers. */
  datatype Printers = Printers(
    formatDate: JsDate -> string,
    formatFloat: real -> string,
    genres: seq<Genre> -> string,
    companies: seq<ProductionCompany> -> string,
    countries: seq<ProductionCountry> -> string,
    languages: seq<SpokenLanguage> -> string,
    keywords: seq<Keyword> -> string)

  /** `text` gets past the reader's guard and its JSON tier decodes it to exactly `xs`. */
  ghost predicate ListReadsBack<T>(text: string, d: Decoders<T>, xs: seq<T>) {
    !IsNullish(text) && d.json(Rewrite(text)) == Some(Array(xs))
  }

  /**
   * The foreign printers write the values of `c` in a form the foreign
   * parsers read back: a non-empty date text `new Date` turns back into the
   * date, float texts `parseFloat` turns back into the numbers, and list
   * texts the JSON tier decodes back into the lists.
   */
  ghost predicate ReadsBack(c: CleanMovie, p: Printers, f: Foreign) {
    && (c.releaseDate.Some? ==>
          p.formatDate(c.releaseDate.value) != "" && f.parseDate(p.formatDate(c.releaseDate.value)) == c.releaseDate.value)
    && f.parseFloat(p.formatFloat(c.voteAverage)) == Some(c.voteAverage)
    && f.parseFloat(p.formatFloat(c.popularity)) == Some(c.popularity)
    && ListReadsBack(p.genres(c.genres), f.genres, c.genres)
    && ListReadsBack(p.companies(c.productionCompanies), f.companies, c.productionCompanies)
    && ListReadsBack(p.countries(c.productionCountries), f.countries, c.productionCountries)
    && ListReadsBack(p.languages(c.spokenLanguages), f.languages, c.spokenLanguages)
    && ListReadsBack(p.keywords(c.keywords), f.keywords, c.keywords)
  }

  /** A document written back as a CSV row: integers in decimal, booleans as Python prints them. */
  function Render(c: CleanMovie, p: Printers): RawMovie {
    RawMovie(
      id := DecimalString(c.movieId),
      title := c.title,
      voteAverage := p.formatFloat(c.voteAverage),
      voteCount := DecimalString(c.voteCount),
      status := c.status,
      releaseDate := match c.releaseDate case None => "" case Some(t) => p.formatDate(t),
      revenue := DecimalString(c.revenue),
      runtime := DecimalString(c.runtime),
      adult := if c.adult then "True" else "False",
      backdropPath := c.backdropPath,
      budget := DecimalString(c.budget),
      homepage := c.homepage,
      imdbId := c.imdbId,
      originalLanguage := c.originalLanguage,
      originalTitle := c.originalTitle,
      overview := c.overview,
      popularity := p.formatFloat(c.popularity),
      posterPath := c.posterPath,
      tagline := c.tagline,
      genres := p.genres(c.genres),
      productionCompanies := p.companies(c.productionCompanies),
      productionCountries := p.countries(c.productionCountries),
      spokenLanguages := p.languages(c.spokenLanguages),
      keywords := p.keywords(c.keywords))
  }

  /** A list text the JSON tier decodes back to `xs` is read as `xs`. */
  lemma ListFieldReadsBack<T>(text: string, d: Decoders<T>, xs: seq<T>)
    requires ListReadsBack(text, d, xs)
    ensures ParseJsonField(text, d) == xs
  {
  }

  /**
   * Round trip: normalising a well-formed row gives back the typed values
   * it was written from, provided the foreign printers write the values
   * of this document in a form the foreign parsers read back. The only
   * such document that cannot come back is one with an empty status (it
   * returns as "Unknown") or with two different stamps.
   */
  lemma NormaliseRenderRoundTrip(c: CleanMovie, p: Printers, f: Foreign)
    requires ReadsBack(c, p, f)
    requires c.status != ""
    requires c.insertedAt == c.updatedAt
    ensures CleanMovieData(Render(c, p), c.insertedAt, f) == c
  {
    var raw := Render(c, p);
    DecimalRoundTrip(c.movieId);
    DecimalRoundTrip(c.runtime);
    DecimalRoundTrip(c.budget);
    DecimalRoundTrip(c.revenue);
    DecimalRoundTrip(c.voteCount);
    ListFieldReadsBack(p.genres(c.genres), f.genres, c.genres);
    ListFieldReadsBack(p.companies(c.productionCompanies), f.companies, c.productionCompanies);
    ListFieldReadsBack(p.countries(c.productionCountries), f.countries, c.productionCountries);
    ListFieldReadsBack(p.languages(c.spokenLanguages), f.languages, c.spokenLanguages);
    ListFieldReadsBack(p.keywords(c.keywords), f.keywords, c.keywords);
    assert raw.adult == "True" <==> c.adult;
    assert f.parseFloat(raw.voteAverage) == Some(c.voteAverage);
    assert f.parseFloat(raw.popularity) == Some(c.popularity);
    var r := CleanMovieData(raw, c.insertedAt, f);
    assert r.releaseDate == c.releaseDate by {
      if c.releaseDate.Some? {
        assert raw.releaseDate == p.formatDate(c.releaseDate.value);
      }
    }
  }

  /**
   * A row that is entirely empty still normalises, to all defaults. The
   * float columns are 0 because `parseFloat("")` is NaN.
   */
  lemma EmptyRowGetsDefaults(raw: RawMovie, now: JsDate, f: Foreign)
    requires raw == RawMovie("", "", "", "", "", "", "", "", "", "", "", "", "", "", "", "", "", "", "", "", "", "", "", "")
    requires f.parseFloat("") == None
    ensures var r := CleanMovieData(raw, now, f);
      && r.movieId == 0 && r.runtime == 0 && r.budget == 0 && r.revenue == 0 && r.voteCount == 0
      && r.voteAverage == 0.0 && r.popularity == 0.0
      && r.status == "Unknown" && r.title == "" && !r.adult && r.releaseDate == None
      && r.genres == [] && r.productionCompanies == [] && r.productionCountries == []
      && r.spokenLanguages == [] && r.keywords == []
  {
    NoLeadingDigitIsNaN("");
  }
}
