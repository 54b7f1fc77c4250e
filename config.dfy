/**
 * Configuration constants of the event scraper and the two URL builders that
 * turn the three filters (date range, category, location) into query strings.
 */
module Config {
  import opened Text

  const ValidDateRanges: seq<string> :=
    ["today", "tomorrow", "this-week", "next-week", "this-month", "next-month", "all"]
  const DefaultDateRange: string := "today"

  const ValidCategories: seq<string> :=
    ["entertainment", "arts-and-crafts", "health-and-wellness", "recreation",
     "social-clubs", "special-events", "sports", "all"]
  const DefaultCategory: string := "entertainment"

  const ValidLocations: seq<string> :=
    ["town-squares", "Lake+Sumter+Landing+Market+Square", "Spanish+Springs+Town+Square",
     "Brownwood+Paddock+Square", "Sawgrass+Grove", "The+Show+Kitchen+at+Sawgrass+Grove",
     "entertainment", "The+Sharon", "The+Studio+Theatre+at+Tierra+Del+Sol",
     "sports-recreation", "Savannah+Recreation", "sports", "executive-golf", "Polo+Club", "all"]
  const DefaultLocation: string := "town-squares"

  /** Keyword to abbreviation, in dict insertion order. */
  const DefaultVenueMappings: seq<(string, string)> :=
    [("Brownwood", "Brownwood"), ("Sawgrass", "Sawgrass"),
     ("Spanish Springs", "Spanish Springs"), ("Lake Sumter", "Lake Sumter")]

  const DefaultTimeout: nat := 10

  const ValidFormats: seq<string> := ["meshtastic", "json", "csv", "plain"]
  const DefaultFormat: string := "meshtastic"

  const DefaultOutputFields: seq<string> := ["location.title", "title"]

  const AvailableFields: seq<string> :=
    ["title", "description", "excerpt", "category", "subcategories", "start.date",
     "end.date", "allDay", "cancelled", "featured", "location.title", "location.category",
     "location.id", "address.streetAddress", "address.locality", "address.region",
     "address.postalCode", "address.country", "image", "url", "otherInfo", "id"]

  /** The value that switches a filter off. */
  const NoFilter: string := "all"

  const CalendarBase: string := "https://www.thevillages.com/calendar/#/?"
  const ApiBase: string := "https://api.v2.thevillages.com/events/?"
  const ApiFixedParams: seq<string> := ["cancelled=false", "startRow=0", "endRow=24"]
  const ApiTrailingParam: string := "subcategoriesQueryType=and"

  /** Every default is one of the choices offered for it, and the default fields are available fields. */
  lemma DefaultsAreValid()
    ensures DefaultDateRange in ValidDateRanges
    ensures DefaultCategory in ValidCategories
    ensures DefaultLocation in ValidLocations
    ensures DefaultFormat in ValidFormats
    ensures forall f :: f in DefaultOutputFields ==> f in AvailableFields
  {
  }

  /** No offered date range, category or location contains `&`, so a chosen filter always stays one query parameter. */
  lemma ChoicesHaveNoAmpersand()
    ensures forall i :: 0 <= i < |ValidDateRanges| ==> '&' !in ValidDateRanges[i]
    ensures forall i :: 0 <= i < |ValidCategories| ==> '&' !in ValidCategories[i]
    ensures forall i :: 0 <= i < |ValidLocations| ==> '&' !in ValidLocations[i]
  {
    LocationsHaveNoAmpersand0();
    LocationsHaveNoAmpersand1();
    LocationsHaveNoAmpersand2();
    forall i | 0 <= i < |ValidLocations|
      ensures '&' !in ValidLocations[i]
    {
      assert i == 0 || i == 1 || i == 2 || i == 3 || i == 4 || i == 5 || i == 6 || i == 7
        || i == 8 || i == 9 || i == 10 || i == 11 || i == 12 || i == 13 || i == 14;
    }
  }

  // The fifteen locations are checked five at a time, which keeps each proof small.

  lemma LocationsHaveNoAmpersand0()
    ensures forall j :: 0 <= j < |ValidLocations[0]| ==> ValidLocations[0][j] != '&'
    ensures forall j :: 0 <= j < |ValidLocations[1]| ==> ValidLocations[1][j] != '&'
    ensures forall j :: 0 <= j < |ValidLocations[2]| ==> ValidLocations[2][j] != '&'
    ensures forall j :: 0 <= j < |ValidLocations[3]| ==> ValidLocations[3][j] != '&'
    ensures forall j :: 0 <= j < |ValidLocations[4]| ==> ValidLocations[4][j] != '&'
  {
  }

  lemma LocationsHaveNoAmpersand1()
    ensures forall j :: 0 <= j < |ValidLocations[5]| ==> ValidLocations[5][j] != '&'
    ensures forall j :: 0 <= j < |ValidLocations[6]| ==> ValidLocations[6][j] != '&'
    ensures forall j :: 0 <= j < |ValidLocations[7]| ==> ValidLocations[7][j] != '&'
    ensures forall j :: 0 <= j < |ValidLocations[8]| ==> ValidLocations[8][j] != '&'
    ensures forall j :: 0 <= j < |ValidLocations[9]| ==> ValidLocations[9][j] != '&'
  {
  }

  lemma LocationsHaveNoAmpersand2()
    ensures forall j :: 0 <= j < |ValidLocations[10]| ==> ValidLocations[10][j] != '&'
    ensures forall j :: 0 <= j < |ValidLocations[11]| ==> ValidLocations[11][j] != '&'
    ensures forall j :: 0 <= j < |ValidLocations[12]| ==> ValidLocations[12][j] != '&'
    ensures forall j :: 0 <= j < |ValidLocations[13]| ==> ValidLocations[13][j] != '&'
    ensures forall j :: 0 <= j < |ValidLocations[14]| ==> ValidLocations[14][j] != '&'
  {
  }

  function FilterCount(dateRange: string, category: string, location: string): nat
  {
    (if dateRange != NoFilter then 1 else 0) + (if category != NoFilter then 1 else 0)
      + (if location != NoFilter then 1 else 0)
  }

  /**
   * The filter parameters both URLs carry: `dateRange`, `categories` and
   * `locationCategories`, in that order, each present exactly when its value is not "all".
   */
  function FilterParams(dateRange: string, category: string, location: string): (r: seq<string>)
    ensures |r| == FilterCount(dateRange, category, location)
    ensures ("dateRange=" + dateRange in r) <==> dateRange != NoFilter
    ensures ("categories=" + category in r) <==> category != NoFilter
    ensures ("locationCategories=" + location in r) <==> location != NoFilter
    ensures dateRange != NoFilter ==> r[0] == "dateRange=" + dateRange
    ensures location != NoFilter ==> r[|r| - 1] == "locationCategories=" + location
  {
    var d := if dateRange != NoFilter then ["dateRange=" + dateRange] else [];
    var c := if category != NoFilter then ["categories=" + category] else [];
    var l := if location != NoFilter then ["locationCategories=" + location] else [];
    assert ("categories=" + category)[0] == 'c';
    assert ("locationCategories=" + location)[0] == 'l';
    assert ("dateRange=" + dateRange)[0] == 'd';
    d + c + l
  }

  /** All parameters of the API URL: three fixed ones, the filters, and the trailing query type. */
  function ApiParams(dateRange: string, category: string, location: string): (r: seq<string>)
    ensures |r| == 4 + FilterCount(dateRange, category, location)
    ensures r[..3] == ApiFixedParams && r[|r| - 1] == ApiTrailingParam
    ensures r[3..|r| - 1] == FilterParams(dateRange, category, location)
  {
    ApiFixedParams + FilterParams(dateRange, category, location) + [ApiTrailingParam]
  }

  /** `Config.get_calendar_url`: the base plus `&`-joined filters, or the base without its `?` when every filter is "all". */
  method GetCalendarUrl(dateRange: string := DefaultDateRange, category: string := DefaultCategory,
                        location: string := DefaultLocation) returns (url: string)
    ensures FilterCount(dateRange, category, location) == 0 ==> url == "https://www.thevillages.com/calendar/#/"
    ensures FilterCount(dateRange, category, location) > 0 ==>
      url == CalendarBase + Join(FilterParams(dateRange, category, location), "&")
  {
    var params: seq<string> := [];
    if dateRange != NoFilter {
      params := params + ["dateRange=" + dateRange];
    }
    if category != NoFilter {
      params := params + ["categories=" + category];
    }
    if location != NoFilter {
      params := params + ["locationCategories=" + location];
    }
    assert params == FilterParams(dateRange, category, location);
    if params != [] {
      url := CalendarBase + Join(params, "&");
    } else {
      url := RStrip(CalendarBase, '?');
    }
  }

  /** `Config.get_api_url`: the base plus every API parameter joined by `&`. */
  method GetApiUrl(dateRange: string := DefaultDateRange, category: string := DefaultCategory,
                   location: string := DefaultLocation) returns (url: string)
    ensures url == ApiBase + Join(ApiParams(dateRange, category, location), "&")
  {
    var params: seq<string> := ApiFixedParams;
    if dateRange != NoFilter {
      params := params + ["dateRange=" + dateRange];
    }
    if category != NoFilter {
      params := params + ["categories=" + category];
    }
    if location != NoFilter {
      params := params + ["locationCategories=" + location];
    }
    params := params + [ApiTrailingParam];
    assert params == ApiParams(dateRange, category, location);
    url := ApiBase + Join(params, "&");
  }

  /** The query parameters of a URL built on `base`: what follows the base, split at `&`. */
  function QueryParams(url: string, base: string): (r: seq<string>)
    requires base <= url
    ensures |r| >= 1
  {
    Split(url[|base|..], '&')
  }

  /** Reading the query of a calendar URL with filters gives back exactly the filters, in order. */
  lemma {:induction false} CalendarUrlQuery(dateRange: string, category: string, location: string)
    requires '&' !in dateRange && '&' !in category && '&' !in location
    requires FilterCount(dateRange, category, location) > 0
    ensures var url := CalendarBase + Join(FilterParams(dateRange, category, location), "&");
      CalendarBase <= url && QueryParams(url, CalendarBase) == FilterParams(dateRange, category, location)
  {
    var ps := FilterParams(dateRange, category, location);
    AfterBase(CalendarBase, Join(ps, "&"));
    FilterParamsHaveNoAmpersand(dateRange, category, location);
    SplitJoin(ps, '&');
  }

  /**
   * Reading the query of an API URL gives back all of its parameters: it starts with the
   * three fixed ones, ends with `subcategoriesQueryType=and`, and has four more than there are filters.
   */
  lemma {:induction false} ApiUrlQuery(dateRange: string, category: string, location: string)
    requires '&' !in dateRange && '&' !in category && '&' !in location
    ensures var url := ApiBase + Join(ApiParams(dateRange, category, location), "&");
      && ApiBase <= url
      && var q := QueryParams(url, ApiBase);
      && q == ApiParams(dateRange, category, location)
      && |q| == 4 + FilterCount(dateRange, category, location)
      && q[..3] == ApiFixedParams && q[|q| - 1] == ApiTrailingParam
  {
    var ps := ApiParams(dateRange, category, location);
    AfterBase(ApiBase, Join(ps, "&"));
    ApiParamsHaveNoAmpersand(dateRange, category, location);
    SplitJoin(ps, '&');
  }

  /** The three fixed API parameters as they appear in the URL. */
  lemma FixedParamsText()
    ensures Join(ApiFixedParams, "&") == "cancelled=false&startRow=0&endRow=24"
  {
  }

  /**
   * The API URL laid out: the base and the three fixed parameters, then the filters
   * when there are any, and always `subcategoriesQueryType=and` at the end.
   */
  lemma ApiUrlLayout(dateRange: string, category: string, location: string)
    ensures var url := ApiBase + Join(ApiParams(dateRange, category, location), "&");
      var fs := FilterParams(dateRange, category, location);
      var head := ApiBase + Join(ApiFixedParams, "&") + "&";
      && (fs == [] ==> url == head + ApiTrailingParam)
      && (fs != [] ==> url == head + Join(fs, "&") + "&" + ApiTrailingParam)
  {
    var fs := FilterParams(dateRange, category, location);
    assert ApiParams(dateRange, category, location) == ApiFixedParams + fs + [ApiTrailingParam];
    PrefixedJoinAround(ApiBase, ApiFixedParams, fs, ApiTrailingParam, "&");
  }

  lemma ApiParamsHaveNoAmpersand(dateRange: string, category: string, location: string)
    requires '&' !in dateRange && '&' !in category && '&' !in location
    ensures forall i :: 0 <= i < |ApiParams(dateRange, category, location)| ==>
      '&' !in ApiParams(dateRange, category, location)[i]
  {
    var ps := ApiParams(dateRange, category, location);
    FilterParamsHaveNoAmpersand(dateRange, category, location);
    var fs := FilterParams(dateRange, category, location);
    forall i | 0 <= i < |ps| ensures '&' !in ps[i] {
      if 3 <= i < |ps| - 1 {
        assert ps[i] == fs[i - 3];
      }
    }
  }

  /** What follows the base of a URL is the query. */
  lemma AfterBase(base: string, query: string)
    ensures base <= base + query && (base + query)[|base|..] == query
  {
  }

  lemma FilterParamsHaveNoAmpersand(dateRange: string, category: string, location: string)
    requires '&' !in dateRange && '&' !in category && '&' !in location
    ensures forall i :: 0 <= i < |FilterParams(dateRange, category, location)| ==>
      '&' !in FilterParams(dateRange, category, location)[i]
  {
    var ps := FilterParams(dateRange, category, location);
    var d, c, l := "dateRange=" + dateRange, "categories=" + category, "locationCategories=" + location;
    NoCharInConcat("dateRange=", dateRange, '&');
    NoCharInConcat("categories=", category, '&');
    NoCharInConcat("locationCategories=", location, '&');
    assert forall p :: p in ps ==> p == d || p == c || p == l;
    forall i | 0 <= i < |ps| ensures '&' !in ps[i] {
      assert ps[i] in ps;
    }
  }

  lemma NoCharInConcat(a: string, b: string, c: char)
    requires forall j :: 0 <= j < |a| ==> a[j] != c
    requires c !in b
    ensures c !in a + b
  {
  }

  /** With the default filters both URLs carry all three filters. */
  lemma DefaultFilters()
    ensures FilterParams(DefaultDateRange, DefaultCategory, DefaultLocation)
      == ["dateRange=today", "categories=entertainment", "locationCategories=town-squares"]
  {
    assert "dateRange=" + DefaultDateRange == "dateRange=today";
    assert "categories=" + DefaultCategory == "categories=entertainment";
    assert "locationCategories=" + DefaultLocation == "locationCategories=town-squares";
  }
}
