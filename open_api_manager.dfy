/**
 * The outbound gateway to the Open-Meteo services: a routing flag selects the
 * forecast or the air-quality endpoint, the parameter bag supplies the query
 * string, and the HTTP call's answer is normalised to an optional body.
 */
module OpenApiManager {
  import opened Wrappers
  import opened ApiCall

  const BaseUrlWeather: string := "https://api.open-meteo.com/v1"
  const BaseUrlAirPollution: string := "https://air-quality-api.open-meteo.com/v1"

  /** The endpoint a flag selects; any flag but the two known ones selects none. */
  datatype Route = Weather | AirPollution | Unrouted

  function RouteOf(flag: string): Route {
    if flag == "weather" then Weather
    else if flag == "airPollution" then AirPollution
    else Unrouted
  }

  /** The base URL and path written in front of the query string. */
  function Endpoint(route: Route): string {
    match route
    case Weather => BaseUrlWeather + "/forecast"
    case AirPollution => BaseUrlAirPollution + "/air-quality"
    case Unrouted => ""
  }

  /** Latitude, longitude and the caller's raw query fragment, appended without escaping. */
  function QueryString(params: Params): string {
    "?latitude=" + ParamText(params, "latitude") +
    "&longitude=" + ParamText(params, "longitude") +
    "&" + ParamText(params, "queryParam")
  }

  /** The outbound URL for a parameter bag and a routing flag. */
  function MakeUrl(params: Params, flag: string): (url: string)
    ensures Endpoint(RouteOf(flag)) + "?latitude=" <= url
    ensures var tail := "&longitude=" + ParamText(params, "longitude") + "&" + ParamText(params, "queryParam");
            |tail| <= |url| && url[|url| - |tail|..] == tail
  {
    Pieces(Endpoint(RouteOf(flag)), "?latitude=", ParamText(params, "latitude"),
           "&longitude=", ParamText(params, "longitude"), "&", ParamText(params, "queryParam"));
    Endpoint(RouteOf(flag)) + QueryString(params)
  }

  /** An endpoint followed by a query string starts with the endpoint and the query's first key, and ends with the query's tail. */
  lemma Pieces(endpoint: string, key1: string, value1: string, key2: string, value2: string, sep: string, rest: string)
    ensures var url := endpoint + (key1 + value1 + key2 + value2 + sep + rest);
            var tail := key2 + value2 + sep + rest;
            endpoint + key1 <= url && |tail| <= |url| && url[|url| - |tail|..] == tail
  {
    var url := endpoint + (key1 + value1 + key2 + value2 + sep + rest);
    var tail := key2 + value2 + sep + rest;
    assert url == endpoint + key1 + value1 + tail;
  }

  /** The call made with the URL for this bag and flag, its outcome normalised to an optional body. */
  function ExecuteContext<B>(params: Params, flag: string, call: string -> CallOutcome<B>): (result: Option<B>)
    ensures call(MakeUrl(params, flag)).Threw? ==> result == None
    ensures call(MakeUrl(params, flag)).Responded? ==> result == call(MakeUrl(params, flag)).body
  {
    CatchToOptional(call(MakeUrl(params, flag)))
  }

  /** Reads the route back from a URL by the endpoint it starts with. */
  function RouteOfUrl(url: string): Route {
    if Endpoint(Weather) <= url then Weather
    else if Endpoint(AirPollution) <= url then AirPollution
    else Unrouted
  }

  // ---------------------------------------------------------------------------
  // Lemmas

  /** The two endpoints, written out. */
  lemma EndpointsSpelled()
    ensures Endpoint(Weather) == "https://api.open-meteo.com/v1/forecast"
    ensures Endpoint(AirPollution) == "https://air-quality-api.open-meteo.com/v1/air-quality"
  {
  }

  /** Where the two endpoints part: both start with a letter, and they differ at position 9. */
  lemma EndpointsDiffer()
    ensures |Endpoint(Weather)| > 9 && |Endpoint(AirPollution)| > 9
    ensures Endpoint(Weather)[0] == 'h' && Endpoint(AirPollution)[0] == 'h'
    ensures Endpoint(Weather)[9] == 'p' && Endpoint(AirPollution)[9] == 'i'
  {
    EndpointsSpelled();
  }

  /**
   * The route can be read back from every URL: the branches are exclusive, so
   * each URL starts with the endpoint of its own flag and with no other.
   */
  lemma RouteRoundTrip(params: Params, flag: string)
    ensures RouteOfUrl(MakeUrl(params, flag)) == RouteOf(flag)
    ensures RouteOf(flag) != Weather ==> !(Endpoint(Weather) <= MakeUrl(params, flag))
    ensures RouteOf(flag) != AirPollution ==> !(Endpoint(AirPollution) <= MakeUrl(params, flag))
  {
    var url := MakeUrl(params, flag);
    var route := RouteOf(flag);
    var endpoint := Endpoint(route);
    assert endpoint <= url by {
      assert endpoint + "?latitude=" <= url;
      assert forall k :: 0 <= k < |endpoint| ==> (endpoint + "?latitude=")[k] == endpoint[k];
    }
    EndpointsDiffer();
    match route
    case Weather =>
      assert url[9] == 'p';
    case AirPollution =>
      assert url[9] == 'i';
    case Unrouted =>
      assert url[0] == '?' by {
        assert "?latitude=" <= url;
      }
  }

  /** Each flag's URL starts with its own endpoint, written out; any other flag's URL starts with the query. */
  lemma UrlPrefixes(params: Params, flag: string)
    ensures flag == "weather" ==> "https://api.open-meteo.com/v1/forecast?latitude=" <= MakeUrl(params, flag)
    ensures flag == "airPollution" ==> "https://air-quality-api.open-meteo.com/v1/air-quality?latitude=" <= MakeUrl(params, flag)
    ensures flag != "weather" && flag != "airPollution" ==> "?latitude=" <= MakeUrl(params, flag)
  {
    var url := MakeUrl(params, flag);
    var head := Endpoint(RouteOf(flag)) + "?latitude=";
    assert head <= url;
    EndpointsSpelled();
    assert head == Endpoint(RouteOf(flag)) + "?latitude=";
  }

  /** Exactly one base URL or none at all is emitted, and which one depends only on the flag. */
  lemma ExactlyOneBaseUrl(params: Params, flag: string)
    ensures BaseUrlWeather <= MakeUrl(params, flag) <==> flag == "weather"
    ensures BaseUrlAirPollution <= MakeUrl(params, flag) <==> flag == "airPollution"
  {
    var url := MakeUrl(params, flag);
    assert BaseUrlWeather[9] == 'p' && BaseUrlAirPollution[9] == 'i';
    assert BaseUrlWeather[0] == 'h' && BaseUrlAirPollution[0] == 'h';
    if flag == "weather" {
      assert url[9] == 'p';
    } else if flag == "airPollution" {
      assert url[9] == 'i';
    } else {
      assert url[0] == '?';
    }
  }

  /** The query string is everything after the endpoint, whatever the parameter values hold. */
  lemma QueryAfterEndpoint(params: Params, flag: string)
    ensures var url := MakeUrl(params, flag);
            var n := |Endpoint(RouteOf(flag))|;
            n <= |url| && url[n..] == QueryString(params)
  {
    var endpoint := Endpoint(RouteOf(flag));
    var query := QueryString(params);
    assert MakeUrl(params, flag) == endpoint + query;
    assert (endpoint + query)[|endpoint|..] == query;
  }

  /**
   * A key missing from the bag is written as the four letters "null" (what a
   * StringBuilder appends for a null value); the other values are copied verbatim.
   */
  lemma AbsentLatitude(params: Params, flag: string)
    requires "latitude" !in params
    ensures var url := MakeUrl(params, flag);
            var n := |Endpoint(RouteOf(flag))|;
            n <= |url| &&
            url[n..] == "?latitude=null" + "&longitude=" + ParamText(params, "longitude") + "&" + ParamText(params, "queryParam")
  {
    QueryAfterEndpoint(params, flag);
  }

  /** With all three keys present, the query carries their values verbatim, unescaped. */
  lemma PresentParamsVerbatim(params: Params, flag: string)
    requires "latitude" in params && "longitude" in params && "queryParam" in params
    ensures var url := MakeUrl(params, flag);
            var n := |Endpoint(RouteOf(flag))|;
            n <= |url| &&
            url[n..] == "?latitude=" + params["latitude"] + "&longitude=" + params["longitude"] + "&" + params["queryParam"]
  {
    QueryAfterEndpoint(params, flag);
  }

  /** A sample parameter bag: a point in Seoul and an hourly temperature query. */
  const SampleParams: Params :=
    map["latitude" := "37.5", "longitude" := "127.0", "queryParam" := "hourly=temperature_2m"]

  lemma SampleQuery()
    ensures QueryString(SampleParams) == "?latitude=" + "37.5" + "&longitude=" + "127.0" + "&" + "hourly=temperature_2m"
  {
    assert ParamText(SampleParams, "latitude") == "37.5";
    assert ParamText(SampleParams, "longitude") == "127.0";
    assert ParamText(SampleParams, "queryParam") == "hourly=temperature_2m";
  }

  /** The sample request with the weather flag, spelled out. */
  lemma ForecastExample()
    ensures MakeUrl(SampleParams, "weather")
         == "https://api.open-meteo.com/v1/forecast" + "?latitude=" + "37.5" + "&longitude=" + "127.0" + "&" + "hourly=temperature_2m"
  {
    SampleQuery();
    EndpointsSpelled();
    RouteOfFlags();
    Regroup("https://api.open-meteo.com/v1/forecast", "?latitude=", "37.5", "&longitude=", "127.0", "&", "hourly=temperature_2m");
  }

  /** The same parameters with the air-pollution flag go to the air-quality endpoint. */
  lemma AirQualityExample()
    ensures MakeUrl(SampleParams, "airPollution")
         == "https://air-quality-api.open-meteo.com/v1/air-quality" + "?latitude=" + "37.5" + "&longitude=" + "127.0" + "&" + "hourly=temperature_2m"
  {
    SampleQuery();
    EndpointsSpelled();
    RouteOfFlags();
    Regroup("https://air-quality-api.open-meteo.com/v1/air-quality", "?latitude=", "37.5", "&longitude=", "127.0", "&", "hourly=temperature_2m");
  }

  lemma RouteOfFlags()
    ensures RouteOf("weather") == Weather && RouteOf("airPollution") == AirPollution
  {
  }

  lemma Regroup(endpoint: string, key1: string, value1: string, key2: string, value2: string, sep: string, rest: string)
    ensures endpoint + (key1 + value1 + key2 + value2 + sep + rest)
         == endpoint + key1 + value1 + key2 + value2 + sep + rest
  {
  }
}
