/**
 * The older copy of the outbound API manager, kept in the nested project
 * directory: no routing flag, a single forecast endpoint.
 */
module LegacyOpenApiManager {
  import opened Wrappers
  import opened ApiCall
  import OpenApiManager

  const BaseUrl: string := "https://api.open-meteo.com/v1"

  /** The outbound URL: the forecast endpoint followed by the query string. */
  function MakeUrl(params: Params): (url: string)
    ensures "https://api.open-meteo.com/v1/forecast?latitude=" <= url
    ensures var tail := "&longitude=" + ParamText(params, "longitude") + "&" + ParamText(params, "queryParam");
            |tail| <= |url| && url[|url| - |tail|..] == tail
  {
    ForecastSpelled();
    OpenApiManager.Pieces(BaseUrl + "/forecast", "?latitude=", ParamText(params, "latitude"),
                          "&longitude=", ParamText(params, "longitude"), "&", ParamText(params, "queryParam"));
    BaseUrl + "/forecast" +
    ("?latitude=" + ParamText(params, "latitude") +
     "&longitude=" + ParamText(params, "longitude") +
     "&" + ParamText(params, "queryParam"))
  }

  /** The forecast endpoint and the first query key, written out. */
  lemma ForecastSpelled()
    ensures BaseUrl + "/forecast" + "?latitude=" == "https://api.open-meteo.com/v1/forecast?latitude="
  {
  }

  /** The call made with the forecast URL, its outcome normalised to an optional body. */
  function ExecuteContext<B>(params: Params, call: string -> CallOutcome<B>): (result: Option<B>)
    ensures call(MakeUrl(params)).Threw? ==> result == None
    ensures result.Some? <==> call(MakeUrl(params)).Responded? && call(MakeUrl(params)).body.Some?
    ensures call(MakeUrl(params)).Responded? ==> result == call(MakeUrl(params)).body
  {
    CatchToOptional(call(MakeUrl(params)))
  }

  /** The older URL is exactly the newer one's with the weather flag. */
  lemma SameAsWeatherRoute(params: Params)
    ensures MakeUrl(params) == OpenApiManager.MakeUrl(params, "weather")
  {
    OpenApiManager.RouteOfFlags();
    assert BaseUrl + "/forecast" == OpenApiManager.Endpoint(OpenApiManager.Weather);
  }

  /** Both copies make the same call and give the same answer for the forecast. */
  lemma ExecuteSameAsWeatherRoute<B>(params: Params, call: string -> CallOutcome<B>)
    ensures ExecuteContext(params, call) == OpenApiManager.ExecuteContext(params, "weather", call)
  {
    SameAsWeatherRoute(params);
  }

  /** Every URL of the older copy reads back as the forecast route. */
  lemma AlwaysForecastRoute(params: Params)
    ensures OpenApiManager.RouteOfUrl(MakeUrl(params)) == OpenApiManager.Weather
  {
    SameAsWeatherRoute(params);
    OpenApiManager.RouteRoundTrip(params, "weather");
  }
}
