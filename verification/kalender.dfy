/** `get_events` of kalender.py: the request for next week's events of a
    Google Calendar, and what the function makes of the reply.

    The clock reading, the HTTP round trip and the JSON decoding are
    inputs: `now` is the wall-clock time `datetime.now` would give in
    Europe/Copenhagen, and `send` is the transport, which answers the one
    request with a reply. */
module Kalender {
  import opened Outcomes

  const ApiBaseUrl: string := "https://clients6.google.com/calendar/v3/calendars"
  const EventsSuffix: string := "@group.calendar.google.com/events"
  const CopenhagenZone: string := "Europe/Copenhagen"
  const MaxResults: int := 10

  /** A wall-clock reading in Europe/Copenhagen, in microseconds (the
      resolution of `datetime`). */
  type WallClock = int

  /** `timedelta(weeks=1)` in microseconds. */
  const OneWeek: int := 7 * 24 * 60 * 60 * 1_000_000

  /** A decoded JSON value. Numbers keep their literal text. */
  datatype Json =
    | JNull
    | JBool(b: bool)
    | JNumber(literal: string)
    | JString(s: string)
    | JArray(elements: seq<Json>)
    | JObject(fields: map<string, Json>)

  /** A query parameter value: a string, an integer, or a wall-clock time
      that `isoformat()` renders. */
  datatype Param = Text(text: string) | Number(n: int) | Instant(at: WallClock)

  datatype Request = Request(url: string, params: map<string, Param>)

  /** A response body: text that is not JSON, or the decoded JSON value. */
  datatype Body = NotJson | Decoded(json: Json)

  /** What the transport gives back for a request. */
  datatype Reply = ConnectionFailed | Response(status: int, body: Body)

  /** The exceptions that leave `get_events`, named after the Python
      exceptions; none is caught. */
  datatype FetchError =
    | RequestException        // requests.get could not reach the server
    | HTTPError(status: int)  // raise_for_status on a 4xx or 5xx status
    | JSONDecodeError         // response.json() on a body that is not JSON
    | AttributeError          // data.get on JSON that is not an object

  /** The requests issued during one call, in order, and its outcome. */
  datatype Exchange = Exchange(sent: seq<Request>, outcome: Result<Json, FetchError>)

  /** The events endpoint of a calendar: the base URL, '/', the calendar id
      as given (not percent-encoded), then the group-calendar suffix. */
  function EventsUrl(calendarId: string): (url: string)
    ensures |url| == |ApiBaseUrl| + 1 + |calendarId| + |EventsSuffix|
    ensures url[..|ApiBaseUrl| + 1] == ApiBaseUrl + "/"
    ensures url[|ApiBaseUrl| + 1..|url| - |EventsSuffix|] == calendarId
    ensures url[|url| - |EventsSuffix|..] == EventsSuffix
  {
    ApiBaseUrl + "/" + calendarId + EventsSuffix
  }

  /** The query parameters for the week that starts at `timeMin`. */
  function QueryParams(apiKey: string, timeMin: WallClock): (p: map<string, Param>)
    ensures p.Keys == {"key", "singleEvents", "timeZone", "maxResults", "timeMin", "timeMax"}
    ensures p["key"] == Text(apiKey)
    ensures p["singleEvents"] == Text("true")
    ensures p["timeZone"] == Text(CopenhagenZone)
    ensures p["maxResults"] == Number(MaxResults)
    ensures p["timeMin"] == Instant(timeMin)
    ensures p["timeMax"].Instant? && p["timeMax"].at - p["timeMin"].at == OneWeek
  {
    map[
      "key" := Text(apiKey),
      "singleEvents" := Text("true"),
      "timeZone" := Text(CopenhagenZone),
      "maxResults" := Number(MaxResults),
      "timeMin" := Instant(timeMin),
      "timeMax" := Instant(timeMin + OneWeek)
    ]
  }

  /** Only the API key and the start of the window vary between requests;
      the other parameters are the same for every call. */
  lemma QueryParamsFixedPart(k1: string, t1: WallClock, k2: string, t2: WallClock, name: string)
    requires name in {"singleEvents", "timeZone", "maxResults"}
    ensures QueryParams(k1, t1)[name] == QueryParams(k2, t2)[name]
  {
  }

  /** A 4xx or 5xx status, the ones `raise_for_status` raises for. */
  predicate IsErrorStatus(status: int)
  {
    400 <= status < 600
  }

  /** The request `get_events` issues at wall-clock time `now`. */
  function EventsRequest(calendarId: string, apiKey: string, now: WallClock): (r: Request)
    ensures r.url == EventsUrl(calendarId)
    ensures r.params == QueryParams(apiKey, now)
  {
    Request(EventsUrl(calendarId), QueryParams(apiKey, now))
  }

  /** What `get_events` makes of the reply: a failed connection raises; an
      error status raises before the body is looked at; a body that is not
      JSON raises; JSON that is not an object has no `get`; otherwise the
      value under "items", untouched, or an empty list when there is none. */
  function ReadItems(reply: Reply): (r: Result<Json, FetchError>)
    ensures reply.ConnectionFailed? ==> r == Err(RequestException)
    ensures reply.Response? && IsErrorStatus(reply.status) ==> r == Err(HTTPError(reply.status))
    ensures reply.Response? && !IsErrorStatus(reply.status) && reply.body.NotJson? ==> r == Err(JSONDecodeError)
    ensures reply.Response? && !IsErrorStatus(reply.status) && reply.body.Decoded? && !reply.body.json.JObject? ==>
              r == Err(AttributeError)
    ensures r.Ok? <==>
              reply.Response? && !IsErrorStatus(reply.status)
              && reply.body.Decoded? && reply.body.json.JObject?
    ensures r.Ok? && "items" in reply.body.json.fields ==> r.value == reply.body.json.fields["items"]
    ensures r.Ok? && "items" !in reply.body.json.fields ==> r.value == JArray([])
  {
    match reply
    case ConnectionFailed => Err(RequestException)
    case Response(status, body) =>
      if IsErrorStatus(status) then Err(HTTPError(status))
      else match body
        case NotJson => Err(JSONDecodeError)
        case Decoded(JObject(fields)) => Ok(if "items" in fields then fields["items"] else JArray([]))
        case Decoded(_) => Err(AttributeError)
  }

  /** An error status decides the outcome whatever the body holds. */
  lemma ErrorStatusIgnoresBody(status: int, b1: Body, b2: Body)
    requires IsErrorStatus(status)
    ensures ReadItems(Response(status, b1)) == ReadItems(Response(status, b2))
  {
  }

  /** A successful reply whose "items" is a list gives back exactly that
      list, in the provider's order. */
  lemma ItemsPassThrough(status: int, fields: map<string, Json>, events: seq<Json>)
    requires 200 <= status < 300
    ensures ReadItems(Response(status, Decoded(JObject(fields["items" := JArray(events)])))) == Ok(JArray(events))
  {
  }

  /** `get_events(calendar_id, api_key)` at wall-clock time `now`, with
      `send` answering the HTTP request: exactly one request is sent, and
      its reply alone decides the outcome. */
  function GetEvents(calendarId: string, apiKey: string, now: WallClock, send: Request -> Reply): (r: Exchange)
    ensures |r.sent| == 1
    ensures r.sent[0] == EventsRequest(calendarId, apiKey, now)
    ensures r.outcome == ReadItems(send(r.sent[0]))
  {
    var request := EventsRequest(calendarId, apiKey, now);
    Exchange([request], ReadItems(send(request)))
  }

  /** The request carries the calendar id in its URL and the API key as
      `key`, and asks for the week that starts now. */
  lemma GetEventsAsksForNextWeek(calendarId: string, apiKey: string, now: WallClock, send: Request -> Reply)
    ensures var request := GetEvents(calendarId, apiKey, now, send).sent[0];
            && request.url[|ApiBaseUrl| + 1..|request.url| - |EventsSuffix|] == calendarId
            && request.params["key"] == Text(apiKey)
            && request.params["timeMin"] == Instant(now)
            && request.params["timeMax"] == Instant(now + OneWeek)
  {
  }

  /** A reply of `{"items": []}` is success with no events, not an error. */
  lemma EmptyItemsIsSuccess(calendarId: string, apiKey: string, now: WallClock, send: Request -> Reply)
    requires send(EventsRequest(calendarId, apiKey, now)) == Response(200, Decoded(JObject(map["items" := JArray([])])))
    ensures GetEvents(calendarId, apiKey, now, send).outcome == Ok(JArray([]))
  {
  }
}
