# doven-kalender core, modelled in Dafny

doven-kalender fetches the coming week's events of one Google Calendar and
is meant to describe them in Danish. It has three small pieces of logic of
its own, and each one is modelled here:

- `environment.dfy` (module `Environment`) covers the `.env` loader
  `load_dotenv` and the lookup `get_value`. The process environment
  `os.environ` is the class `Environ`, whose field `vars` is a
  `map<string, string>`. `LoadDotenv` runs the loader's loop over the
  file's lines and updates `vars` in place. It is proved against the
  specification function `LoadLines`. That function classifies each line
  with `ParseLine` and then folds the classified lines (`LoadKinds`).
  Python's `str.strip()` is modelled with the exact whitespace set of
  `str.isspace()`. `line.split("=", 1)` followed by two-name unpacking is
  `SplitOnFirst`.
- `kalender.dfy` (module `Kalender`) covers `get_events`: the events URL,
  the query parameters for the week that starts now, the single request,
  and what the function returns or raises for a reply. The wall-clock
  time, the HTTP transport and the JSON decoding are inputs.
- `doven_kalender.dfy` (module `DovenKalender`) covers `weekday_name`,
  with Python's list indexing, including negative indices.
- `outcomes.dfy` (module `Outcomes`) holds the `Option` and `Result`
  types. They stand for Python's `None` and for "returns or raises".

## Model

| member | source | states |
|---|---|---|
| `Environment.Strip` | environment.py:15-18 | `strip()` leaves nothing to trim at either end, and its result is the slice of the input between a leading and a trailing run of whitespace |
| `Environment.StripPadded` | environment.py:17-18 | stripping `w1 + t + w2` gives back exactly `t`, for any whitespace `w1`, `w2` and any trimmed `t` |
| `Environment.StripKeepsNonSpace` | environment.py:15-16 | a non-whitespace character (such as '=') occurs in the stripped line exactly when it occurs in the raw line |
| `Environment.SplitOnFirst` | environment.py:16 | the two-name unpacking of `split("=", 1)` fails exactly when there is no '='; otherwise the line is `before + "=" + after` with no '=' in `before` |
| `Environment.SplitOnFirstAt` | environment.py:16 | the split is at the first '=', so everything after it, later '=' included, is the second part |
| `Environment.ParseLine` | environment.py:15-19 | a line is blank exactly when it strips to nothing; it is a comment exactly when it is not blank and its raw first character is '#'; the unpacking fails exactly when neither holds and there is no '='; a stored key and value are non-empty and trimmed, and the key has no '=' |
| `Environment.ParseLineAssignment` | environment.py:15-19 | a line stores `key = value` if and only if it is laid out as `key=value` with optional whitespace around the key and the value, the key has no '=', and the line does not start with '#' |
| `Environment.HashLineIsComment` | environment.py:15 | `#KEY=value` is a comment and stores nothing |
| `Environment.IndentedHashStartsKey` | environment.py:15-19 | ` #KEY=value` (indented) stores `#KEY = value`: the '#' test looks at the unstripped line, so the '#' ends up in the key |
| `Environment.ValueKeepsLaterSeparators` | environment.py:16-18 | the line `URL = a=b` stores `a=b` under `URL`: both parts are trimmed, and the split is on the first '=' only |
| `Environment.KeyWithoutSeparator` | environment.py:15-16 | `KEY` on its own line is neither blank nor a comment and has no '=', so the unpacking fails |
| `Environment.EmptyValueStoresNothing` | environment.py:19 | `KEY=` stores nothing |
| `Environment.EmptyKeyStoresNothing` | environment.py:19 | `=value` stores nothing |
| `Environment.LoadKinds` | environment.py:14-23 | loading never removes a variable, and an error is the unpacking `ValueError`, tagged with the index of the line that raised it (the index is the model's own bookkeeping: Python's exception carries only the message "not enough values to unpack") |
| `Environment.LoadStopsAtError` | environment.py:14-16 | once a line has raised, the lines after it are never read |
| `Environment.LoadFailsAtFirstNoSeparator` | environment.py:14-16 | the load fails if and only if some line is neither blank nor a comment and has no '='; it fails at the first such line, and the environment is what the lines before it stored |
| `Environment.LoadKeepsUnassignedKey` | environment.py:19-23 | a variable that no loaded line assigns keeps its earlier value, or stays absent |
| `Environment.SkippedLineIsInert` | environment.py:15-19 | removing a blank line, a comment or a line with an empty key or value changes neither the loaded environment nor whether the load fails |
| `Environment.LoadLastAssignmentWins` | environment.py:23 | the last line that assigns a variable decides its value, even if a later line makes the load fail |
| `Environment.Environ.LoadDotenv` | environment.py:9-23 | the loop stores each accepted line in place and stops with `ValueError` at the first line without '='; the new environment and the error are those of `LoadLines` on the old environment |
| `Environment.GetValue` | environment.py:25-33 | returns the stored value if and only if the variable is set; otherwise `ValueError` naming the variable |
| `Environment.GetValueAfterAssignment` | environment.py:30-33 | after a variable is assigned, `get_value` returns the new value, and every other variable reads as before |
| `Environment.GetValueAfterLoad` | environment.py:14-33 | after loading, `get_value` of a variable returns the value its last assigning line stored |
| `Kalender.EventsUrl` | kalender.py:48 | the URL is the base URL, '/', the calendar id verbatim (not encoded), then `@group.calendar.google.com/events` |
| `Kalender.QueryParams` | kalender.py:36-46 | exactly the six parameters; `key` is the API key; `singleEvents` is "true", `timeZone` is "Europe/Copenhagen" and `maxResults` is 10; `timeMin` is the start of the window and `timeMax` is one week of wall-clock time later |
| `Kalender.QueryParamsFixedPart` | kalender.py:41-43 | `singleEvents`, `timeZone` and `maxResults` are the same whatever the API key and the time |
| `Kalender.EventsRequest` | kalender.py:39-50 | the request goes to the calendar's events URL with the parameters for the week that starts at `now` |
| `Kalender.ReadItems` | kalender.py:50-54 | a failed connection raises `RequestException`; a 4xx or 5xx status raises `HTTPError` with that status; otherwise a body that is not JSON raises `JSONDecodeError` and JSON that is not an object raises `AttributeError`; the call succeeds exactly when none of these applies, and then it returns the value under "items" unchanged, or an empty list when there is none |
| `Kalender.ErrorStatusIgnoresBody` | kalender.py:51-53 | with an error status the body is never read: the outcome is the same for every body |
| `Kalender.ItemsPassThrough` | kalender.py:54 | a 2xx reply whose "items" is a list returns that list exactly, in the provider's order |
| `Kalender.GetEvents` | kalender.py:19-54 | exactly one request is sent; it is the calendar's events request for `now`; the reply to that request alone decides the outcome |
| `Kalender.GetEventsAsksForNextWeek` | kalender.py:36-48 | the request's URL carries the calendar id, `key` is the API key, `timeMin` is now and `timeMax` is now plus one week |
| `Kalender.EmptyItemsIsSuccess` | kalender.py:54 | a 200 reply of `{"items": []}` is a success with no events, not an error |
| `DovenKalender.WeekdayName` | doven_kalender.py:14-16 | defined exactly for indices -7 to 6; index `i` names `DayNames[i mod 7]`, so -7 to -1 count back from Sunday; any other index raises `IndexError` |
| `DovenKalender.WeekRunsMondayToSunday` | doven_kalender.py:15 | indices 0 to 6 give mandag, tirsdag, onsdag, torsdag, fredag, lørdag, søndag |
| `DovenKalender.WeekdayNameInjective` | doven_kalender.py:15 | different weekdays in 0 to 6 have different names |
| `DovenKalender.NegativeIndexWraps` | doven_kalender.py:16 | a negative index names the same day as the index seven higher, so -1 is søndag |

## What the code does that a reader might expect otherwise

The model follows the code where it differs from what the signature and
docstring of `get_events` (kalender.py:19-33) lead a reader to expect:

- The function is annotated and documented as returning a list of event
  objects (kalender.py:19, 27-28). It returns the raw `items` value: a
  missing `items` is an empty list, and an `items` that is not a list is
  returned as it is.
- The docstring lists `RequestException`, `HTTPError` and
  `JSONDecodeError` (kalender.py:30-33). These pass through unchanged. JSON
  that is not an object also raises, with `AttributeError`, which the
  docstring does not list.
- `raise_for_status` raises only for statuses 400 to 599, as the comment
  at kalender.py:51 says. The docstring (kalender.py:32) says "non-2xx",
  but a 1xx or 3xx final status is not an error (`IsErrorStatus`).
- The window boundaries are `isoformat()` strings of `datetime` values.
  The code does not percent-encode them; the `requests` library encodes
  the query.
- `timeMax` is `timeMin + timedelta(weeks=1)` on an aware `datetime`. That
  is wall-clock arithmetic, so across a daylight-saving change the real
  time between the two ends is not exactly 7 × 24 hours.

## Left out

- Opening and reading `.env` (environment.py:11) is file I/O. The model
  starts from the lines that iterating over the file yields. A missing
  file (`FileNotFoundError`) and decoding errors are not modelled.
- `os.environ` itself: assigning through it calls `putenv`, which raises
  `ValueError` for a key or value holding a NUL character. The model
  stores such a line like any other.
- `os.getenv` (environment.py:30) is read as a lookup in the `vars` map
  that is passed in. Case-insensitive variable names on Windows are not
  modelled.
- `Kalender.QueryParams`: `timeMin` and `timeMax` are abstract wall-clock
  readings, not the `isoformat()` strings. `datetime.now`, `ZoneInfo`,
  UTC offsets and daylight-saving resolution (kalender.py:35-37, 44-45)
  depend on the clock and the time-zone database.
- `Kalender.ReadItems`: every exception that `requests.get` raises
  (connection, timeout, too many redirects) is one `ConnectionFailed`
  reply. The transport (kalender.py:50) and the internals of
  `raise_for_status` and `.json()` are library code.
- JSON numbers in the model keep their literal text. Floating point is
  not modelled.
- `dummy_get_events` (kalender.py:57-65) parses an empty string with
  `json.loads`, so it always raises. It has no behaviour worth modelling.
- `get_event_description` and `generate_description`
  (doven_kalender.py:6-11) have empty bodies.
- The `__main__` blocks (kalender.py:68-87, doven_kalender.py:19-27) are
  command-line and printing code. doven_kalender.py:21 calls `get_events`
  with one argument, although the function takes two.
