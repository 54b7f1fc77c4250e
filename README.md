# Who's playing The Villages: a Dafny model of the event scraper's core

The scraper builds the calendar and events-API URLs for three filters (date
range, category, location), fetches the events, flattens each event into a map
from dot-separated field paths to values (abbreviating the venue by keyword),
and renders (venue, title) pairs as Meshtastic, JSON, CSV or plain text. The
entry point picks the output fields from the built-in default, the
configuration file and the `--fields` option, and maps the outcome of a run to
an exit code.

This project models that core:

- `wrappers.dfy`: `Option` and `Result`.
- `text.dfy`: the Python string operations the core relies on. These are
  `str.split` (an empty string splits into one empty piece), `str.join`,
  `str.strip`, `str.rstrip` and substring `in`. It also proves the split/join
  round trips.
- `json.dfy`: the decoded API response as a JSON value, with Python truthiness.
  A dict is an ordered list of key/value entries.
- `config.dfy`: the configuration constants and the two URL builders
  (`Config.get_calendar_url`, `Config.get_api_url`). It also proves the
  parameter layout and that a URL's query reads back as its parameters.
- `event_processor.dfy`: `EventProcessor` as a class with the venue mapping and
  the output fields.
  - `extract_field` and `process_events` are methods with loops.
  - Each is proved equal to a recursive specification function.
  - Lemmas state the lookup rules, when abbreviation raises, the keys and values
    of a projected event, the per-event skip and batch composition.
- `csv.dfy`: `csv.writer` with the excel dialect writing into an `io.StringIO`.
  Fields are quoted only when needed, quotes are doubled and rows end in CRLF,
  as in section 2 of RFC 4180. A parser for that grammar is the encoder's
  partner, with a proved read-back round trip.
- `output_formatter.dfy`: the four formatters and `format_events`. Each
  rendering has a lemma that reads it back.
- `villages_events.py` logic (`villages_events.dfy`): the `--fields` parsing and
  filtering, the output-field precedence, and the exit codes.

Where the documentation and the code disagree, the model follows the code:

- An empty field path is one empty segment. It looks up the key `""` and never
  returns the event itself.
- Leaf values are returned as they are, not turned into strings. Only `None`
  becomes `""`.
- `abbreviate_venue` is applied to whatever value the lookup returns. On a
  dict or a list, `keyword in venue` tests keys or elements. On a truthy number
  or bool it raises `TypeError`, and the event is skipped.
- When `--fields` names no valid field, the configuration file's list is kept.
  The built-in default is used only when the configuration names none.
- `format_csv`'s docstring shows `\n` line ends. The excel dialect writes
  `\r\n`, and so does the model.

## Model

| member | source | states |
|---|---|---|
| Config.DefaultsAreValid | src/config.py:16-105 | each default date range, category, location and format is among the offered choices, and the default output fields are available fields |
| Config.ChoicesHaveNoAmpersand | src/config.py:16-57 | no offered date range, category or location contains `&`, so a chosen filter stays one query parameter |
| Config.FilterParams | src/config.py:126-136 | `dateRange=`, `categories=`, `locationCategories=` parameters, each present exactly when its value is not "all", in that order; one per active filter |
| Config.ApiParams | src/config.py:157-172 | the three fixed parameters first, then the filters, then `subcategoriesQueryType=and` last; four more parameters than filters |
| Config.GetCalendarUrl | src/config.py:107-138 | the filters default to today, entertainment and town-squares; with no filter the URL is the base without its `?`; otherwise the base followed by the `&`-joined filters |
| Config.GetApiUrl | src/config.py:140-174 | the filters default to today, entertainment and town-squares; the URL is the API base followed by every API parameter joined with `&` |
| Config.CalendarUrlQuery | src/config.py:123-138 | for `&`-free filter values, splitting the calendar URL's query at `&` gives back exactly the filter parameters, in order |
| Config.ApiUrlQuery | src/config.py:156-174 | for `&`-free filter values, the API URL's query splits back into all its parameters: the three fixed ones first, the query type last, four more than the filters |
| Config.FixedParamsText | src/config.py:157 | the fixed parameters appear in the URL as `cancelled=false&startRow=0&endRow=24` |
| Config.ApiUrlLayout | src/config.py:156-174 | the API URL is the base, the fixed parameters and `&`; then the joined filters and `&` only when there are filters; then `subcategoriesQueryType=and` |
| Config.DefaultFilters | src/config.py:25-58 | with the default choices both URLs carry `dateRange=today`, `categories=entertainment`, `locationCategories=town-squares` |
| EventProcessing.EventProcessor.constructor | src/event_processor.py:16-26 | the mapping is stored; the output fields are the given list, or `["location.title", "title"]` only when none is given (an empty list is kept) |
| EventProcessing.EventProcessor.ExtractField | src/event_processor.py:49-75 | the loop returns what the path walk specifies: the value the dot path reaches, or "" when a step meets a non-dict or a missing key, or the value is None |
| EventProcessing.Extracted | src/event_processor.py:74-75 | extraction never yields None |
| EventProcessing.WalkAppend | src/event_processor.py:64-72 | walking a concatenated path is walking the first part and then the second from where it ended |
| EventProcessing.NonObjectYieldsEmpty | src/event_processor.py:66-67 | an event that is not a dict yields "" for every path |
| EventProcessing.FirstSegmentAbsentYieldsEmpty | src/event_processor.py:69-70 | a path whose first segment is not a key yields "" |
| EventProcessing.EmptyPathLooksUpEmptyKey | src/event_processor.py:61 | the empty path looks up the key "" and never returns the event itself |
| EventProcessing.TopLevelKey | src/event_processor.py:61-75 | a dot-free key is looked up directly; None becomes "", any other value is returned unchanged |
| EventProcessing.NestedKey | src/event_processor.py:61-75 | `key.rest` is the lookup of `rest` in the child under `key`, or "" when `key` is absent |
| EventProcessing.LocationTitleLookup | src/event_processor.py:61-75 | `location.title` is the `title` of the `location` child, or "" without a location |
| EventProcessing.AbbreviateString | src/event_processor.py:28-47 | on a string venue: "" is returned as is; the first keyword in mapping order that is a substring gives its abbreviation; with no match the venue is returned unchanged |
| EventProcessing.AbbreviateFails | src/event_processor.py:38-44 | abbreviation raises exactly on a truthy number or bool, and only when the mapping has a keyword to test |
| EventProcessing.DefaultMappingSelfStable | src/config.py:61-66 | each default abbreviation equals its keyword and contains no earlier keyword |
| EventProcessing.DefaultAbbreviationIdempotent | src/event_processor.py:28-47 | with the default mapping, abbreviating a string never fails and abbreviating the result again changes nothing |
| EventProcessing.BrownwoodVenue | src/event_processor.py:42-44 | with the default mapping a venue starting with "Brownwood" abbreviates to "Brownwood" |
| EventProcessing.EventProcessor.FieldOf | src/event_processor.py:107-111 | one field's stored value: the extracted value, abbreviated only when the path is `location.title` and the value is truthy; None when that raises |
| EventProcessing.StoredValue | src/event_processor.py:107-114 | every field other than `location.title` stores the raw extracted value; `location.title` stores its abbreviation |
| EventProcessing.OnlyLocationRaises | src/event_processor.py:109-111 | only the `location.title` field can raise |
| EventProcessing.EventProcessor.ProjectEvent | src/event_processor.py:103-117 | the loop over the output fields builds the map the projection specifies, or reports the raise |
| EventProcessing.ProjectKeysAndValues | src/event_processor.py:103-114 | a projected event's keys are exactly the output fields, and each holds that field's stored value |
| EventProcessing.ProjectFails | src/event_processor.py:101-121 | an event raises exactly when one of its fields raises, and then `location.title` is an output field and raises |
| EventProcessing.ProjectFailsAt | src/event_processor.py:105-114 | a field that raises, at any position, makes the event raise |
| EventProcessing.ProjectFailsWitness | src/event_processor.py:105-114 | an event that raises has a `location.title` field that raises |
| EventProcessing.ProjectStep | src/event_processor.py:105-114 | one more field extends the map built so far with that field's value, unless either raised |
| EventProcessing.ProjectExtends | src/event_processor.py:114 | a stored field extends the map built so far |
| EventProcessing.ProjectStopsAt | src/event_processor.py:119-121 | a field that raises abandons the event's map |
| EventProcessing.ProjectFailureExtends | src/event_processor.py:105-121 | once a field raised, the event raises whatever fields follow |
| EventProcessing.NonObjectProjectsEmpty | src/event_processor.py:103-114 | a non-dict event projects to "" under every output field |
| EventProcessing.ProjectTwo | src/event_processor.py:103-114 | two fields that both succeed give the two-entry map |
| EventProcessing.BrownwoodExample | src/event_processor.py:100-117 | with the defaults, an event at "Brownwood Paddock Square" titled "Jazz Band" gives location "Brownwood" and the title unchanged |
| EventProcessing.MissingLocationExample | src/event_processor.py:100-117 | an event without a location keeps its title and gets an empty `location.title` |
| EventProcessing.EventProcessor.ProcessEvents | src/event_processor.py:77-123 | the method returns what the batch specification gives: the missing-key or not-a-list error, else the projected events in order with raising events skipped |
| EventProcessing.ProcessErrors | src/event_processor.py:91-96 | a missing `events` key and a non-list `events` are the two errors, and the batch succeeds exactly when neither holds |
| EventProcessing.ProcessAllAppend | src/event_processor.py:100-121 | processing `a + b` is processing `a` followed by processing `b` |
| EventProcessing.SkipFailingEvent | src/event_processor.py:119-121 | an event that raises is dropped and every other event survives, in order |
| EventProcessing.ProcessAllNoFailures | src/event_processor.py:100-117 | when no event raises there is one projected event per input event, at the same position |
| EventProcessing.ProcessAllKeys | src/event_processor.py:100-121 | every event of a processed batch has exactly the output fields as keys |
| EventProcessing.ErrorMessages | src/event_processor.py:91-96 | the missing-key message says "Missing 'events' key" and the wrong-type message says "not a list" |
| JsonModel.GetDistinct | src/event_processor.py:69-72 | in a dict with distinct keys, `current[part]` is the value stored under `part`, wherever its entry is |
| EventProcessing.ProcessAllAtMost | src/event_processor.py:100-121 | never more projected events than input events |
| Csv.EncodeRowsAppend | src/output_formatter.py:66-70 | writing one more row appends that row's encoding |
| Csv.Writer.WriteRow | src/output_formatter.py:66-70 | `writerow` appends the row's encoding to the buffer and changes nothing else |
| Csv.StringBuffer.Write | src/output_formatter.py:62 | writing appends to the buffer's contents |
| Csv.ParseQuotedEscape | src/output_formatter.py:63 | a field with its quotes doubled and a closing quote reads back as the field |
| Csv.ParseBarePlain | src/output_formatter.py:63 | a field that needs no quoting reads back as itself up to the next delimiter |
| Csv.ParseEncodedField | src/output_formatter.py:63 | every encoded field, quoted or not, reads back as itself before a comma, CR or the end |
| Csv.ParseEncodedFields | src/output_formatter.py:63 | the comma-separated encoding of a non-empty row reads back as the row |
| Csv.ParseEncodedRow | src/output_formatter.py:66-70 | a written row with at least one field, including the single empty field written as `""`, reads back as the same fields followed by CRLF |
| Csv.ParseEncodedRows | src/output_formatter.py:62-72 | reading the writer's output gives back every row, in order |
| OutputFormatter.FormatMeshtastic | src/output_formatter.py:24-28 | the result is never empty and always ends in `#` |
| OutputFormatter.MeshtasticTerminated | src/output_formatter.py:24-28 | no events give the sentinel `#`; otherwise every `venue,title` record is followed by `#`, in order |
| OutputFormatter.MeshtasticSplit | src/output_formatter.py:24-28 | when no venue or title contains `#`, splitting at `#` gives back the records and then the empty tail |
| OutputFormatter.FormatJson | src/output_formatter.py:43-47 | one object per event |
| OutputFormatter.JsonRoundTrip | src/output_formatter.py:43-47 | reading the venue and title of each object gives back the events in order; no events give an empty array |
| OutputFormatter.JsonKeyOrder | src/output_formatter.py:43-46 | each object has exactly the keys `venue` then `title` |
| OutputFormatter.FormatCsv | src/output_formatter.py:62-72 | the writer loop leaves in the buffer the header row followed by one row per event, each encoded as the excel dialect writes it |
| OutputFormatter.HeaderLine | src/output_formatter.py:66 | the header row is written as `venue,title\r\n` |
| OutputFormatter.CsvHeaderFirst | src/output_formatter.py:62-72 | the document starts with the header; with no events it is the header alone |
| OutputFormatter.CsvReadBack | src/output_formatter.py:62-72 | reading the document back gives the header, then exactly each event's venue and title, in order |
| OutputFormatter.FormatPlain | src/output_formatter.py:87-91 | the result is empty exactly when there are no events |
| OutputFormatter.PlainTerminated | src/output_formatter.py:87-91 | every `venue: title` line is followed by a newline, in order |
| OutputFormatter.PlainSplit | src/output_formatter.py:87-91 | when no venue or title contains a newline, splitting at newlines gives back the lines and then the empty tail |
| OutputFormatter.FormatEvents | src/output_formatter.py:94-124 | the format defaults to "meshtastic"; an unknown format is rejected with an error naming it, exactly when it is not one of the four; each known name gives exactly its formatter's output |
| OutputFormatter.FormatterNamesAreValidFormats | src/output_formatter.py:111-116 | the formatter table offers exactly the formats the command line accepts |
| OutputFormatter.InvalidFormatMessage | src/output_formatter.py:118-122 | the error message says "Invalid format type", names the value and lists `meshtastic, json, csv, plain` |
| VillagesEvents.ParseFieldList | villages_events.py:114 | every parsed field name is non-empty with no whitespace at either end |
| VillagesEvents.StrippedPiecesNames | villages_events.py:114 | the stripped pieces that are kept are non-empty and stripped |
| VillagesEvents.ParsedFieldsHaveNoComma | villages_events.py:114 | no parsed field name contains a comma |
| VillagesEvents.ParseFieldListJoin | villages_events.py:114 | stripped, comma-free names written with commas parse back as the same list |
| VillagesEvents.StrippedPiecesKeeps | villages_events.py:114 | pieces that are already stripped names are kept unchanged |
| VillagesEvents.KeepKnownExactly | villages_events.py:125 | a field is kept exactly when it was given and is known, as often as it was given |
| VillagesEvents.KeepKnownAppend | villages_events.py:125 | filtering keeps the given order: it distributes over concatenation |
| VillagesEvents.ResolveOutputFields | villages_events.py:103-132 | the valid `--fields` entries win when there are any; otherwise the configuration's list, which is the built-in default when the file names none |
| VillagesEvents.ExitCode | villages_events.py:87-192 | 0 on success or `--help`; 2 when argparse rejects the command line; 1 when an application error or any other exception ends a run after parsing |
| Text.JoinSplit | villages_events.py:114 | joining the pieces of a split with the separator gives back the string |
| Text.SplitJoin | src/config.py:138 | splitting a join of separator-free parts gives back the parts |
| Text.StripEmpty | villages_events.py:114 | a string strips to nothing exactly when it is all whitespace |

## Left out

- `src/api_client.py` (the auth-token scrape, the session, the events request) and `src/config_loader.py` (reading YAML) are network and file I/O. The API response, the venue mapping, the timeout and the configuration's field list are inputs to the model.
- The argparse setup is not modelled. That covers the choices validation, the defaults of the options, and `--help` text. Argument parsing is represented by its `SystemExit` code in `VillagesEvents.ExitCode`.
- Non-integer `SystemExit` codes are not modelled. The code is an `int`.
- `--raw`, `print` and the logging calls are output side effects, and are not modelled.
- `VillagesEvents.ParseFieldList`: `str.strip` is modelled for six ASCII whitespace characters (space, tab, LF, VT, FF, CR). Python also strips the ASCII separators `\x1c` to `\x1f` and non-ASCII whitespace; those are not modelled.
- `OutputFormatter.FormatJson`: the exact text `json.dumps(..., indent=2)` produces is not modelled. The model states the value being serialised, and reads that value back.
- JSON numbers are integers. Floats in the API response are not modelled.
- `EventProcessing.ProjectKeysAndValues`: the projected event is a map, so the insertion order of its keys is not represented.
- `EventProcessing.Process`: the response is taken to be a dict, as `process_events` requires of its caller. A non-dict response is not modelled.
- `Csv.ParseEncodedRow` requires a row with at least one field. An empty row is written as a bare CRLF and reads back as one empty field. The core never writes an empty row.
- The main script's step 5 hands `format_events` the processed dicts and a `field_names=` argument. `format_events` in `src/output_formatter.py` takes only `(venue, title)` pairs and a format name. The model keeps the formatters as `src/output_formatter.py` defines them. It does not model the call as made in `main`: with the signature shown, that call raises `TypeError`, which `main` turns into exit code 1.
- `ConfigLoader.get_output_fields` is not part of this model. Its result is the `configFields` input of `VillagesEvents.ResolveOutputFields`.
- `JsonModel.Get`: a dict is a list of entries, and the lookup returns the first entry with the key. `json.loads` keeps the last of duplicate keys; the model takes the response's dicts to have distinct keys (`JsonModel.DistinctKeys`), where the two agree.
