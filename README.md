# Ollama honeypot: model-lifecycle state, configuration and handlers in Dafny

This project models the core of a honeypot that impersonates an Ollama
server. It covers the parts that decide what the honeypot answers:

- the in-memory state object `HoneypotState`. It holds the catalog of
  advertised models, the models currently simulated as loaded (each with a
  keep-alive expiry), the model-name to detail-file map, and the cache of
  parsed detail documents. Its operations are delete, load-or-refresh, the
  lazy-expiry listing, the detail-path lookup, and the cache get and put;
- the configuration records with their defaults, their JSON decoding and
  encoding, and the validation in `load_config`. That validation rejects
  port 0 and lists every detail file that does not exist;
- the decision chains of `POST /api/show` and `DELETE /api/delete`. This
  includes the show handler's cache miss-then-populate protocol and the
  nulling of verbose tokenizer fields;
- the first-match catalog lookup and the canned error and status
  documents;
- the logging set-up: how `log_outputs` becomes a list of sinks or an
  error, the init-once flag, the operational-logger accessor, and the
  request record with its body cut to 4096 bytes.

Layout, one module per file:

| file | module | models |
|---|---|---|
| `wrappers.dfy` | `Wrappers` | `Option` and `Result` |
| `json.dfy` | `Json` | JSON values with insertion-ordered objects: lookup, `obj[key] = v`, key sets |
| `seqs.dfy` | `Seqs` | order-preserving filtering, used by delete and by the expiry listing |
| `config.dfy` | `Config` | `ModelDetails`, `TagModelInfo`, `ServerConfig`, `LoggingConfig`, `ApiBehaviorConfig`, `HoneypotConfig`: defaults, decoding, encoding and round trips |
| `paths.dfy` | `Paths` | `dir / p` path joining |
| `config_loader.dfy` | `ConfigLoader` | `load_config` |
| `fake_data.dfy` | `FakeData` | `generate_error`, `generate_ok_status`, `find_model_info` |
| `honeypot_state.dfy` | `State` | `LoadedModelInfo`, the registry as values with its invariant, and the class `HoneypotState` |
| `http.dfy` | `Http` | request bodies, responses, status codes, the `model` member of a request |
| `show.dfy` | `Show` | `handle_show` |
| `delete.dfy` | `Delete` | `handle_delete` |
| `logging.dfy` | `Logging` | `init_logging`, `get_operational_logger`, `log_request` |

The state class keeps the source's four fields as `seq` and `map` fields.
Its methods change them in place and are each proved against a value-level
function: `WithoutModel`/`WithoutLoaded` for delete, `LoadOrUpdate` for
load-or-refresh, `Unexpired` for the listing. The registry invariant holds
after every method. It says that at most one loaded entry carries a given
name, and that each loaded entry is a copy of the first catalog entry of its
name with `size_vram` equal to that entry's size. Registry methods modify
only the catalog, loaded list and map. Cache methods modify only the cache.
These are the two consistency domains of the source's two locks.

The handlers take the world as parameters:
- The request body is `EmptyBody`, `Unparseable` or `Parsed(doc)`.
- Reading a detail file is a function from path to
  `Unopenable | InvalidJson | ReadFailed | Readable(doc)`.
- File existence during configuration loading is a set of existing paths.
- The clock is an `Instant` parameter, in nanoseconds.

Two paths are deliberately not unified, because the code resolves them
differently:
- `load_config` checks each detail file relative to the directory of the
  configuration file (`configDir`).
- `handle_show` reads and caches it under the fixed relative directory
  `config` (`Show.DetailCacheKey`).
For a relative mapped path the two agree only when the configuration file
lives in `config/`; an absolute mapped path is used as is by both.

The configuration file is parsed into a JSON object type whose keys are
sorted and unique (a repeated key keeps its last value). The decoders
accept any object and read the first occurrence of a key, which is the
only one on such a document; there, the first non-string `show_file_map`
value that the type error names is the one with the smallest key.

The catalog records carry no alias field and are never backfilled with
aliases. Nothing checks the catalog for duplicate names: lookups and loads
use the first entry of a name, and delete removes all entries of it.

Several keys reach the source's maps through `std::string_view::data()`,
which is read as a C string, so a model name or path is cut at its first
NUL character (`CStrings.CStr`). This applies to:
- the detail-map lookup and erase;
- the cache lookup and store;
- the message of `generate_error`;
- the file opened by `handle_show`;
- the existence check in `load_config`.
The catalog and loaded-list comparisons use the whole name. So a request
for `"alpha\0x"` shows `alpha`'s document. Deleting that name erases
`alpha`'s detail mapping but answers 404 "model 'alpha", and `alpha` stays
in the catalog (`Show.NulNameShowsPrefixModel`,
`Delete.NulDeleteHidesPrefixModel`).

## Model

| member | source | states |
|---|---|---|
| `Json.Assign` | src/api/show.cpp:133-135 | `obj[key] = v`: afterwards `key` maps to `v`, every other key keeps its value, the key set gains `key`, an existing key keeps its position and a new one is appended last |
| `Json.AssignNames` | src/api/show.cpp:133-135 | the key order after `obj[key] = v` is the old order, with `key` appended when it was new |
| `Json.AssignExisting` | src/api/show.cpp:131-135 | overwriting an existing key keeps the key set and the key order |
| `Seqs.FilterLength` | src/state/honeypot_state.cpp:93-111 | a filter removes nothing exactly when every element is kept, which is how `remove_if` reports whether it erased something |
| `Seqs.FilterAppend` | src/state/honeypot_state.cpp:43-44 | filtering distributes over concatenation, so the survivors keep their storage order |
| `CStrings.CStr` | src/state/honeypot_state.cpp:53 | a string read through `.data()` is its part before the first NUL, a prefix free of NUL |
| `CStrings.CStrOfNulFree` | src/utils/fake_data.cpp:13 | a string without NUL is read whole |
| `Config.AsUnsigned` | include/honeypot/utils/config.hpp:42-50 | the cast to the 16-bit port accepts numbers and booleans and fails on every other kind; a number is reduced modulo 2^N (congruent and below 2^N, an in-range one kept as is) and a boolean reads as 1 or 0 |
| `Config.AsU64` | include/honeypot/utils/config.hpp:30 | a 64-bit `size` accepts numbers only, reduced modulo 2^64; a boolean is a type error |
| `Config.PortWrapsAround` | include/honeypot/utils/config.hpp:42-50 | a 16-bit port field reads 65536 as 0, 65536 + 11434 as 11434, -1 as 65535 and `true` as 1 |
| `Config.FamiliesFromJson` | src/utils/config.cpp:34-41 | an absent or null `families` gives no list; it succeeds exactly when the key is absent, null, or a list of strings, and then holds that list |
| `Config.ModelDetailsFromJson` | src/utils/config.cpp:26-42 | succeeds exactly when the document is an object whose present string fields are strings and whose `families` reads; each absent field takes its default and each present one its string |
| `Config.TagModelInfoFromJson` | include/honeypot/utils/config.hpp:26-40 | succeeds exactly when the document is an object whose present fields convert; each absent field takes its default (name `default:latest`, size 0, the zero digest, the epoch timestamp, default details), a present `size` is its 64-bit reading (a boolean `size` fails) and present `details` are decoded |
| `Config.BooleanSizeRejected` | include/honeypot/utils/config.hpp:30-40 | a catalog entry with a boolean `size` makes the entry, and the whole configuration, fail with a type error |
| `Config.ServerConfigFromJson` | include/honeypot/utils/config.hpp:42-50 | succeeds exactly when the document is an object whose present fields convert; an absent port is 11434 and a present one is cast to 16 bits; an absent address is `0.0.0.0` |
| `Config.LoggingConfigFromJson` | include/honeypot/utils/config.hpp:52-66 | succeeds exactly when the document is an object whose present fields convert; each absent field takes its default, absent `log_outputs` is `["stdout"]` and a present one is its string list |
| `Config.EmplaceAll` | src/utils/config.cpp:73-86 | the map is built exactly when every value is a string; its keys are the object's keys and an existing key keeps its first value; otherwise the type error names the key of the first value that is not a string |
| `Config.EmplaceAllFirstWins` | src/utils/config.cpp:73-78 | a key's first occurrence in the object decides its value in the map |
| `Config.ShowFileMapFromJson` | src/utils/config.cpp:66-91 | an absent or non-object `show_file_map` gives the empty map; an object gives the map its fields build, first occurrence winning, or the type error |
| `Config.ReadShowFileMap` | src/utils/config.cpp:66-91 | the clear-then-emplace loop gives exactly the value-level map, including the type error for the first non-string value |
| `Config.ApiBehaviorFromJson` | src/utils/config.cpp:59-92 | succeeds exactly when the document is an object whose version, catalog and map read; the version and catalog take their defaults when absent and the decoded catalog when present |
| `Config.HoneypotConfigFromJson` | src/utils/config.cpp:103-109 | succeeds exactly when the document is an object whose present sections decode; each absent section takes its default and each present one is decoded by its own reader |
| `Config.StringsRoundTrip` | src/utils/config.cpp:20-36 | a string list written as a JSON array reads back unchanged |
| `Config.ModelDetailsRoundTrip` | src/utils/config.cpp:15-42 | writing `ModelDetails` and reading it back gives the same value, absent `families` travelling as null |
| `Config.TagModelInfoRoundTrip` | include/honeypot/utils/config.hpp:35-40 | a catalog entry written and read back is unchanged |
| `Config.TagModelsRoundTrip` | src/utils/config.cpp:44-64 | a catalog written as an array reads back unchanged, entry by entry in order |
| `Config.ShowFileMapFieldsRoundTrip` | src/utils/config.cpp:44-91 | a detail map written as an object, with each pair once in any key order (the key-sorted one included), reads back as the same map |
| `Config.ServerConfigRoundTrip` | include/honeypot/utils/config.hpp:48-50 | a server section written and read back is unchanged |
| `Config.LoggingConfigRoundTrip` | include/honeypot/utils/config.hpp:61-66 | a logging section written and read back is unchanged |
| `Config.ApiBehaviorRoundTrip` | src/utils/config.cpp:44-92 | an api_behavior section written and read back is unchanged |
| `Config.HoneypotConfigRoundTrip` | src/utils/config.cpp:94-109 | a whole configuration written and read back is unchanged |
| `Config.EmptyDocumentIsDefault` | include/honeypot/utils/config.hpp:78-83 | an empty document reads as the default configuration, whose port is not 0, whose outputs are `["stdout"]` and whose log paths are not empty |
| `Config.PortOnlyDocument` | include/honeypot/utils/config.hpp:42-50 | a document naming only a port of 8080 reads as the default configuration with that port |
| `Config.WrappedPortDecodesToZero` | src/utils/config.cpp:143-146 | a port of 65536 decodes to port 0, which the loader then rejects |
| `Paths.Join` | src/utils/config.cpp:153 | an absolute path replaces the directory; a relative one is appended directly when the directory is empty or ends in `/`, and after one `/` otherwise |
| `ConfigLoader.CollectMissingFiles` | src/utils/config.cpp:149-159 | the loop collects every map value whose file, cut at its first NUL, does not exist, each as often as map entries hold it, and nothing else |
| `ConfigLoader.LoadConfig` | src/utils/config.cpp:112-169 | open, syntax and decoding failures are reported as such, port 0 is rejected, any missing file rejects the load with all missing files listed with their multiplicity; otherwise every mapped file exists and the decoded configuration is returned unchanged |
| `FakeData.GenerateError` | src/utils/fake_data.cpp:11-14 | the error document has the single key `error`, holding the message up to its first NUL, which is the whole message when it has none |
| `FakeData.GenerateOkStatus` | src/utils/fake_data.cpp:16-19 | the status document has the single key `status`, holding `success` |
| `FakeData.FindModelInfo` | src/utils/fake_data.cpp:21-32 | finds an entry exactly when some entry has the name, and then the first such entry |
| `State.FindLoaded` | src/state/honeypot_state.cpp:145-148 | finds a loaded entry exactly when one has the name, and then the first one with that name |
| `State.CatalogEntry` | src/state/honeypot_state.cpp:131-134 | the catalog entry used for a name exists exactly when the catalog holds the name, and is the first entry with that name |
| `State.CatalogEntryAfterRemoval` | src/state/honeypot_state.cpp:93-99 | removing one name leaves the first catalog entry of every other name unchanged |
| `State.DeleteRemovesExactlyTheName` | src/state/honeypot_state.cpp:86-113 | after delete no catalog or loaded entry has the name, and every entry with another name survives |
| `State.DeleteReportsRemoval` | src/state/honeypot_state.cpp:93-116 | each list shrinks exactly when it held the name |
| `State.DeleteIdempotent` | src/state/honeypot_state.cpp:86-124 | a second delete changes nothing, and deleting an absent name changes nothing |
| `State.DeletePreservesInvariant` | src/state/honeypot_state.cpp:86-113 | delete keeps the registry invariant |
| `State.LoadUnknownChangesNothing` | src/state/honeypot_state.cpp:131-141 | a name absent from the catalog is rejected and the loaded list is unchanged |
| `State.LoadRefreshesOnlyExpiry` | src/state/honeypot_state.cpp:150-155 | for a loaded name only the first match's expiry changes, to now plus the keep-alive; length, copies and `size_vram` are unchanged |
| `State.LoadAppendsOneEntry` | src/state/honeypot_state.cpp:156-167 | for a catalog name not loaded, exactly one entry is appended: a copy of the first catalog match, expiring at now plus the keep-alive, with `size_vram` equal to its size |
| `State.LoadPreservesInvariant` | src/state/honeypot_state.cpp:126-170 | load-or-refresh keeps the registry invariant, so never two loaded entries with one name |
| `State.RepeatedLoadKeepsOneEntry` | src/state/honeypot_state.cpp:145-167 | loading a model twice leaves one entry for it, expiring after the second call |
| `State.LoadedVisibleUntilExpiry` | src/state/honeypot_state.cpp:34-47 | after a load the model is listed exactly while the listing instant is before its new expiry |
| `State.HoneypotState.constructor` | src/state/honeypot_state.cpp:19-20 | the catalog and the map are copied from the configuration; nothing is loaded or cached |
| `State.HoneypotState.GetAvailableModels` | src/state/honeypot_state.cpp:28-32 | returns the catalog and changes nothing |
| `State.HoneypotState.GetLoadedModels` | src/state/honeypot_state.cpp:34-47 | the copy loop returns exactly the loaded entries expiring after now, in storage order, and removes none |
| `State.HoneypotState.GetDetailFilePath` | src/state/honeypot_state.cpp:49-63 | a path exactly when the name, cut at its first NUL, is a key of the map, and then its value |
| `State.HoneypotState.GetCachedDetail` | src/state/honeypot_state.cpp:65-78 | a document exactly when the path, cut at its first NUL, is cached, and then the cached one |
| `State.HoneypotState.CacheDetail` | src/state/honeypot_state.cpp:80-84 | stores or overwrites the document under the path cut at its first NUL and touches only the cache |
| `State.HoneypotState.DeleteModel` | src/state/honeypot_state.cpp:86-124 | removes all catalog and loaded entries of the whole name in order, and the map entry of the name cut at its first NUL; reports true exactly when the catalog or the loaded list held it, so a map-only hit reports false |
| `State.HoneypotState.LoadOrUpdateModel` | src/state/honeypot_state.cpp:126-170 | succeeds exactly when the catalog holds the name and updates the loaded list as load-or-refresh prescribes, touching nothing else |
| `Http.RequestModel` | src/api/show.cpp:48-57 | the request names a model exactly when the document is an object whose `model` member is a string |
| `Show.VerboseFlag` | src/api/show.cpp:59-63 | verbose exactly when `verbose` is present and the boolean true |
| `Show.DetailCacheKey` | src/api/show.cpp:76 | the file and cache key is `config/` followed by a relative mapped path; an absolute path is used as is |
| `Show.DetailKey` | src/api/show.cpp:76-78 | the cache key of a mapped name is its NUL-free file path, the full `config/` path when the mapped value has no NUL |
| `Show.NullVerboseKeys` | src/api/show.cpp:131-135 | the three verbose tokenizer keys become null, every other key of `model_info` keeps its value and position, and missing verbose keys are appended in assignment order |
| `Show.StripVerboseFields` | src/api/show.cpp:126-142 | with a `model_info` object only its verbose keys are nulled and the top-level keys keep their values but that one and their order; without one the document is unchanged |
| `Show.ShowOutcome` | src/api/show.cpp:21-148 | the status is one of 200, 400, 404 and 500; it is 200 exactly when the model is named, its name cut at the first NUL is mapped, and the file is cached or readable; existing cache entries never change |
| `Show.HandleShow` | src/api/show.cpp:21-148 | the handler's response and cache are those of the value-level outcome |
| `Show.BadRequestIgnoresState` | src/api/show.cpp:32-55 | an empty, unparseable or model-less request is a 400 with "missing request body", "invalid json request format" or "missing 'model' field in request body" whatever the state, and nothing is cached |
| `Show.UnmappedModelNotFound` | src/api/show.cpp:66-73 | a name whose NUL-cut form is unmapped is a 404 "model '<name>' not found" and the cache is untouched |
| `Show.CacheHitIgnoresDisk` | src/api/show.cpp:78-85 | a cache hit does not depend on the disk and serves the cached document, stripped unless verbose |
| `Show.CacheMissStoresFullDocument` | src/api/show.cpp:86-105 | a miss that reads a document answers 200 with that document, stripped unless verbose, and caches it unstripped under its path |
| `Show.ReadFailureNotCached` | src/api/show.cpp:89-121 | an unopenable, invalid or unreadable file is a 500 with its own body ("... missing or unreadable", "... is invalid JSON", or the plain "Internal Server Error reading details") and nothing is cached |
| `Show.RepeatedShowIsStable` | src/api/show.cpp:78-105 | once a show has succeeded, repeating it gives the same response and cache whatever the disk holds |
| `Show.VerboseShowsEverything` | src/api/show.cpp:126-147 | a verbose show returns the document exactly; a non-verbose one keeps the key set and every key but `model_info` |
| `Show.ShowSeesCString` | src/state/honeypot_state.cpp:53 | two requests whose names agree up to the first NUL and whose verbose flags agree succeed together and, when they do, give the same response and cache |
| `Show.NulNameShowsPrefixModel` | src/api/show.cpp:66 | a name followed by a NUL and any suffix is shown exactly like the name alone |
| `Delete.DeleteTarget` | src/api/delete.cpp:21-57 | a request goes on to deletion exactly when it names a model string, and then with that name; every other request is a 400 whose error is "missing request body", "invalid json request format" or "missing 'model' field in request", by case |
| `Delete.DeleteResponse` | src/api/delete.cpp:62-72 | 200 with no body exactly when something was deleted, otherwise 404 with the error document of "model '<name>' not found", whose message is cut at a NUL like every error message |
| `Http.NotFoundMessageCut` | src/utils/fake_data.cpp:13 | a 404 error for a name with a NUL holds "model '" and the name up to the NUL, and nothing after it |
| `Delete.HandleDelete` | src/api/delete.cpp:13-79 | a rejected request changes no state; otherwise `delete_model` runs once with the request's name, the map loses the NUL-cut name, and its result picks the response |
| `Delete.SecondDeleteNotFound` | src/api/delete.cpp:57-72 | deleting the same name twice answers 404 the second time and changes nothing |
| `Delete.ShowAfterDeleteNotFound` | src/state/honeypot_state.cpp:113 | after a delete, a show of the same model is a 404, since its map entry is gone |
| `Delete.NulDeleteHidesPrefixModel` | src/state/honeypot_state.cpp:113 | deleting a NUL-suffixed name absent from the catalog answers 404 with the message "model '<prefix>", leaves the catalog alone, and erases the prefix's map entry so a later show of the prefix is 404 |
| `Delete.LoadAfterDeleteRejected` | src/state/honeypot_state.cpp:93-141 | after a delete, loading the same name is rejected and changes nothing |
| `Logging.OutputError` | src/utils/logging.cpp:60-84 | an output kind is usable exactly when it is `stdout`, `stderr`, or `file` with a non-empty file path; `file` without a path gives the missing-path error and any other kind the unknown-output error naming it |
| `Logging.SinksFor` | src/utils/logging.cpp:60-85 | all outputs usable gives one sink per output in order; otherwise the error of the first unusable output |
| `Logging.SelectSinks` | src/utils/logging.cpp:52-86 | no outputs gives exactly one stdout sink |
| `Logging.BuildSinks` | src/utils/logging.cpp:50-86 | the sink loop gives exactly the value-level sink list or error |
| `Logging.SinksForFirstError` | src/utils/logging.cpp:60-85 | the first unusable output decides the error |
| `Logging.InitSucceedsIff` | src/utils/logging.cpp:52-85 | sink selection succeeds exactly when every listed output is known and `file` comes with a path |
| `Logging.DefaultLoggingIsStdout` | include/honeypot/utils/config.hpp:52-59 | the default logging section selects exactly one stdout sink |
| `Logging.TruncateBody` | src/utils/logging.cpp:173-179 | the logged body is the body when it has at most 4096 bytes and its first 4096 bytes otherwise; the flag is set exactly when it was cut |
| `Logging.TruncationKeepsPrefix` | src/utils/logging.cpp:173-179 | a cut body is a prefix of the original with the rest dropped, and cutting again changes nothing |
| `Logging.HeaderValue` | src/utils/logging.cpp:168-171 | a user agent is found exactly when a header name matches ignoring ASCII case, and then it is that header's value |
| `Logging.RequestLogEntry` | src/utils/logging.cpp:150-181 | the record holds the truncated body and its flag, the response status and the user agent |
| `Logging.LoggingSubsystem.constructor` | src/utils/logging.cpp:26-28 | logging starts uninitialised, with no loggers |
| `Logging.LoggingSubsystem.InitLogging` | src/utils/logging.cpp:31-130 | a second call changes nothing; an unusable output fails and leaves logging uninitialised; otherwise both loggers are set and the flag is raised, with an empty request-log path disabling request logging |
| `Logging.LoggingSubsystem.GetOperationalLogger` | src/utils/logging.cpp:132-139 | fails unless initialisation has succeeded |
| `Logging.LoggingSubsystem.LogRequest` | src/utils/logging.cpp:141-194 | writes nothing while request logging is disabled, otherwise exactly the request record |

## Left out

- Locking (`state_mutex_`, `cache_mutex_`): concurrency is not modelled; each method is one atomic step.
- Calls to the operational logger inside the state methods and the handlers: apart from writing log lines, `get_operational_logger` throws when logging has not been initialised. `main` initialises logging right after loading the configuration, before it asks for the logger or registers any route, so the handlers never take that path (`Logging.LoggingSubsystem.GetOperationalLogger` models the throw itself).
- spdlog plumbing (sink objects, level parsing, pattern, flush policy, registration) and its failures: the model keeps the sink kinds, the level name and the pattern.
- JSON parsing and serialisation (`parse`, `dump`): requests and files arrive as already parsed documents or as a parse failure. Floating-point numbers are not represented.
- Integers are unbounded, whereas the JSON parser stores an integer outside [-2^63, 2^64) as a floating-point number; the model's modulo-2^N casts of such integers describe values the source never receives as integers.
- `generate_model_list_json`: its brace initialiser builds a two-element array, and its result type disagrees with its header, so it has no reliable contract.
- `src/main.cpp`, `src/api/tags.cpp`, `src/api/misc_handlers.cpp`: argument handling, routing and thin wrappers that return state or configuration.
- Response headers such as `Content-Type`.
- Unexpected-exception paths: the 500 "Internal Server Error" of `handle_delete` when `delete_model` throws, and its 500 for a JSON library error that is not a parse error. The modelled `DeleteModel` cannot fail.
- State.HoneypotState.GetLoadedModels: takes the current instant as a parameter instead of reading the steady clock.
- State.HoneypotState.LoadOrUpdateModel: takes the current instant as a parameter; instants are unbounded integers, so an overflow of the clock's 64-bit representation is not modelled.
- ConfigLoader.LoadConfig: the configuration file's directory (`parent_path`) is a parameter; file existence is a set of paths, queried with the joined path cut at its first NUL, and an error from the existence check counts as missing. The order in which missing files are listed follows the map's iteration order, which is unspecified.
- Config.ApiBehaviorRoundTrip: the model's encoder writes the detail map in the order `MapFields` picks, whereas the source writes it into an object whose keys come out sorted. `Config.ShowFileMapFieldsRoundTrip` holds for every order that lists each pair once, so the sorted one is covered too.
- Logging.RequestLogEntry: the timestamp is a parameter, since it reads the wall clock; the headers are passed through as pairs without modelling their JSON form; a body byte is a character.
- Logging.LoggingSubsystem.LogRequest: the failure path where writing the record throws (for instance on invalid UTF-8) is not modelled.
- Logging.LoggingSubsystem.InitLogging: an spdlog failure after the operational logger is set is not modelled, so a failed initialisation never changes state.
- Show.HandleShow: the disk is a function from path to read outcome, so what a given path yields is left to that function. A directory opens on Linux and then fails to parse (`parse_error` 101), so it belongs to `InvalidJson`; `ReadFailed` covers the other exceptions thrown while reading an opened file.
