# MDE-Service request pipeline, in Dafny

MDE-Service is a small PHP web service that renders Markdown-Extended
sources into text. One HTTP request flows through three stages, driven by
the entry script `www/mde-api.php`:

- **distribute** reads the request into the controller's `sources` map:
  - it refuses every method but GET, POST and HEAD with a 405;
  - it applies a `Time-Zone` header;
  - in `file` mode it takes the uploaded files (keyed by file name);
  - it takes the inline `sources` array (through `array_merge`) and the inline `source` field;
  - it answers at once with a "No source to parse!" warning when there is nothing to render.
- **parse** renders every source in order into the `contents` map:
  - it appends one text per source;
  - when a text lands under a key other than its source's, it moves the source to that key;
  - it stamps the response with Last-Modified, Date, ETag (the concatenated `md5` of the sources) and the engine version.
- **serve** JSON-encodes a document and sends it:
  - the document holds `source`/`content` for a single inline source, or the `sources`/`contents` maps otherwise;
  - it lists the collected errors' full messages in order;
  - it adds a `dump` when debugging;
  - the process then exits.

Around these stages sit several collaborators:

- a response with a whitelisted status mirrored into an `API-Status` header;
- a request whose fields are URL-decoded and JSON-decoded when they look like JSON;
- an error value object whose code is derived from the HTTP status;
- a case-insensitive service registry that refuses to overwrite a registered name;
- process-wide handlers that turn any exception, or any reported PHP error, into a 500 error document.

The model follows the code's own form:

- The controller, request, response and registry are classes whose methods update their fields.
- The error record and the helpers are functions.
- The loops of the source (headers, files, fields, uploads, sources, error messages) are `while`/`for` loops. Each is proved equal to a function that specifies it: a recursive function, or for the error messages a sequence comprehension.
- Properties of those functions are proved as lemmas.

PHP's ordered arrays are `PhpArrays.PArray`: an association list in insertion order with PHP's next-free integer key. PHP's loose `==` and `empty()` are written out in `PhpValues`. Warnings that PHP raises on the way are modelled as faults that the handlers catch; such a warning is passed to the error handler, which turns it into an exception. Example warnings are `md5` on an array and `array_merge` on a scalar.

A stage ends in one of three ways (`Controllers.Flow`): it returns (`Continue`), it served the response and the process exited (`Served`), or an exception left it (`Raised`).

Everything the service calls but does not implement is a parameter (`Externals.Env`), so every property holds for any behaviour of it. This covers:

- the Markdown engine, `md5` and the JSON codec;
- `urldecode` and the file system;
- the time-zone list and the clock;
- the superglobals.

The parse stage keeps sources and contents aligned only in the two cases the code was written for:

- sources keyed 0..n-1 in order (`SourceBooks.AlignedSourcesShareKeys`);
- sources all keyed by file name (`SourceBooks.StringKeyedSourcesShareKeys`).

With mixed key kinds a source is lost, as `SourceBooks.MixedKeysLoseSource` shows: a file followed by an inline source at key 0 ends with two texts but one source.

## Model

| member | source | states |
|---|---|---|
| PhpArrays.Put | src/MdeService/Controller.php:402 | `$a[$k] = $v`: afterwards `k` holds `v`, every other key reads as before, an integer key raises the next free key, and the array stays well formed (unique keys) |
| PhpArrays.PutKeys | src/MdeService/Controller.php:402 | an existing key keeps its place in the order; a new key is appended at the end |
| PhpArrays.Append | src/MdeService/Controller.php:404-406 | `$a[] = $v`: the value is appended under the next free integer key, and the next free key moves up by one |
| PhpArrays.NextKeyIsFree | src/MdeService/Controller.php:404-406 | the key `$a[]` writes to is never already taken, so appending never overwrites |
| PhpArrays.Remove | src/MdeService/Controller.php:428 | `unset($a[$k])`: the key is gone, every other key reads as before, the next free key stays |
| PhpArrays.RemoveFirst | src/MdeService/Controller.php:428 | unsetting the first key leaves the remaining entries in their order |
| PhpArrays.PutAllGet | src/MdeService/Request.php:160 | after successive writes each key holds its last write, so a later upload with the same name overwrites an earlier one |
| PhpArrays.MergeRenumbersIntKeys | src/MdeService/Controller.php:156-158 | `array_merge`: the integer keys of the result are 0..n-1 and hold the integer-keyed values of the first array, then of the second, in order |
| PhpArrays.MergeStringKeys | src/MdeService/Controller.php:156-158 | `array_merge`: a string key of the second array takes its value from it; any other string key keeps the first array's value |
| PhpArrays.MergeKeyOrder | src/MdeService/Controller.php:156-158 | `array_merge` orders its keys as `MergedKeys` reads them off the two key sequences: the first array's keys come first, in order; then each integer key of the second array is renumbered in turn and each new string key is appended, while a repeated string key keeps its first place |
| PhpArrays.AppendToList | src/MdeService/Controller.php:350-352 | appending to a list keyed 0..n-1 gives the list keyed 0..n |
| PhpValues.LooseEqualsWordOnStrings | src/MdeService/Controller.php:135 | a string compares loosely equal to a word exactly when it spells it, and never to two different words |
| PhpStrings.ReplaceRemovesPattern | src/MdeService/Helper.php:99-100 | `str_replace` of a pattern by one character foreign to the pattern leaves no occurrence of the pattern |
| PhpStrings.ReplaceKeepsAbsence | src/MdeService/Helper.php:99-100 | replacing a pattern by one character foreign to another absent string keeps that string absent |
| PhpStrings.LowerOfUpper | src/MdeService/Container.php:130 | lower-casing the upper-case spelling gives the lower-case spelling, so names differing in case meet in the registry |
| PhpStrings.LowerIdempotent | src/MdeService/Container.php:130-133 | lower-casing an already lower-cased name changes nothing |
| Responses.Response.constructor | src/MdeService/Response.php:51-74 | a new response has no status, no headers, no content and is not sent |
| Responses.Response.SetStatus | src/MdeService/Response.php:199-216 | accepts exactly the five status constants, sets the status and writes it into `API-Status`; any other status throws InvalidArgumentException and changes nothing |
| Responses.Response.SetHeaders | src/MdeService/Response.php:141-145 | replaces the whole header map and nothing else |
| Responses.Response.SetHeader | src/MdeService/Response.php:152-156 | writes one header, keeps status, content and the `API-Status` mirror |
| Responses.Response.GetHeader | src/MdeService/Response.php:170-182 | a header is returned exactly when it is set and not PHP-empty, otherwise null |
| Responses.StatusQueries | src/MdeService/Response.php:229-241 | `hasStatus` and `isStatus` agree: without a status only the empty string matches (`null == ''`); with one, exactly that known status matches |
| Responses.Response.SetContent | src/MdeService/Response.php:247-251 | stores the content and nothing else |
| Responses.Response.FetchHeaders | src/MdeService/Response.php:116-120 | a response without a status gets 200 OK (mirrored); one with a status keeps it and its headers |
| Responses.Response.Fetch | src/MdeService/Response.php:106-111 | the response leaves with a status and the process exits (terminal `sent` state) |
| Responses.Response.Send | src/MdeService/Response.php:90-101 | a body that encodes is stored as the content before the response is sent; an encoding failure throws before anything is stored or sent |
| Errors.StatusCode | src/MdeService/Error.php:69-75 | the code is 1, 2, 3 exactly for 400, 405, 500, and 0 for every other status |
| Errors.NewError | src/MdeService/Error.php:66-100 | the error keeps its message and status unchanged, derives its code from the status, and its full message extends the message, equal to it when there is no context |
| Errors.Plain | src/MdeService/Error.php:88-92 | an error with no previous exception, file or line has the message as its full message |
| Errors.FullMessageWithAllContext | src/MdeService/Error.php:77-90 | with all three pieces of context the full message is `message [caught C in F at line N]` |
| Errors.CreateFromException | src/MdeService/Error.php:38-47 | the error carries the exception's message, the given status and its code |
| Errors.CreateFromExceptionNamesClass | src/MdeService/Error.php:38-47 | the full message of an error made from an exception starts with the message followed by ` [caught <class>` |
| Helper.JsonDecode | src/MdeService/Helper.php:143-154 | the decoded value when the codec succeeds, otherwise an exception carrying the codec's error code |
| Helper.GetRawData | src/MdeService/Helper.php:118-135 | `''` and `""` become the empty string; a non-empty string starting with `{` or `[` is JSON-decoded (and only it can throw); every other value is returned unchanged |
| Helper.UnescapeRemovesEntities | src/MdeService/Helper.php:99-100 | the text handed to the engine contains neither `&gt;` nor `&lt;` |
| Helper.ParseMdeSource | src/MdeService/Helper.php:95-110 | an empty source yields an empty content without calling the engine; any other source is un-escaped and handed to the engine, whose exception propagates |
| Helper.ReportingLevels | www/mde-api.php:28 | under the service's reporting level warnings and recoverable errors are handled, notices and strict messages ignored |
| Handlers.HandledError | src/MdeService/Helper.php:70 | the error made for an uncaught exception has the 500 status, code 3 and the exception's message |
| Handlers.ExceptionHandler | src/MdeService/Helper.php:67-74 | appends the exception as a 500 error, sets the 500 status and serves the document listing it; sources and contents are untouched |
| Handlers.HandledErrorServedLast | src/MdeService/Helper.php:70-73 | the served error messages are the earlier ones followed by the handled exception's full message |
| Handlers.ErrorHandler | src/MdeService/Helper.php:52-61 | an error outside the reporting level is ignored and execution continues; any other becomes a 500 error served at once, carrying the error's message, file and line |
| Requests.MethodCaseExamples | src/MdeService/Request.php:230-237 | `GET` and `get` match 'get', while the mixed-case `Get` matches neither spelling |
| Requests.MethodMatchesLowerName | src/MdeService/Request.php:230-237 | for any name in lower-case ASCII letters, a verb matches exactly when it is the name or its upper-case spelling; a verb that mixes cases never matches |
| Requests.HelperCall | src/MdeService/Request.php:83 | a static call on `Helper` goes ahead exactly when `Helper` defines the method under some spelling; otherwise it is a fatal "undefined method" error |
| Requests.GetAllHeadersUndefined | src/MdeService/Request.php:83 | `Helper::getAllHeaders()` is fatal as written, while a defined method such as `getRawData` goes ahead |
| Requests.SelectData | src/MdeService/Request.php:100-113 | only the POST branch can throw; a request that is neither POST nor carries form fields takes the query fields, or nothing |
| Requests.DecodeFromKeepsKeys | src/MdeService/Request.php:115-117 | writing the decoded fields back keeps every key and the order, gives each field its URL- and JSON-decoded value, keeps the rest; a failure is one field's failure |
| Requests.DecodeRewritesValues | src/MdeService/Request.php:115-117 | decoding a request's fields rewrites their values and keeps their keys and order |
| Requests.AcceptedExactly | src/MdeService/Request.php:137-165 | an upload is accepted exactly when its error code is not one of the six refused codes and its temporary file exists, was uploaded and is readable |
| Requests.RegisterAccepted | src/MdeService/Request.php:134-171 | with no refused upload every upload is accepted and registered in order under its client file name |
| Requests.RegisterRefused | src/MdeService/Request.php:166-170 | registration throws for the first refused upload with its message, and the uploads before it stay registered |
| Requests.Request.constructor | src/MdeService/Request.php:61-64 | a new request has the server's verb and empty data, files and headers |
| Requests.Request.SetData | src/MdeService/Request.php:188-191 | `setData(array)` replaces the whole field map |
| Requests.Request.SetDataField | src/MdeService/Request.php:192-194 | `setData(name, v)` writes that field and no other |
| Requests.Request.GetData | src/MdeService/Request.php:203-206 | a field that is set and not null is returned, otherwise the default |
| Requests.Request.SetMethod | src/MdeService/Request.php:212-216 | sets the verb and nothing else |
| Requests.Request.SetHeaders | src/MdeService/Request.php:243-247 | replaces the header map and nothing else |
| Requests.Request.SetHeader | src/MdeService/Request.php:254-258 | writes one header and no other |
| Requests.Request.AddFile | src/MdeService/Request.php:283-293 | an existing file is registered under its name; a missing one throws and registers nothing |
| Requests.Request.SelectFields | src/MdeService/Request.php:99-113 | the field array is the one `SelectData` specifies |
| Requests.Request.DecodeAll | src/MdeService/Request.php:115-117 | the decoding loop computes `DecodeFrom` over the fields |
| Requests.Request.ProcessData | src/MdeService/Request.php:97-125 | stores the decoded fields, or throws and leaves the data untouched |
| Requests.Request.ProcessFiles | src/MdeService/Request.php:131-177 | the upload loop registers the uploads as `Register` specifies and throws its fault |
| Requests.Request.Parse | src/MdeService/Request.php:79-91 | takes the headers, then the fields, then the uploads; a data failure stops before the uploads |
| SourceBooks.WithFormat | src/MdeService/Controller.php:192-197 | a non-empty `format` is written into `options['output_format']`; an empty one leaves the options; a scalar options value throws |
| SourceBooks.ExtractOnStrings | src/MdeService/Controller.php:207-227 | `metadata`, `body`, `notes` select one section; every other string gives metadata, EOL, body, EOL, notes |
| SourceBooks.ExtractLooseMatches | src/MdeService/Controller.php:207-227 | the loose switch sends `true` and `0` to the first case (metadata) and null to the full text |
| SourceBooks.DigestsConcat | src/MdeService/Controller.php:201 | each source contributes its digest to the ETag once per occurrence, in iteration order |
| SourceBooks.Reconcile | src/MdeService/Controller.php:228-237 | one step appends exactly one content |
| SourceBooks.ReconcileMoves | src/MdeService/Controller.php:229-236 | when the content key differs, the source key is gone, the content key holds the source (its file name in file mode), overwriting what was there, and every other key is unchanged |
| SourceBooks.Render | src/MdeService/Controller.php:201-227 | an array source throws from `md5`; non-array options violate the `array` type hint of `parseMdeSource`; otherwise the engine's fault propagates, or its output's extracted section is the text |
| SourceBooks.RenderEmptySource | src/MdeService/Helper.php:97-108 | an empty source never reaches the engine and renders the empty content's sections |
| SourceBooks.RenderAll | src/MdeService/Controller.php:200-227 | the texts of all sources in order, or the fault of a failing source |
| SourceBooks.RunAppendsOneTextPerSource | src/MdeService/Controller.php:198-228 | the walk appends exactly one text per source in source order, the ETag gains every digest in order, and it fails exactly when a source fails, with the first fault |
| SourceBooks.RunKeepsAlignedSources | src/MdeService/Controller.php:232 | sources already at the keys their texts get are never moved |
| SourceBooks.AlignedSourcesShareKeys | src/MdeService/Controller.php:198-237 | sources keyed 0..n-1: a successful walk leaves the sources untouched and the contents with the same keys |
| SourceBooks.RunMovesStringKeyed | src/MdeService/Controller.php:228-237 | a walk over name-keyed sources moves each one, in order, to the integer key its text got |
| SourceBooks.StringKeyedSourcesShareKeys | src/MdeService/Controller.php:198-237 | sources all keyed by name: a successful walk ends with sources keyed 0..n-1 in order (file names in file mode) and the contents with the same keys |
| SourceBooks.MixedKeysLoseSource | src/MdeService/Controller.php:228-237 | a file followed by an inline source at key 0: two texts are rendered but only the inline source remains |
| Controllers.DebugFlagCases | src/MdeService/Controller.php:471-478 | 'true' and '1' turn debugging on and no other non-numeric string does; false and null leave it off; a non-zero integer turns it on |
| Controllers.ScanFrom | src/MdeService/Controller.php:117-130 | the header loop only appends warnings (status 200, code 0), at most one per header, and only ever switches to a valid time zone |
| Controllers.OneTimeZoneHeader | src/MdeService/Controller.php:119-127 | a valid `Time-Zone` becomes the default zone silently; an invalid one adds one warning naming it and changes nothing else |
| Controllers.CollectReadsEveryFile | src/MdeService/Controller.php:135-144 | collecting succeeds exactly when every file is readable and then stores each file's text under its name in order; otherwise it reports an unreadable file |
| Controllers.Gathered | src/MdeService/Controller.php:155-162 | after taking the inline fields there is a source exactly when there was one already or either field is non-empty |
| Controllers.TakenFiles | src/MdeService/Controller.php:133-163 | a file-mode request without inline fields whose files all read leaves exactly the files' texts, under their names, in upload order |
| Controllers.MergeKeepsEntries | src/MdeService/Controller.php:156-158 | `array_merge` of two arrays is non-empty when either is |
| Controllers.StrValues | src/MdeService/Controller.php:266-269 | the contents map served keeps every key and text in order |
| Controllers.Messages | src/MdeService/Controller.php:272-277 | the served errors are the full messages of the collected errors, in order |
| Controllers.ServeBodySingle | src/MdeService/Controller.php:260-264 | outside file mode a single source is served as `source` and `content` read at key 0 (null when key 0 is missing), without `sources`/`contents` |
| Controllers.ServeBodyList | src/MdeService/Controller.php:265-270 | otherwise the whole `sources` and `contents` maps are served, without `source`/`content` |
| Controllers.ServeBodyErrors | src/MdeService/Controller.php:277-281 | the document lists the error messages, and carries `dump` exactly when debugging |
| Controllers.DateStamped | src/MdeService/Controller.php:185-188 | Last-Modified is always the current time; Date is kept when set and non-empty, set otherwise; every other header unchanged |
| Controllers.ResultStamped | src/MdeService/Controller.php:243-245 | the ETag and the engine version are set; every other header unchanged |
| Controllers.ParseFromNoContent | src/MdeService/Controller.php:183-248 | from empty contents: success exactly when every source renders, the contents then being the texts in source order and the ETag the digests in order; otherwise the first fault, with only the time stamps set |
| Controllers.Controller.constructor | src/MdeService/Controller.php:75-81 | a new controller over a new request and response, with no sources, contents or errors, debugging off and the UTC zone |
| Controllers.Controller.AddError | src/MdeService/Controller.php:326-330 | appends the error to the list and changes nothing else |
| Controllers.Controller.Warning | src/MdeService/Controller.php:298-302 | appends a context-free error with the given status and leaves the response alone |
| Controllers.Controller.AddContent | src/MdeService/Controller.php:345-355 | without an index the text is appended under the next free key and that key returned; with one it is stored there and that key returned |
| Controllers.Controller.SetContent | src/MdeService/Controller.php:362-366 | writes one content and touches no other key |
| Controllers.Controller.SetSources | src/MdeService/Controller.php:389-393 | replaces the source map |
| Controllers.Controller.AddSource | src/MdeService/Controller.php:399-409 | without an index the source is appended under the next free key and that key returned; with one it is stored there and that key returned |
| Controllers.Controller.SetSource | src/MdeService/Controller.php:416-420 | writes one source and touches no other key |
| Controllers.Controller.UnsetSource | src/MdeService/Controller.php:426-430 | removes one source and touches no other key |
| Controllers.Controller.SetSourceType | src/MdeService/Controller.php:453-457 | stores the source type and nothing else |
| Controllers.Controller.SetDebug | src/MdeService/Controller.php:471-478 | stores the debug flag `DebugFlag` derives from the value |
| Controllers.Controller.ErrorMessages | src/MdeService/Controller.php:272-277 | the loop collects exactly `Messages(errors)` |
| Controllers.Controller.Serve | src/MdeService/Controller.php:255-286 | encodes the document `ServeBody` describes; on success the response is sent with it, its status kept or defaulted to 200 OK; an encoding failure throws and leaves the response as it was |
| Controllers.Controller.Error | src/MdeService/Controller.php:309-316 | appends the error and sets the status; serves (terminal) exactly when the status is not 200 OK; an unknown status throws from `setStatus` |
| Controllers.Controller.CheckMethod | src/MdeService/Controller.php:105-114 | GET, POST and HEAD pass untouched; any other method gets a 405 error naming it and the request ends |
| Controllers.Controller.ScanHeaders | src/MdeService/Controller.php:117-130 | the header loop computes `ScanFrom` |
| Controllers.Controller.CollectFiles | src/MdeService/Controller.php:136-143 | the file loop computes `CollectFrom` and throws on the first unreadable file |
| Controllers.Controller.GatherSources | src/MdeService/Controller.php:147-163 | with no source at all the "No source to parse!" warning is served; a scalar `sources` throws from `array_merge`; otherwise the sources become `Gathered` and at least one exists |
| Controllers.Controller.Admit | src/MdeService/Controller.php:103-130 | the request is read as `Request.Parse` reads it: a data failure or the first refused upload ends it with that exception, otherwise the data are `ReadData` and the files `Register`'s; a refused method ends it with a 405; on going on the headers are applied as `ScanFrom` |
| Controllers.Controller.TakeSources | src/MdeService/Controller.php:133-172 | sets the source type; an unreadable file in file mode throws; on going on the sources are `Taken`: the files' texts (file mode), then the merged `sources` and the appended `source`; there is at least one source, debugging is the request's flag, the engine exists and no error was added |
| Controllers.Controller.Distribute | src/MdeService/Controller.php:101-175 | a data failure or a refused upload ends it with that exception and no source; a refused method with a 405; on going on: the data and files are the request's as read, the headers were applied as `ScanFrom`, the sources are `Taken` from the request's files and fields, the method is allowed, the engine exists, and the source type and debug flag are the request's |
| Controllers.Controller.Parse | src/MdeService/Controller.php:183-248 | sources, contents, response headers and outcome are those `ParseResult` gives; the response status and content are untouched and it never serves |
| Controllers.Controller.RenderSources | src/MdeService/Controller.php:198-245 | the sources and contents become those the walk `ParseWalk` leaves; a failed walk raises its fault and leaves the headers; a successful one sets the ETag and the engine version |
| Controllers.Controller.StampDates | src/MdeService/Controller.php:185-188 | the response headers become `DateStamped` |
| Controllers.Controller.StampResult | src/MdeService/Controller.php:243-245 | the response headers become `ResultStamped` |
| Controllers.Controller.Walk | src/MdeService/Controller.php:198-242 | the loop over the snapshot of the sources computes `RunFrom`: the books it leaves, the ETag and the first fault |
| Controllers.Controller.Settle | src/MdeService/Controller.php:228-237 | one source's bookkeeping is `Reconcile` |
| Api.Answer | www/mde-api.php:48-51 | distribute, parse, serve, stopping at the first that serves or throws; the request never ends in `Continue` |
| Api.Run | www/mde-api.php:48-54 | every request ends sent (with a status) or with the handler's own exception after a 500 error was collected; the line after `serve` is never reached |
| Containers.Container.constructor | src/MdeService/Container.php:121 | the registry starts empty |
| Containers.Container.Set | src/MdeService/Container.php:128-142 | registers under the lower-cased name when it is free; a taken name throws "can not be override" and changes nothing |
| Containers.Container.Get | src/MdeService/Container.php:148-152 | the object registered under the lower-cased name, or null |
| Containers.Container.Exists | src/MdeService/Container.php:158-162 | `_exists` holds exactly when `_get` finds an object under the name, in any spelling |
| Containers.Container.Delete | src/MdeService/Container.php:167-173 | forgets the lower-cased name; an unknown name changes nothing |
| Containers.LookupIgnoresCase | src/MdeService/Container.php:150-161 | a name and its upper-case spelling reach the same entry |
| Containers.ContainerAccess.constructor | src/MdeService/Container.php:51 | no instance exists before the first call |
| Containers.ContainerAccess.GetInstance | src/MdeService/Container.php:57-63 | creates the registry on first use and returns the same one afterwards |
| Containers.ContainerAccess.Set | src/MdeService/Container.php:79-86 | `Container::set` is `_set` on the single instance |
| Containers.ContainerAccess.Get | src/MdeService/Container.php:100-103 | `Container::get` is `_get` on the single instance, null before any registration |
| Containers.ContainerAccess.Exists | src/MdeService/Container.php:109-112 | `Container::exists` holds exactly when the name is registered |
| Containers.ContainerAccess.Delete | src/MdeService/Container.php:91-94 | `Container::delete` is `_delete` on the single instance |

## Left out

- HTTP emission (`header`, `header_remove`, `headers_sent`, `echo`) and `exit`: sending is a terminal `sent` state of the response, and a served stage returns `Served`.
- The shutdown handler and `error_get_last`: fatal errors that only the shutdown handler would see are not modelled.
- Handler registration (`set_error_handler`, `set_exception_handler`, `register_shutdown_function`): the entry point calls the handlers explicitly when a stage raises.
- `Helper::getAllHeaders`: it is called by `Request::parse` (src/MdeService/Request.php:83) but is not defined in `Helper` (see Findings). The model takes the request headers as part of the request input.
- The container wiring of the controller, request and response: they are fields of the controller. The registry itself is modelled on its own, generic in the object type.
- The exact texts of the PHP warnings turned into errors (`md5`, `array_merge`, the `array` type hint, `file_get_contents`, `Cannot use a scalar value as an array`): their texts follow PHP's wording only approximately.
- PHP floats: JSON numbers with a fraction, or beyond PHP_INT_MAX, decode to floats (`json_decode($data, true)`, src/MdeService/Helper.php:145), which `Value` has no case for, so `Externals.Env.jsonDecode` never returns one and such requests are not modelled. Under `==`, `empty()`, `(bool)` and `md5` a float behaves like the integer or numeric string of the same value (`0.0 == 'file'` holds in PHP 5, `(bool) 0.5` is true, `md5(1.5)` hashes "1.5"), and integers are unbounded rather than 64-bit.
- PHP's numeric-string keys (`"1"` becomes key 1) and numeric-string loose comparison: string keys and compared strings are taken as non-numeric.
- `Helper::getRawData` on a non-string value: `$data{0}` on an array or a number is not modelled; such values come back unchanged.
- `serialize($this)`, the `__sleep` methods and `DebuggableInterface`: the dump is an opaque string parameter of the environment.
- The Markdown engine, `md5`, the JSON codec, `urldecode`, the file-system predicates, the time-zone list and `gmdate`: these are uninterpreted parameters of the environment.
- The process-wide default time zone is a field of the controller.
- The charset and plain getters (`getCharset`, `getContent`, `getSource`, `getFile`, `getErrors`, `Request::getHeader`, `Request::getMethod`, `Request::getHeaders`, `Request::getFiles`, `Request::getData()` without a name (`Requests.Request.AllData`), `Response::getStatus`, `Error::__toString`, and `Controller::isDebug`, whose `(bool)($this->_debug === true)` is the stored flag since the model's flag is always a bool): these are simple field reads and have no contracts of their own. `Request::isMethod` is `MethodMatches` on the verb, whose rule `Requests.MethodMatchesLowerName` states.
- Errors.NewError: the default status 500 of the `Error` constructor (src/MdeService/Error.php:67) and of `createFromException` (src/MdeService/Error.php:38) is not modelled; every call in the core passes a status.
- Api.Run: a sent response is stated to carry a status, not that its content is the document of the last stage; the pipeline's composition is stated stage by stage by each stage's own contract.
- Controllers.Controller.Walk: it takes the rendering and the digest as function values; `RenderSources` instantiates them with the engine-backed `RenderWith` and `DigestWith`.

## Findings

| source | as written | input that shows it | evidently intended | confidence | as-written member | corrected member |
|---|---|---|---|---|---|---|
| src/MdeService/Request.php:83 | `parse` calls `Helper::getAllHeaders()`, which `Helper` does not define under any spelling, so every request stops there with a fatal "undefined method" error that only the shutdown handler sees | any request reaching `Request::parse` | the request headers are read (as PHP's `getallheaders()` returns them) before the data and the uploads | not executed | Requests.GetAllHeadersUndefined | Requests.Request.Parse |
