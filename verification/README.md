# A verified model of the gateway's streaming, exchange, upload and identity logic

The gateway is an HTTP reverse proxy in front of an AI agent. This project models, in Dafny, the
parts of it whose correctness depends on interleavings, on machine arithmetic, or on several
functions together, and proves what they guarantee.

* **SSE relay** (`Text`, `EventStream`, `ClientLaws`, `SseRelay`). A scanner goroutine, the relay loop and a
  heartbeat ticker share an unbuffered channel of lines and a `done` channel. The relay is a step
  relation over these actors, and a class whose `Turn` takes any enabled step. The client is a
  parser for event streams after section 9.2.6 of the WHATWG HTML Living Standard, from bytes to
  dispatched events. The outputs of complete runs are shown to be exactly the placements of
  heartbeats among the lines, and the streams on which a client cannot notice them are characterised
  exactly, whatever line ends inside lines and byte order mark a backend sends.
* **Token-exchange cache** (`Int64`, `ExchangeCache`, `Refetch`, `Calls`, `TokenExchanger`). Any number of
  concurrent callers interleave Load, clock reads, Delete, request, answer and Store under a clock
  that never goes back. Seconds-to-nanoseconds and the margin are computed in wrapping 64-bit arithmetic. The
  imperative exchanger is proved against a function of its inputs; that function is shown to be a run
  of the concurrent machine, and each call of any concurrent run to be that function of what it saw.
* **Upload pipeline** (`Multipart`, `Upload`, `Pipe`). The synchronous prefix, the streaming
  goroutine and the pipe that the transport reads. Inbound data is a sequence of parts, each with a
  framing cost, read under a byte budget; the pipe carries symbols, and its first close wins.
* **Configuration** (`MimeList`, `ByteCount`, `ExchangeSettings`). Loops over text and settings
  against declarative definitions.
* **Identity pipeline** (`Headers`, `Auth`, `Chat`, `IdentityLaws`, `EndToEnd`, `Gateway`).
  Middleware and backend request on mutable header maps; what each mode hands on, from token, claims
  and headers; and a machine in which any number of requests pass through the middleware and begin
  their own exchange calls on one cache, with the end-to-end theorem about every answer it ever gives
  and noninterference over two of its runs.

`Wrappers` holds the option type and `Sequences` facts about concatenation. `Machine` holds the one
notion of a run that the machines share: a sequence of actions each enabled at its turn, so a
statement about every run is a statement about every interleaving.

## Where the code differs from what it or its documentation says

The model follows the code in each of these.

* A heartbeat ends with a blank line, so it closes an open event block. "Sends periodic heartbeat
  comments" suggests that clients never notice; `SseRelay.RelayTransparencyExact` says exactly for
  which streams that is so, `SseRelay.HeartbeatSplitsEvent` that every event of two data lines can
  be split, and `SseRelay.PayloadExact` what survives in any case.
* The cache lifetime is documented as the smaller of expiry minus 30 s and five minutes, if positive.
  `ExchangeCache.DocumentedExactly` says for exactly which lifetimes the code stores that; a large
  negative one is cached (`NegativeLifetimeCached`) and one of 292 years is not
  (`LongLifetimeNotCached`). Overflow never lengthens a non-negative lifetime (`StoredTTLBound`).
* A byte count "must be positive", but number times unit is not checked:
  `ByteCount.HugeCountReadsAsZero` gives a setting that is accepted and turns the upload cap off, and
  `ByteCount.PositiveExactly` says which accepted counts are positive.
* The first entry of the allowlist changes "allow all" into an allowlist, so adding entries is
  monotone only on a list that is not empty; an entry written with a parameter, and only such a one,
  matches nothing (`MimeList.DeadEntriesExactly`).
* The comment on `collectPrefix` allows a nil first file; the code never returns one without an
  error. The package comment of `auth` lists two modes; `jwt` is emitted as well.

## Model

| member | source | states |
|---|---|---|
| SseRelay.RelaySafety | internal/proxy/sse.go:33-68 | in every interleaving, the output without heartbeats is a prefix of the lines up to and including the first whose trimmed text is `data: [DONE]` (all lines if there is none), and when the relay has returned it is all of them |
| SseRelay.StopsAtTerminator | internal/proxy/sse.go:54-61 | told by the text alone: when the relay has returned, the client has the lines up to and including the first that is `data: [DONE]` between white space, or all of them if there is none |
| SseRelay.PlainTerminatorStops | internal/proxy/sse.go:58-61 | the line `data: [DONE]` itself ends the relay, whatever follows it |
| SseRelay.BytesWithoutBeats | internal/proxy/sse.go:54-56 | a complete run without a heartbeat has written the relayed lines, each ended by LF, and not a byte more |
| SseRelay.BytesWritten | internal/proxy/sse.go:55-65 | the bytes that one more line and one more heartbeat add |
| SseRelay.NeverStuck | internal/proxy/sse.go:28-48 | no run has more than 5n+2 steps that are not heartbeats, and any run in which an actor is still alive can go on by such a step, the goroutine that still holds a line after the relay returned included |
| SseRelay.EveryPlacementRuns | internal/proxy/sse.go:47-67 | every placement of heartbeats among the lines before the terminator is the output of some complete run |
| SseRelay.EveryRunIsAPlacement | internal/proxy/sse.go:47-67 | every complete run's output is such a placement followed by the terminator line |
| SseRelay.ClientParsesWrites | internal/proxy/sse.go:55-65 | for any lines, the bytes the relay writes, cleared of a leading byte order mark, split at LF, CR and CRLF and interpreted, mean to the client what the individual writes mean |
| SseRelay.TailIsSilent | internal/proxy/sse.go:58-61 | a terminator in which the client finds no blank line dispatches no event and commits no ID: the relay returns before the blank line after it |
| SseRelay.SilentExactly | internal/proxy/sse.go:58-61 | a line dispatches nothing, whatever is pending, exactly if the client finds no blank line in it |
| SseRelay.RelayTransparencyExact | internal/proxy/sse.go:47-68 | for any lines at all: every complete run gives the client exactly the events of the relayed lines, if and only if each line before the terminator leaves a pending event as it is or starts one of the type it would have after a dispatch, nothing is pending at the end (or the terminator, if the client finds a blank line in it, does so too), and both hold with the same events whether a leading byte order mark is dropped or kept |
| SseRelay.QuietTransparency | internal/proxy/sse.go:58-61 | for a terminator in which the client finds no blank line, these are the events of the lines before it |
| SseRelay.SingleFieldStreamsSurvive | internal/proxy/sse.go:47-68 | so it is when lines have no CR and no leading byte order mark, no block has more than one field line and every block is closed by a blank line |
| SseRelay.PayloadSurvives | internal/proxy/sse.go:55-66 | with blocks of any shape, the last one closed and no leading byte order mark, the `data` payload the client gets in any run is the sequence of `data` values before the terminator: none lost, merged, duplicated or reordered |
| SseRelay.PayloadExact | internal/proxy/sse.go:55-66 | for any lines and a terminator in which the client finds no blank line, that holds in every run exactly when the lines leave nothing pending and have the same values with a leading byte order mark dropped or kept |
| SseRelay.LastIdExact | internal/proxy/sse.go:55-66 | with such a terminator, the ID a client sends when it reconnects is the same in every run exactly when each line since the last blank one repeats the committed ID, with a leading byte order mark dropped or kept |
| SseRelay.HeartbeatSplitsEvent | internal/proxy/sse.go:63-65 | an event of any two data lines is not robust: a run is given in which the client gets two events where the backend sent one |
| SseRelay.SplitForInstance | internal/proxy/sse.go:63-65 | the same for the data lines `a` and `b` |
| SseRelay.OpenBlockIsUnsure | internal/proxy/sse.go:55-66 | a data line that no blank line follows is lost in one run and delivered in another, so the condition of PayloadExact can fail |
| SseRelay.HeartbeatCommitsId | internal/proxy/sse.go:63-65 | an `id` line that no blank line follows leaves the client with two different reconnection IDs in two runs |
| SseRelay.MarkLosesField | internal/proxy/sse.go:63-65 | a first `data` line with a byte order mark is delivered in one run and lost in another, in which a heartbeat comes first |
| SseRelay.Relay.Turn | internal/proxy/sse.go:33-67 | each turn of the program is the step of the machine that was chosen |
| SseRelay.Relay.Serve | internal/proxy/sse.go:16-69 | a whole run, any enabled step coming next, is a run of the machine, ends with both actors gone, and has written exactly the lines up to the terminator besides heartbeats |
| EventStream.TransparentToIffRobustTo | internal/proxy/sse.go:47-66 | with a last line that no heartbeat follows, or none: heartbeats are invisible in all placements if and only if lines and end are robust, by a simulation in which the output is at most one dispatch ahead, and by placements that disagree about the next event at an unsettled line |
| EventStream.TransparentIffRobust | internal/proxy/sse.go:63-65 | the same without such a last line |
| EventStream.Simulation | internal/proxy/sse.go:63-65 | on settled lines, the parser fed with heartbeats agrees with the parser of the bare lines or is exactly one dispatch ahead |
| EventStream.SettledWithin | internal/proxy/sse.go:63-65 | if no placement dispatches anything but the beginning of one list of events, every line is settled |
| EventStream.SingleFieldBlocksAreRobust | internal/proxy/sse.go:54-66 | for lines without CR, at most one field line to a block and every block closed is a sufficient shape |
| EventStream.PayloadConserved | internal/proxy/sse.go:55-66 | at every moment, payload delivered plus payload buffered equals the payload of the lines taken so far, whatever heartbeats came between |
| EventStream.HeartbeatsOnlySplit | internal/proxy/sse.go:55-66 | with nothing pending at the end, the delivered payload is the same with heartbeats as without and is the sequence of `data` values |
| EventStream.PendingIsMissing | internal/proxy/sse.go:58-61 | payload still pending at the end is missing from what bare lines deliver |
| EventStream.PlainSettled | internal/proxy/sse.go:63-65 | a line without CR is settled exactly if it is blank, leaves a pending event as it is, or starts one only with the default type |
| EventStream.IdTransparentIffSettled | internal/proxy/sse.go:63-65 | heartbeats leave the committed ID alone in all placements if and only if each line since the last blank one repeats it |
| ClientLaws.PrintedEventsParse | internal/proxy/sse.go:13-15 | the client's parser reads back any sequence of messages printed as an event stream: types, data line by line, and IDs carried on |
| ClientLaws.FieldForms | internal/proxy/sse.go:13-15 | a field written with a colon and a blank, with a colon alone, or without a value means the same |
| ClientLaws.FieldEffects | internal/proxy/sse.go:13-15 | what `event`, `data`, `id` and `retry` do, and that any other field and a comment do nothing |
| ClientLaws.LineEndsAlike | internal/proxy/sse.go:13-15 | a client reads the same lines whether they end in LF, CR LF or CR |
| ClientLaws.UnendedLineDropped | internal/proxy/sse.go:13-15 | a last line without an end is no line |
| ExchangeCache.TokensAreIssued | internal/auth/exchange.go:128-150 | in every run of any number of callers, every cached token and every returned token is non-empty and was issued in answer to a request for the same subject token |
| ExchangeCache.HitsAreFresh | internal/auth/exchange.go:130-149 | in every run, a call that looks at a cached entry and ends with a token returns one issued for its subject token; less than the cap has passed since the clock read that set the expiry, and the token still lives longer than 30 s minus the delay between its issue and that read exactly if its lifetime was issued as non-negative |
| ExchangeCache.HitExactly | internal/auth/exchange.go:132-135 | looking at an entry ends the call with its token exactly if the clock is before the expiry, and goes on to delete it otherwise |
| ExchangeCache.CacheEffects | internal/auth/exchange.go:135-149 | a Delete removes its caller's entry whoever stored it and however fresh it is, a Store overwrites it, and no other step touches the cache |
| Calls.EveryCallIsTheProgram | internal/auth/exchange.go:128-151 | in every run of any number of callers, each finished call returned what the sequential program returns on the cache at its own Load, the clock at its Check, the server's answer to it and the clock when it computed the expiry, and asked the server just when that program does |
| Calls.IssuesAreAnswers | internal/auth/exchange.go:185-206 | in every run the recorded issues are exactly the server's answers to waiting requests, each with its call, subject token, token, lifetime and time |
| ExchangeCache.StoredTTLBound | internal/auth/exchange.go:143-148 | for `expires_in` >= 0 a stored TTL is at most the cap and at most (expires_in - 30) seconds in wrapping arithmetic, and 30 or less stores nothing |
| ExchangeCache.StoredTTLBoundExact | internal/auth/exchange.go:143-148 | over all 64-bit `expires_in` that bound holds exactly for the non-negative ones and the negative ones whose reduced nanoseconds do not read as positive in 64 bits |
| ExchangeCache.DocumentedExactly | internal/auth/exchange.go:141-149 | over all `expires_in`, what is stored is the documented lifetime exactly if, beyond the margin, nothing overflows or the overflowed value still reaches the cap, and otherwise the reduced nanoseconds do not read as positive in 64 bits |
| ExchangeCache.NegativeLifetimeCached | internal/auth/exchange.go:206 | a lifetime of -9223372037 s is cached for the whole cap |
| ExchangeCache.LongLifetimeNotCached | internal/auth/exchange.go:143-147 | a lifetime of 9223372067 s is not cached although the documentation promises the whole cap |
| ExchangeCache.TTLWithoutOverflow | internal/auth/exchange.go:143-147 | without overflow the TTL is the smaller of cap and lifetime less margin, positive exactly above 30 s |
| ExchangeCache.OneRequestPerCall | internal/auth/exchange.go:137 | in every run each call sends at most one request |
| ExchangeCache.CacheFrame | internal/auth/exchange.go:130-149 | a step changes the cache at no key but its own caller's, and only by that caller's Delete or by the Store that ends its call with a token |
| ExchangeCache.FailedCallsNeverStore | internal/auth/exchange.go:137-140 | in every run, a call that ended in failure has stored nothing |
| Refetch.RefetchReasons | internal/auth/exchange.go:130-150 | in every run of any number of callers: two calls for one subject token, the second of which looked in the cache when the first was over, both asked the server only if the first failed or was not cacheable, or its entry had expired or was deleted or overwritten by another call in between |
| TokenExchanger.Fetch | internal/auth/exchange.go:185-206 | a response is a grant exactly if it is a 200 with a decodable body and a non-empty access token, and the grant is that token and lifetime |
| TokenExchanger.Exchanger.New | internal/auth/exchange.go:84-115 | an exchanger exists exactly if all four required settings are there; its cache starts empty and its cap is positive, five minutes when none is set |
| TokenExchanger.Exchanger.Exchange | internal/auth/exchange.go:128-151 | cache, outcome and whether the server was asked are the specified function of the old cache, clock readings and response |
| TokenExchanger.RefetchReason | internal/auth/exchange.go:130-150 | in a sequence of calls, two requests for one subject token happen only if the earlier one failed, was not cacheable, or its entry had expired |
| TokenExchanger.SequentialIsARun | internal/auth/exchange.go:128-151 | a call nobody interferes with is a run of the concurrent machine with the same cache and outcome, and sends a request exactly if it fetched |
| TokenExchanger.ReplayIsARun | internal/auth/exchange.go:128-151 | a whole sequence of calls on an empty cache is one run of the concurrent machine, with the same final cache and each call with its outcome and its number of requests |
| TokenExchanger.RefetchInRun | internal/auth/exchange.go:130-150 | in that run, two calls for one subject token both send a request only if the earlier one failed, was not cacheable, or its entry had expired |
| ExchangeSettings.ValidateExchangeConfig | internal/config/config.go:273-292 | accepted exactly if exchange is fully configured or not at all |
| Upload.SplitIsTransparent | internal/handler/files.go:198-238 | buffered fields, first file and unread rest are the inbound parts in order; the buffer holds form fields only; the first file exists and is allowed |
| Upload.StreamIsPrefix | internal/handler/files.go:245-292 | what the goroutine writes is a prefix of the encoding of the inbound parts, and all of it when there is no error |
| Upload.OnlyAllowedFilesWritten | internal/handler/files.go:273-287 | no file part whose declared or defaulted type is disallowed is opened upstream, whichever phase meets it |
| Upload.WithinMaxBytes | internal/handler/files.go:74-78 | with a positive cap, buffered field bytes and forwarded body bytes together never exceed it |
| Upload.UploadCompletesIff | internal/handler/files.go:198-292 | an upload is forwarded without error if and only if it has a file, every file is allowed, and the body ends before the cap or a fault |
| Upload.UpstreamIff | internal/handler/files.go:51-103 | an upstream request starts if and only if the header checks pass and an allowed first file is reached within the cap and before any fault |
| Upload.AnswersExactly | internal/handler/files.go:51-103 | every answer of the handler, 405, 415, 400, 413 or none, with exactly the requests that get it, from method, content type, length, parts, cap and fault alone |
| Upload.JudgedBy | internal/handler/files.go:211-236 | a file part is judged by the first value of its Content-Type, or as `application/octet-stream` without one, and a form field is not judged |
| Upload.SingleFileExactly | internal/handler/files.go:74-78 | an upload of one file gets through exactly if its type is allowed and all its bytes, framing included, are within the cap |
| Upload.FailsBecause | internal/handler/files.go:245-292 | an admitted upload ends with the first disallowed file if it is reached, else with what stops the body before its end, else without error |
| Upload.BreakAtTheCap | internal/handler/files.go:74-102 | a body that breaks off after exactly MaxBytes bytes is answered 400, one that breaks off a byte later 413 |
| Upload.BufferWithinMaxBytes | internal/handler/files.go:199-222 | accepted or refused, what the synchronous phase reads into memory never exceeds a positive cap |
| Upload.Admit | internal/handler/files.go:51-103 | answers in the decision order with the specified status, or leaves the reader at the body of the first file |
| Upload.CollectPrefix | internal/handler/files.go:198-238 | computes the specified prefix, first file and reader position, or the error; on every path what it has buffered on return is within the bytes the cap allowed |
| Upload.ReplayPrefix | internal/handler/files.go:251-259 | writes the encoding of the buffered fields as far as the pipe takes it, and fails exactly if it does not take it all |
| Upload.CopyBody | internal/handler/files.go:300-303 | reading and writing in turn, in chunks of any size, puts out the body as far as it can be read and the pipe takes it |
| Upload.CopyPart | internal/handler/files.go:294-305 | writes the part's head and then its body chunk by chunk, as far as it can be read and the pipe takes it; the error is the pipe's, else the reader's |
| Upload.ForwardRest | internal/handler/files.go:265-291 | writes the remaining parts up to the first disallowed file, read error or pipe failure, and reports that one |
| Upload.StreamRest | internal/handler/files.go:245-292 | the two phases together put the specified plan on the pipe as far as it takes it, with the plan's own error if it takes it all |
| Multipart.PrefixIsTruncation | internal/handler/files.go:294-305 | a prefix of an encoding is a number of whole parts and at most one cut short |
| Multipart.EncodeSaysParts | internal/handler/files.go:251-303 | an encoding read symbol by symbol gives back its parts: header, file name and body of each, in order |
| Pipe.CleanEofIsComplete | internal/handler/files.go:109-123 | in every run, the transport reads a clean end only if every part was written and the closing boundary with it; after any error it never does, though the error path closes the writer and the deferred Close comes last |
| Pipe.ClosedCleanlyIff | internal/handler/files.go:112-123 | once the goroutine is gone, the pipe was closed cleanly exactly if there was no error and the transport took everything up to the closing boundary |
| Pipe.UnbrokenPipe | internal/handler/files.go:112-123 | unless the transport hangs up it gets all the goroutine has and the closing boundary, also after an error, and the pipe is closed with exactly that error or cleanly; any end it is told is that one |
| Pipe.EndIsTold | internal/handler/files.go:112-123 | a transport that has not hung up is told how the pipe was closed |
| Pipe.GoroutineFinishes | internal/handler/files.go:112-123 | in every run the goroutine takes at most five steps more than it has symbols to write, and until it is gone its next step is enabled and brings it nearer its end, as long as the transport reads on or hangs up |
| Pipe.TransportSeesInbound | internal/handler/files.go:105-146 | in every run what the backend has, decoded, is the inbound parts in order with their own headers and file names, the body of the last possibly cut short, none of them a disallowed file; and it sees a clean end only after all of them in full |
| Pipe.TransportWithinMaxBytes | internal/handler/files.go:74-123 | in every run under a cap, the body bytes it has never exceed it |
| Pipe.Goroutine | internal/handler/files.go:112-123 | the program, with its deferred close last, is a run of the pipe machine, and closes cleanly exactly if the plan has no error and the transport takes all of it and the boundary |
| Pipe.ServeUpload | internal/handler/files.go:51-146 | from request to closed pipe: the decision; a clean end exactly if the upload was admitted, every file is allowed, the body ends before cap and fault, and the transport takes everything, which then decodes to the inbound parts; with a transport that takes all, exactly the error that stands in the way; in any case no disallowed file, no header or order changed, and no byte above the cap |
| MimeList.MIMEAllowed | internal/config/config.go:116-139 | answers as the declarative match on the media type of the content type |
| MimeList.AllowsExactly | internal/config/config.go:116-139 | that match, on text: anything for an empty list; otherwise a type that is not blank and is an entry, or has the type before the slash of an entry that ends in a slash and a star |
| MimeList.OneEntryExactly | internal/config/config.go:127-137 | a list of one entry allows a plain media type exactly if it names it or is a wildcard for it |
| MimeList.WildcardAllows | internal/config/config.go:131-136 | a wildcard allows every subtype of its type |
| MimeList.MediaTypeIs | internal/config/config.go:120-123 | the media type is the text before any parameters, without surrounding white space, in lower case |
| MimeList.ParseMIMEList | internal/config/config.go:373-386 | yields the entries of the comma-separated text |
| MimeList.EntriesInOrder | internal/config/config.go:377-384 | each item that is not blank is one entry, trimmed and in lower case, and entries keep the order of the items |
| MimeList.NormalisedIsMediaType | internal/config/config.go:120-123 | trimming, lower-casing and cutting at the semicolon in the code's order gives the lower-cased, trimmed part before the first semicolon |
| MimeList.AllowlistOnRawText | internal/config/config.go:373-386 | parse and match together equal a definition on the items between the commas of the raw text, each taken without white space and in lower case |
| MimeList.TypeSpellingIrrelevant | internal/config/config.go:120-123 | letter case, surrounding space and parameters of the content type do not matter |
| MimeList.EntrySpellingIrrelevant | internal/config/config.go:379-380 | letter case and surrounding space of a list item do not matter |
| MimeList.OrderIrrelevant | internal/config/config.go:127-137 | order, repetition and blank items of the list do not matter |
| MimeList.SomeTypeIsLeftOut | internal/config/config.go:116-139 | a list that is not empty leaves out some proper type/subtype |
| MimeList.MonotoneExactly | internal/config/config.go:116-139 | adding entries never takes away a type that is not blank, exactly if the list was not empty or nothing is added |
| MimeList.ParameterisedEntryNeverMatches | internal/config/config.go:121-137 | a list item with a parameter matches no content type |
| MimeList.DeadEntriesExactly | internal/config/config.go:116-139 | exactly the non-blank list items without a semicolon match some content type |
| ByteCount.EnvBytesDefault | internal/config/config.go:323-352 | computes the specified value, fallback or error |
| ByteCount.SettingExactly | internal/config/config.go:323-352 | the fallback for an unset or empty setting; for a numeral with an optional unit k, m or g, with or without b or ib, of 1024, 1024^2 or 1024^3, in any letter case and spacing, the wrapped product, or the error for a number that does not fit or is not positive; and invalid for any other text |
| ByteCount.ParseIntExactly | internal/config/config.go:345 | what is read are exactly the decimal numerals, with or without sign, whose value fits in 64 bits |
| ByteCount.AtMostOneUnit | internal/config/config.go:330-344 | no text ends in two different units, so the order of the table is immaterial |
| ByteCount.PrintedParses | internal/config/config.go:323-352 | a positive number printed with any unit in any letter case and spacing reads as number times unit in wrapping 64-bit arithmetic, or is refused when the number itself does not fit |
| ByteCount.RoundTripExactly | internal/config/config.go:345-351 | it reads as the true product exactly if that product fits in 64 bits |
| ByteCount.PositiveExactly | internal/config/config.go:345-351 | a positive number that fits is accepted, and comes out positive exactly if the low 64 bits of number times unit read as positive |
| ByteCount.HugeCountReadsAsZero | internal/config/config.go:351 | `17179869184g` is accepted and reads as 0 |
| Headers.NameCaseIrrelevant | internal/handler/propagation.go:18-20 | the letter case of a header name does not matter |
| Headers.SpellingRoundTrip | internal/auth/auth.go:30-44 | the names the gateway uses are found again as it spells them |
| Headers.WireNames | internal/auth/auth.go:30-44 | the names the gateway uses, as they are written |
| Headers.NamesExactly | internal/handler/propagation.go:18-20 | two spellings are one name exactly if their canonical keys agree, and then they differ in letter case only |
| Headers.FirstValue | internal/auth/auth.go:143-151 | the first value of a header counts, and none counts as empty |
| Auth.StripCanonicalHeaders | internal/auth/middleware.go:88-92 | exactly the four canonical headers are gone |
| Auth.SetCanonicalHeaders | internal/auth/middleware.go:97-102 | exactly the four canonical headers are set, empty fields included |
| Auth.ProjectAuthorization | internal/auth/middleware.go:78-84 | Authorization carries the gateway's own token or is gone, and nothing else changes |
| Auth.AuthenticateJWT | internal/auth/jwt.go:138-186 | the identity, 401 or 503 class of the specification; the cache changes as one exchange of this request's token changes it, and not at all unless the token was validated |
| Auth.ServeHTTP | internal/auth/middleware.go:33-71 | rejects with 401 or 503 or passes on the specified header map, and touches the cache only for a validated token on an authenticated path |
| Auth.FootprintDecides | internal/auth/auth.go:116-159 | identity resolution depends on nothing of a request but the configured proxy headers or the bearer token |
| IdentityLaws.BearerExactly | internal/auth/jwt.go:191-205 | the bearer token is the non-empty text, without surrounding white space, after the scheme `bearer` in any letter case and a blank |
| IdentityLaws.JwtExactly | internal/auth/jwt.go:138-186 | jwt mode from token, verdict and claims: exactly when 401, 503 or neither, and that the next handler gets the three configured claims as subject, user and email, mode `jwt`, the exchanged token or no Authorization, and all else as sent |
| IdentityLaws.ProxyExactly | internal/auth/auth.go:142-159 | proxy mode: 503 exactly when the user header is missing or empty, otherwise its value as subject and user, the email header's as email, no Authorization |
| IdentityLaws.AnonymousExactly | internal/auth/auth.go:116-123 | anonymous mode: every request is handed on as `anonymous`, without user, email or Authorization |
| IdentityLaws.ExemptExactly | internal/auth/middleware.go:14-41 | the three probe and discovery paths are handed on without canonical headers and otherwise as sent |
| IdentityLaws.HandedOnReaches | internal/handler/chat.go:140-146 | what the middleware hands on reaches the backend: identity, token, trace headers, content type, and nothing else |
| Chat.CopyHeaders | internal/handler/chat.go:141-145 | adds exactly the named headers that have a value, with their first value |
| Chat.CopyPropagationHeaders | internal/handler/propagation.go:21-27 | the same for the two trace headers |
| Chat.DoBackendRequest | internal/handler/chat.go:134-148 | builds a fresh header map that is the specified function of the request's |
| Chat.UploadRequest | internal/handler/files.go:132-144 | the same for the upload, with the multipart content type |
| Chat.BackendSeesIdentity | internal/handler/chat.go:140-146 | the backend's header map, of a chat request or an upload, is exactly the non-empty identity fields, the gateway's token, the trace headers and the content type |
| Chat.BackendDependsOnFootprint | internal/auth/middleware.go:36-67 | two requests that identity resolution reads alike, with the same trace headers, get the same answer or identical backend headers, whatever else they differ in |
| Chat.AuthorizationOnlyByExchange | internal/auth/middleware.go:73-84 | Authorization reaches the backend exactly in jwt mode with an exchanger, and carries the exchanged token |
| Gateway.EveryBackendTokenIsTheCallers | internal/auth/middleware.go:33-71 | in jwt mode with an exchanger, in every run of any number of requests that begin their own exchange calls: an answered request was passed on exactly if its own exchange yielded a token, and then its bearer token was valid and every backend request made for it carries a non-empty token issued for its own |
| Gateway.SpoofingNeverHelps | internal/auth/middleware.go:36-67 | over two runs in every mode: if clients put different things under X-Auth-* names and all else is the same, then the same actions stay possible and the exchange calls, the token cache, the requests to the authorization server and every answer with the headers it passes on are the same |
| Gateway.NoExchangeNoMatter | internal/auth/jwt.go:138-186 | a request that does not get as far as the exchange gets the same answer whatever the exchange would yield |
| Gateway.AnswersAreOwn | internal/auth/middleware.go:33-71 | in every mode and run, an answer is what the middleware makes of that very request and of what its own exchange yielded |
| Gateway.RequestsAreArrivals | internal/auth/middleware.go:33-71 | the requests of a run are those that arrived, unchanged |
| Gateway.NobodyWaits | internal/auth/middleware.go:33-71 | a request can always arrive, an exchange can take any step it could take by itself, and one whose exchange has ended can always be answered, whatever the others do |

## Left out

- Sockets, HTTP client and server, timeouts, logging, graceful shutdown and deployment files: input and output.
- JWT signatures, JWKS fetching and its rate limiter: library code, an oracle `validate` stands for the verdict on a token.
- SHA-256 as cache key: taken as free of collisions, so a key is the subject token itself under a constructor.
- The form fields and headers of the RFC 8693 request, and JSON decoding of the reply: a reply is a status with an optional pair of token and 64-bit lifetime.
- `time.Time` beyond 64 bits of nanoseconds: clock readings are unbounded integers, only durations wrap; Before is the order of the integers.
- Multipart byte framing and the choice of boundary (RFC 2046 section 5.1): each part costs a given number of framing bytes, and the pipe carries symbols, so a transport may stop between any two of them.
- Which bytes of a cut part the multipart parser holds back: a parameter of the reader, for all values of which the theorems hold.
- The delimiter after a body is charged to the framing of the next part, so a body that breaks off inside its own delimiter counts as read in full before the reader reports the fault; the answer and the error are the same.
- The status answered after an upstream transport error, and a goroutine left behind when building the upstream request fails: they depend on the HTTP library or end the handler before the transport exists.
- Scanning of the backend body (`bufio.Scanner`): the scanned lines are the input, cut short at the first over-long line or read error.
- The relay on a writer that cannot flush, and write errors of the client connection, which the relay ignores.
- Timer periods: a heartbeat may come at any moment, so every theorem covers more interleavings than a 15 s ticker allows.
- EventStream: the `retry` field is kept as its digits.
- SseRelay.PayloadExact, SseRelay.LastIdExact: not stated for a terminator padded with so many CRs that the client finds a blank line in it, because it is then itself payload; `SseRelay.SilentExactly` says when that is, and events are covered by `SseRelay.RelayTransparencyExact`.
- Decoding UTF-8: streams, header values and settings are sequences of characters.
- Letter case beyond ASCII: only characters that have an ASCII lower case change (the Kelvin sign and dotted capital I besides the letters), which is all the compared constants can notice; a letter elsewhere keeps its case, and two types that differ only in such letters are not identified.
- Chat.DoBackendRequest: the header map only; method, URL, body and the `stream` switch are not part of it.
- Chat.UploadRequest: the boundary is a parameter that needs no quoting in the content type.
- Feedback, health and well-known handlers, the forwarding handler, target URL selection, routing, response header pass-through and the other settings of `Load`: easy members or reverse-proxy library behaviour.
