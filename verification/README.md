# Job board: a verified model

A Dafny model of the job-board server's stateful and string-handling parts, with proofs of what they
keep. `dafny verify dfyconfig.toml` checks all of it.

| part | files |
|---|---|
| webhook dispatcher: queue, worker, retry goroutines, shutdown | `WebhookModel`, `WebhookInvariant`, `WebhookHistory`, `WebhookCounters`, `WebhookTheorems`, `WebhookReplies`, `WebhookOrder`, `WebhookEnds`, `WebhookTermination`, `WebhookDispatcher` |
| per-IP rate limiter with eviction | `RateLimitModel`, `RateLimitEviction`, `RateLimitBounds`, `RateLimitDecisions`, `RateLimitIndependence`, `RateLimiter` |
| PostgreSQL `text[]` printer and parser | `Utf8`, `TextArray` |
| slugs, file names, resume sniffing | `Text`, `Slug`, `SlugRules`, `Filename`, `FilenameRules`, `Resume` |
| custom questions and answers | `CustomForm`, `FormRules` |
| job service | `Job`, `JobModel`, `JobRules`, `JobLifecycle`, `JobService` |
| application service | `AppModel`, `AppConsistency`, `AppAdmission`, `AppExamples`, `ApplicationService` |
| list queries and pagination | `ListQuery` |

## How the model is built

Each stateful component has three layers. A state machine says what one atomic step does; a run is any
sequence of enabled steps, so a theorem about runs covers every interleaving. Lemmas prove what all runs
keep. A class holds the component's fields and updates them in place; each method's contract says which
steps of the machine it takes. For the dispatcher and both services, `Valid()` says that a run of the
machine leads to the object's state, and every method keeps it, so the theorems apply to the object. The
rate limiter's methods are tied to the functions its steps are made of; requests in flight are not part
of that object.

What a component computes is stated a second time without the functions of the machine: in status codes,
tokens per second, bytes, characters, fields and rows. The lemmas named `...Exactly` prove that the two agree.

Failures of the database, of storage, of the network and of JSON marshalling are inputs of the steps, and
every theorem holds whichever of them occur. The clock and freshly made ids are inputs as well; ids are
fresh and contain no separator, as `internal/domain/id.go` makes them. The rate limiter's clock and its
tokens are real numbers. Unicode tables, URL and number syntax, case folding and `ILIKE` are parameters
that obey a few stated laws. Fields under a `history` comment are never read by a branch.

## Where the code falls short of its intent

Each is proved together with the exact condition under which the intent is met, and with an input or a run
for which it is not.

- Cleanup of idle visitors changes admission decisions, and lets an IP exceed its bound, unless `rps * (TTL - gap) >= burst`, where `gap` bounds the time between the look-up of a limiter and the draw on it; for a gap of the TTL or more, unless the burst is 0 (`RateLimitBounds.InvisibleExactlyWhenRefilled`, `RateLimitBounds.BoundedExactlyWhenRefilled`; a run for every failing policy: `RateLimitBounds.TooSlowExceeds`).
- `TextArray` round-trips exactly the lists of well-formed UTF-8 strings (`TextArray.RoundTripExactly`; a lost byte: `TextArray.StrayByteIsReplaced`).
- The key of a stored resume does not always end in the stored file name. For a given name with an extension it does exactly if the cleaned stem is at most 100 bytes or its 100th is alphanumeric; for a name that ends in a dot, exactly if what precedes the dot is settled already (`Filename.SettlesAtOnce`, `AppConsistency.KeyNamesFileExactly`; a name for which it does not: `Filename.TwiceCanDiffer`).
- A field type written with surrounding space is accepted in a schema, and then answers to it are not checked against it (`CustomForm.TypesEnforcedExactly`; such a field and answer: `CustomForm.SpacedTypeLetsThrough`).
- An update with a blank slug stores an empty slug (`JobLifecycle.UpdatedSlugValidExactly`; two calls that do: `JobLifecycle.BlankSlugRun`).
- A submission whose row could not be created leaves its resume behind in storage if deleting it fails too (`AppConsistency.FailedApplyChangesNothing`; such a run: `AppExamples.OrphanedResume`).
- Taking the reason of a rejection back is not announced, so the last announced reason is not the stored one (`AppConsistency.ReasonAnnouncedExactly`; such a run: `AppExamples.WithdrawnReason`).

## Model

| member | source | states |
|---|---|---|
| WebhookTheorems.TicketsConserved | internal/webhook/dispatcher.go:185-200 | in every reachable state each (Dispatch call, subscription) pair is in exactly one place, and the queue is within its capacity |
| WebhookTheorems.PostsBounded | internal/webhook/dispatcher.go:271-299 | no delivery is POSTed more than once plus once per retry delay |
| WebhookTheorems.Backoff | internal/webhook/dispatcher.go:271-298 | two POSTs of one delivery carry the same body, and between them lie all the retry delays between their attempt numbers |
| WebhookTheorems.RequestsRefineHistory | internal/webhook/dispatcher.go:237-269 | the failure counters equal the failed attempts since the last reply of 200 to 299, and deactivation is requested exactly on a 410, or on another failure at the threshold |
| WebhookTheorems.FirstRequestAtThreshold | internal/webhook/dispatcher.go:255-269 | the first threshold request of a streak of failures comes at exactly the configured count |
| WebhookTheorems.DeactivationMutes | internal/webhook/dispatcher.go:349-360 | a stored deactivation makes the subscription inactive and changes nothing else in the store, although it writes back an old copy |
| WebhookTheorems.MutedForever | internal/webhook/dispatcher.go:161-169 | once a subscription is inactive or deleted, no later Dispatch call makes a delivery for it |
| WebhookTheorems.ThresholdDrains | internal/webhook/dispatcher.go:255-299 | from the threshold on, with no success and no newly accepted delivery, a subscription gets at most as many POSTs as it then has deliveries queued, in the worker or awaiting retry |
| WebhookReplies.ReplyDecides | internal/webhook/dispatcher.go:233-300 | by status code: 200 to 299 ends the delivery and clears the counter, 410 ends it and deactivates, anything else counts and retries, ends or deactivates |
| WebhookOrder.FirstInFirstOut | internal/webhook/dispatcher.go:193-228 | in every reachable state the POSTs so far were of the deliveries put into the queue, in that order |
| WebhookOrder.DispatchReachesExactly | internal/webhook/dispatcher.go:161-191 | a Dispatch call makes one delivery for each active subscription to the event or to "*", and for no other |
| WebhookEnds.EndsTellTheTruth | internal/webhook/dispatcher.go:237-299 | each finished delivery ended for the reason its last POST shows |
| WebhookEnds.DroppedExactlyWhenFull | internal/webhook/dispatcher.go:193-199 | a delivery is dropped if and only if it is offered to a full queue |
| WebhookTermination.WorkLowersMeasure | internal/webhook/dispatcher.go:215-300 | every step of a goroutine of the dispatcher lowers a measure led by the remaining attempts |
| WebhookTermination.WorkBounded | internal/webhook/dispatcher.go:215-300 | over any run the goroutines take at most a fixed number of steps per delivery |
| WebhookTermination.NothingAfterReturn | internal/webhook/dispatcher.go:134-146 | once the worker has returned, which is what Stop waits for, nothing dispatched later is ever POSTed |
| WebhookTermination.AtRestAllEnded | internal/webhook/dispatcher.go:134-146 | when nothing can move any more every delivery has ended, except those still queued after a shutdown, and after a shutdown the worker has returned |
| WebhookCounters.StepKeepsInv | internal/webhook/dispatcher.go:149-300 | every step of every goroutine, the clock and the store keeps the whole invariant |
| WebhookInvariant.StepFlow | internal/webhook/dispatcher.go:185-300 | any sum over live deliveries changes in a step only by those that enter and leave in it |
| WebhookHistory.StepConsistent | internal/webhook/dispatcher.go:271-298 | each step keeps live deliveries in agreement with the log of POSTs: number, body and waiting time |
| WebhookDispatcher.Dispatcher.constructor | internal/webhook/dispatcher.go:85-125 | missing and non-positive settings are replaced by the defaults |
| WebhookDispatcher.Dispatcher.Dispatch | internal/webhook/dispatcher.go:149-203 | an uninterrupted call is the listing followed by one offer per target in order; failures of the listing or of marshalling change nothing |
| WebhookDispatcher.Dispatcher.Send | internal/webhook/dispatcher.go:193-199 | a non-blocking send enqueues at the back or drops at a full queue |
| WebhookDispatcher.Dispatcher.TakeTask | internal/webhook/dispatcher.go:218-228 | the worker takes the oldest delivery |
| WebhookDispatcher.Dispatcher.ProcessTask | internal/webhook/dispatcher.go:233-300 | the counters, the store, the retry goroutines and the history after a POST with any reply, by status code |
| WebhookDispatcher.Dispatcher.RetryTimer | internal/webhook/dispatcher.go:284-291 | when the timer fires the attempt number goes up by one |
| WebhookDispatcher.Dispatcher.RetryPush | internal/webhook/dispatcher.go:292-296 | a retry goroutine hands its delivery to the back of the queue |
| WebhookDispatcher.Dispatcher.RetryQuit | internal/webhook/dispatcher.go:285-296 | shutdown discards the delivery of a waiting retry goroutine |
| WebhookDispatcher.Dispatcher.SignalStop | internal/webhook/dispatcher.go:135-143 | the stop channel is closed once however often Stop is called, and nothing else changes |
| WebhookDispatcher.Dispatcher.WorkerReturn | internal/webhook/dispatcher.go:215-223 | at a shutdown the worker returns and leaves the queue as it is |
| RateLimitBounds.InvisibleExactlyWhenRefilled | internal/api/middleware/ratelimit.go:73-104 | cleanup changes no decision of any run if and only if an idle bucket refills within the TTL, however long requests pause between look-up and draw |
| RateLimitBounds.BoundedExactlyWhenRefilled | internal/api/middleware/ratelimit.go:73-104 | the admission bound holds in all runs if and only if an idle bucket refills within the TTL |
| RateLimitBounds.AdmissionBound | internal/api/middleware/ratelimit.go:73-104 | under that condition an IP is admitted at most burst + rps * T times in any window of length T, with any cleanups |
| RateLimitDecisions.DecidedByHistory | internal/api/middleware/ratelimit.go:86-104 | a request is admitted if and only if that keeps its IP within the bound in every window that ends with it |
| RateLimitDecisions.RestedIsAdmitted | internal/api/middleware/ratelimit.go:86-104 | whatever was cleaned up, an IP that was not admitted for 1 / rps is admitted |
| RateLimitIndependence.OthersDoNotMatter | internal/api/middleware/ratelimit.go:86-104 | the decisions about an IP are those it would get if nobody else sent requests |
| RateLimitEviction.RefilledRun | internal/api/middleware/ratelimit.go:73-83 | each run decides like the same requests without cleanups |
| RateLimiter.Limiter.Allow | internal/api/middleware/ratelimit.go:102-104 | the token bucket: refill at rps per second up to the burst, one token per admitted request, and refused exactly when there is less than one |
| RateLimiter.IPRateLimiter.GetLimiter | internal/api/middleware/ratelimit.go:86-99 | finds the visitor's limiter or makes a full one, and records when it was seen |
| RateLimiter.IPRateLimiter.Allow | internal/api/middleware/ratelimit.go:102-104 | both steps of a request with their own readings of the clock |
| RateLimiter.IPRateLimiter.Cleanup | internal/api/middleware/ratelimit.go:73-83 | the deleting loop removes exactly the visitors unseen for longer than the TTL |
| Utf8.EncodeDecode | internal/store/postgres/helpers.go:51-56 | ranging over a string and writing its runes is the identity on well-formed UTF-8 and replaces each stray byte by three |
| Utf8.RepairedIffIllFormed | internal/store/postgres/helpers.go:51-56 | a string survives that exactly if it is well formed |
| Utf8.DecodeEncode | internal/store/postgres/helpers.go:51-56 | decoding undoes encoding for every Unicode scalar value, whatever follows |
| Utf8.WellFormedIffEncoded | internal/store/postgres/helpers.go:51-56 | the well-formed strings are exactly the encodings of lists of scalar values |
| TextArray.Value | internal/store/postgres/helpers.go:40-61 | prints the quoted and escaped elements; nil prints like empty |
| TextArray.Scan | internal/store/postgres/helpers.go:64-135 | the byte-level parser, with its error cases |
| TextArray.ParseRendering | internal/store/postgres/helpers.go:90-134 | the parser recovers a list from every rendering of it, bare or quoted element by element |
| TextArray.ParseReading | internal/store/postgres/helpers.go:90-134 | the same for elements that are empty, or bare and quoted in parts |
| TextArray.RefusedExactly | internal/store/postgres/helpers.go:91-98 | refused is exactly what is neither empty nor between braces |
| TextArray.PrintedQuoted | internal/store/postgres/helpers.go:44-60 | every element is printed between quotes, with only quotes and backslashes escaped |
| TextArray.PrintedExample | internal/store/postgres/helpers.go:44-60 | a printed list, byte for byte |
| TextArray.ParseRender | internal/store/postgres/helpers.go:40-134 | reading back what was printed gives every element repaired |
| TextArray.RoundTripExactly | internal/store/postgres/helpers.go:40-134 | the round trip is the identity exactly on lists of strings that encode texts |
| TextArray.StrayByteIsReplaced | internal/store/postgres/helpers.go:51-56 | a string for which the round trip is not the identity |
| TextArray.RoundTrip | internal/store/postgres/helpers.go:40-134 | the same for the two methods in sequence; nil comes back empty |
| Slug.MatchesIffJoined | internal/domain/validation.go:219-228 | the slug expression matches exactly the words joined by single hyphens |
| Slug.GenerateSlug | internal/domain/validation.go:231-253 | the slug is the alphanumeric runs of the lower-cased title joined by hyphens, cut at 255 |
| Slug.GeneratedIsValid | internal/domain/validation.go:223-253 | every generated slug is valid, on the truncation path too |
| Slug.ValidIffFixed | internal/domain/validation.go:223-253 | the valid slugs are exactly the fixed points of the generator, which is idempotent |
| SlugRules.ValidExactly | internal/domain/validation.go:219-228 | valid is exactly 1 to 255 lower-case letters, digits and single hyphens between them |
| SlugRules.SlugExactly | internal/domain/validation.go:231-253 | the slug character by character: letters and digits, one hyphen for what lies between, "job" for nothing, the cut at 255 |
| Slug.KeepsRuns | internal/domain/validation.go:235-244 | an uncut slug has exactly the alphanumeric runs of the title, in order |
| Filename.CollapseLoop | internal/storage/validation.go:109-111 | the loop terminates and equals the one-pass collapse of underscores |
| Filename.SanitizeFilename | internal/storage/validation.go:82-124 | the sanitised name by base name, cleaned and cut stem, and lower-cased extension |
| FilenameRules.BaseNameExactly | internal/storage/validation.go:88-97 | the base name is what follows the last slash or backslash, slashes at the end aside |
| FilenameRules.SanitizedExactly | internal/storage/validation.go:82-124 | the sanitised name: trimmed, collapsed and cut stem, "resume" for nothing, extension in lower case |
| FilenameRules.CollapseExactly | internal/storage/validation.go:109-111 | collapsing drops exactly the underscores behind an underscore |
| Filename.AcceptedIsSafe | internal/storage/validation.go:181-185 | every accepted name starts alphanumeric, is in the safe alphabet, has no double underscore and at most 105 bytes |
| Filename.TwiceIffSettled | internal/storage/validation.go:82-133 | sanitising an accepted name again is the identity exactly if the name as given has an extension of its own and its cleaned stem is at most 100 bytes or is cut behind an alphanumeric, or if it ends in a dot and what precedes the dot is settled |
| Filename.TwiceWhenUncut | internal/storage/validation.go:99-121 | it is the identity if the given name had an extension of its own and its stem needed no cutting |
| Filename.TwiceCanDiffer | internal/storage/validation.go:99-103 | a name for which it is not |
| Filename.KeysDiffer | internal/storage/validation.go:128-133 | applications with different ids never share a storage key |
| Resume.ReadFull | internal/storage/validation.go:188-192 | the header is the first 512 bytes or all there are, however the reader cuts its reads |
| Resume.ReadAll | internal/storage/validation.go:223-223 | the rejoined reader delivers the header and then the rest |
| Resume.ValidateResume | internal/storage/validation.go:169-231 | the verdict depends on the bytes only, not on how reads are split, and an accepted stream is handed on whole |
| Resume.AcceptedExactly | internal/storage/validation.go:174-220 | the accepted resumes are exactly those of at most 10 MB that begin with the signature, byte for byte, of their extension |
| Resume.RefusedExactly | internal/storage/validation.go:170-220 | which error a refused resume gets |
| CustomForm.ValidateCustomFields | internal/domain/validation.go:287-349 | all details about a schema, in order |
| CustomForm.AcceptedSchemas | internal/domain/validation.go:287-349 | nothing is found exactly if every field is well formed and no two trimmed ids are equal |
| CustomForm.ValidateCustomAnswers | internal/domain/validation.go:80-135 | the details about the answers, field by field in schema order |
| FormRules.AnswersAcceptedExactly | internal/domain/validation.go:80-135 | answers are accepted exactly if every required field has one that is not blank and every one that is not blank fits its type |
| FormRules.IssueExactly | internal/domain/validation.go:86-132 | which issue an answer is refused for |
| FormRules.SchemaDetailsExactly | internal/domain/validation.go:287-349 | a schema's details are exactly the rules its fields break, each once and in order |
| CustomForm.OnlyDeclaredIds | internal/domain/validation.go:86-132 | answers to undeclared questions play no part, and the details are those of an ascending list of fields, one each, all other fields causing none |
| CustomForm.AcceptedIsAnswerable | internal/domain/validation.go:80-135 | an accepted schema has distinct raw ids and some accepted answers |
| CustomForm.TypesEnforcedExactly | internal/domain/validation.go:101-130 | an answer of the wrong type to an accepted field is refused exactly if the type was written without surrounding space |
| CustomForm.SpacedTypeLetsThrough | internal/domain/validation.go:101-130 | an accepted field and a wrong answer to it that is let through |
| Job.ValidateJobInput | internal/domain/validation.go:352-476 | all details about a posting, in order |
| Job.ValidatedExactly | internal/domain/validation.go:352-476 | nothing is found exactly in good postings with a known or absent status |
| JobRules.JobDetailsExactly | internal/domain/validation.go:352-476 | a posting's details are exactly the rules it breaks, each once and in order |
| JobRules.CreateStores | internal/service/job_service.go:123-192 | the stored job field by field: defaults for what is missing, required texts trimmed |
| JobRules.UpdateStores | internal/service/job_service.go:249-350 | the updated job field by field: as it was unless the input gives another value |
| JobRules.AnnouncedExactly | internal/service/job_service.go:197-360 | which event a call sends: published on entry, archived by an update, else none |
| JobRules.RefusedExactly | internal/service/job_service.go:153-173 | a refused call changes nothing; it is invalid exactly if the posting breaks a rule |
| JobLifecycle.StoredJobsValidate | internal/service/job_service.go:149-191 | after any calls every stored job validates again, and its salary bounds are in order |
| JobLifecycle.LifecycleEvents | internal/service/job_service.go:342-360 | publication time and events agree with the history: one job.published per entry into published, and the last event tells published from archived |
| JobLifecycle.PublishedAtFixed | internal/service/job_service.go:342-348 | the publication time never changes once set |
| JobLifecycle.CreatedSlugValid | internal/service/job_service.go:124-127 | a created job has a valid slug |
| JobLifecycle.UpdatedSlugValidExactly | internal/service/job_service.go:299-302 | an accepted update leaves a valid slug exactly if it gives no blank one |
| JobLifecycle.BlankSlugRun | internal/service/job_service.go:299-302 | two calls after which a job is stored with an empty slug |
| JobService.JobService.CreateJob | internal/service/job_service.go:123-202 | the new table, event log and result, with every failure |
| JobService.JobService.UpdateJob | internal/service/job_service.go:238-363 | the partial update: new table, event log and result, with every failure |
| JobService.JobService.MergePosting | internal/service/job_service.go:249-307 | each field keeps its value unless the input gives one |
| JobService.JobService.DeleteJob | internal/service/job_service.go:366-368 | removes the row and nothing else |
| AppAdmission.AdmittedExactly | internal/service/application_service.go:87-147 | a submission is admitted exactly if its job is published, the candidate's data are in order, the answers keep the form's rules, and the file bears the signature of its extension |
| AppAdmission.FormRefusedExactly | internal/service/application_service.go:88-130 | what a submission refused before its file is read is told |
| AppAdmission.FileRefusedExactly | internal/service/application_service.go:133-147 | what one refused for its file is told |
| AppAdmission.AppliedExactly | internal/service/application_service.go:86-200 | Apply succeeds exactly if the submission is admitted, its stream can be read to the end and both stores accept it |
| AppAdmission.AppliedStores | internal/service/application_service.go:149-196 | the row as submitted, its file and its one event |
| AppAdmission.ApplicationsWereAdmitted | internal/service/application_service.go:95-184 | in every run each stored application holds what was submitted to a job published at that moment |
| AppAdmission.StageUpdatedExactly | internal/service/application_service.go:269-300 | a stage update is stored exactly for the six stages and a reason of at most 255 bytes |
| AppAdmission.StageAnnouncedExactly | internal/service/application_service.go:302-329 | which events an update sends |
| AppConsistency.ResumesStored | internal/service/application_service.go:149-184 | after any calls each application's resume is stored byte for byte as submitted, under a key of its own |
| AppConsistency.FailedApplyChangesNothing | internal/service/application_service.go:153-184 | a failed submission never changes the database, and leaves storage as it was unless its resume was uploaded, its row refused and the deletion refused too, in which case it never does |
| AppConsistency.EventsReplay | internal/service/application_service.go:269-331 | each application's events form one chain from applied, without self-loops, to the stored stage; a stored rejection reason is the last announced |
| AppConsistency.ReasonAnnouncedExactly | internal/service/application_service.go:322-327 | in every reachable state the last announced reason of a rejected application is the last non-nil one given since it was rejected; it is the stored one exactly if the last update gave one or none ever did |
| AppConsistency.KeyNamesFileExactly | internal/service/application_service.go:149-174 | the last segment of the key is the stored file name exactly if sanitising the given name once settles it |
| AppExamples.OrphanedResume | internal/service/application_service.go:178-184 | a run that leaves a resume in storage and no application |
| AppExamples.WithdrawnReason | internal/service/application_service.go:322-327 | a run after which the last announced reason is not the stored one |
| ApplicationService.ApplicationService.Check | internal/service/application_service.go:87-147 | the checks before anything is stored, in their order |
| ApplicationService.ApplicationService.Upload | internal/storage/memory.go:53-79 | an upload reads the stream to its end and stores all of it or nothing |
| ApplicationService.ApplicationService.Apply | internal/service/application_service.go:86-200 | upload, row, compensation and event of a submission, whichever steps fail |
| ApplicationService.ApplicationService.UpdateStage | internal/service/application_service.go:269-331 | stored stage, reason and events of a stage update |
| ListQuery.BuildJobQuery | internal/store/postgres/job_repo.go:198-264 | the i-th condition uses placeholder i and the i-th argument, limit and offset the next two |
| ListQuery.BuildApplicationQuery | internal/store/postgres/application_repo.go:145-205 | the same for applications |
| ListQuery.ListJobs | internal/store/postgres/job_repo.go:198-285 | page and total are those of the filter applied directly |
| ListQuery.ListApplications | internal/store/postgres/application_repo.go:145-226 | the same for applications |
| ListQuery.JobCriteriaMean | internal/store/postgres/job_repo.go:203-225 | an absent criterion does not restrict and a given one does |
| ListQuery.ApplicationCriteriaMean | internal/store/postgres/application_repo.go:150-166 | the same for applications |
| ListQuery.MatchingJobsExactly | internal/store/postgres/job_repo.go:198-225 | the matching rows are all that meet every given criterion, in table order |
| ListQuery.MatchingApplicationsExactly | internal/store/postgres/application_repo.go:145-166 | the same for applications |
| ListQuery.PageExactly | internal/store/postgres/job_repo.go:239-250 | the rows of a page one by one, with the defaults for page and limit |
| ListQuery.PagesPartition | internal/api/v1/admin.go:159-162 | pages 1 to totalPages are all rows once, in order; each of them is non-empty and every later one is empty |

## Left out

- WebhookDispatcher.Dispatcher.SignalStop: ends where Stop begins to wait for the worker, because a method runs without interruption; that the wait ends, and what holds after it, is stated over runs (`WebhookTermination.AtRestAllEnded`, `WebhookTermination.NothingAfterReturn`).
- HTTP handlers, routing, CORS, logging, recovery, configuration and `main`, apart from the limit and page-count formulas: they would only add easy members.
- SQL execution, migrations, connection pools and S3 calls: repositories and storage are maps whose operations may fail. The unique slug index, the enum columns (which refuse a blank status) and foreign keys appear only as possible failures, except that deleting a job deletes its applications' rows.
- Two service calls at the same time: the services read, modify and write without a transaction, and the model runs their calls one after the other.
- `SendDirect`, signatures, secrets and the JSON of payloads: bodies are opaque strings.
- Several workers: `Start` is taken to be called once. A `nil` repository or webhook service, for which the code does nothing, is not modelled either.
- In-flight Dispatch calls are kept as one collection of deliveries still to be offered, in any order, which allows more interleavings than the code does.
- `golang.org/x/time/rate` is not part of this model beyond its documented bucket; infinite rates and rounding are left out. A visitor is a value in the map, since its pointer never leaves the map.
- Candidate data other than the answers: the verdict of `ValidateCandidateInput` is an input, as is the id a job key resolves to; a failing read of the job in `Apply` and the notes count in events are left out.
- Strings outside `TextArray` are sequences of runes, so invalid UTF-8 in titles and file names is not modelled there.
- `ORDER BY`: tables are snapshots already in that order. Failures while reading rows, and offsets beyond 64 bits, are left out.
- JSON numbers other than reals in answers, and the wording of error messages: issues are enumerated instead.
- API keys, notes, departments, webhook subscription input and MIME headers: single-branch checks that would only add easy members.
