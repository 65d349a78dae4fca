# od-database submission and search-option model

This Dafny project models the logic under the Flask routes of od-database's `views.py`. od-database is a search engine for open directories, meaning web servers that expose raw file listings. Two parts are modelled:

- **Website submission.** A submitted url goes through the admission pipeline (`try_enqueue`):
  - a trailing `/` is appended;
  - the url is cut to its top directory;
  - five gates are tried in order: url syntax, exact duplicate, parent directory already registered, blacklist, and the open-directory probe;
  - the first gate that fails decides the reply.

  A url that passes every gate is inserted as one website and gets one crawl task of priority 1. The bulk form (`enqueue_bulk`) splits its text on white-space. It accepts 1 to 1000 urls and hands them to a process pool that maps `check_url`, which runs one url through the pipeline. The model takes that fan-out to run every url through the pipeline, one after the other; as written the pool cannot send the nested `check_url` to its workers (see "## Left out"). Its reply is the same whatever each url gave. The admin rescan queues one more task for a registered website.
- **Search options.** The option block of the `/search` handler:
  - `isdigit`-guarded numbers that default to 0;
  - a `per_page` whitelist with fallback 50;
  - the cleaned extension filter;
  - the list of fields to search.

The files are:

- `pytext.dfy` models the Python `str` operations the handlers use (`strip`, `split`, `join`, `lower`, `isdigit`, `int`/`str` on decimals).
- `search_form.dfy` holds the search options, as pure functions.
- `admission.dfy` holds the submission logic as functions of a state value. The state has four parts: the website registry (id → website), the next id, the blacklist, and the task queue.
- `views.dfy` holds class `Views.Backend`. It has the same state as mutable fields, and methods that follow the handlers step by step. Each method is proved to end in the state, and with the reply, that the functions in `admission.dfy` give.

Several helpers are not shown in the source: `od_util.get_top_directory`, `od_util.is_valid_url`, `db.website_exists` (parent lookup), `db.is_blacklisted` and `od_util.is_od` (network probe). They are function-valued fields of `Admission.Collaborators`, so every result holds whatever they compute. The exact-duplicate lookup `db.get_website_by_url` is modelled on the registry itself. `db.insert_website` is modelled as "store under the next id"; `taskManager.queue_task` appends to the queue. The captcha check, which is `not config.CAPTCHA_SUBMIT or captcha.verify()`, is a boolean input. `config.RESULTS_PER_PAGE` is a set parameter.

The code does less than its messages and its data model suggest in three places:

- `db.website_exists` is not part of this model; views.py:270 only calls it, and its reply ("A parent directory of this url has already been posted") suggests a lookup of registered urls that are prefixes of the candidate. If it is that prefix lookup, the gate looks only at registered parents of the candidate, and a candidate that is the parent of a registered website is still admitted (`Admission.ContainmentIsOneWay`). "No registered url is a prefix of another" then holds only in one direction, stated as `Admission.AncestorsFirst`.
- A rescan appends its task without checking for tasks already queued for the same website.
- Every extension part loses the white-space at its outer ends, then the dots at the ends of what is left. White-space that a dot shields stays: `". pdf"` gives `" pdf"` (`SearchForm.DotShieldsSpace`). So the entries have no surrounding dots and no upper case, but only parts without such shielded white-space are sure to have no surrounding white-space.

## Model

| member | source | states |
|---|---|---|
| `PyText.Strip` | views.py:163 | `strip` returns an infix of its input that neither starts nor ends with a dropped character; everything cut on either side is droppable; an input that has nothing to drop comes back unchanged |
| `PyText.Lower` | views.py:163 | `lower` keeps the length, leaves no upper-case ASCII letter, keeps white-space and dots where they were, and changes nothing in a string without upper case |
| `PyText.SplitOn` | views.py:163 | `split(",")` yields one part more than the input has commas, and no part contains a comma |
| `PyText.JoinSplit` | views.py:163 | joining the parts of a split with the separator gives back the original string |
| `PyText.SplitJoin` | views.py:163 | splitting a join of separator-free parts gives back exactly those parts |
| `PyText.SplitWhitespace` | views.py:319 | `split()` yields non-empty, white-space-free words; together they hold exactly the visible characters of the input, in order; there are none exactly when the input is all white-space |
| `PyText.SplitWhitespaceAt` | views.py:319 | `split()` cuts at every white-space character: the words of `a + c + b`, for white-space `c`, are the words of `a` followed by those of `b`, so runs such as `"\r\n"` between urls separate them like one space |
| `PyText.CrLfSeparates` | views.py:319 | the two lines of `"a\r\nb"`, as a browser sends a text area, are two urls |
| `PyText.SplitWhitespaceOfWord` | views.py:319 | a non-empty, white-space-free string splits into itself alone |
| `PyText.SplitWhitespaceJoin` | views.py:319 | `split()` undoes a join: non-empty, white-space-free words joined by any white-space character split back into exactly those words, so the number of urls is the number of words |
| `PyText.DecimalRoundTrip` | views.py:156 | `int(str(n)) == n` for every natural number |
| `SearchForm.ParseCount` | views.py:155-156 | a guarded count is positive only for a string of decimal digits, and is 0 for anything `isdigit` rejects |
| `SearchForm.ParseCountRoundTrip` | views.py:156 | a rendered count reads back as itself |
| `SearchForm.ParseCountAsWritten` | views.py:156 | the guard as written ends in a `ValueError` exactly for the strings that pass `isdigit` but are not decimal |
| `SearchForm.SuperscriptTwoRaises` | views.py:156 | `"²"` passes `isdigit` and then makes `int` raise |
| `SearchForm.ParseCountCorrected` | views.py:156 | where the guard as written yields a value, that value is the corrected parse; for strings without superscript or subscript digits the two always agree |
| `SearchForm.PerPage` | views.py:158-160 | `per_page` is always on the whitelist or 50; a decimal value on the whitelist is kept; anything else (not decimal, or off the whitelist) gives 50 |
| `SearchForm.NormaliseExtension` | views.py:163 | a cleaned extension is the lower-cased infix of the part left by a two-phase cut (`TwoPhaseCut`): first all white-space at both ends, leaving an infix with no white-space at either end, then all dots at both ends of that, leaving an infix with no dot at either end; it has no upper case and no leading or trailing dot; from a dot-free part it also has no leading or trailing white-space; a part with neither at its ends is only lower-cased |
| `SearchForm.DotShieldsSpace` | views.py:163 | `". pdf"` cleans to `" pdf"`: white-space inside a dot survives the two strips |
| `SearchForm.ParseExtensions` | views.py:162-163 | absent or empty `ext` gives no extensions; otherwise there is one entry per comma-separated part (commas + 1), each the cleaned part, each without upper case or surrounding dots |
| `SearchForm.EffectiveFlags` | views.py:181-183 | after the "all fields when none is selected" rule at least one flag is set, and selected flags are kept as given |
| `SearchForm.SearchFields` | views.py:177-191 | the field list is non-empty, duplicate-free, a subsequence of `path`, `name^5`, `name.nGram^2` in that order; it holds exactly the selected fields, or all three when none is selected |
| `SearchForm.NamedDefaultsAreZero` | views.py:165-173 | the defaults `"size_min"`, `"size_max"`, `"date_min"`, `"date_max"` are not numbers and so read as 0 |
| `SearchForm.ParseSearchArgs` | views.py:152-191 | `q` and `sort_order` default to `""` and `"score"`; page, sizes and dates are the decimal value when present and decimal, else 0; `per_page` is the whitelist rule applied to the given value, or 50 when absent; no `ext` gives no extensions and a given `ext` gives its cleaned comma-separated parts; `match_all` is the presence of `all`; the flags are the selected `field_name`, `field_trigram`, `field_path` (all three when none is selected) and the field list is the one those flags select, non-empty and ordered. The counts follow the corrected parse: for a superscript digit such as `p=²` the handler raises instead (see "## Findings") |
| `SearchForm.NoArgumentsGiveDefaults` | views.py:152-191 | an empty query string gives page 0, 50 per page, no extensions, zero bounds, no `match_all`, and all three fields |
| `Admission.WithTrailingSlash` | views.py:260 | `os.path.join(url, "")` leaves the empty string empty; otherwise the result ends in `/` and is the url or the url plus `/`; a url already ending in `/` is unchanged |
| `Admission.TrailingSlashIdempotent` | views.py:260 | appending the slash twice gives the same url as appending it once |
| `Admission.TrailingSlashBeforeSubmit` | views.py:308-310 | submitting a url whose slash was already appended (by `enqueue` or `check_url`) has exactly the effect and reply of submitting the url |
| `Admission.Reply` | views.py:263-292 | only admission is reported as `success`, and only an invalid url as `warning` |
| `Admission.ReplyIdentifiesVerdict` | views.py:263-292 | different verdicts give different replies, so the reply tells which gate decided |
| `Admission.Judge` | views.py:263-283 | a url is admitted exactly when it is a valid url, not registered, has no registered parent, is not blacklisted and passes the open-directory probe |
| `Admission.Submit` | views.py:259-292 | the reply is the one of the first gate that fails (or the admission message), so a success exactly when every gate passes; a rejection leaves the registry, id counter, blacklist and queue unchanged; an admission adds one website under the next id, moves the id counter on by one, and appends one task with that id, the normalised url and priority 1 |
| `Admission.FirstFailingGateDecides` | views.py:263-283 | gate precedence: each verdict is reached exactly when its gate fails and every earlier gate passes (syntax, duplicate, parent, blacklist, probe) |
| `Admission.SubmitKeepsWellFormed` | views.py:285-290 | admission keeps ids below the counter, urls unique, and every queued task naming a registered website with its url; an admitted url was new, its id was free, and the registry grows by exactly that one url |
| `Admission.ResubmissionRejected` | views.py:266-268 | after a url is admitted, anything that normalises to it again is refused as already existing and writes nothing |
| `Admission.AdmissionKeepsAncestorsFirst` | views.py:270-272 | with prefix containment as the parent lookup, admission never registers a url below an already registered one |
| `Admission.ContainmentIsOneWay` | views.py:270-272 | if `db.website_exists` is the prefix lookup its reply describes, a parent url of a registered website is still admitted, after which one registered url is a prefix of another |
| `Admission.SubmitAll` | views.py:323-324 | running a batch through the pipeline never touches the blacklist, keeps every earlier task queued in order, and adds at most one website per url, with one task per website added |
| `Admission.SubmitAllAppend` | views.py:323-324 | running the pipeline over two batches in a row is running it over their concatenation |
| `Admission.SubmitAllSnoc` | views.py:323-324 | one more url at the end of a batch is one more run of the pipeline on the state the batch left |
| `Admission.SkipsRejected` | views.py:308-311 | a url rejected at its turn does not stop or change the rest of the batch: the batch ends exactly as it would without that url |
| `Admission.SubmitExtends` | views.py:285-290 | one submission only adds: earlier websites and tasks are kept, the blacklist is unchanged, and as many tasks as websites are added, all of priority 1 for new websites |
| `Admission.SubmitAllGrows` | views.py:321-327 | a whole batch keeps the invariant and only adds: earlier websites and queued tasks are kept, one priority-1 task is added per website added, and the blacklist is untouched |
| `Admission.Bulk` | views.py:313-339 | a bulk call writes only when the captcha passes and the white-space split has 1 to 1000 urls; a failed captcha, missing or empty urls, or an out-of-range count gives its danger reply and writes nothing; otherwise every url goes through the pipeline in order (the intended fan-out; see "## Left out") and the reply is always "Submitted websites to the queue" |
| `Admission.Rescan` | views.py:135-148 | a rescan never touches the registry; for a registered id it appends exactly one task with that id, its url and the given priority (1 by default) behind the existing tasks; an unknown id changes nothing and is reported as "Website does not exist" |
| `Admission.RescanKeepsWellFormed` | views.py:138-143 | the rescan task names a registered website and its url, so the invariant is kept |
| `Views.Backend.GetWebsiteByUrl` | views.py:266 | the exact-url lookup finds an id exactly when the url is registered, and the id it finds carries that url |
| `Views.Backend.InsertWebsite` | views.py:285-287 | an insert stores the website under the next id, returns that id and advances the counter; nothing else changes |
| `Views.Backend.QueueTask` | views.py:289-290 | queuing appends the task and changes nothing else |
| `Views.Backend.TryEnqueue` | views.py:259-292 | the gate-by-gate method with early returns ends in the state and reply of `Admission.Submit` and keeps the invariant |
| `Views.Backend.Enqueue` | views.py:294-306 | a failed captcha writes nothing and replies with the captcha error; otherwise the single-url form has the effect and reply of `Admission.Submit` |
| `Views.Backend.CheckUrl` | views.py:308-311 | one url of a batch has the effect of `Admission.Submit`; its reply is dropped |
| `Views.Backend.CheckEach` | views.py:323-324 | the loop over the batch runs `check_url` on each url in list order and ends in the state `Admission.SubmitAll` gives, keeping the invariant |
| `Views.Backend.EnqueueBulk` | views.py:313-339 | the loop over the batch ends in the state and reply of `Admission.Bulk` and keeps the invariant |
| `Views.Backend.RescanWebsite` | views.py:135-148 | the rescan method ends in the state and reply of `Admission.Rescan` and keeps the invariant |

## Left out

- Flask routing, `render_template`, `redirect`, `abort`, `flash`, the cache decorators, `session` login and logout, and `require_role("admin")`: web plumbing and authentication. The model returns the flashed message and its category as the handler's reply.
- `captcha.verify()` and `config.CAPTCHA_SUBMIT`: a foreign call. Both are folded into one boolean input.
- `multiprocessing.Pool` in `enqueue_bulk`: concurrency is not modelled, and the fan-out is a sequential fold in list order. Nothing is claimed about races among the pool's workers, such as two copies of one url in the same batch.
- `Admission.Bulk` and `Views.Backend.EnqueueBulk` model the intended fan-out, not the code as written. `pool.map` pickles the function it sends to its workers, and `check_url` (views.py:308) is a local function of `setup_views` (views.py:18), which pickle refuses. Read as written, an in-range batch raises at views.py:324 before any url reaches `try_enqueue`, and "Submitted websites to the queue" is never flashed. That failure (from reading the code; not executed) is not represented.
- The internals of `od_util.get_top_directory`, `od_util.is_valid_url`, `db.website_exists`, `db.is_blacklisted` and `od_util.is_od`: none of them is part of this model. They are uninterpreted functions. The probe is a network call; it is modelled as a function of the url, so timeouts and changing answers are not represented.
- The database and the search engine: `searchEngine.*`, `db.log_search`, `db.join_website_on_search_result`, and the remaining `db.*` calls beyond lookup, insert and blacklist match. These are foreign storage and search backends. The query itself (views.py:193-238) is left out with them.
- Failures of the store or the queue: `db.insert_website` and `taskManager.queue_task` always succeed in the model. An exception between the insert and the queueing, which would leave a website without a task, is not represented.
- The task manager's dequeue order (lowest priority first): `taskManager` is not part of this model. The queue is the sequence of tasks in the order they were queued.
- `downloads`, `websites`, the statistics pages, the link list, website clear and delete, the blacklist and token admin pages, login and logout: these are outside the submission and search-option logic. `downloads` is filesystem I/O. `websites` relies on `urlparse`, which is not modelled.
- A missing `url` form field in `enqueue` makes `os.path.join(None, "")` raise. The model takes the url as a string.
- Query arguments are a map from key to one value. `request.args` is a multi-dict; `.get` takes its first value.
- `PyText.Lower`: lower-cases ASCII letters only, because Unicode case mapping is not modelled.
- `PyText.IsDigit`: the model's `isdigit` counts ASCII digits plus the superscript and subscript digits. Other Unicode digits are treated as non-digits, and `int` is modelled on ASCII digits only.
- The rescan priority arrives as the raw query-string value. It is modelled as an optional integer defaulting to 1.
- The non-digit `per_page` fallback assigns the string `"50"` before the whitelist test. The model takes the whitelist to hold integers, so only the final value 50 is modelled.
- The submitter fingerprint is kept as `remote_addr + "_" + X-Forwarded-For`. The user agent is kept as a string.

## Findings

| source | as written | input that shows it | evidently intended | confidence | as-written member | corrected member |
|---|---|---|---|---|---|---|
| views.py:155-173 | `int(x) if x.isdigit() else 0` for `p`, `per_page`, `size_min`, `size_max`, `date_min`, `date_max`; `isdigit` accepts superscript and subscript digits, which `int` rejects | `/search?p=²`: the guard passes and `int("²")` raises `ValueError`, so the handler fails instead of using page 0 | a value that is not a decimal number falls back to the default (0, or 50 for `per_page`) | high, from Python's documented `str.isdigit`/`int` behaviour; not executed | `SearchForm.SuperscriptTwoRaises` | `SearchForm.ParseCountCorrected` |
