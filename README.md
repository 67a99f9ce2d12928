# Playwright Java test framework: lifecycle, registration, CSV data and login, in Dafny

This project models the core of the `playwright-java-framework` test suite for an
e-commerce storefront:

- **`BaseTest`** runs the test lifecycle.
  - At suite start it resolves the browser name and the headless flag. It then either connects to the LambdaTest cloud grid, falling back to a local Chromium when the connection fails, or launches a local Chromium, Firefox or WebKit.
  - Before each test it opens a 1920x1080 context with tracing on, and a page.
  - After each test it resolves the trace: saved with a screenshot on failure, discarded on success. On the cloud it then sends a sanitised pass/fail status to the grid through `page.evaluate`.
  - Last, on every path that has not thrown by then, it closes the context.
  - At suite end it closes the engine.
- **`APIService.registerUser`** registers a user through the storefront's HTTP form. When the email is already taken on the first attempt, it rewrites the email with a time stamp and retries once.
- **`CsvUtil.getFormDataFromCsv`** turns the data lines of a CSV file into `FormData` records.
- **`LoginPage`** fills in and submits the login form. It waits at most 15000 ms for either the "My Account" heading or the danger alert, and checks the alert before the heading.

Modules, one per source file plus two of shared vocabulary:

| module | file | models |
|---|---|---|
| `Wrappers` | `wrappers.dfy` | `Option` (Java's `null`), `Result` and `Outcome` (a thrown exception) |
| `JavaText` | `java_text.dfy` | the `java.lang.String` operations the core relies on: `trim`, `replace`, `split(",")`, `toLowerCase`/`equalsIgnoreCase`, `length()` and `substring(0, n)` counted in UTF-16 units, and decimal printing |
| `Models` | `models.dfy` | `FormData` as a value; `User` as a class with a mutable email |
| `Lifecycle` | `base_test.dfy` | `BaseTest` as a class holding handle fields and the log of calls made on the engine; the pure functions that specify each lifecycle method |
| `Api` | `api_service.dfy` | `APIService` as a class holding the log of requests; `registerUser` as a loop proved against the recursive `Register` |
| `Csv` | `csv_util.dfy` | `getFormDataFromCsv` as a loop over the lines, plus the in-place clean-up loop on the split array, proved against `FormDataFromLines` |
| `Login` | `login_page.dfy` | `login` and `verifyLoginSuccess` as functions of what the page shows |

The automation engine appears as an append-only log of calls (`Lifecycle.Effect`). A
handle (engine, browser, context, page) is the index in that log of the call that created
it. System properties, the configuration file and environment variables are one
`Environment` value. The URL encoder, the formatted timestamp and `System.currentTimeMillis()`
are parameters. The engine failures whose handling the code distinguishes are boolean
parameters: the cloud connection, the success-branch trace stop and the status send. The
HTTP server of the registration is a function from (attempt, form) to a response.

Behaviours of the code a reader might not expect:

- Only status 302 is treated as a redirect. Any other status except 200, other 3xx codes included, is an "API Error" (`Api.OtherStatusIsApiError`).
- A second `stopPlaywright()` closes the engine again; it is not a no-op (`Lifecycle.StopPlaywrightTwice`).
- The context close after a test is plain sequential code, not a guaranteed release. When the success-branch `tracing().stop()` throws, the context stays open and no status is sent (`Lifecycle.StopFailureLeavesContextOpen`).
- The remark's 255 limit and its cut to 252 plus `"..."` count UTF-16 code units, as `String.length()` does, so a supplementary char such as an emoji counts twice (`Lifecycle.SanitizeShape`).
- The sanitiser replaces `"`, LF and CR, but leaves backslashes and other control chars in place. A message ending in `\` therefore escapes the closing quote of the remark, and the grid cannot read the action string (`Lifecycle.BackslashBreaksPayload`, `Lifecycle.BackslashMessageBreaksReport`).
- A null throwable message is reported as `"Test Passed"`/`"Unknown Error"`, not sanitised. A missing throwable is reported as `"Test Completed Successfully"`.
- The action string starts with `lambdatest_action: `.
- The "exactly one trace stop" property holds only when a context exists. A failed test with no context stops nothing, because the null-pointer failure is caught (`Lifecycle.TracingStoppedOnce`).
- Because `split(",")` drops trailing empty strings, a CSV row whose last (zip) field is empty is rejected even though it holds eleven columns (`Csv.EmptyLastFieldRejected`).

## Model

| member | source | states |
|---|---|---|
| Lifecycle.ResolveBrowserName | src/test/java/com/automation/base/BaseTest.java:76-90 | the browser name is the system property when set, else the configuration value when set, else "chromium" |
| Lifecycle.ParseBoolean | src/test/java/com/automation/base/BaseTest.java:92 | definition: `Boolean.parseBoolean` of the configured value; `IgnoreCaseTests` proves it true exactly for "true" in any letter case |
| Lifecycle.IsCloud | src/test/java/com/automation/base/BaseTest.java:94 | definition: the cloud test on a browser name; `IgnoreCaseTests` proves it is `equalsIgnoreCase("cloud")`, and `CloudCheckAgrees` relates the start-up and teardown uses |
| Lifecycle.LocalEngine | src/test/java/com/automation/base/BaseTest.java:146-158 | definition: the `switch` on the lower-cased name, None for the default branch; `LocalLaunch` and `DefaultIsLocalChromium` state what it selects |
| Lifecycle.TeardownBrowserName | src/test/java/com/automation/base/BaseTest.java:230-233 | definition: the system property, else the configured value, with no default; `CloudCheckAgrees` proves it selects the cloud exactly when the start-up name does |
| Lifecycle.IgnoreCaseTests | src/test/java/com/automation/base/BaseTest.java:92-94 | the headless flag is set exactly by "true" in any letter case, and the cloud is selected exactly by "cloud" in any case (agrees with `equalsIgnoreCase`) |
| Lifecycle.DefaultIsLocalChromium | src/test/java/com/automation/base/BaseTest.java:87-90 | the default name is not the cloud, and the local switch maps it to Chromium |
| Lifecycle.CloudCheckAgrees | src/test/java/com/automation/base/BaseTest.java:230-235 | the teardown's re-resolved name selects the cloud exactly when the suite start's name did, although only the start falls back to "chromium" |
| Lifecycle.BuildLabel | src/test/java/com/automation/base/BaseTest.java:114-115 | the build capability is "Jenkins Build " + BUILD_NUMBER when set, else "Local Build" |
| Lifecycle.CapabilityMap | src/test/java/com/automation/base/BaseTest.java:107-118 | definition: the map after the seven `put` calls; `CapabilitiesListMap` proves the ordered entries are exactly this map |
| Lifecycle.Capabilities | src/test/java/com/automation/base/BaseTest.java:107-118 | seven capability entries whose keys come in the HashMap's iteration order |
| Lifecycle.CapabilitiesListMap | src/test/java/com/automation/base/BaseTest.java:107-118 | the ordered entries are exactly the map built by the seven `put` calls, each key once, with the map's value |
| Lifecycle.CapabilityEntry | src/test/java/com/automation/base/BaseTest.java:123 | definition: one `"key":"value"` text, neither part escaped; `CapabilityJsonHasEntries` proves each one occurs in the JSON text |
| Lifecycle.CapabilityEntries | src/test/java/com/automation/base/BaseTest.java:122-123 | definition: the `map` step of the stream, one entry per capability in order; `CapabilityJsonHasEntries` proves every entry occurs in the JSON text |
| Lifecycle.CapabilityJson | src/test/java/com/automation/base/BaseTest.java:122-124 | the capability text is wrapped in braces |
| Lifecycle.CapabilityJsonHasEntries | src/test/java/com/automation/base/BaseTest.java:122-124 | every capability's entry occurs in the JSON text |
| Lifecycle.CdpUrl | src/test/java/com/automation/base/BaseTest.java:127-128 | the connection URL starts with the LambdaTest CDP endpoint and its capabilities parameter |
| Lifecycle.Startup | src/test/java/com/automation/base/BaseTest.java:74-158 | definition: the suite start as the calls made, whether `browser` is assigned, and the outcome; `StartupShape`, `MissingCredentialsFailFast`, `CloudAlwaysGetsBrowser` and `LocalLaunch` state its properties, and `BaseTest.StartPlaywrightAndBrowser` is proved to follow it |
| Lifecycle.CloudCalls | src/test/java/com/automation/base/BaseTest.java:106-139 | the cloud try block makes one call (connect) or two (connect, then the fallback launch) |
| Lifecycle.StartupShape | src/test/java/com/automation/base/BaseTest.java:74-158 | suite start always creates the engine first; it assigns a browser exactly when it returns normally, and that browser is the last launch or connect |
| Lifecycle.MissingCredentialsFailFast | src/test/java/com/automation/base/BaseTest.java:99-104 | a cloud name without both credentials throws before any connect or launch, and assigns no browser |
| Lifecycle.CloudAlwaysGetsBrowser | src/test/java/com/automation/base/BaseTest.java:106-139 | with credentials the cloud path always returns with a browser: it connects with the encoded capabilities, and when that fails it launches Chromium with the configured headless flag |
| Lifecycle.LocalLaunch | src/test/java/com/automation/base/BaseTest.java:146-158 | a local name launches the engine its lower case names, with the headless flag; any other name throws IllegalArgumentException without launching |
| Lifecycle.EscapeChar | src/test/java/com/automation/base/BaseTest.java:243-245 | definition: what one char becomes under the three replacements; `EscapeAt` proves `Escape` applies it char by char |
| Lifecycle.Escape | src/test/java/com/automation/base/BaseTest.java:243-245 | definition: the three chained `replace` calls; `EscapeAt` and `EscapeKeepsJavaLength` state that it works char by char and keeps `length()` |
| Lifecycle.EscapeAt | src/test/java/com/automation/base/BaseTest.java:243-245 | the three `replace` calls keep the length and map each char on its own: `"` to `'`, LF and CR to a space |
| JavaText.JavaLength | src/test/java/com/automation/base/BaseTest.java:247 | `length()` counts UTF-16 code units: between one and two per char, two exactly for a char above U+FFFF |
| JavaText.JavaLengthAppend | src/test/java/com/automation/base/BaseTest.java:248 | the length of a concatenation is the sum of the lengths |
| JavaText.JavaPrefix | src/test/java/com/automation/base/BaseTest.java:248 | `substring(0, n)`: a prefix of at most n units that is the whole text when it fits, and that stops only where the next char would pass n units |
| JavaText.JavaPrefixOfLonger | src/test/java/com/automation/base/BaseTest.java:248 | cutting a text longer than n units drops at least one char |
| Lifecycle.EscapeKeepsJavaLength | src/test/java/com/automation/base/BaseTest.java:243-247 | the replacements do not change `length()` |
| Lifecycle.Sanitize | src/test/java/com/automation/base/BaseTest.java:242-249 | the sanitised remark has no double quote, LF or CR, and at most 255 UTF-16 units |
| Lifecycle.SanitizeShape | src/test/java/com/automation/base/BaseTest.java:243-249 | a remark of up to 255 UTF-16 units is only escaped, char by char; a longer one becomes its escaped leading chars, then "...", 255 units in all, or 254 when unit 252 falls inside a surrogate pair |
| Lifecycle.SanitizeShort | src/test/java/com/automation/base/BaseTest.java:247-249 | a remark within 255 units is escaped and not cut |
| Lifecycle.SanitizeCut | src/test/java/com/automation/base/BaseTest.java:247-249 | a remark over 255 units is cut to a proper prefix of its escaped form, filling 251 or 252 units, followed by "..." |
| Lifecycle.EllipsisShape | src/test/java/com/automation/base/BaseTest.java:248 | the kept chars plus "..." end in "..." and fill 255 units, or 254 when the next char is a surrogate pair |
| Lifecycle.SanitizeIdempotent | src/test/java/com/automation/base/BaseTest.java:243-249 | sanitising twice is sanitising once |
| Lifecycle.CleanReasonUnchanged | src/test/java/com/automation/base/BaseTest.java:242-249 | a remark with nothing to escape and at most 255 UTF-16 units passes through unchanged |
| Lifecycle.NoThrowableReasonUnchanged | src/test/java/com/automation/base/BaseTest.java:238-249 | the fixed "Test Completed Successfully" remark is unchanged by the sanitiser the code runs it through |
| Lifecycle.ReportedStatus | src/test/java/com/automation/base/BaseTest.java:237 | the status is "passed" exactly for a successful result, else "failed" |
| Lifecycle.ReportedReason | src/test/java/com/automation/base/BaseTest.java:238-252 | the remark: the fixed text without a throwable, the sanitised message when there is one, "Test Passed"/"Unknown Error" by status for a null message |
| Lifecycle.ReasonClean | src/test/java/com/automation/base/BaseTest.java:238-252 | every remark, in all three cases, is free of `"`, LF and CR and fits in 255 UTF-16 units; it holds no char a JSON string must escape when the message holds no backslash and no control char other than LF and CR |
| Lifecycle.SanitizedPlain | src/test/java/com/automation/base/BaseTest.java:242-249 | a message without backslashes and without control chars other than LF and CR sanitises to a remark with no char a JSON string must escape |
| Lifecycle.FixedRemarksPlain | src/test/java/com/automation/base/BaseTest.java:238-251 | the three fixed remarks hold no char a JSON string must escape |
| Lifecycle.StatusPayload | src/test/java/com/automation/base/BaseTest.java:260-261 | the action string starts with the `setTestStatus` header |
| Lifecycle.ReadUpToQuote | src/test/java/com/automation/base/BaseTest.java:260-261 | the grid's side: a JSON string literal whose text holds no char it must escape is read as that text, and reading resumes after its closing quote |
| Lifecycle.ReadPlainPrefix | src/test/java/com/automation/base/BaseTest.java:260-261 | a text with no char a JSON string must escape is read as itself, whatever follows it |
| Lifecycle.PayloadRoundTrip | src/test/java/com/automation/base/BaseTest.java:260-261 | when neither status nor remark holds a char a JSON string must escape, the action string decodes, under JSON string rules, back to exactly that status and remark |
| Lifecycle.BackslashBreaksPayload | src/test/java/com/automation/base/BaseTest.java:242-261 | a remark that ends in a backslash makes the action string unreadable: the backslash escapes the closing quote |
| Lifecycle.ReportDecodes | src/test/java/com/automation/base/BaseTest.java:237-261 | for every test result whose message holds no backslash and no control char other than LF and CR, the action string decodes to the result's status and remark: sanitising keeps a quote or line break in the message from ending or breaking the remark |
| Lifecycle.BackslashEndBreaksReport | src/test/java/com/automation/base/BaseTest.java:237-261 | for any result status, a plain message under 255 UTF-16 units followed by one backslash survives sanitising unchanged, and the action string then does not decode |
| Lifecycle.BackslashKept | src/test/java/com/automation/base/BaseTest.java:242-249 | the sanitiser leaves a plain message under 255 UTF-16 units ending in a backslash exactly as it is |
| Lifecycle.BackslashMessageBreaksReport | src/test/java/com/automation/base/BaseTest.java:237-261 | a failed test whose message is `C:\` sends an action string that does not decode |
| Lifecycle.ReportPayload | src/test/java/com/automation/base/BaseTest.java:237-261 | definition: the action string built from the result's status and remark; `ReportDecodes`, `BackslashEndBreaksReport` and `SentPayload` state its properties |
| Lifecycle.TracePath | src/test/java/com/automation/base/BaseTest.java:208-209 | a failed test's trace is saved under "traces/" |
| Lifecycle.FailureCapture | src/test/java/com/automation/base/BaseTest.java:194-222 | definition: the failure branch, a full-page screenshot then the trace saved to its path, each skipped on a null handle; `ResolutionStops` and `NoSendInResolution` state its properties |
| Lifecycle.Resolution | src/test/java/com/automation/base/BaseTest.java:192-226 | definition: the stop without saving on success, else `FailureCapture`; `ResolutionStops` and `NoSendInResolution` state its properties, and `BaseTest.ResolveTrace` is proved to follow it |
| Lifecycle.ReportsStatus | src/test/java/com/automation/base/BaseTest.java:230-254 | definition: the re-resolved name is the cloud and there is a page; `StatusSentIff` and `StatusReportCalls` tie the send to it |
| Lifecycle.StatusReport | src/test/java/com/automation/base/BaseTest.java:235-272 | definition: the send and, unless it fails, the 2000 ms sleep, when a status is reported; `StatusReportCalls` and `ReportHasNoStops` state its properties, and `BaseTest.ReportStatus` is proved to follow it |
| Lifecycle.Cleanup | src/test/java/com/automation/base/BaseTest.java:274-278 | definition: the context close when there is a context; `ContextClosedLast` states it is the last call |
| Lifecycle.Teardown | src/test/java/com/automation/base/BaseTest.java:188-279 | definition: the whole test teardown as its calls and outcome; `TracingStoppedOnce`, `FailedTestTeardownReturns`, `StopFailureLeavesContextOpen`, `ContextClosedLast`, `StatusSentIff`, `SentPayload` and `SentStatusDecodes` state its properties, and `BaseTest.CloseContext` is proved to follow it |
| Lifecycle.StatusReportCalls | src/test/java/com/automation/base/BaseTest.java:235-271 | the status report holds only the send (with the given action string) and the wait, and holds a send exactly when the name is the cloud and there is a page |
| Lifecycle.ResolutionStops | src/test/java/com/automation/base/BaseTest.java:192-226 | with a context, trace resolution stops tracing once: with the trace path on failure, without a path on success |
| Lifecycle.NoSendInResolution | src/test/java/com/automation/base/BaseTest.java:192-226 | trace resolution makes only screenshot and trace-stop calls |
| Lifecycle.ReportHasNoStops | src/test/java/com/automation/base/BaseTest.java:230-272 | the status report never stops tracing |
| Lifecycle.TracingStoppedOnce | src/test/java/com/automation/base/BaseTest.java:192-278 | with a context, every teardown stops tracing exactly once: saving to the trace path when the test did not succeed, discarding when it did |
| Lifecycle.FailedTestTeardownReturns | src/test/java/com/automation/base/BaseTest.java:192-222 | the teardown of a test that did not succeed never throws, because screenshot and trace failures are caught |
| Lifecycle.StopFailureLeavesContextOpen | src/test/java/com/automation/base/BaseTest.java:223-226 | when the success-branch trace stop throws, the teardown ends there: no status is sent and the context is not closed |
| Lifecycle.ContextClosedLast | src/test/java/com/automation/base/BaseTest.java:275-278 | a teardown that returns normally with a context closes it, as its last call |
| Lifecycle.StatusSentIff | src/test/java/com/automation/base/BaseTest.java:230-263 | on a teardown that returns normally, a status is sent exactly when the re-resolved name is the cloud and there is a page |
| Lifecycle.SentPayload | src/test/java/com/automation/base/BaseTest.java:260-263 | every status send in a teardown carries the result's action string |
| Lifecycle.SentStatusDecodes | src/test/java/com/automation/base/BaseTest.java:237-263 | when the message holds no backslash and no control char other than LF and CR, every status the teardown sends decodes to the result's own status ("passed" exactly on success) and remark |
| Lifecycle.BaseTest.constructor | src/test/java/com/automation/base/BaseTest.java:54-59 | all handles start out null and nothing has been called on the engine |
| Lifecycle.BaseTest.StartPlaywrightAndBrowser | src/test/java/com/automation/base/BaseTest.java:70-164 | the engine is assigned first; the calls, the browser handle and the outcome are those of `Startup`; the context and page are untouched |
| Lifecycle.BaseTest.LaunchCloud | src/test/java/com/automation/base/BaseTest.java:96-139 | missing credentials throw with no call made; otherwise it connects, falls back to a local Chromium when that fails, and assigns the browser to the last call |
| Lifecycle.BaseTest.LaunchLocal | src/test/java/com/automation/base/BaseTest.java:146-158 | the lower-cased name's engine is launched and becomes the browser; an unknown name throws and leaves the browser as it was |
| Lifecycle.BaseTest.CreateContextAndPage | src/test/java/com/automation/base/BaseTest.java:171-182 | with a browser, a fresh 1920x1080 context is created, tracing is started on it (screenshots, snapshots, sources) and a fresh page is opened in it; with a null browser it throws and nothing changes |
| Lifecycle.BaseTest.CloseContext | src/test/java/com/automation/base/BaseTest.java:188-279 | the calls made and the outcome are those of `Teardown` on the handles held; no handle is reassigned |
| Lifecycle.BaseTest.ResolveTrace | src/test/java/com/automation/base/BaseTest.java:192-226 | on success the trace stop throws on a null context or when the stop fails; otherwise the calls are those of `Resolution` |
| Lifecycle.BaseTest.ReportStatus | src/test/java/com/automation/base/BaseTest.java:230-272 | the calls are the status report: the send and, unless it failed, the 2000 ms wait |
| Lifecycle.BaseTest.StopPlaywright | src/test/java/com/automation/base/BaseTest.java:286-292 | closes the engine when the field is set and never clears the field |
| Lifecycle.StopPlaywrightTwice | src/test/java/com/automation/base/BaseTest.java:286-292 | two suite teardowns close the same engine twice |
| Api.ApiService.constructor | src/test/java/com/automation/utils/APIService.java:20-24 | a fresh request context on the configured base URL, with nothing sent |
| Api.ApiService.Close | src/test/java/com/automation/utils/APIService.java:27-30 | disposes of the request context; nothing guards a second call |
| Api.FormFor | src/test/java/com/automation/utils/APIService.java:48-53 | the form carries the user's current email, repeats the password as the confirmation and ticks the policy box |
| Api.RequestFor | src/test/java/com/automation/utils/APIService.java:48-58 | definition: one attempt's POST of the current fields to the registration path with no redirects followed; `RegisterShape` states its properties |
| Api.CollisionEmail | src/test/java/com/automation/utils/APIService.java:88 | definition: every '@' replaced by "_" + the millisecond clock + "@"; `CollisionEmailChanges` proves it changes the email exactly when there is an '@', and `NatToString` proves the clock is printed in decimal |
| Api.Classify | src/test/java/com/automation/utils/APIService.java:64-103 | an attempt succeeds exactly on a 302 whose location contains the success route, and retries exactly on a 200 "already registered" body on the first attempt; every other reply maps to its own error |
| Api.RegisterFrom | src/test/java/com/automation/utils/APIService.java:45-104 | definition: the loop from a given attempt on, by recursion over the attempts left; `RegisterFromStep` and `LoopStep` state one pass of it |
| Api.Register | src/test/java/com/automation/utils/APIService.java:38-106 | definition: the whole call from attempt 1; `RegisterShape`, `DoubleCollision`, `PassMeansSuccessRedirect` and `OtherStatusIsApiError` state its properties, and `ApiService.RegisterUser` is proved equal to it |
| Api.RegisterFromStep | src/test/java/com/automation/utils/APIService.java:45-104 | one loop pass: a final reply ends the run with this POST; a retry continues from the next attempt with the rewritten email |
| Api.LoopStep | src/test/java/com/automation/utils/APIService.java:45-104 | one loop pass seen from the whole run, which is the loop invariant of `RegisterUser` |
| Api.RegisterShape | src/test/java/com/automation/utils/APIService.java:45-104 | one or two POSTs, each to the registration path with redirects off, confirm == password and agree "1"; the first carries the given fields; the user ends unchanged or with only the email rewritten; the last POST carries the fields the user ends with |
| Api.DoubleCollision | src/test/java/com/automation/utils/APIService.java:86-99 | two "already registered" replies end in the email-collision error after two attempts, with the email rewritten once |
| Api.PassMeansSuccessRedirect | src/test/java/com/automation/utils/APIService.java:64-69 | the call passes exactly when the last POST's reply is a 302 to the success route |
| Api.OtherStatusIsApiError | src/test/java/com/automation/utils/APIService.java:76-81 | any first reply other than 302 or 200, other 3xx codes included, ends the call with an API error after one POST and leaves the user unchanged |
| Api.CollisionEmailChanges | src/test/java/com/automation/utils/APIService.java:88 | the rewritten email differs from the original exactly when it has an '@', and is then longer |
| Api.Message | src/test/java/com/automation/utils/APIService.java:71-103 | definition: the text of each of the four exceptions, with numbers printed by `NatToString`; `MessageMarks` and `MessageIdentifiesBranch` prove each message identifies its branch |
| Api.MessageMarks | src/test/java/com/automation/utils/APIService.java:71-103 | the first char of each error message names its branch, and for the two "Failed to register user" messages so does char 24 |
| Api.MessageIdentifiesBranch | src/test/java/com/automation/utils/APIService.java:71-103 | equal messages come from the same terminal branch |
| Api.Sends | src/test/java/com/automation/utils/APIService.java:57-58 | definition: one send per POST, in order; `SendsSnoc` states how it grows, and `ApiService.RegisterUser` proves its log is the sends of `Register`'s POSTs |
| Api.SendsSnoc | src/test/java/com/automation/utils/APIService.java:57-58 | the sends of one more POST are the earlier sends followed by that POST's own |
| Api.ApiService.RegisterUser | src/test/java/com/automation/utils/APIService.java:38-106 | the outcome, the user's fields afterwards and the POSTs sent are exactly those of `Register` on the user's fields at entry |
| Api.ApiService.Attempt | src/test/java/com/automation/utils/APIService.java:46-103 | one POST of the current fields; the step is the classification of the reply; only a retry rewrites the email, in place |
| Models.User.SetEmail | src/test/java/com/automation/utils/APIService.java:93 | replaces the email and no other field |
| Csv.CleanedRow | src/test/java/com/automation/utils/CsvUtil.java:36-42 | definition: each field cleaned at its own index; `CleanRow` is proved to leave it in the array, and `PositionalMapping` reads it field by field |
| Csv.Fields | src/test/java/com/automation/utils/CsvUtil.java:23 | definition: `line.split(",")`; `JavaSplitJoin`, `JavaSplitOfJoin`, `RowAccepted` and `EmptyLastFieldRejected` state its properties |
| Csv.CleanField | src/test/java/com/automation/utils/CsvUtil.java:37-41 | definition: the field trimmed, and for field 0 one leading BOM removed after trimming; `BomRemovedOnce` and `PositionalMapping` state its properties |
| Csv.CleanAt | src/test/java/com/automation/utils/CsvUtil.java:37-41 | one turn of the clean-up loop changes only field i, to its cleaned value |
| Csv.CleanRow | src/test/java/com/automation/utils/CsvUtil.java:36-42 | the clean-up loop leaves the array holding the cleaned row |
| Csv.ReadRow | src/test/java/com/automation/utils/CsvUtil.java:23-57 | the loop body for one line gives the line's `ParseRow` result |
| Csv.ToFormData | src/test/java/com/automation/utils/CsvUtil.java:46-57 | definition: the constructor call taking fields 0 to 10 by position; `PositionalMapping` and `ExtraFieldsIgnored` state its properties |
| Csv.ParseRow | src/test/java/com/automation/utils/CsvUtil.java:23-57 | definition: one data line, rejected when its split has fewer than eleven fields; `RowAccepted`, `ShortRowError`, `BlankLineRejected` and `PositionalMapping` state its properties, and `ReadRow` is proved to follow it |
| Csv.MapUntilError | src/test/java/com/automation/utils/CsvUtil.java:21-61 | definition: each item parsed in order until the first failure; `StopsAtError`, `Extend`, `AllOk` and `FirstError` state its properties |
| Csv.ParseRows | src/test/java/com/automation/utils/CsvUtil.java:21-61 | definition: the data lines parsed in order; `FirstError` and `AllOk` state its properties |
| Csv.FormDataFromLines | src/test/java/com/automation/utils/CsvUtil.java:18-61 | definition: the header skipped, then the data lines; `HeaderDiscarded`, `SkipFirst` and `FileRows` state its properties, and `GetFormDataFromCsv` is proved to return it |
| Csv.GetFormDataFromCsv | src/test/java/com/automation/utils/CsvUtil.java:12-68 | the read loop returns `FormDataFromLines` of the file's lines |
| Csv.RunStep | src/test/java/com/automation/utils/CsvUtil.java:21-61 | one loop turn: a failing line ends the whole read with its error; an accepted line extends the records so far by its record |
| Csv.StopsAtError | src/test/java/com/automation/utils/CsvUtil.java:27-32 | once a line fails after accepted ones, the whole read fails with that line's error |
| Csv.Extend | src/test/java/com/automation/utils/CsvUtil.java:59-60 | an accepted line appends its record to the records so far |
| Csv.AllOk | src/test/java/com/automation/utils/CsvUtil.java:21-61 | a successful read has one record per line, in order, each the line's own |
| Csv.FirstError | src/test/java/com/automation/utils/CsvUtil.java:21-61 | a read fails exactly when some line fails, and then with the error of the first failing line |
| Csv.HeaderDiscarded | src/test/java/com/automation/utils/CsvUtil.java:18-19 | the header line is never checked; an empty file and a header-only file give no records |
| Csv.SkipFirst | src/test/java/com/automation/utils/CsvUtil.java:18-61 | after the skipped first line, the read succeeds exactly when every later line does, and record i - 1 is line i's |
| Csv.FileRows | src/test/java/com/automation/utils/CsvUtil.java:12-68 | a file is accepted exactly when every data line is, and then yields one record per data line, in file order, each that line's record |
| Csv.RowAccepted | src/test/java/com/automation/utils/CsvUtil.java:23-32 | a line is accepted exactly when its split has at least eleven fields |
| Csv.ShortRowError | src/test/java/com/automation/utils/CsvUtil.java:27-31 | a rejected line reports the field count, the raw line and the fields; its message holds the count as decimal digits that spell it, without a leading zero unless it is 0, then the line and the fields |
| Csv.ErrorMessage | src/test/java/com/automation/utils/CsvUtil.java:28-31 | definition: the exception's message; `ShortRowError` states it holds the field count as decimal digits that spell it, the raw line and the fields |
| Csv.ArrayToString | src/test/java/com/automation/utils/CsvUtil.java:30 | definition: `Arrays.toString`, the items joined by ", " inside brackets |
| Csv.BlankLineRejected | src/test/java/com/automation/utils/CsvUtil.java:23-32 | a blank line splits into one empty field and is rejected |
| Csv.PositionalMapping | src/test/java/com/automation/utils/CsvUtil.java:44-57 | field i of the split becomes the i-th FormData field: every field is trimmed, and the first also loses a leading BOM |
| Csv.ExtraFieldsIgnored | src/test/java/com/automation/utils/CsvUtil.java:44-57 | fields past the eleventh do not affect the record |
| Csv.BomRemovedOnce | src/test/java/com/automation/utils/CsvUtil.java:37-41 | one leading BOM is removed from the first field only, and a second BOM is kept |
| Csv.WrittenRowReadBack | src/test/java/com/automation/utils/CsvUtil.java:23-57 | eleven or more comma-free fields, the last non-empty, joined by commas, split back to themselves and read as their cleaned values |
| Csv.EmptyLastFieldRejected | src/test/java/com/automation/utils/CsvUtil.java:23-32 | eleven comma-free fields with an empty last one lose it to the split and are rejected |
| JavaText.TrimStart | src/test/java/com/automation/utils/CsvUtil.java:37 | the front part of `trim`: the result is a suffix of the text, everything dropped is a char up to U+0020, and the result does not start with one |
| JavaText.TrimEnd | src/test/java/com/automation/utils/CsvUtil.java:37 | the back part of `trim`: the result is a prefix of the text, everything dropped is a char up to U+0020, and the result does not end with one |
| JavaText.Trim | src/test/java/com/automation/utils/CsvUtil.java:37 | the trimmed text is no longer than the input and neither starts nor ends with a char up to U+0020 |
| JavaText.TrimIsInfix | src/test/java/com/automation/utils/CsvUtil.java:37 | the trimmed text is an infix of the input, and everything dropped before and after it is a char up to U+0020 |
| JavaText.TrimOfTrimmed | src/test/java/com/automation/utils/CsvUtil.java:37 | a text that neither starts nor ends with such a char is its own trim |
| JavaText.TrimIdempotent | src/test/java/com/automation/utils/CsvUtil.java:37 | trimming twice is trimming once |
| JavaText.JavaSplit | src/test/java/com/automation/utils/CsvUtil.java:23 | `split(",")` gives the whole line when there is no comma, and otherwise every piece minus the trailing empty ones; no piece holds a comma |
| JavaText.JavaSplitJoin | src/test/java/com/automation/utils/CsvUtil.java:23 | rejoining the split is a prefix of the line, and the rest of the line is commas |
| JavaText.JavaSplitOfJoin | src/test/java/com/automation/utils/CsvUtil.java:23 | splitting comma-free parts joined by commas, the last part non-empty, gives back the parts |
| JavaText.ReplaceChar | src/test/java/com/automation/utils/APIService.java:88 | `replace` leaves a text without the char unchanged, leaves no occurrence when the replacement lacks the char, adds no char that is in neither input, and grows the text when the replacement is longer than one char and the char occurs |
| JavaText.ReplaceCharAt | src/test/java/com/automation/base/BaseTest.java:243-245 | a one-char replacement keeps the length and changes exactly the positions holding the char |
| JavaText.ToLowerAt | src/test/java/com/automation/base/BaseTest.java:146 | lower-casing maps each char in place |
| JavaText.DecimalValue | src/test/java/com/automation/utils/APIService.java:80 | definition: the number a string of decimal digits spells, most significant first; `NatToString` is proved to produce digits that spell its argument |
| JavaText.NatToString | src/test/java/com/automation/utils/APIService.java:80 | the decimal text of a number is non-empty digits that spell the number, with a leading zero only for 0 |
| Login.WaitForEither | src/test/java/com/automation/pages/LoginPage.java:41-42 | the wait returns exactly when a signal became visible within the bound, and otherwise fails with a timeout |
| Login.ApplicationErrorMessage | src/test/java/com/automation/pages/LoginPage.java:54-56 | the alert message is the prefix plus the trimmed alert text, or "<no message>" for null |
| Login.LoginWith | src/test/java/com/automation/pages/LoginPage.java:33-44 | fill email, fill password, click, then wait 15000 ms, in that order; it returns exactly when a signal appeared within 15000 ms |
| Login.VerifyLoginSuccess | src/test/java/com/automation/pages/LoginPage.java:46-62 | a timeout propagates; after the wait a visible alert fails before the heading is looked at; otherwise the result is the heading's visibility |
| Login.VerifyPassesIff | src/test/java/com/automation/pages/LoginPage.java:46-62 | verification passes exactly when a signal appeared within 15 s, no alert is visible and the heading is; a visible alert fails it whatever the heading shows |
| Login.FirstSignalAfter | src/test/java/com/automation/pages/LoginPage.java:41-42 | what a wait from a given moment observes: the delay until a signal is first visible, or none when it never is from then on |
| Login.VerifyAfterLogin | src/test/java/com/automation/pages/LoginPage.java:33-50 | `login` and `verifyLoginSuccess` observe the page at two moments; once `login` has returned, verification times out exactly when the signal `login` saw is no longer visible when verification starts |

## Left out

- I/O: reading the CSV file, its try-with-resources and the `IOException` wrap are left out. The CSV model takes the lines `readLine()` returns.
- Side effects with no bearing on the modelled behaviour: logging, Allure steps and attachments, `System.out`, creating the `traces` directory, and `Files.exists` and reading the saved trace.
- `Thread.sleep(2000)` is a `Sleep` call in the log; time does not pass.
- The engine's own failures are left out, except the three whose handling the code distinguishes: the cloud connect, the success-branch trace stop, and the status `page.evaluate`. A failure of `Playwright.create`, a local launch, `newContext`, `newPage` or `context.close` is not modelled.
- `URLEncoder.encode`, the `SimpleDateFormat` timestamp and `System.currentTimeMillis()` are parameters, not computed.
- Lifecycle.Capabilities: the `HashMap` iteration order of the seven keys is stated as a constant, not derived from `String.hashCode`.
- The static `playwright`/`browser` fields and the per-instance `context`/`page` fields of `BaseTest` are fields of one object, so one suite is run by one test-class instance. Several test classes sharing the statics, or parallel runs, are not modelled.
- `LaunchCloud`, `LaunchLocal`, `ResolveTrace` and `ReportStatus` are helper methods that model consecutive sections of the one Java method named in their rows. `Attempt` is the body of the `registerUser` loop, and `CleanAt` and `ReadRow` are loop bodies of `getFormDataFromCsv`.
- JavaText.ToLower: only ASCII letters are lower-cased, so `equalsIgnoreCase` and `toLowerCase` agree only for ASCII text. Unicode case mapping is not modelled.
- JavaText.Trim: Java strings are UTF-16 units; `char` here is a Unicode scalar value. For `trim` this makes no difference, because every char it drops is below U+0021.
- JavaText.JavaPrefix: a Dafny `char` cannot hold a lone surrogate. Where unit n falls inside a surrogate pair, Java's `substring(0, n)` ends with the pair's high half; the model leaves the pair out whole, one unit short.
- Sanitize: follows `JavaText.JavaPrefix`. When unit 252 splits a surrogate pair, Java's remark is 255 units ending in a lone high surrogate before "...", and the model's is 254 units without it.
- SanitizeShape: states the 254-unit case that follows from that, where Java's cut remark is always 255 units.
- PayloadRoundTrip: promised only for a status and remark holding no backslash and no control char, since the action string escapes neither. `BackslashBreaksPayload` shows the failure for a trailing backslash.
- ReportDecodes: promised only for a message holding no backslash and no control char other than LF and CR, because the sanitiser leaves those in place; `BackslashMessageBreaksReport` shows a failing message.
- SentStatusDecodes: same condition as `ReportDecodes`.
- Lifecycle.DecodePayload: the reader accepts only the fixed layout the code writes. Whitespace variations and `\uXXXX` escapes are not read.
- `checkAccessibility` (Axe scan with logging only), `ConfigReader` (the lookups are `Environment` fields), `TestDataFactory`, and the page objects other than `LoginPage` are left out.
- models/User.java is not part of this model. `Models.User` holds the five fields the registration reads and the `setEmail` it calls.
- Login: the locator engine and polling are left out, and so is strict mode: the `or` locator's wait, `alertDanger.isVisible()` and `alertDanger.textContent()` all throw when several elements match, which the model does not capture. Each call's page is given as the time the first signal appeared, plus the visibility and alert text seen afterwards.
- Login.SignalTimeline: the visibility of the `or` locator over time is one interval, so a signal that disappears and then shows again is not modelled.
- The `Object[][]` wrapper TestNG receives is a sequence of `FormData`.
- HTTP responses carry the status as a natural number. Header lookup is reduced to the `location` value.
