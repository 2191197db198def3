# Dumcel dashboard client rules in Dafny

A Dafny model of the client-side rules of the Dumcel dashboard, a Next.js
front end for a deployment service. The model covers these parts:

- **Route guard** (`middleware.ts`): it decides from the `token` cookie
  whether a request goes to `/login`, to `/dashboard` or through.
- **Build-log reader** (`build-logs-container.tsx`): it polls a deployment's
  logs from a timestamp cursor. It appends each batch, counts empty fetches
  and stops on a success marker, after five empty fetches or on an error.
- **Forms**:
  - the sign-in form: its password rules, submit handler and GitHub
    authorize URL;
  - the change-password form: its length rules, e-mail lookup and submit
    handler;
  - the credit calculator.
- **Account menu**: the typed `delete` confirmation, the delete and logout
  handlers.
- **Display derivations**:
  - project cards, the deployments table and screenshot previews;
  - the analytics page: the visitor trend, referrers, countries and device
    colours.

Replies from the server are inputs to the model, as are `Number(...)`,
zod's e-mail check and the list of days.

`encodeURIComponent` is modelled exactly, over UTF-8. It is paired with a
decoder, and `decode(encode(s)) == s` is proved for every string. Query
strings are paired with a parser in the same way. Together these show two
things. The GitHub authorize URL reads back as exactly its four parameters,
whatever the redirect URI holds. The screenshot URL reads back as its four
parameters for every sub-domain, so no sub-domain can inject a parameter.

Modules are laid out as follows:

- **Shared modules**:
  - `Wrappers`: `Option`.
  - `Text`: prefixes, substrings, ASCII case mapping, ECMAScript `trim`,
    UTF-16 length.
  - `Http`: replies and caught errors.
  - `UriComponent`.
  - `QueryString`.
  - `Types`.
- **One module per source file**: `RouteGuard`, `BuildLogs`, `LoginForm`,
  `ChangePassword`, `CreditCalculator`, `ProfileDropdown`, `ProjectCard`,
  `DeploymentColumns`, `ProjectPreview`, `Analytics`.

Components whose handlers update React state are classes whose fields are
that state. Each async handler is split at its `await`:

- `Begin…` is the synchronous part before the request.
- `Settle…` applies the reply.
- A composite method runs both.

## Model

| member | source | states |
|---|---|---|
| Types.StateName | types.ts:17-23 | every deployment state has its non-empty wire name |
| Http.CaughtMessage | components/login-form.tsx:67-68 | a caught `Error` shows its message, anything else the fallback |
| Text.Lower | components/profile-dropdown.tsx:63 | `toLowerCase` keeps the length and lowers every ASCII capital, leaving no capital behind |
| Text.Trim | components/profile-dropdown.tsx:63 | `trim` returns a slice `s[i..j]` of its input whose dropped ends are all ECMAScript white space and which itself starts and ends with no white space |
| Text.TrimIgnoresPadding | components/profile-dropdown.tsx:63 | surrounding white space never changes what `trim` returns |
| Text.ContainsIffOccurs | components/build-logs-container.tsx:57 | `includes` holds exactly when the word occurs at some index |
| Text.JsLength | components/login-form.tsx:31 | the UTF-16 length zod measures lies between the code-point count and twice it, and equals it for BMP-only text |
| Text.JsLengthChar | components/login-form.tsx:31 | one character is one UTF-16 code unit inside the Basic Multilingual Plane and two outside it |
| Text.JsLengthAppend | components/login-form.tsx:31 | the UTF-16 length of a concatenation is the sum of the lengths, so with `JsLengthChar` it is fixed on every string |
| UriComponent.Encode | components/login-form.tsx:81-83 | `encodeURIComponent` output holds only unreserved characters and `%` escapes, and is never shorter than the input |
| UriComponent.DecodeEncode | components/project-preview.tsx:8-10 | decoding the encoding of any string gives the string back |
| UriComponent.EncodeInjective | components/project-preview.tsx:8-14 | distinct strings have distinct encodings |
| QueryString.ParseBuild | components/login-form.tsx:81-83 | a query written from `&`-free pairs parses back to exactly those pairs |
| RouteGuard.MatchesAny | middleware.ts:15 | `some(startsWith)` holds iff some listed route is a prefix of the path |
| RouteGuard.Middleware | middleware.ts:4-29 | login redirect, carrying the path, iff no token and a `/dashboard` prefix; dashboard redirect iff a token and an auth-page prefix |
| RouteGuard.AuthRouteList | middleware.ts:12 | the auth pages are exactly the four listed prefixes |
| RouteGuard.PassThroughCases | middleware.ts:14-28 | a request passes iff, signed in, it is not for an auth page, or, signed out, it is not for the dashboard |
| RouteGuard.SignedInDashboardPasses | middleware.ts:9-26 | a signed-in user is never redirected away from a dashboard path |
| RouteGuard.EmptyCookieIsNoToken | middleware.ts:5 | an empty `token` cookie is treated like a missing one |
| RouteGuard.PrefixNotSegment | middleware.ts:15-25 | the function matches by raw prefix: given `/dashboardX` or `/login-help` it redirects as for `/dashboard` or `/login` (the matcher keeps both paths from reaching it) |
| BuildLogs.TypeName | components/build-logs-container.tsx:18 | every log type has a non-empty name |
| BuildLogs.Initial | components/build-logs-container.tsx:27-34 | the mount state is valid, empty and unfinished |
| BuildLogs.Step | components/build-logs-container.tsx:39-71 | a finished reader is unchanged; records are only appended; the refresh counter is kept; validity (cursor = last record's timestamp, fewer than five empty fetches while unfinished) is preserved |
| BuildLogs.Refresh | components/build-logs-container.tsx:86-93 | as written: empties the reader, unfinished and valid, bumps the counter and keeps the error |
| BuildLogs.RefreshClearingError | components/build-logs-container.tsx:86-93 | corrected refresh: exactly the mount state with the counter bumped |
| BuildLogs.FirstFailureLocksRefresh | components/build-logs-container.tsx:66-70 | after a failed first fetch the reader stays finished, shows the error and keeps refresh disabled |
| BuildLogs.StaleErrorAfterRefresh | components/build-logs-container.tsx:86-93 | as written, a refresh after a failure still shows the old error beside new records |
| BuildLogs.CorrectedRefreshForgetsError | components/build-logs-container.tsx:86-93 | with the corrected refresh, a run without failed fetches shows no error |
| BuildLogs.RunKeepsNoError | components/build-logs-container.tsx:46-70 | fetches that do not fail never set the error |
| BuildLogs.RunFinished | components/build-logs-container.tsx:40 | a finished reader ignores every later fetch |
| BuildLogs.RunAppendsOnly | components/build-logs-container.tsx:50-51 | over any run the old records stay at the front, and validity is kept |
| BuildLogs.RunLogs | components/build-logs-container.tsx:50-51 | after a run the records are the old ones followed by the batches fetched while unfinished |
| BuildLogs.EmptyFetchesCount | components/build-logs-container.tsx:60-63 | each empty fetch adds one to the count and keeps records and cursor; the reader finishes exactly at five |
| BuildLogs.FiveEmptyFetchesFinish | components/build-logs-container.tsx:24 | five empty fetches finish any unfinished reader, and four from a fresh count do not |
| BuildLogs.OnlyLastRecordFinishes | components/build-logs-container.tsx:56-59 | a batch finishes the reader iff its last record is a success or mentions "successfully" |
| BuildLogs.RowLabel | components/build-logs-container.tsx:144 | the label is the step, else the upper-cased type, else "INFO", and is never empty |
| BuildLogs.LogReader.constructor | components/build-logs-container.tsx:27-34 | the reader starts in the mount state |
| BuildLogs.LogReader.FetchLogs | components/build-logs-container.tsx:39-71 | the new state is `Step` of the old one; each outcome's fields are spelled out |
| BuildLogs.LogReader.RefreshLogs | components/build-logs-container.tsx:86-93 | the refresh as written: `Refresh` of the old state, the mount state with the counter bumped and the old error kept |
| CreditCalculator.RangeMessage | components/credit-calculator.tsx:35-41 | no message iff 10 ≤ n ≤ 50; the minimum and maximum messages below and above |
| CreditCalculator.Total | components/credit-calculator.tsx:20-29 | the total divided by the rate is the credit amount; in range the total is 20..100 |
| CreditCalculator.Calculator.constructor | components/credit-calculator.tsx:26-29 | starts at 10 credits, no message, total 20 |
| CreditCalculator.Calculator.HandleChange | components/credit-calculator.tsx:31-44 | NaN changes nothing; any number is stored with its range message |
| LoginForm.PasswordIssues | components/login-form.tsx:27-35 | no issue iff length ≥ 6 and an upper-case, a lower-case and a special character are present; the length issue comes first iff too short |
| LoginForm.NoDigitRequired | components/login-form.tsx:29-34 | a password without digits is accepted |
| LoginForm.SpaceIsSpecial | components/login-form.tsx:34 | a space satisfies the special-character rule |
| LoginForm.AccentIsSpecial | components/login-form.tsx:34 | a non-ASCII letter satisfies the special-character rule |
| LoginForm.ShortPasswordMessage | components/login-form.tsx:31 | a short password that meets the other rules reports only the length message |
| LoginForm.FailureMessage | components/login-form.tsx:61-68 | a failed reply shows the server's non-empty `error` or "Login failed"; a throw shows its message or "Something went wrong" |
| LoginForm.AuthorizeUrlShape | components/login-form.tsx:81-83 | the authorize URL is the endpoint, `?`, and the four parameters in order |
| LoginForm.AuthorizeUrlQuery | components/login-form.tsx:76-83 | the authorize query parses back to its four parameters, and the redirect URI decodes to the configured one |
| LoginForm.Form.constructor | components/login-form.tsx:45-47 | starts idle with no message |
| LoginForm.Form.BeginSubmit | components/login-form.tsx:50-52 | sets loading and clears the message |
| LoginForm.Form.SettleSubmit | components/login-form.tsx:54-71 | a successful sign-in stores token and user id; otherwise storage is unchanged and the failure message is shown; loading ends false |
| LoginForm.Form.Submit | components/login-form.tsx:50-72 | runs only for accepted input; afterwards loading is false and either the session is stored or the failure message is shown |
| LoginForm.Form.LoginWithGithub | components/login-form.tsx:74-85 | sets the GitHub spinner and yields the authorize URL |
| ChangePassword.PasswordIssues | components/change-password.tsx:27-34 | no issue iff 8 ≤ length ≤ 100; exactly the short message below and the long message above |
| ChangePassword.SamePasswordAccepted | components/change-password.tsx:25-35 | no rule relates the two passwords: the same in-bounds password twice is accepted |
| ChangePassword.SchemaEmailRejected | components/change-password.tsx:26 | as written, the schema checks the default `""` for `emaiL`, which no e-mail check accepts, so the form is never accepted |
| ChangePassword.FetchedEmailAccepted | components/change-password.tsx:25-35 | with the fetched address checked instead, a well-formed address and two in-bounds passwords are accepted |
| ChangePassword.Settled | components/change-password.tsx:116-128 | at most one of error and success is non-empty; success iff ok and `success`; otherwise the server `error` or the reset-failed message, or the caught message |
| ChangePassword.UserError | components/change-password.tsx:64-93 | no e-mail without a token; an e-mail iff a successful reply; otherwise the status message, the server message or its default, or the caught message when the request or body read throws |
| ChangePassword.Form.constructor | components/change-password.tsx:59-62 | starts with an empty e-mail, no messages, not loading |
| ChangePassword.Form.FetchData | components/change-password.tsx:64-94 | stores the e-mail of a successful lookup, otherwise shows why it failed |
| ChangePassword.Form.BeginSubmit | components/change-password.tsx:100-103 | clears both messages and sets loading |
| ChangePassword.Form.SettleSubmit | components/change-password.tsx:105-128 | the messages become `Settled(reply)` and loading ends false on every path |
| ChangePassword.Form.Submit | components/change-password.tsx:100-129 | runs only for accepted input; afterwards at most one message is shown and loading is false |
| ChangePassword.Form.SubmitAsWritten | components/change-password.tsx:53-55 | with the schema seeing its default e-mail, no request is sent and no state changes |
| ChangePassword.Form.SubmitFetched | components/change-password.tsx:100-129 | with the fetched e-mail checked, sent iff it is present and well formed and both passwords are in bounds; then the settle effects |
| ProfileDropdown.ConfirmIgnoresPadding | components/profile-dropdown.tsx:63 | white space around the typed word never changes the confirmation |
| ProfileDropdown.CapitalsAccepted | components/profile-dropdown.tsx:139 | "DELETE", as the dialog asks, confirms |
| ProfileDropdown.PaddedCapitalsAccepted | components/profile-dropdown.tsx:63 | "  DELETE " confirms |
| ProfileDropdown.TruncatedRejected | components/profile-dropdown.tsx:63 | "delet" does not confirm |
| ProfileDropdown.ConfirmButtonDisabled | components/profile-dropdown.tsx:158 | the button is enabled iff the word is confirmed and no delete is running |
| ProfileDropdown.AvatarOf | components/profile-dropdown.tsx:89-93 | the photo when non-empty, else the name's first character, else "U" |
| ProfileDropdown.MenuLabels | components/profile-dropdown.tsx:98-100 | name and e-mail, with "User" and "email" only when missing |
| ProfileDropdown.Dropdown.constructor | components/profile-dropdown.tsx:38-40 | starts closed, empty, not deleting |
| ProfileDropdown.Dropdown.ConfirmDisabled | components/profile-dropdown.tsx:158 | the button is enabled iff the typed text confirms and no deletion is under way |
| ProfileDropdown.Dropdown.SetDialogOpen | components/profile-dropdown.tsx:133 | opens or closes the dialog and nothing else |
| ProfileDropdown.Dropdown.SetConfirmText | components/profile-dropdown.tsx:148 | stores the typed text and nothing else |
| ProfileDropdown.Dropdown.BeginDelete | components/profile-dropdown.tsx:62-64 | a request goes out iff the word is confirmed, and then deleting is set |
| ProfileDropdown.Dropdown.SettleDelete | components/profile-dropdown.tsx:66-81 | the dialog closes only on an ok reply, and deleting ends false |
| ProfileDropdown.Dropdown.HandleDeleteAccount | components/profile-dropdown.tsx:62-82 | without the word nothing changes; with it deleting ends false and the dialog closes only on an ok reply |
| ProfileDropdown.Dropdown.HandleLogout | components/profile-dropdown.tsx:42-60 | the token is removed iff the reply was read and ok; nothing else changes |
| ProjectCard.StripGithubPrefix | components/project-card.tsx:78 | a leading `https://github.com/` or `https://www.github.com/` is removed exactly; any other URL is unchanged |
| ProjectCard.PrefixesExclusive | components/project-card.tsx:78 | no URL starts with both prefixes |
| ProjectCard.OnlyLeadingPrefix | components/project-card.tsx:78 | only the first, leading prefix is removed |
| ProjectCard.PlainHttpUnchanged | components/project-card.tsx:78 | an `http://` GitHub URL is shown unchanged |
| ProjectCard.LiveUrl | components/project-card.tsx:64 | the live link starts with `https://` and holds the sub-domain right after it |
| ProjectCard.LiveUrlInjective | components/project-card.tsx:64 | distinct sub-domains get distinct live links |
| ProjectCard.BadgeType | components/project-card.tsx:68 | the state's name, or "not started" when there is none |
| ProjectCard.MissingStateLooksNotStarted | components/project-card.tsx:68 | a missing state looks exactly like "not started" |
| ProjectCard.AvatarSrc | components/project-card.tsx:59 | the favicon when non-empty, else "/logo.png" |
| ProjectCard.DateLineOf | components/project-card.tsx:84-96 | "Updated At" iff there is an update time, else "Created At" with the raw creation value |
| DeploymentColumns.ShortId | components/columns/deployments-columns.tsx:16 | the last min(6, length) characters, always a suffix of the id |
| DeploymentColumns.DomainUrl | components/columns/deployments-columns.tsx:49 | the domain link starts with `https://` and holds the sub-domain right after it |
| DeploymentColumns.DomainIsLiveOfD | components/columns/deployments-columns.tsx:49 | the domain link is the project card's live link of `<sub>.d` |
| DeploymentColumns.DomainDiffersFromLive | components/columns/deployments-columns.tsx:49 | the table never links the card's address for the same sub-domain |
| DeploymentColumns.DomainUrlInjective | components/columns/deployments-columns.tsx:49 | distinct sub-domains get distinct domain links |
| DeploymentColumns.UpdatedCell | components/columns/deployments-columns.tsx:58-66 | "-" iff the update time is missing |
| DeploymentColumns.Row | components/columns/deployments-columns.tsx:9-70 | five cells in column order; the state reaches the badge unchanged |
| ProjectPreview.ScreenshotQuery | components/project-preview.tsx:7-10 | the query after `?` is the four parameters written in order |
| ProjectPreview.ScreenshotUrlShape | components/project-preview.tsx:7-14 | a screenshot URL is the service endpoint, `?`, and its query |
| ProjectPreview.ScreenshotUrlQuery | components/project-preview.tsx:8-10 | the query parses back to its four parameters, and `url` decodes to the site, for any sub-domain |
| ProjectPreview.ScreenshotUrlInjective | components/project-preview.tsx:8-14 | distinct sites give distinct screenshot URLs |
| ProjectPreview.DomainIsNotFallbackSite | components/project-preview.tsx:9-13 | no deployment address equals the fallback site |
| ProjectPreview.MainIsNotFallback | components/project-preview.tsx:8-14 | the main and fallback URLs always differ |
| ProjectPreview.Preview.constructor | components/project-preview.tsx:16 | `imgSrc` starts as the main URL |
| ProjectPreview.Preview.CheckPreview | components/project-preview.tsx:18-30 | a failed or non-ok HEAD switches to the fallback; an ok one changes nothing; `imgSrc` stays one of the two URLs |
| ProjectPreview.Preview.OnError | components/project-preview.tsx:39-41 | ends on the fallback whatever it showed, so it is idempotent and never returns to the main URL |
| Analytics.FindByDate | components/analytics-page.tsx:54 | none iff no record has the date; otherwise the first record with it |
| Analytics.FilledTrend | components/analytics-page.tsx:53-59 | one point per day, in order, dated that day, with that day's count |
| Analytics.NoReportAllZero | components/analytics-page.tsx:54-57 | without analytics every day shows 0 |
| Analytics.DayCountCases | components/analytics-page.tsx:54-57 | 0 for a day without records; otherwise `Number` of the first record's count, NaN included |
| Analytics.FirstMatch | components/analytics-page.tsx:54 | `find` returns the first record of the day |
| Analytics.PageViewOf | components/analytics-page.tsx:87-89 | loading first, then a non-empty error, then the notice for missing analytics, then the dashboard |
| Analytics.MountedShowsNotice | components/analytics-page.tsx:46-89 | the mount state (not loading, no error, no report) shows the notice |
| Analytics.TopReferrers | components/analytics-page.tsx:101-103 | the first min(5, n) referrers in order, an empty one shown as "(Direct)" |
| Analytics.CountryName | components/analytics-page.tsx:120 | "unknown" becomes "Unknown"; every other name is unchanged |
| Analytics.CountryVisitors | components/analytics-page.tsx:121 | the parsed count, or 0 for NaN |
| Analytics.CountryListOf | components/analytics-page.tsx:110-121 | the no-data message iff the list is missing or empty; otherwise one row per country in order |
| Analytics.CountryNameCases | components/analytics-page.tsx:120 | only the exact lower-case "unknown" is renamed |
| Analytics.DeviceColour | components/analytics-page.tsx:264-274 | slice i gets palette entry i mod 5, an index in 0..4 |
| Analytics.DeviceColours | components/analytics-page.tsx:264-274 | one palette colour per device record, the i-th being slice i's |
| Analytics.PaletteDistinct | components/analytics-page.tsx:268-274 | the five colours are distinct |
| Analytics.NeighboursDiffer | components/analytics-page.tsx:264-274 | consecutive slices never share a colour, and colours repeat every five slices |
| Analytics.WrapAroundClash | components/analytics-page.tsx:249-278 | on the full pie the last slice touches the first; with `n >= 2` slices they share a colour exactly when `n - 1` is a multiple of five |

## Left out

- Network, storage reads and navigation are not modelled. `fetch`, `res.json()`, `router.push`, `window.location` and `console` are I/O. Each reply is an input, and the token read from `localStorage` is an input too.
- A throw from `fetch` and a throw from `res.json()` are one `Threw` case, because both sit in the same `try`.
- Timers and effects are not modelled: the `setTimeout` polling loop with `isCancelled`, `scrollToBottom`, and the `useEffect` dependency lists. The reader's behaviour over any sequence of fetches is covered by `BuildLogs.Run` and its lemmas.
- Request URLs built only for I/O are not modelled: the log request URL and the delete and get-user endpoints.
- Date and number formatting are not modelled: `toLocaleString`, `toLocaleDateString`, `toLocaleTimeString`, `toFixed` and the chart percentages. Cells carry the raw value.
- Rendering-only parts are not modelled: style classes, the recharts charts for browsers and OS, the totals cards, and language preferences.
- `getCountryCode` and `getLast30Days` come from `lib/utils`, which is not part of this model. The flag image is left out, and the list of days is an input.
- `deleteProject` in the project card is left out. It is a `setTimeout` around a request, and its `loading` flag only follows that I/O.
- `fetchAnalytics` is left out. Its call is commented out at components/analytics-page.tsx:84, so the page never leaves its mount state.
- The middleware's `config.matcher` is framework routing and is not modelled. `RouteGuard.Middleware` decides for every path.
- zod's `email()` pattern and the `handleSubmit` wrapper are not modelled. The pattern's verdict is an input (`emailValid`, or an `isEmail` function of which only `ChangePassword.EmailShaped` is assumed), and the wrapper calls `onSubmit` only for accepted input, as the `Submit` methods state.
- The change-password form relies on react-hook-form's `register` reading a field's value from the form's own store, not from a controlled `value` prop; that library is not part of this model.
- ProjectPreview.Preview: `subDomain` is fixed at construction. In the source `useState(mainUrl)` only takes its initial value, so a mounted preview whose `subDomain` prop changes keeps the earlier URL, which is then neither URL of the current prop; the model does not capture a prop change.
- JavaScript's `Number(...)` is not modelled. It is a parameter that yields `None` for NaN.
- CreditCalculator.HandleChange and CreditCalculator.Total model JavaScript numbers as exact reals: `Infinity` (from input such as "Infinity" or "1e400", which is not NaN, so the source stores it, shows "Maximum 50 credits allowed" and a total of ₹Infinity), `-Infinity`, overflow of `credits * 2` and floating-point rounding are not captured, and no `Option<real>` argument stands for them.
- A server `error` or `message` that is not a string is not modelled. It is an optional string, and an empty one is falsy.
- Text.Lower and Text.Upper map only ASCII letters. This is exact for every comparison the code makes with them: "delete", "successfully" and the type names.
- DeploymentColumns.ShortId and ProfileDropdown.AvatarOf count characters as code points. JavaScript's `slice` and `[0]` count UTF-16 code units, so for characters outside the Basic Multilingual Plane the source can split a surrogate pair where the model cannot.
- `UriComponent.Decode` is not in the source. It is the partner of `encodeURIComponent`, written after `decodeURIComponent` in ECMA-262, and is used only to prove the round trip.

## Findings

| source | as written | input that shows it | evidently intended | confidence | as-written member | corrected member |
|---|---|---|---|---|---|---|
| components/change-password.tsx:26, 53-55, 146-153 | the schema field `emaiL` keeps its default `""`: the address on screen is the separate `email` state passed as `value`, and `setEmail` never writes into the form's values | a fetched address `a@b.co`, old and new passwords of 8 characters each, then submit: zod rejects `""`, `onSubmit` never runs, and the e-mail error is not shown because line 155 renders `errors.oldPassword` under the e-mail field | the fetched address is checked and the request is sent | not executed; depends on react-hook-form's `register` semantics | ChangePassword.SchemaEmailRejected | ChangePassword.Form.SubmitFetched |
| components/build-logs-container.tsx:86-93 | `refreshLogs` resets records, cursor, empty count, finished and loading flags but not `error` | a batch with one ordinary record, then a failed fetch, then refresh (enabled, since loading ended), then a batch with one record: "Error fetching logs." is still shown above the new record | refreshing returns the reader to its mount state, error cleared | not executed | BuildLogs.StaleErrorAfterRefresh | BuildLogs.CorrectedRefreshForgetsError |
