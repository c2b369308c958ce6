# Test Account Manager, modelled in Dafny

A model of the logic in the Test Account Manager browser extension. The extension's popup lists stored test
logins (username, password, description, category tags). The list comes from two sources: logins synced from a
remote URL and logins uploaded as a JSON file. The user narrows the list with a free-text search and with
one select element per category key. A content script injected into web pages fills login forms on request.

The model covers:

- **Filter engine** (`LoginFilter`, over `JsStrings` and `Sequences`). The search predicate matches the lower-cased
  search string as a substring of the lower-cased username, description or any category value. The category predicate
  is `isMatchingActiveFilters`, written as a loop over the active filters. The visible list is remote logins followed
  by custom logins, filtered by search and then by category.
- **Category index** (`CategoryIndex`). `getCategories` is a method with the source's nested loops, proved equal to a
  left fold over `customLogins ++ remoteLogins`.
- **Popup state** (`Popup.AppState`). A class holding the popup's module-level variables, with one method per event
  handler that changes them: select change, search input, upload, delete, remote sync, sync button, auto-login toggle,
  and loading stored logins and options.
- **Content script** (`ContentScript`). A `Page` class with the page-global registration flag, the listener count and
  the three elements the script queries (username input, password input, submit button). Filling an input and clicking
  the button change those objects in place.

Inputs the source obtains from outside the popup become parameters of type `Option`. These are the upload's parsed
JSON, the remote fetch's body, and the values read from extension storage. `None` is the failure case.

Three behaviours of the code shape the model:

- **Logins without `categories`.** At script.js:428, `Object.entries(categories)` throws a `TypeError` when a login
  has no `categories`, so `getCategories` produces no index. `GetCategories` returns `None` in that case.
- **Repeated category values.** At script.js:429-433, a value that is already in its key's list fails the `if`, and
  the list is overwritten with `[value]` (see Findings).
- **Remote sync.** At script.js:519, `remoteLogins` is assigned whatever JSON the response holds, array or not (see
  Left out).

## Model

| member | source | states |
|---|---|---|
| JsStrings.ToLowerCase | script.js:143 | `toLowerCase` keeps the length and lowers each character (ASCII letters only) |
| JsStrings.ToLowerCaseIdempotent | script.js:143-150 | lower-casing twice is the same as lower-casing once |
| JsStrings.IncludesIsSubstring | script.js:143 | `includes` is true exactly when the needle occurs at some position of the string |
| JsStrings.Includes | script.js:143 | the empty needle is always found; a found needle is no longer than the string; a needle that is a prefix of the string is found |
| JsStrings.IncludesEmpty | script.js:143 | every string includes the empty string |
| Sequences.Filter | script.js:140-151 | the filtered list holds only passing elements of the input and every passing element |
| Sequences.FilterIsSubsequence | script.js:140-151 | filtering keeps the original relative order |
| Sequences.FilterCommute | script.js:140-151 | two filters applied in either order give the same list |
| LoginFilter.MatchesSearch | script.js:141-150 | the empty search passes every login |
| LoginFilter.IsMatchingActiveFilters | script.js:110-120 | the loop's result is true iff every active filter (key, value) has the login's `categories` defined, containing key, mapped to value |
| LoginFilter.MatchesSearchIsSubstring | script.js:141-150 | a login passes the search iff the lower-cased search is a substring of its lower-cased username, description or some category value |
| LoginFilter.SearchMissesWithoutFirstChar | script.js:141-150 | a lower-case search whose first character occurs in none of the lower-cased username, description and category values fails |
| LoginFilter.EmptySearchMatches | script.js:141-150 | an empty search passes every login |
| LoginFilter.SearchIgnoresCase | script.js:141-150 | two searches with the same lower-cased form select the same logins |
| LoginFilter.SearchLowerCased | script.js:141-150 | a search and its lower-cased form select the same logins |
| LoginFilter.PasswordNeverConsulted | script.js:110-151 | changing a login's password changes neither predicate |
| LoginFilter.NoFiltersMatch | script.js:115-119 | with no active filter every login passes the category predicate |
| LoginFilter.MissingCategoriesFail | script.js:117 | a login without `categories` fails any non-empty set of filters, with no error |
| LoginFilter.Visible | script.js:137-151 | the visible list is no longer than remote ++ custom; each visible login is from remote ++ custom and passes search and filters; each login of remote ++ custom that passes both is visible |
| LoginFilter.VisibleExactly | script.js:137-151 | the visible list is an ordered sub-list of remote ++ custom; a login is in it iff it is in remote ++ custom and passes both predicates, and it occurs as often as there |
| LoginFilter.VisibleIsFilteredSubsequence | script.js:137-151 | every visible login passes both predicates, and the visible list keeps the order of remote ++ custom |
| LoginFilter.VisibleOrderOfFiltersIrrelevant | script.js:140-151 | filtering by category first and search second gives the same list |
| LoginFilter.VisibleEmptySearch | script.js:140-151 | with an empty search the visible list is remote ++ custom filtered by category only |
| LoginFilter.VisibleNoFilters | script.js:115-151 | with no active filter the visible list is remote ++ custom filtered by search only |
| LoginFilter.VisibleMonotone | script.js:116-151 | extending the active filters gives the old visible list filtered again, an ordered sub-list of it |
| LoginFilter.VisibleAppendCustom | script.js:137-151 | appending custom logins appends exactly their visible ones to the end of the visible list |
| FilterScenarios.FilterByTypeShowsMatching | script.js:137-151 | two accounts typed "single" and "joint", empty search, filter type=single: only the first is shown |
| FilterScenarios.SearchShowsMatching | script.js:137-151 | the same two accounts, search "bar", no filter: only the one described "bar" is shown |
| CategoryIndex.Entry | script.js:429-433 | the entry's value is in the new list; every other listed value was already in the key's list; a list without repeats stays without repeats |
| CategoryIndex.ApplyEntries | script.js:428-434 | after one login's entries the index has exactly the old keys plus the login's keys; each of those keys lists the login's value; keys the login does not carry keep their lists |
| CategoryIndex.Categories | script.js:427-435 | every key of the folded index has a non-empty list |
| CategoryIndex.AddEntries | script.js:428-434 | fails iff the login carries a key that an empty object inherits from `Object.prototype` (then `key in categoryCollection` holds and `includes` throws); otherwise yields that login's update of the index |
| CategoryIndex.GetCategories | script.js:421-438 | fails iff some login of custom ++ remote lacks `categories` or carries an inherited `Object.prototype` key; otherwise returns the fold of the as-written entry rule over custom ++ remote |
| CategoryIndex.CategoriesKeys | script.js:427-435 | the index has a key iff some login carries that key |
| CategoryIndex.CategoriesDistinct | script.js:429-433 | no key's list repeats a value |
| CategoryIndex.CategoriesValuesSeen | script.js:429-433 | every listed value is the value some login gives that key |
| CategoryIndex.CategoriesLastValue | script.js:429-433 | a key's list ends with the value of the last login that carries the key |
| CategoryIndex.RepeatedValueDropsOthers | script.js:429-433 | logins typed single, joint, single: as written the list is ["single"], while the repaired rule gives ["single", "joint"] |
| CategoryIndex.RepeatedValueResetsList | script.js:429-433 | for any logins, a further login whose value for a key is already listed resets that key's list to just that value |
| CategoryIndex.IntendedPerKey | script.js:429-433 | with the repaired rule, a key's list is that key's values in login order with repeats removed (first occurrence kept) |
| CategoryIndex.IntendedListsDistinctSeenValues | script.js:429-433 | with the repaired rule, a key's list has no repeats and contains a value iff some login gives the key that value |
| Popup.AppState.constructor | script.js:22-58 | no logins, empty search, no active filters, auto-login off, no remote URL |
| Popup.AppState.VisibleLogins | script.js:126-151 | what is rendered is an ordered sub-list of remote ++ custom whose every login passes search and filters |
| Popup.AppState.SelectChange | script.js:467-473 | an empty value deletes the key and any other value sets it; other keys and all other state are unchanged; a new key only narrows the visible list and a deletion only widens it |
| Popup.AppState.SearchInput | script.js:169-174 | the search becomes the input's value; nothing else changes |
| Popup.AppState.Upload | script.js:240-257 | a parsed array is appended to the custom logins, and its visible logins are appended to the visible list; otherwise nothing changes |
| Popup.AppState.DeleteCustomLogins | script.js:227-233 | custom logins become empty, and only remote logins remain visible |
| Popup.AppState.SyncFromRemoteUrl | script.js:516-524 | a successful fetch replaces the remote logins; a failed one leaves all state unchanged |
| Popup.AppState.SyncButtonClick | script.js:497-508 | an empty URL changes nothing; otherwise the URL is stored and the sync is applied |
| Popup.AppState.ToggleAutoLogin | script.js:277-282 | auto-login becomes the checkbox state; nothing else changes |
| Popup.AppState.LoadCustomLogins | script.js:303-309 | stored logins, if any, replace the custom logins |
| Popup.AppState.LoadOptions | script.js:295-301 | stored options, if any, replace auto-login and the remote URL together |
| ContentScript.FillOutField | content_scripts/attemptAutoFill.js:40-44 | the input gets the value and one more input event; no other object changes |
| ContentScript.Page.RunScript | content_scripts/attemptAutoFill.js:13-70 | after any run the flag is set and exactly one listener is registered; a repeated run registers nothing |
| ContentScript.Page.AttemptAutoFill | content_scripts/attemptAutoFill.js:29-61 | a present username input gets the username and a present password input gets the password, each with one input event; the submit button is clicked once iff auto-login is on and the button exists; nothing else changes |
| ContentScript.Page.OnMessage | content_scripts/attemptAutoFill.js:63-67 | a command other than "autofill" leaves the page unchanged; "autofill" fills as AttemptAutoFill does, with the message's fields |
| ContentScript.Page.Deliver | content_scripts/attemptAutoFill.js:63-69 | a message reaches the page only after the script has registered its listener; otherwise the page is unchanged |

## Findings

| source | as written | input that shows it | evidently intended | confidence | as-written member | corrected member |
|---|---|---|---|---|---|---|
| script.js:429-433 | when the value is already in the key's list, the `if` fails and the list is overwritten with `[value]`, which drops the key's other values | logins whose "type" is "single", "joint", "single" in that order give the list `["single"]`, so the category select has no "joint" option | leave the list unchanged when the value is already listed, so each list holds every distinct value once | not executed | CategoryIndex.RepeatedValueDropsOthers | CategoryIndex.IntendedListsDistinctSeenValues |

`CategoryIndex.Rule` selects the entry rule. `AsWritten` is the source's branch, and `GetCategories` uses it because
it models the code as it stands. `Intended` is the repaired branch. Nothing else in the model reads the category index,
because the select that lists it belongs to the user interface.

## Left out

- The user interface is not modelled. This covers `createEntry`, clearing and appending in `updateDisplay`,
  `initNavigateButtons`, `navigateToLogins`, select and option creation in `initCategories`, and `addToastNotification`
  with its timer. The visible list (`Popup.AppState.VisibleLogins`) stands for what `updateDisplay` renders.
- Extension storage, tab queries and `chrome.scripting.executeScript` are foreign calls. This covers `saveOptions`, the
  storage writes in upload and delete, `chrome.tabs.query` and `autoFillLogin`. Values read from storage are parameters.
- `fetch`, `response.json()`, `FileReader`, `JSON.parse` and the clipboard write (`copyToClipboard`) are I/O. Their
  outcomes are `Option` parameters.
- The popup's own copy of `attemptAutoFill` (script.js:375-407) is left out. It has the content script's logic, with
  `opts.autoLogin` as the flag, and is modelled once as `ContentScript.Page.AttemptAutoFill`.
- The asynchronous ordering of `init`, the random greeting, and overlapping remote syncs are not modelled. They are
  scheduling and randomness. Each handler is one atomic step.
- background.js holds no logic.
- `new Event("input")` and `dispatchEvent` are counted as `inputEvents` on the input. A click is counted as `clicks`
  on the button. What page scripts do in response is not modelled.
- JsStrings.ToLowerCase: lowers ASCII letters only. JavaScript's full Unicode case mapping is not modelled.
- Popup.AppState.Upload: uploaded elements are typed as logins. The source does not check the shape of an uploaded
  array's elements, so malformed records are not modelled.
- Popup.AppState.SyncFromRemoteUrl: `fetched` is `Some` only for an array of logins. The source assigns any JSON the
  response holds. For a non-array value, the assignment is followed by `updateDisplay` throwing inside the `try`, so
  the previous remote logins are not kept. That case is not represented.
- ContentScript.Page.Deliver: no file of the extension sends an "autofill" message; the sender is another extension
  context that is not part of this model. The popup's own path is `autoFillLogin` (script.js:355-366), which injects its
  copy of `attemptAutoFill` with `executeScript`. That path is a direct `AttemptAutoFill` call, with no `RunScript`,
  no registration guard and no `Deliver`.
- ContentScript.Page.AttemptAutoFill: the three queried elements are fixed when the `Page` is constructed. The source
  queries the document on every call (content_scripts/attemptAutoFill.js:31-33, 56), so elements added or removed
  between calls are not modelled.
- CategoryIndex.GetCategories: the inherited names are those of `Object.prototype` in current engines
  (`ObjectPrototypeNames`); keys such as `"__proto__"`, whose assignment changes the prototype, are treated like the
  others.
