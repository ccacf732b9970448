# Advanced Todo App — a Dafny model of its core

This project models the core of a small full-stack todo application and proves
properties of it. The modelled core has two halves:

- **The Express/MongoDB server:**
  - the bearer-token gate;
  - the account routes: register, login, change password, profile;
  - the todo routes: list with filters and sorting, statistics, create, update, delete;
  - the `todoUpdated` broadcasts these routes emit.
- **The React client's logic:**
  - the session cache in `AuthContext` (token header, `localStorage`, login, register, logout, start-up restore);
  - the todo list page (query string, socket reducer, delete, toggle);
  - the filter bar;
  - the todo row;
  - the todo form (loading a todo, tag parsing, saving);
  - the registration form's validation and error mapping;
  - the profile page's change-password form.

Every handler and event handler is a pure function.

- **Server handlers** take the request's fields and a `Store` (the users, the todos and the broadcasts so far). They return an `Outcome`: the status, the JSON reply and the store afterwards.
- **Client handlers** take the page state and the outcome of the awaited request (`Call`). They return the new page state. A request's outcome is either the resolved reply or the thrown axios error.
- **Foreign functions** become parameters: JWT signing and verification, bcrypt, express-validator's `isEmail`, and `JSON.stringify`/`parse`. So do the clock, the fresh `_id` and the password hash.
- **Server and client are connected** by `Wire.Receive`, which states how axios turns a reply into a resolved value or a thrown error. Several lemmas follow a request from the page through a handler and back.

Modules, in dependency order:

| Module | What it holds |
|---|---|
| `Maybe` | `Option` |
| `Text` | `trim`, `split`, `join`, `includes`, ASCII lower-casing |
| `Lists` | order-keeping `Filter` and `Count` |
| `Sorting` | insertion sort by a total preorder |
| `Records` | users, todos, request bodies, the object spread, broadcast events |
| `Ordering` | MongoDB's sort keys |
| `Api` | replies, store, foreign functions |
| `Wire` | axios results |
| `AuthService` | token gate and account routes |
| `TodoQueries` | list and statistics routes |
| `TodoService` | create, update and delete routes |
| `FilterBar` | the filter bar |
| `TodoList` | the list page |
| `TodoItem` | the todo row |
| `AuthContext` | the session cache |
| `RegisterForm` | the registration form |
| `TodoForm` | the todo form |
| `PasswordForm` | the profile page |

Where the application's documented intent and its code differ, the model follows the code:

- **Invalid token.** A token that fails verification is answered with 403, not 401. The list page therefore only sends the user to the login form when no token is sent at all (`TodoList.InvalidTokenKeepsPage`).
- **Owner can change on update.** The update route spreads the request body over the stored todo, so a body may change `userId` and hand the todo to another user (`TodoService.UpdateCanReassignOwner`).
- **Created todos always prepended.** The list page's reducer puts a created todo in front of the list even when the list already shows a todo with that identifier (`TodoList.Apply`).
- **Any `completed` value filters.** A `completed` query parameter filters even when it is not `"true"`: any other value selects the open todos.
- **Profile page check order.** The profile page reports mismatching new passwords before a short one.
- **Re-saving moves the due date.** The edit form shows only the UTC day of a due date, so saving a todo untouched sets its due date to that day's midnight (`TodoForm.ResubmitKeepsTodo`).

## Model

| member | source | states |
|---|---|---|
| Text.Trim | client/src/components/Todos/TodoForm.js:70 | `trim` yields text with no whitespace at either end, no longer than the input, built from the input's characters; it is empty exactly when the input is all whitespace |
| Text.TrimInfix | client/src/components/Todos/TodoForm.js:70 | what `trim` returns sits inside the input with only whitespace before and after it; with its ends not being whitespace, this determines it |
| Text.TrimOfTrimmed | client/src/components/Todos/TodoForm.js:70 | trimming already trimmed text changes nothing |
| Text.TrimSkipsLeadingSpace | client/src/components/Auth/Register.js:39 | a leading whitespace character does not change what `trim` returns |
| Text.Split | server/server.js:99 | `split` on one character always yields at least one piece, and no piece holds the separator |
| Text.JoinOfSplit | client/src/components/Todos/TodoForm.js:70 | joining the pieces of a split with the separator gives the text back |
| Text.SplitOfJoin | client/src/components/Todos/TodoForm.js:41 | splitting a join of separator-free pieces gives the pieces back |
| Text.SplitAppend | client/src/components/Todos/TodoForm.js:70 | the pieces of `a + sep + b` are the pieces of `a` followed by those of `b` |
| Text.Contains | client/src/components/Auth/Register.js:88-90 | `includes` holds exactly when the needle occurs at some position |
| Text.Lower | server/server.js:326-327 | case folding keeps the length and lower-cases each ASCII letter in place |
| Lists.Filter | server/server.js:319-333 | the kept elements all pass the test and are no more than the input |
| Lists.FilterMultiset | server/server.js:319-333 | filtering keeps exactly the occurrences that pass the test, each as often as it occurs |
| Lists.FilterAppend | client/src/components/Todos/TodoList.js:63-64 | filtering distributes over concatenation |
| Lists.FilterIdempotent | client/src/components/Todos/TodoList.js:63-64 | filtering twice with the same test is filtering once |
| Lists.Count | server/server.js:350-361 | a `$sum` of 1 per matching document counts the documents that pass the test |
| Sorting.Sort | server/server.js:331-333 | the sorted list is a permutation of the input and ordered by the comparison |
| Sorting.InsertSorted | server/server.js:331-333 | inserting into a sorted list keeps it sorted |
| Ordering.TextLeqTotal | server/server.js:331 | string keys compare totally |
| Ordering.TextLeqTransitive | server/server.js:331 | string keys compare transitively |
| Ordering.BeforeIsTotalPreorder | server/server.js:331 | every `{ [sortBy]: ±1 }` specification, on any field name, orders todos by a total preorder |
| Records.OverwriteCharacterised | server/server.js:430-433 | the object spread is the one record that carries the body's fields and keeps every other field and the identifier |
| Wire.Receive | client/src/hooks/useApi.js:32-51 | a 2xx reply resolves with its body; any other status is thrown with that status and body attached |
| Wire.OrElse | client/src/components/Todos/TodoForm.js:85 | `message \|\| fallback`: a missing or empty message gives the fallback |
| AuthService.BearerToken | server/server.js:98-99 | a token is never empty and free of spaces, and a missing header or one without a space yields none |
| AuthService.HeaderWords | server/server.js:98-99 | every header with a space is a first word, a space, a second word, then nothing or text starting with a space |
| AuthService.BearerTokenOfWords | server/server.js:98-99 | the token of such a header is its second word, and there is none when that word is empty (two spaces in a row, or a trailing space) |
| AuthService.BearerTokenOfBearerHeader | server/server.js:98-99 | the header `scheme + " " + token` is read back as `token` |
| AuthService.Authenticate | server/server.js:97-118 | 401 without a token, 403 when verification fails, otherwise admits exactly the verified user id |
| AuthService.FindBy | server/server.js:147-161 | the lookup finds a user with the field value exactly when one exists |
| AuthService.FindById | server/server.js:246 | the lookup by id finds the user exactly when one with that id exists |
| AuthService.RegistrationErrors | server/server.js:121-125 | no validation error exactly when the username has 3 characters, the e-mail passes and the password has 6; each length message appears exactly when its check fails |
| AuthService.Register | server/server.js:133-174 | 201 exactly when the input validates and neither the e-mail nor the username is taken; the duplicate e-mail is reported first; only success stores a user, and accounts stay unique |
| AuthService.Login | server/server.js:184-217 | 200 exactly when both fields are given, the e-mail is known and the password matches; unknown e-mail and wrong password get the same 400 reply; the store never changes |
| AuthService.PasswordChangeErrors | server/server.js:228-240 | no error exactly when a current password is given and the new one has 6 characters |
| AuthService.ChangePassword | server/server.js:228-273 | 200 exactly when the input validates, the caller exists and the current password matches; 400/404/400 otherwise; success re-hashes only the caller's password |
| AuthService.Profile | server/server.js:285-303 | 200 with the caller's public data exactly when the caller exists, else 404 |
| AuthService.RegisteredProfile | server/server.js:285-303 | right after a registration, the new account's profile shows the username and e-mail it registered with and its creation time |
| AuthService.RegisteredTokenAuthenticates | server/server.js:168-174 | the token a registration returns, sent as a bearer header, admits the new user |
| TodoService.TodoErrors | server/server.js:127-130 | no error exactly when a given title is non-empty and a given priority is one of the three; each message appears exactly when its check fails |
| TodoService.NewTodo | server/server.js:399-402 | the new document carries the body's fields over the schema defaults, and the caller as owner whatever the body said |
| TodoService.CreateFillsDefaults | server/server.js:80-91 | a created todo holds the schema default in every field the body left out |
| TodoService.FindOwned | server/server.js:421 | finds the position of a todo with the id and the caller as owner exactly when one exists |
| TodoService.Create | server/server.js:389-415 | 201 exactly when the body validates and has a title; the new todo carries every field of the body, belongs to the caller whatever the body says, and holds the schema defaults elsewhere; it is appended with a `created` broadcast; otherwise 400 with the validator messages or Mongoose's missing-title message, and nothing changes; ids stay unique |
| TodoService.Update | server/server.js:417-452 | 404 for a todo not found for the caller; 200 exactly when found and valid, replacing it in place with the body spread over it and `updatedAt` set, and broadcasting it; a found todo with an invalid body gets 400 with Mongoose's validation message and nothing changes |
| TodoService.UpdateErrors | server/server.js:81-84 | the update validators fail exactly on an empty title and on a priority outside the enumeration, each reported with its path and Mongoose's message for it |
| TodoService.EmptyTitleMessage | server/server.js:433-449 | an update that only empties the title is refused with ``Validation failed: title: Path `title` is required.`` |
| TodoService.UpdateCanReassignOwner | server/server.js:430-439 | in any store, an update of the caller's todo whose body names another owner succeeds and hands the todo, under its identifier, to that owner; with distinct identifiers the caller can no longer reach it |
| TodoService.Delete | server/server.js:454-469 | 404 for a todo not found for the caller; otherwise exactly that todo is removed, its id broadcast, and no todo with the id remains |
| TodoQueries.List | server/server.js:314-334 | the reply holds the matching todos, each as often as stored, sorted by the requested order; the store is unchanged |
| TodoQueries.ListSelectsExactly | server/server.js:319-329 | a todo is listed exactly when it is stored and matches the filter; no other user's todo is ever listed |
| TodoQueries.ListNarrows | server/server.js:321-329 | every query parameter only narrows the list |
| TodoQueries.ListWithoutQuery | server/server.js:317-319 | without parameters, the list is all the caller's todos, newest first |
| TodoQueries.Categories | server/server.js:366-375 | the distinct categories present, without repetition |
| TodoQueries.Groups | server/server.js:366-375 | one group per category present, counting its todos (at least one) and its completed todos (at most the count) |
| TodoQueries.GroupsPartition | server/server.js:366-375 | the category counts add up to the number of todos |
| TodoQueries.Stats | server/server.js:343-380 | the overall counts and the category groups of the caller's todos, all zeros for a caller without todos; the groups add up to the total |
| TodoQueries.StatsTotalIsListLength | server/server.js:345-350 | the statistics total equals the length of the unfiltered list |
| FilterBar.Change | client/src/components/Todos/FilterBar.js:5-10 | a change sets its key and keeps every other key |
| FilterBar.Cleared | client/src/components/Todos/FilterBar.js:12-21 | cleared filters narrow nothing and sort newest first |
| FilterBar.HasActiveFilters | client/src/components/Todos/FilterBar.js:23 | active exactly when some narrowing key is non-empty |
| FilterBar.SortChangeKeepsActivity | client/src/components/Todos/FilterBar.js:23 | changing the sort never changes whether filters are active |
| FilterBar.NarrowingChangeActivates | client/src/components/Todos/FilterBar.js:5-23 | a non-empty narrowing value activates the filters; emptying it again restores the previous activity |
| TodoList.ReplaceById | client/src/components/Todos/TodoList.js:59-62 | every element with the id becomes the new todo, every other element stays in place |
| TodoList.RemoveById | client/src/components/Todos/TodoList.js:63-64 | keeps exactly the elements with another id |
| TodoList.ReplaceTwice | client/src/components/Todos/TodoList.js:59-62 | replacing twice under one id keeps only the second replacement |
| TodoList.RemoveIdempotent | client/src/components/Todos/TodoList.js:63-64 | removing twice is removing once |
| TodoList.RemoveKeepsOrder | client/src/components/Todos/TodoList.js:63-64 | removal keeps the relative order of the rest |
| TodoList.RemoveAbsent | client/src/components/Todos/TodoList.js:63-64 | removing an id that is not listed changes nothing |
| TodoList.Apply | client/src/components/Todos/TodoList.js:55-66 | `created` prepends even when the id is listed, `updated` replaces exactly the elements with its id in place, `deleted` keeps exactly the elements with another id, anything else is ignored |
| TodoList.CreateThenDelete | client/src/components/Todos/TodoList.js:57-64 | a create followed by a delete of the same id leaves the list with that id removed |
| TodoList.EchoedDeleteIsHarmless | client/src/components/Todos/TodoList.js:68-72 | the broadcast following the page's own delete changes nothing further |
| TodoList.ServerEventsRecognised | client/src/components/Todos/TodoList.js:55-66 | each successful create, update and delete broadcasts exactly one event; on any page it puts the created todo first, replaces the copies of the updated todo by the server's, or removes the deleted one |
| TodoList.DeleteTodo | client/src/components/Todos/TodoList.js:68-80 | nothing happens unless confirmed; success removes the id; a failure keeps the list and goes to login only on 401 |
| TodoList.ToggleBody | client/src/components/Todos/TodoList.js:86-88 | the toggle body carries the negated flag and nothing else |
| TodoList.ToggleAlert | client/src/components/Todos/TodoList.js:108-115 | a failed toggle alerts the session expiry on 401, else the server's message, else the connection hint |
| TodoList.ToggleSettled | client/src/components/Todos/TodoList.js:82-117 | the server's copy replaces the toggled todo; a failure keeps the list and alerts |
| TodoList.ToggleRoundTrip | client/src/components/Todos/TodoList.js:92-99 | toggling an owned todo succeeds and the page shows it completed the other way round |
| TodoList.Fetched | client/src/components/Todos/TodoList.js:35-53 | a reply replaces the list; a failure keeps it and goes to login exactly on 401 |
| TodoList.InvalidTokenKeepsPage | client/src/components/Todos/TodoList.js:46-50 | a rejected token sends the page to login only when no token was sent (401), not for an invalid one (403) |
| TodoList.Shown | client/src/components/Todos/TodoList.js:37-40 | the keys kept are exactly the given keys whose filter is non-empty |
| TodoList.ShownInOrder | client/src/components/Todos/TodoList.js:37-40 | the kept keys stay in the filter object's declaration order |
| TodoList.PairsOfKeys | client/src/components/Todos/TodoList.js:37-40 | the pairs of keys with non-empty filters have no empty value and distinct names; every key has its pair, and a name always comes with its own filter's value |
| TodoList.Params | client/src/components/Todos/TodoList.js:37-40 | the query string holds a filter's pair exactly when its value is non-empty, with distinct names; pair by pair it is the name and value of the non-empty filters, in declaration order |
| TodoList.Lookup | server/server.js:317 | a parameter read from the query string is one of its pairs, or absent when no pair has that name |
| TodoList.LookupOfParams | client/src/components/Todos/TodoList.js:37-42 | the server reads each filter back under its own name, absent when it was empty |
| TodoList.ServerSeesFilters | client/src/components/Todos/TodoList.js:37-42 | the server's query is exactly the page's non-empty filters |
| TodoList.PageFilterMeaning | server/server.js:319-329 | a todo matches the page's query exactly when it is the caller's and agrees with every non-empty filter |
| TodoList.SameSelectionSameList | server/server.js:319-333 | two queries that select and sort alike list the same todos |
| TodoList.ClearedQuery | client/src/components/Todos/FilterBar.js:12-21 | cleared filters send only the default sort |
| TodoList.DefaultSortListsEverything | server/server.js:317 | the default sort spelled out lists what no query lists |
| TodoList.ClearedFiltersListEverything | client/src/components/Todos/FilterBar.js:12-21 | with cleared filters the page receives every todo of the caller, as with no query |
| TodoItem.IsOverdue | client/src/components/Todos/TodoItem.js:16-19 | overdue exactly when the server's statistics count the todo overdue; never without a due date or once completed |
| TodoItem.OverdueStays | client/src/components/Todos/TodoItem.js:16-19 | once overdue, a todo stays overdue as time passes |
| TodoItem.ToggleArguments | client/src/components/Todos/TodoItem.js:21-24 | the row passes its id and current flag, so the page asks to store the opposite flag |
| AuthContext.SetAuthToken | client/src/contexts/AuthContext.js:37-45 | a non-empty token is installed as bearer header and stored; otherwise both are removed |
| AuthContext.HeaderCarriesToken | client/src/contexts/AuthContext.js:39 | the installed header is read back by the server as the token |
| AuthContext.Item | client/src/contexts/AuthContext.js:63-64 | a stored item is present exactly when stored and non-empty |
| AuthContext.InitAuth | client/src/contexts/AuthContext.js:52-74 | the session is restored exactly when a token and a user are stored; a user that does not parse leaves the page loading |
| AuthContext.Classify | client/src/contexts/AuthContext.js:109-133 | a refused connection, a server reply, a request without answer and anything else each give their message, in that order |
| AuthContext.SignIn | client/src/contexts/AuthContext.js:76-134 | success exactly when the server is reachable and replies with a sign-in; only success changes the user, token and cached user |
| AuthContext.Login | client/src/contexts/AuthContext.js:76-134 | a failed login leaves the session as it was and reports the classified error |
| AuthContext.Register | client/src/contexts/AuthContext.js:136-205 | a failed registration leaves the session; a validation rejection is reported as its messages joined with `", "` |
| AuthContext.Logout | client/src/contexts/AuthContext.js:207-211 | no user, no header, neither key stored, every other stored item kept |
| AuthContext.ReloadRestoresSession | client/src/contexts/AuthContext.js:63-69 | after a login, a reload restores the same user and header from storage alone |
| AuthContext.SignedInSessionAuthenticates | client/src/contexts/AuthContext.js:90-102 | a login the server accepts leaves a session whose header the token gate admits as that user |
| AuthContext.DuplicateEmailReported | client/src/contexts/AuthContext.js:178-192 | a registration refused for a duplicate e-mail resolves to the server's message |
| RegisterForm.EmailMatches | client/src/components/Auth/Register.js:50 | the executable test holds exactly when the address matches `/^[^\s@]+@[^\s@]+\.[^\s@]+$/` |
| RegisterForm.UsernameError | client/src/components/Auth/Register.js:38-45 | no error exactly for a word of 3 or more letters, digits and underscores; blank input is "required", short input "too short" |
| RegisterForm.EmailError | client/src/components/Auth/Register.js:47-52 | no error exactly when the address matches the pattern; blank input is "required" |
| RegisterForm.PasswordError | client/src/components/Auth/Register.js:54-59 | no error exactly for 6 or more characters; empty input is "required" |
| RegisterForm.ConfirmError | client/src/components/Auth/Register.js:61-66 | no error exactly when the confirmation is given and equal to the password |
| RegisterForm.Validate | client/src/components/Auth/Register.js:35-70 | each field holds an error exactly when its check fails, with that check's message; there is never a general error |
| RegisterForm.ValidExactlyWhenAcceptable | client/src/components/Auth/Register.js:35-70 | the form is valid exactly when the username is a 3-character word, the e-mail matches the pattern and the password has 6 characters and is confirmed |
| RegisterForm.AcceptedFormPassesServerLengths | client/src/components/Auth/Register.js:38-59 | a form valid on the page passes the server's length checks; only the server's e-mail test can still refuse it |
| RegisterForm.HandleChange | client/src/components/Auth/Register.js:19-33 | typing sets its field and blanks that field's shown error, keeping everything else |
| RegisterForm.Submit | client/src/components/Auth/Register.js:72-82 | a registration is sent exactly when the form is acceptable, with its three fields; otherwise the errors are shown |
| RegisterForm.ServerErrors | client/src/components/Auth/Register.js:87-96 | a duplicate e-mail goes to the e-mail field, else a duplicate username to the username field, else the message is the general error |
| RegisterForm.Settled | client/src/components/Auth/Register.js:84-98 | the page navigates home exactly on success, otherwise shows the mapped errors |
| RegisterForm.DuplicateEmailShownOnField | client/src/components/Auth/Register.js:88-89 | a duplicate e-mail refused by the server ends up as the e-mail field's error |
| TodoForm.KeepTags | client/src/components/Todos/TodoForm.js:70 | the kept tags are trimmed and non-empty |
| TodoForm.ParseTags | client/src/components/Todos/TodoForm.js:68-71 | every parsed tag is non-empty, trimmed and free of commas |
| TodoForm.ParseTagsAppend | client/src/components/Todos/TodoForm.js:70 | the tags on either side of a comma come in text order |
| TodoForm.NoTagsExactlyWhenBlank | client/src/components/Todos/TodoForm.js:70 | no tag is parsed exactly when the text holds only commas and whitespace |
| TodoForm.LeadingSpaceIgnored | client/src/components/Todos/TodoForm.js:70 | leading whitespace does not change the tags |
| TodoForm.TagsRoundTrip | client/src/components/Todos/TodoForm.js:41-70 | well-formed tags shown joined with `", "` parse back to the same tags in order |
| TodoForm.ReparseIsStable | client/src/components/Todos/TodoForm.js:41-70 | tags the form produced survive being shown and saved again |
| TodoForm.LoadForm | client/src/components/Todos/TodoForm.js:35-43 | the form shows the todo's fields, with defaults for an empty category or priority and the due date's UTC day; its tags text parses back to well-formed stored tags |
| TodoForm.StartOfDay | client/src/components/Todos/TodoForm.js:40 | the day the date input shows for a date starts at a UTC midnight at or before that date, less than a day earlier |
| TodoForm.DayOfKeeps | client/src/components/Todos/TodoForm.js:40 | the date input keeps a due date exactly when it is a UTC midnight |
| TodoForm.FindById | client/src/components/Todos/TodoForm.js:33 | finds a todo with the id exactly when one is in the list |
| TodoForm.FetchSettled | client/src/components/Todos/TodoForm.js:30-52 | the todo with the route id fills the form; none leaves the page; a failure or a non-list reply shows the load error, and 401 goes to login |
| TodoForm.EditLoadsOwnTodo | client/src/components/Todos/TodoForm.js:30-44 | opening one of the caller's todos fills the form with that very todo |
| TodoForm.Body | client/src/components/Todos/TodoForm.js:68-71 | the body carries every form field as is, except the tags, which are parsed |
| TodoForm.OnlyTagsTransformed | client/src/components/Todos/TodoForm.js:68-71 | the tags text influences nothing in the body but the tags |
| TodoForm.SaveRequest | client/src/components/Todos/TodoForm.js:73-77 | a PUT to the routed todo exactly when editing, else a POST to the collection, with the form's body |
| TodoForm.HandleSubmit | client/src/components/Todos/TodoForm.js:62-89 | success goes to the list; a failure shows the server's message or the fallback, and 401 goes to login; loading always ends |
| TodoForm.InitialFormMatchesSchemaDefaults | client/src/components/Todos/TodoForm.js:7-15 | creating from the initial form with only a title stores the same todo as a body carrying just the title |
| TodoForm.EmptyTitleNotCreated | client/src/components/Todos/TodoForm.js:80-85 | an empty title is refused with 400, nothing is stored, and the page shows the fallback message |
| TodoForm.EmptyTitleNotUpdated | client/src/components/Todos/TodoForm.js:73-74 | an edit that empties the title is not saved |
| TodoForm.ResubmitKeepsTodo | client/src/components/Todos/TodoForm.js:35-43 | saving a loaded todo untouched keeps the title, description, category, priority, completion, tags and owner; the due date becomes its UTC day's midnight, so it is kept exactly when it already was one |
| PasswordForm.ProfileSettled | client/src/components/User/Profile.js:25-33 | a profile reply is shown; a failure shows the load error |
| PasswordForm.Edit | client/src/components/User/Profile.js:35-41 | typing sets its field and keeps the others |
| PasswordForm.Check | client/src/components/User/Profile.js:48-59 | sent exactly when the new passwords agree and have 6 characters; a mismatch is reported before a short password |
| PasswordForm.HandlePasswordSubmit | client/src/components/User/Profile.js:43-80 | only the current and new password are sent; success empties the form; a failure shows the server's message or the fallback; loading always ends |
| PasswordForm.MismatchTakesPrecedence | client/src/components/User/Profile.js:49-53 | mismatching new passwords are never sent, even when also too short |
| PasswordForm.SentRequestPassesServerLength | client/src/components/User/Profile.js:55-65 | a request the page sends always passes the server's new-password length check |
| PasswordForm.ServerAnswerShown | client/src/components/User/Profile.js:67-76 | a change the server accepts empties the form and confirms; a wrong current password is shown in the server's words |

## Left out

- **Database and server errors.** Failures of the database and the server's 500 replies are not modelled. Neither are MongoDB's ObjectId cast errors for malformed identifiers. Every handler's store is a sequence, and every lookup succeeds or finds nothing.
- **Regular-expression search.** The list route's search text is a regular expression. It is modelled as a literal, case-insensitive on ASCII letters. That is exact only for ASCII text without metacharacters: MongoDB's `i` option also folds letters outside ASCII.
- **Array sort keys.** Sorting by `tags` (an array) or by an unknown field orders nothing in the model. MongoDB's comparison of arrays is not modelled.
- **Foreign functions.** JWT signing and verification (with expiry), bcrypt hashing and comparison, express-validator's `isEmail`, and `JSON.stringify`/`parse` are uninterpreted parameters.
- **Outside inputs.** The clock, the fresh `_id` and the hash of a new password are inputs to each request.
- **Socket.io delivery.** Delivery, connection handling and the timing of messages are not modelled. Broadcasts are recorded in the store, and the reducer is applied to them in order.
- **Client HTTP plumbing.** axios configuration, the `/api/health` check and `ServerStatus` polling are reduced to the outcome a call settles with. The health check's outcome is a boolean parameter.
- **Dates.** Dates are integer milliseconds. The date input's `YYYY-MM-DD` text is not modelled as text. The form holds the UTC midnight that text names: what `toISOString().split('T')[0]` shows for a stored date, and what the server reads the text back as. Dates outside the range where `toISOString` works (it throws there) are not modelled.
- **String length.** Lengths count code points, while JavaScript's `length` counts UTF-16 code units. They differ only outside the Basic Multilingual Plane.
- **HTML form constraints.** HTML attributes such as `required` and `minLength` are not modelled. Neither are rendering, loading spinners, navigation timing, `window.confirm` (a boolean parameter) or console logging.
- **Other pages.** The dashboard, statistics page, navigation and footer components are not part of this model.
- TodoForm.LoadForm: a stored todo always has a description and a completion flag (the schema's defaults), so the `|| ''` and `|| false` fallbacks of the form are the identity and only the empty-category and empty-priority fallbacks are stated.
- TodoService.Create: a body carrying `_id` is not modelled, since the model's bodies have no identifier field. Mongoose would take it as the new todo's identifier, and a duplicate or malformed one ends in a 400. A different `_id` in an update body is refused by MongoDB as a change of an immutable field.
- TodoService.UpdateErrors: when both the title and the priority fail, the order of the two messages follows the order in which Mongoose's validators finish; the model lists the title's first.
- TodoQueries.List: MongoDB returns todos with equal sort keys in no specified order. The model keeps their stored order (a stable insertion sort). So TodoList.SameSelectionSameList and TodoList.ClearedFiltersListEverything equate lists under that one order of ties.
- TodoQueries.Groups: the order of the groups the `$group` stage returns is unspecified in MongoDB, and the model fixes first-appearance order.
