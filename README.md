# Domain expiry monitor — a Dafny model

The application is a small Next.js "domain monitor". The user signs in against
credentials kept in the browser's `localStorage`. They keep a list of domain names with
expiration dates. The home page searches, sorts and colours that list by how soon each
domain expires. A server-side store keeps the same records in a JSON file behind a
handful of server actions.

This project models the logic underneath the markup:

- **`DomainList`** (`domain_list.dfy`): the home page's list logic.
  - The normaliser that reads persisted records back, and the serialisation the
    persistence effect writes.
  - The add, edit and delete list updates.
  - The case-insensitive search filter.
  - The four-key comparator, and the stable sort that uses it.
- **`HomePage`** (`home_page.dfy`): the page's state as a class.
  - The session gate run on mount.
  - The load and persist effects over `localStorage`.
  - The handlers for add, edit, delete, logout and password change.
- **`DomainCard`** (`domain_card.dfy`): the card's expiration status. It is the
  if-chain from whole days until expiry to six buckets, with their texts, colours and
  icons.
- **`DataStorage`** (`data_storage.dfy`): the file-backed record store, as a class over
  an abstract document file.
- **`Actions`** (`actions.dfy`): the server actions and their record mapping, including
  the `dateAdded` fallback chain.
- **`DomainForm`** (`domain_form.dfy`): the add/edit dialog's rules.
  - The name and expiration schema.
  - The calendar's disabled days.
  - The digit mask of the date field, and the rule that turns the field's text into a
    date.
  - The submit rule.
- **`SettingsDialog`** (`settings_dialog.dfy`): the password form.
  - Its schema and its watch callback.
  - The submit and reset handlers, which call `HomePage.HandlePasswordChange`.
- **`LoginPage`** (`login_page.dfy`): the login state machine and the clean-up it runs
  on mount.
- Shared modules:
  - `Wrappers`: `Option`.
  - `Text`: ASCII lower-casing, `includes`, `substring`, decimal text.
  - `Clock`: local days and midnights at a fixed zone offset.
  - `Domains`: the `DomainInfo` record.
  - `Seqs`: `filter` and its laws.
  - `BrowserStorage`: `localStorage` and what `JSON.parse` yields for its keys.

## Conventions

- **Dates.**
  - An instant is an integer number of milliseconds. A `Date` is `Option<int>`, with
    `None` for an Invalid Date.
  - The "local day" of an instant is `(t + offset) / 86400000`, for a fixed zone offset
    `offset`.
  - `setHours(0,0,0,0)` is `Clock.StartOfDay`. date-fns `differenceInDays` is the
    millisecond difference divided by a day, truncated toward zero.
- **Parameters standing in for the outside world.** These reach the model as
  parameters:
  - the clock (`now`, ISO texts of now);
  - id generation (`uuid`);
  - `new Date(text)` (`parseDate`);
  - `Date#toISOString` (`toIso`);
  - the WHATWG URL parser's hostname (`hostnameOf`);
  - date-fns `parse`/`isValid` (`parseDate`).
- **`localStorage`.** It is the class `BrowserStorage.LocalStorage`, with one field per
  key the core uses. A stored JSON text is `Blank` (the empty, falsy string),
  `Unparsable`, or `Parsed(value)`.
- **Store records.** A record of the file store is a map from property names to string
  values. A JavaScript object spread is Dafny's right-biased map union.

## Notes on the code's behaviour

- **Validation.** Only the add/edit dialog checks the name and the date
  (`DomainForm`). `Actions` and `DataStorage` store whatever they are given.
- **Update of an unknown id.** `updateDomain` in the store and in the actions returns
  null rather than failing; this is `None` in the model.
- **Unique ids.** Ids come from `crypto.randomUUID()` on the page and from
  `Date.now()` in the store, and nothing checks that they are unique.
- **Where the list lives.** The home page keeps its list in `localStorage`, and no page
  calls the server actions. Both paths are modelled.
- **Counting days.** `differenceInDays` truncates toward zero rather than flooring.
  The card only applies it between two midnights, where the difference is a whole
  number of days, so both roundings agree (`Clock.DifferenceOfMidnights`).

## Model

| member | source | states |
|---|---|---|
| DomainList.NormaliseDate | src/app/page.tsx:89-103 | a stored date that is null, undefined, "" or that `new Date` cannot parse becomes the invalid marker; any other value keeps its parsed instant |
| DomainList.OrDefault | src/app/page.tsx:107-108 | `field || default`: a non-empty string is kept, an absent or empty one is replaced |
| DomainList.Normalise | src/app/page.tsx:105-111 | a falsy id gets the fresh id, a falsy name becomes "Unnamed Domain", and both dates are normalised |
| DomainList.NormaliseAll | src/app/page.tsx:88-112 | the loaded list has one record per stored element, in order, each normalised |
| DomainList.SerialiseDate | src/app/page.tsx:124 | a valid date is written as text that reads back as the same instant; an Invalid Date is written as `null` and reads back as invalid |
| DomainList.Serialise | src/app/page.tsx:124 | a record is written with its id and name; with both non-empty it reads back as itself |
| DomainList.SerialiseAll | src/app/page.tsx:124 | the persisted array has one element per record, in order |
| DomainList.PersistRoundTrip | src/app/page.tsx:88-124 | writing the list and reading it back yields the same list when no id or name is empty |
| DomainList.NewDomain | src/app/page.tsx:154-159 | the added record has the fresh id, the form's name and expiration, and dateAdded = now |
| DomainList.Edited | src/app/page.tsx:173 | an edited record keeps the id and dateAdded of the record being edited, and takes the new name and expiration |
| DomainList.ReplaceById | src/app/page.tsx:172-174 | edit keeps the length and every id, replaces exactly the entries whose id is the edited id, and leaves every other entry unchanged |
| DomainList.RemoveById | src/app/page.tsx:188 | delete keeps only records of the input, none of them with the id, and never more records |
| DomainList.RemoveByIdExact | src/app/page.tsx:188 | delete leaves no entry with the id, keeps every other record as often as it occurred, and distributes over concatenation (order kept) |
| DomainList.MatchesSearch | src/app/page.tsx:245 | a domain matches exactly when its lower-cased name contains the lower-cased term; every domain matches the empty term |
| DomainList.SearchFilterExact | src/app/page.tsx:244-245 | the search keeps a domain, as often as it occurs, exactly when its lower-cased name contains the lower-cased term; it keeps the relative order |
| DomainList.EmptySearchKeepsAll | src/app/page.tsx:245 | an empty search term keeps the whole list unchanged |
| DomainList.ValidExpirationFirst | src/app/page.tsx:250-260 | a valid expiration sorts before an invalid one, whatever the other fields |
| DomainList.EarlierExpirationFirst | src/app/page.tsx:253-255 | of two different valid expirations the earlier sorts first |
| DomainList.DateAddedBreaksTies | src/app/page.tsx:262-274 | on equal or both-invalid expirations a valid dateAdded sorts first, and among valid ones the newer sorts first |
| DomainList.Compare | src/app/page.tsx:246-276 | the comparator returns 0 exactly when both the expiration and the dateAdded tie; on tied expirations and two valid dateAdded values it is negative exactly when the first was added later |
| DomainList.CompareAntisymmetric | src/app/page.tsx:246-276 | the comparator's sign flips when its arguments are swapped |
| DomainList.CompareTransitive | src/app/page.tsx:246-276 | "compares at most 0" is transitive, so the comparator is a total preorder |
| DomainList.Insert | src/app/page.tsx:246 | one insertion step adds one element and puts either the new record or the old head first |
| DomainList.InsertPermutes | src/app/page.tsx:246 | one insertion step adds exactly the inserted record |
| DomainList.InsertSorted | src/app/page.tsx:246 | one insertion step keeps a sorted list sorted |
| DomainList.InsertTies | src/app/page.tsx:246 | one insertion step puts the new record before every record it ties with |
| DomainList.SortDomains | src/app/page.tsx:246-276 | sorting keeps the number of records |
| DomainList.SortDomainsPermutes | src/app/page.tsx:246-276 | sorting yields a permutation of its input |
| DomainList.SortDomainsSorted | src/app/page.tsx:246-276 | sorting yields a list ordered by the comparator |
| DomainList.SortIsStable | src/app/page.tsx:246-276 | records the comparator cannot tell apart keep their original order |
| DomainList.SortIsStableForAll | src/app/page.tsx:246-276 | stability holds for every tie class at once |
| DomainList.FilteredAndSorted | src/app/page.tsx:244-276 | the displayed list is a permutation of the matching domains, ordered by the comparator, with ties in their original order |
| DomainList.ValidExpirationsShownFirst | src/app/page.tsx:250-260 | in the displayed list every domain with a valid expiration comes before every domain without one |
| HomePage.SessionGate | src/app/page.tsx:38-68 | the user is signed in exactly when the session flag is "true" and the stored credentials parse with a truthy username and a non-empty string password; corrupt credentials clear both keys; an active flag without credentials loses the flag; nothing else changes the store |
| HomePage.GateAfterLogout | src/app/page.tsx:143-146 | after logout the gate turns the user away and the stored credentials are untouched |
| HomePage.FindById | src/app/page.tsx:187 | `find` returns the first record with the id, or nothing exactly when no record has it |
| HomePage.HomePage.CheckSession | src/app/page.tsx:36-69 | the store and the user become what `SessionGate` says, the page redirects exactly when no user is signed in, and loading ends |
| HomePage.HomePage.LoadStoredDomains | src/app/page.tsx:83-119 | nothing happens while auth loads or when nothing is stored; a parsed array replaces the list by its normalisation; an unparsable one is removed from the store |
| HomePage.HomePage.PersistDomains | src/app/page.tsx:121-126 | once auth has loaded, the list is written when it is non-empty or something is already stored, and otherwise the store is left alone |
| HomePage.HomePage.Logout | src/app/page.tsx:143-150 | the session flag becomes "false", the user is cleared, and the credentials and domains stay |
| HomePage.HomePage.AddDomain | src/app/page.tsx:152-167 | exactly one record is appended at the end, with the fresh id and dateAdded = now, and the dialog closes |
| HomePage.HomePage.OpenAddDialog | src/app/page.tsx:199-202 | the dialog opens with no record being edited |
| HomePage.HomePage.OpenEditDialog | src/app/page.tsx:204-207 | the dialog opens on the given record |
| HomePage.HomePage.EditDomain | src/app/page.tsx:169-183 | without a record being edited nothing changes; otherwise the list becomes `ReplaceById`, and the dialog closes and forgets the record |
| HomePage.HomePage.DeleteDomain | src/app/page.tsx:185-197 | the list becomes `RemoveById`; a toast names the first record with the id exactly when one existed |
| HomePage.HomePage.HandlePasswordChange | src/app/page.tsx:209-231 | returns true exactly when a user is signed in; then the credentials are stored with the same username and the new password; otherwise nothing changes |
| HomePage.HomePage.Visible | src/app/page.tsx:244-276 | the page's list for a search term is sorted, is a permutation of the matches, and keeps ties in order |
| DomainCard.ExpiredIffBeforeToday | src/components/domain-card.tsx:42-45 | `isPast && !isToday` on the expiration's midnight holds exactly when the expiration day is before today |
| DomainCard.Status | src/components/domain-card.tsx:36-75 | an invalid expiration gives "日期无效", destructive and 0 days; a valid one gives the whole-day difference of local days and its bucket, with destructive for expired/today/1-6 days, warning for 7-29 and success for 30+, and the icon of the bucket; the texts are "N 天前已过期" with abs(N), "今天到期" and "剩余 N 天到期" |
| DomainCard.BucketOfDays | src/components/domain-card.tsx:56-71 | a valid date never gets the invalid bucket; it is expired exactly when the day count is negative and due today exactly when it is 0 |
| DomainCard.IconFollowsColor | src/components/domain-card.tsx:51-71 | the warning triangle goes with exactly the destructive statuses, the clock with the warning and the check mark with success |
| DomainCard.BucketRanges | src/components/domain-card.tsx:51-71 | for valid dates the buckets are exactly the ranges below 0, 0, 1-6, 7-29 and 30 or more, so they are exclusive and exhaustive |
| DomainCard.SeverityMonotone | src/components/domain-card.tsx:51-71 | the severity of the bucket never increases as the number of days grows |
| DomainCard.StatusIsDayGranular | src/components/domain-card.tsx:36-44 | instants on the same local days give the same status |
| Clock.LocalDay | src/components/domain-card.tsx:37 | the local day number is the one whose 86400000-ms span, shifted by the zone offset, contains the instant |
| Clock.DifferenceInDays | src/components/domain-card.tsx:44 | `differenceInDays` is the number of whole days in the distance between the instants, with the sign of the difference (truncation toward zero) |
| Clock.StartOfDay | src/components/domain-card.tsx:37 | `setHours(0,0,0,0)`: the local midnight at or before the instant, on the same local day |
| Clock.DifferenceOfMidnights | src/components/domain-card.tsx:44 | `differenceInDays` between two midnights is the difference of their local day numbers |
| Clock.AtOrAfterStartOfDay | src/components/add-edit-domain-dialog.tsx:55-57 | an instant is at or after today's midnight exactly when its local day is not before today |
| DataStorage.Ensured | src/lib/data-storage.ts:10-18 | `ensureDataDir` turns an absent file into an empty document and leaves any other file alone, so what a load sees does not change |
| DataStorage.Contents | src/lib/data-storage.ts:28-36 | a load yields `[]` for an unreadable or unparsable file and for a document without `domains` |
| DataStorage.FirstIndex | src/lib/data-storage.ts:55 | `findIndex` gives the first index of a record with the id, or -1 exactly when there is none |
| DataStorage.FindIndex | src/lib/data-storage.ts:55 | the search loop finds `FirstIndex` |
| DataStorage.NewRecord | src/lib/data-storage.ts:42-46 | the new record has every given property plus `id` and `createdAt`; `createdAt` is now; the id is `Date.now()` as text unless the input supplies one |
| DataStorage.Merge | src/lib/data-storage.ts:57-61 | the merged record takes the given fields, keeps its other fields, and gets `updatedAt` |
| DataStorage.FileStore.EnsureDataDir | src/lib/data-storage.ts:10-18 | afterwards the directory exists and the file is `Ensured` |
| DataStorage.FileStore.SaveDomains | src/lib/data-storage.ts:21-25 | the document afterwards holds exactly the given array, a later load yields it, and the array is returned |
| DataStorage.FileStore.LoadDomains | src/lib/data-storage.ts:28-37 | returns the document's array, or `[]` when there is none to read |
| DataStorage.FileStore.AddDomain | src/lib/data-storage.ts:40-50 | the document holds the old array with exactly one `NewRecord` appended, and that record is returned |
| DataStorage.FileStore.UpdateDomain | src/lib/data-storage.ts:53-66 | with a record having the id, the first one is replaced by its merge, the array is written and the merge is returned; with none, null is returned and the document is left as `ensureDataDir` left it (an absent file has become an empty document) |
| DataStorage.FileStore.DeleteDomain | src/lib/data-storage.ts:69-74 | the document holds the records without the id, in order; it is always written, and the id is returned |
| DataStorage.UpdateTouchesOnlyFirstMatch | src/lib/data-storage.ts:55-61 | an update keeps the length and changes no record other than the first match |
| DataStorage.DeleteKeepsExactlyOthers | src/lib/data-storage.ts:71 | deletion leaves no record with the id, keeps every other record as often as it occurred, and keeps their order |
| Actions.AddPayload | src/lib/actions.ts:19-23 | the object handed to the store holds exactly name, ISO expiration and ISO `dateAdded` |
| Actions.UpdatePayload | src/lib/actions.ts:35-38 | the object handed to the store holds exactly name and ISO expiration, so no id, `dateAdded` or `createdAt` is overwritten |
| Actions.DateAddedOf | src/lib/actions.ts:13 | `dateAdded` is the stored `dateAdded` if present, else `createdAt`, else the fallback |
| Actions.ToInfo | src/lib/actions.ts:9-14 | a record maps to its id, name, parsed expiration and the fallback-chain `dateAdded` |
| Actions.ToInfos | src/lib/actions.ts:9-14 | the mapping keeps the count and order of the records |
| Actions.GetAllDomains | src/lib/actions.ts:7-15 | returns one mapped record per stored record, in order, with the clock as the last fallback |
| Actions.AddDomain | src/lib/actions.ts:18-31 | stores name, ISO expiration and `dateAdded`, and returns the mapping of the record the store created |
| Actions.UpdateDomain | src/lib/actions.ts:34-48 | returns null exactly when the store has no record with the id, and then leaves the document as `ensureDataDir` left it; otherwise the first record with the id becomes its merge with the new name and ISO expiration, and the mapping of that merged record is returned |
| Actions.DeleteDomain | src/lib/actions.ts:51-53 | returns the requested id unchanged, whether or not a record had it |
| Actions.AddedRecordReadsBack | src/lib/actions.ts:19-30 | the returned record carries the store-assigned id, the given name, the given expiration (when its ISO text parses back) and the stored `dateAdded` |
| Actions.UpdateKeepsIdentity | src/lib/actions.ts:35-47 | an update forwards only name and expiration, so the stored id, `dateAdded` and `createdAt` survive, and so do the returned id and `dateAdded` |
| Actions.DateAddedUsesClockOnlyAsLastResort | src/lib/actions.ts:13 | the clock decides `dateAdded` only for records with neither `dateAdded` nor `createdAt` |
| DomainForm.NameAccepted | src/components/add-edit-domain-dialog.tsx:39-50 | an empty name or one without "." is rejected; without "://" the name must be exactly the hostname parsed from "http://" + name; with it, the URL must parse |
| DomainForm.ExpirationAccepted | src/components/add-edit-domain-dialog.tsx:51-58 | a date is accepted exactly when it is valid and its local day is not before today |
| DomainForm.CalendarDisabled | src/components/add-edit-domain-dialog.tsx:307-311 | the calendar disables exactly the dates whose local day is before today |
| DomainForm.CalendarMatchesSchema | src/components/add-edit-domain-dialog.tsx:54-58 | the calendar disables exactly the valid dates the schema rejects |
| DomainForm.Digits | src/components/add-edit-domain-dialog.tsx:185 | stripping non-digits leaves only digits, and never more characters |
| DomainForm.KeptDigits | src/components/add-edit-domain-dialog.tsx:188-196 | the mask uses the first eight digits, in order |
| DomainForm.Layout | src/components/add-edit-domain-dialog.tsx:188-196 | up to four digits stay as they are; with more, a "-" follows the fourth digit and, past six, another follows the sixth; the groups are the digits in order |
| DomainForm.Mask | src/components/add-edit-domain-dialog.tsx:185-196 | the masked text has at most 10 characters and every character outside positions 4 and 7 is a digit |
| DomainForm.MaskShape | src/components/add-edit-domain-dialog.tsx:185-196 | the masked text has at most 10 characters; its digits are the first eight input digits in order; a "-" stands before the fifth and the seventh digit exactly when those digits exist; every other character is a digit |
| DomainForm.MaskIdempotent | src/components/add-edit-domain-dialog.tsx:185-196 | masking the mask's own output returns it unchanged |
| DomainForm.FieldValue | src/components/add-edit-domain-dialog.tsx:242-256 | the field holds a date only for a `\d{4}-\d{2}-\d{2}` text, and then holds what the parser makes of it |
| DomainForm.CompleteDateIffEightDigits | src/components/add-edit-domain-dialog.tsx:185-256 | the masked text is a complete date exactly when the input had at least eight digits; with fewer the field holds no date |
| DomainForm.OnDateInputChange | src/components/add-edit-domain-dialog.tsx:180-256 | the field handler shows the masked text and hands the form `FieldValue` of it |
| DomainForm.DefaultValues | src/components/add-edit-domain-dialog.tsx:100-117 | on opening, the form holds the edited record's name and expiration, or empty values when adding |
| DomainForm.SubmitDisabled | src/components/add-edit-domain-dialog.tsx:337 | the button is disabled while a save is pending, for a rejected name, and while the values are the opening defaults |
| DomainForm.SubmitRule | src/components/add-edit-domain-dialog.tsx:337 | submit is enabled exactly when nothing is pending, the name and date are accepted, and the values differ from the defaults (which always holds for a valid add) |
| SettingsDialog.SchemaIssues | src/components/settings-dialog.tsx:33-42 | reports an empty current password, a new password under 6 characters, an empty confirmation, and a differing confirmation (on `confirmPassword`); no issue exactly when all rules hold |
| SettingsDialog.Watch | src/components/settings-dialog.tsx:82-95 | the match hint is unset exactly when the confirmation is empty, and says "no match" exactly when a confirmation differs from the new password; the button is enabled exactly when the current and new passwords are filled and the confirmation equals the new password |
| SettingsDialog.WatchAgreesWithSchema | src/components/settings-dialog.tsx:82-95 | a schema-valid form enables the button and shows a match; an enabled button implies a match; a shown mismatch is a schema issue |
| SettingsDialog.ButtonEnabledForShortPassword | src/components/settings-dialog.tsx:84-95 | the button rule omits the length rule: for every filled form with a matching new password of 1 to 5 characters the button is enabled while the schema reports exactly the length issue |
| SettingsDialog.SettingsDialog.OnOpen | src/components/settings-dialog.tsx:101-108 | opening resets the form, the button and the match hint |
| SettingsDialog.SettingsDialog.OnFormChange | src/components/settings-dialog.tsx:82-96 | after an edit, the hint is unset for an empty confirmation and otherwise says whether the two match; the button is enabled exactly when all fields are filled and the two match |
| SettingsDialog.SettingsDialog.HandlePasswordSubmit | src/components/settings-dialog.tsx:134-162 | differing passwords and a wrong current password change nothing and never call the password change; otherwise the change is requested, and it succeeds exactly when a user is signed in; success stores the new password, resets the form and closes the dialog; failure does neither; pending ends false |
| SettingsDialog.SettingsDialog.HandleResetPassword | src/components/settings-dialog.tsx:164-181 | without confirmation nothing changes; with it the password "admin" is requested; success stores it and resets the form |
| LoginPage.MountCleanup | src/app/login/page.tsx:26-42 | unparsable credentials are removed together with the session flag; an active flag without truthy credentials is removed; otherwise both keys keep their values; domains are untouched |
| LoginPage.MountCleanupIdempotent | src/app/login/page.tsx:26-42 | running the clean-up twice leaves what running it once left |
| LoginPage.Login | src/app/login/page.tsx:49-91 | with no stored credentials only admin/admin succeeds, and it stores {admin, admin} and sets the flag; any other input leaves the store and sets the first-use error; with well-formed credentials exactly the stored pair succeeds; failure leaves the store; malformed or unparsable credentials remove both keys; the default pair is never written over existing credentials |
| LoginPage.LoginAfterPasswordChange | src/app/login/page.tsx:55-67 | after a password change has stored a new non-empty password, that password logs in and a different old one does not |
| LoginPage.DefaultPairNoLongerWorks | src/app/login/page.tsx:55-67 | once well-formed credentials with another password are stored, admin/admin no longer logs in |
| LoginPage.LoginPage.OnMount | src/app/login/page.tsx:26-47 | the store becomes `MountCleanup` of itself and the input fields are emptied |
| LoginPage.LoginPage.HandleLogin | src/app/login/page.tsx:49-91 | the store, the error and the navigation become what `Login` says for the entered pair |
| Text.Includes | src/app/page.tsx:245 | `includes`: the empty string is in every string, a longer string is in no shorter one, and every character of a contained string occurs in the container |
| Text.IncludesChar | src/components/add-edit-domain-dialog.tsx:46 | `includes` of a one-character string is membership |
| Text.ToLower | src/app/page.tsx:245 | lower-casing keeps the length and folds each ASCII capital |
| Seqs.Filter | src/app/page.tsx:188 | `filter` keeps only elements of the input that pass the test, and never more |
| Seqs.FilterCount | src/app/page.tsx:188 | `filter` keeps every occurrence of a passing element and drops every failing one |
| Seqs.FilterConcat | src/app/page.tsx:188 | `filter` distributes over concatenation, so it keeps the relative order |

## Left out

- Markup, styling, dialogs' open/close animation, toasts and routing. Toasts and
  navigation appear only as returned outcomes (`redirectToLogin`, `navigated`,
  `toastName`, `SubmitOutcome`).
- The theme (`localStorage` key `theme`, `document.documentElement` classes,
  `handleThemeChange`): DOM work with no statable logic.
- The once-a-second Beijing clock (page.tsx:128-141): a timer over `toLocaleString`.
- The cursor-repositioning loops of the date field (add-edit-domain-dialog.tsx:200-239):
  caret placement with no stated contract.
- The calendar's `onSelect` (add-edit-domain-dialog.tsx:297-306) and `form.trigger`
  calls: they hand a date to the form and request validation, which is
  `ExpirationAccepted`.
- File-system I/O: the directory and file are abstract values, and every write
  succeeds. A `mkdirSync` or `writeFileSync` failure, which throws out of every store
  operation, is not modelled.
- The shape of stored store records: a `Rec` maps property names to strings only. Not
  represented are a `domains` property that is truthy but not an array, an element
  of `domains` that is not an object (on which `d.id` throws in `findIndex` and
  `filter`, data-storage.ts:55, 71), and a number-valued `id`, which `===` and `!==`
  never equate with its string form.
- JSON parsing and printing, `new URL`, date-fns `parse`/`format`, `new Date(text)`,
  `toISOString`, `crypto.randomUUID` and `Date.now`: foreign code, passed in as
  parameters. JSON is assumed to round-trip the values the app writes.
- Real calendars and time zones: a day is 86400000 ms at a fixed offset, so daylight
  saving changes are not modelled.
- Full Unicode `toLowerCase`: only ASCII letters are folded.
- String lengths: `min(1)`/`min(6)` count UTF-16 code units in the source and
  characters here.
- The React scheduling (`useEffect` ordering, `startTransition`, async server
  actions): each handler and effect is one atomic step.
- Whether `passwordForm.reset()` re-runs the watch callback: a react-hook-form detail.
  The submit and reset handlers leave the button and hint state as they were.
- How zod reports issues: `SchemaIssues` lists every failing rule. The model assumes
  the refinement runs even when a field rule has failed.
- A non-string `username` in the stored credentials is modelled only through its
  truthiness (`Prop`).
- DomainList.Normalise and DomainList.Serialise: `...domain` (page.tsx:106) carries any
  further properties of a stored record through the load and back out on the next
  persist; `RawDomain` holds only the four known fields, so such properties are dropped.
- Stored domain records whose `id` or `name` is a truthy non-string (a number, say) are
  not representable: `RawDomain` holds a string or `None` (falsy). The source keeps such
  a value (page.tsx:107-108), and the search's `toLowerCase` then throws on it
  (page.tsx:245); that crash is not modelled.
- Actions.AddDomain and Actions.UpdateDomain: the expiration is a valid instant
  (`int`), so the `RangeError` that `toISOString` throws on an Invalid Date
  (actions.ts:21, 37) is not modelled.
- Actions.ToInfo: an id or name property missing from a stored record is read as "",
  where the source yields `undefined`.
- DomainCard.Status: `expiration.setHours(0,0,0,0)` mutates the caller's `Date` in
  place. The model computes on a copy, so the aliasing side effect of moving the
  record's stored expiration to midnight is not captured.
- DomainList.SortDomains: `Array.prototype.sort` is modelled as one stable sort, an
  insertion sort. The model proves the result sorted, a permutation and stable; it does
  not prove that this determines the result uniquely.
- Id uniqueness: the source does not guarantee it, and neither does the model. Edits
  and deletes act on every record with the id.
