# study-react: a verified model of the accounts, notes and news application

study-react is a small React single-page application backed by an Express
server that keeps all of its data in one JSON document, `data.json`. A
visitor registers or logs in. A logged-in user edits a profile, keeps
personal notes in categories, and publishes news items that everyone can
browse, optionally filtered to their own and sorted by publish time.

This Dafny project models the logic of that application and proves what it
promises:

- `js.dfy` (module `Js`): the pieces of JavaScript's built-in library the code
  relies on. These are `trim` with ECMAScript's whitespace set, the blank test
  `!s || s.trim() === ''`, `length` counted in UTF-16 code units, `parseInt`
  without a radix, the decimal text of a number, and `Array.prototype.filter`.
- `entities.dfy` (module `Entities`): user records as string-valued JSON
  objects, notes, news items and the root document.
- `validation.dfy` (module `Validation`): the five field validators of
  `src/utils/validation.js`, with one lemma per validator giving each verdict
  as an if-and-only-if. The e-mail and name patterns are written out as
  character classes. Age is counted as the number of birthdays that have come.
- `server.dfy` (module `Server`): the REST handlers of `server.js` as the
  methods of a `DataStore` class. The class holds the content of `data.json`.
  Every handler reads the whole document. The handlers that change it write
  it back: adding a user, updating a user that exists, adding and deleting
  news, and saving notes. The GET handlers, and an update of an unknown user
  (answered 404), write nothing. Reading writes only when the file is missing
  or unreadable, and then it writes the empty document.
- `auth_context.dfy` (module `AuthContext`): the `AuthProvider` class, with
  the logged-in user and the remembered e-mail of the browser's storage.
- `forms.dfy` (module `Forms`): how every form's `validate()` collects the
  messages of its failing checks into an error object. Lemmas say which
  fields end up in that object and with which message.
- `login_form.dfy`, `register_form.dfy`, `profile_page.dfy`, `notes_page.dfy`
  and `news_page.dfy`: one module per page or component. Each has its pure
  functions (field checks, list filters, the stable sort of the news list) and
  a class whose fields are the component's React state cells and whose methods
  are its event handlers.

Each validator is a Dafny function, so it is deterministic in its arguments.
For the date rule, the current date is one of those arguments. The server
calls (`fetch` in the browser, then the Express handler) become direct calls
of `DataStore` methods.

`server.js` enforces no uniqueness of e-mails: `POST /api/users` appends
whatever it is given. The model follows the code. `Server.DataStore.CreateUser`
appends unconditionally. Uniqueness is proved only where a caller keeps it:
registration's duplicate pre-check (`RegisterForm.Register.HandleSubmit`) and
profile saves, which never send an e-mail (`ProfilePage.Profile.SendUpdate`).

## Model

| member | source | states |
|---|---|---|
| Js.Trim | src/utils/validation.js:2 | `trim()` never lengthens the text, and what it gives is empty or starts and ends with a character that is not whitespace |
| Js.TrimKeepsInnerStretch | src/utils/validation.js:2 | what `trim()` keeps is one unbroken stretch of the text, with only whitespace before it and after it |
| Js.TrimEmpty | src/utils/validation.js:2 | `trim()` leaves nothing exactly when every character is ECMAScript whitespace or a line terminator |
| Js.BlankIsAllSpace | src/utils/validation.js:2 | the blank guard (a falsy text, or one that trims to '') holds exactly when every character is whitespace, which includes the empty text |
| Js.Utf16Length | src/utils/validation.js:62 | `length` is at least the number of characters and at most twice it |
| Js.Utf16LengthOfBmpText | src/utils/validation.js:62 | `length` equals the number of characters when no character lies outside the Basic Multilingual Plane |
| Js.DigitPrefix | server.js:107 | the digits `parseInt` reads are a prefix of the text, all digits of the radix, and are followed by a non-digit or by the end |
| Js.ParseInt | server.js:107 | `parseInt` of text that is empty or all whitespace is NaN; text whose first non-space character is a digit 1-9 gives a non-negative number; a leading '-' gives NaN or a number that is not positive |
| Js.ParseMagnitude | server.js:107 | after the sign, the number read is never negative, and a leading digit 1-9 always gives a number |
| Js.DigitPrefixOfDigits | server.js:107 | on a text made only of digits, `parseInt` reads the whole text |
| Js.ParseIntOfDecimalDigits | server.js:107 | `parseInt` of a non-empty run of decimal digits is the number those digits denote |
| Js.DecimalString | server.js:107 | the `:id` path segment of a numeric id is a non-empty run of decimal digits |
| Js.DecimalStringValue | server.js:107 | the decimal digits of `n` denote `n` |
| Js.ParseIntDecimalString | server.js:107 | `parseInt` reads back exactly the number whose decimal text it is given |
| Js.Filter | src/pages/Notes/Notes.jsx:123 | `filter` keeps exactly the elements the test accepts, and never lengthens the list |
| Js.KeptPositions | src/pages/Notes/Notes.jsx:123 | the positions the test accepts, each exactly once, in increasing order |
| Js.FilterPicksKept | src/pages/Notes/Notes.jsx:123 | `filter` gives the elements at exactly the accepted positions, in their original order, one result per position |
| Js.FilterCounts | src/pages/Notes/Notes.jsx:123 | `filter` keeps every accepted element as many times as the list holds it, and no rejected element |
| Js.FilterAppend | src/pages/Notes/Notes.jsx:165 | filtering a concatenation is the concatenation of the filtered parts, in order |
| Js.FilterPrepend | src/pages/News/News.jsx:101 | when two lists filter to results that differ by a suffix, putting the same element in front of both keeps that difference |
| Js.FilterKeepsAll | server.js:107 | a filter that accepts every element returns the list unchanged |
| Js.FilterNarrower | src/pages/Notes/Notes.jsx:147 | filtering first by a wider test and then by a narrower one is the same as filtering by the narrower one alone |
| Validation.FirstIndexOfFinds | src/utils/validation.js:6-7 | the position found holds the character and no earlier position does; none is found only when no position holds it |
| Validation.LastIndexOfFinds | src/utils/validation.js:6-7 | the position found holds the character and no later position does; none is found only when no position holds it |
| Validation.EmailPartsAreDetermined | src/utils/validation.js:6-7 | in any split L '@' D '.' T that the e-mail pattern accepts, the '@' is the first one in the text and the dot is the last one |
| Validation.MatchesEmailPatternExactly | src/utils/validation.js:6-7 | the pattern test accepts exactly the texts that split as L '@' D '.' T: L over `[a-zA-Z0-9._-]`, D over `[a-zA-Z0-9.-]`, both non-empty, and T of two or more ASCII letters |
| Validation.ValidateEmail | src/utils/validation.js:1-12 | the result is '', 'Email is required' or 'Invalid email format'; an accepted e-mail has at least six characters, as in a@b.cd |
| Validation.AcceptedEmailHasAt | src/utils/validation.js:6-7 | every e-mail the rule accepts contains an '@' |
| Validation.ValidateEmailCases | src/utils/validation.js:1-12 | 'Email is required' exactly for blank text; '' exactly when the whole untrimmed text matches the pattern; 'Invalid email format' in every other case |
| Validation.ValidateName | src/utils/validation.js:14-25 | the result is '', `${fieldName} is required` or `${fieldName} must not contain special characters`; an accepted name is never empty |
| Validation.ValidateNameCases | src/utils/validation.js:14-25 | `${fieldName} is required` exactly for blank text; '' exactly when every character is in the Latin/Cyrillic/Ukrainian letter class with apostrophe, space and hyphen; the special-characters message exactly when some character is not |
| Validation.AgeInYears | src/utils/validation.js:43-48 | the age is the year difference or one less, and exactly the year difference on the birthday itself |
| Validation.AgeInYearsCountsBirthdays | src/utils/validation.js:43-48 | the computed age is the number of birthdays reached by today: the age-th birthday is on or before today and the next one is after today |
| Validation.AgeAtLeast | src/utils/validation.js:43-52 | the computed age is at least `years` exactly when the birth date is on or before the same day `years` years before today |
| Validation.ValidateDateOfBirth | src/utils/validation.js:27-55 | the result is '' or one of the four date messages; an accepted date parses, and its year is at least 16 before the current year |
| Validation.ValidateDateOfBirthCases | src/utils/validation.js:27-55 | the checks run in order: blank gives required, unparseable gives invalid, a later day gives the future message; '' exactly when the date parses and falls on or before the same day 16 years ago; too young exactly when it falls between that day and today |
| Validation.ValidatePassword | src/utils/validation.js:57-67 | the result is '', 'Password is required' or the too-short message; an accepted password has at least 3 characters, since each counts at most twice toward the 6 code units |
| Validation.ValidatePasswordCases | src/utils/validation.js:57-67 | 'Password is required' exactly for blank text; the too-short message exactly for non-blank text of fewer than 6 UTF-16 code units, spaces included; '' otherwise |
| Validation.ValidateConfirmPassword | src/utils/validation.js:69-79 | the result is '', the required message or 'Passwords do not match'; when accepted, the confirmation equals the password and neither is empty |
| Validation.ValidateConfirmPasswordCases | src/utils/validation.js:69-79 | a blank confirmation is reported as required whatever the password; otherwise '' exactly when the two texts are equal, and 'Passwords do not match' when they differ |
| Server.FindUserIndex | server.js:56 | `findIndex` returns the first user with the e-mail, and not-found only when no user has it |
| Server.FindUser | server.js:72 | `find` succeeds exactly when some user has the e-mail; the user returned has it and is the first such user, the one `findIndex` gives |
| Server.AppendNewEmailKeepsUnique | src/components/Register/Register.jsx:114-128 | appending a user whose e-mail no stored user has keeps e-mails unique |
| Server.MergeWithoutEmailKeepsUnique | server.js:58 | merging a body that has no `email` into one user keeps e-mails unique |
| Server.FindUserAfterAppend | server.js:45 | after a user with a new e-mail is appended, looking that e-mail up finds the appended user |
| Server.FindUserAfterMerge | server.js:56-58 | after a merge without `email`, looking the e-mail up finds the merged record |
| Server.DeleteByDecimalId | server.js:104-109 | deleting by the decimal text of an id removes exactly the items with that id and keeps the others in order |
| Server.DeleteUnknownIdKeepsNews | server.js:107 | deleting an id that no item has leaves the news list unchanged |
| Server.DataStore.constructor | server.js:12 | the store starts with the given content of `data.json`, or with none |
| Server.DataStore.ReadData | server.js:17-26 | gives the stored document; with no readable file it writes and gives `{ users: [], news: [], notes: {} }` |
| Server.DataStore.WriteData | server.js:28-30 | replaces the whole file with the document |
| Server.DataStore.ListUsers | server.js:32-39 | gives every user in storage order and changes nothing but healing a missing file |
| Server.DataStore.CreateUser | server.js:41-51 | appends exactly the given record after all earlier users, with no uniqueness check, and echoes it |
| Server.DataStore.UpdateUser | server.js:53-67 | merges the body over the first user with the e-mail (body keys overwrite, other keys are kept, other users unchanged); with no such user it gives not-found and leaves the document unchanged |
| Server.DataStore.GetUser | server.js:69-81 | gives the first user with the e-mail, or not-found |
| Server.DataStore.ListNews | server.js:83-90 | gives every item, unsorted, in storage order |
| Server.DataStore.CreateNews | server.js:92-102 | appends the item at the end and echoes it |
| Server.DataStore.DeleteNews | server.js:104-113 | keeps, in order, exactly the items whose id differs from `parseInt(id)`, and always reports success |
| Server.DataStore.GetNotes | server.js:115-123 | gives the e-mail's list, or an empty list when the e-mail has none |
| Server.DataStore.SaveNotes | server.js:125-138 | replaces the e-mail's whole list with the body, leaves every other e-mail's list alone, and echoes the stored list |
| Server.SaveThenGetNotes | server.js:115-138 | saving a list and then reading the same e-mail gives that list back; every other e-mail keeps its list |
| Server.CreateThenDeleteNews | server.js:92-113 | publishing an item and then deleting its id leaves no item with that id, and removes nothing else |
| AuthContext.Authenticate | src/context/AuthContext.jsx:32-34 | a login lets a user in exactly when the first user with the e-mail exists and its stored password equals the given one; the user let in is that first user |
| AuthContext.AuthProvider.constructor | src/context/AuthContext.jsx:15-16 | the provider starts with nobody logged in and still loading |
| AuthContext.AuthProvider.LoadUser | src/context/AuthContext.jsx:18-30 | a non-empty remembered e-mail that the store finds becomes the current user; loading ends in every case |
| AuthContext.AuthProvider.Login | src/context/AuthContext.jsx:32-40 | succeeds exactly when authentication does. Success sets the user found, so the provider is authenticated (`!!currentUser`), and remembers the e-mail. Unknown e-mail and wrong password both give 'Invalid email or password' and change nothing. Loading is never touched |
| AuthContext.AuthProvider.Logout | src/context/AuthContext.jsx:42-45 | nobody is logged in, so the provider is no longer authenticated (`!!currentUser` is false), and the remembered e-mail is removed |
| AuthContext.AuthProvider.UpdateCurrentUser | src/context/AuthContext.jsx:47-49 | shallow merge: given fields overwrite, all other fields of the current user are kept |
| AuthContext.AuthProvider.RefreshCurrentUser | src/context/AuthContext.jsx:51-58 | does nothing without a current user; otherwise the user is replaced by the stored record only when the lookup by e-mail succeeds |
| Forms.RunCheck | src/components/Register/Register.jsx:80-81 | running one more rule adds its message under its field when it fails and leaves the error object unchanged when it passes |
| Forms.ErrorMapAt | src/components/Register/Register.jsx:77-102 | a field that only one rule checks is in the error object exactly when that rule fails, and then holds that rule's message |
| Forms.ErrorMapOnlyChecked | src/components/Register/Register.jsx:77-102 | a field that no rule checks is never in the error object |
| Forms.ErrorMapKeys | src/components/Login/Login.jsx:57-67 | only fields that some rule checks can be in the error object |
| Forms.ErrorMapEmpty | src/components/Login/Login.jsx:73-74 | the error object is empty, and so lets the submission through, exactly when every rule passes |
| Forms.RequireText | src/pages/Notes/Notes.jsx:72-74 | `!value.trim()` reports its message exactly for text made only of whitespace |
| Forms.RequireChoice | src/pages/Notes/Notes.jsx:80-82 | `!value` reports its message exactly for the empty text |
| LoginForm.ValidateField | src/components/Login/Login.jsx:27-40 | the e-mail field passes exactly when its text matches the pattern; the password field passes exactly when it is non-blank with at least 6 code units; any other name gives '' |
| LoginForm.Errors | src/components/Login/Login.jsx:57-67 | the error object has `email` exactly when validateEmail fails and `password` exactly when validatePassword fails, each with its message, and no other key |
| LoginForm.ValidateFieldAgrees | src/components/Login/Login.jsx:27-67 | the check a field gets while edited gives the same message as `validate()` reports for it |
| LoginForm.Login.constructor | src/components/Login/Login.jsx:11-16 | empty e-mail and password, no errors, no general error |
| LoginForm.Login.HandleChange | src/components/Login/Login.jsx:42-45 | sets only the edited field and clears the general error |
| LoginForm.Login.SettleField | src/components/Login/Login.jsx:51-54 | when the debounce fires, the field's error becomes its own check's message, '' included |
| LoginForm.Login.Validate | src/components/Login/Login.jsx:57-67 | builds the error object `validate()` describes, step by step |
| LoginForm.Login.HandleSubmit | src/components/Login/Login.jsx:69-85 | with any error, only the errors are set and login is not attempted; otherwise a failed login sets the general error to its message and changes nothing in the provider, and a successful one logs in the user found, remembers the e-mail and leaves the provider's loading flag alone |
| RegisterForm.ValidateField | src/components/Register/Register.jsx:35-60 | any name other than the six fields gives '' |
| RegisterForm.ConfirmationCheck | src/components/Register/Register.jsx:53-55 | the confirmation passes exactly when it is non-blank and equal to the password |
| RegisterForm.Errors | src/components/Register/Register.jsx:77-102 | only the six form fields can ever be keys of the error object |
| RegisterForm.ErrorsAreFieldChecks | src/components/Register/Register.jsx:77-102 | a key is in the error object exactly when that field's validator fails on the form, with its message (the confirmation is checked against the form's password), and only the six fields can be keys |
| RegisterForm.NoErrorsIffEveryCheckPasses | src/components/Register/Register.jsx:77-112 | the submission passes the gate exactly when all six field checks pass |
| RegisterForm.NewUser | src/components/Register/Register.jsx:120-126 | the saved record has exactly email, firstName, lastName, dateOfBirth and password, copied from the form, and never confirmPassword |
| RegisterForm.Register.constructor | src/components/Register/Register.jsx:15-24 | all six fields empty, no errors, no success message |
| RegisterForm.Register.HandleChange | src/components/Register/Register.jsx:62-65 | sets only the edited field and clears the success message |
| RegisterForm.Register.SettleField | src/components/Register/Register.jsx:71-74 | when the debounce fires, the field's error becomes its own check's message, '' included |
| RegisterForm.Register.Validate | src/components/Register/Register.jsx:77-102 | builds the error object `validate()` describes, step by step |
| RegisterForm.Register.HandleSubmit | src/components/Register/Register.jsx:104-135 | with any error, only the errors change and nothing is looked up or saved. A taken e-mail makes the errors exactly the duplicate message and saves nothing. Otherwise the new record is appended, unique e-mails stay unique, the success message shows, and the user is logged in with the provider's loading flag unchanged |
| NotesPage.NotesByCategory | src/pages/Notes/Notes.jsx:161-166 | 'ALL' shows the whole list; any other category shows exactly its notes, each note once, in list order |
| NotesPage.WithoutNote | src/pages/Notes/Notes.jsx:123 | keeps exactly the notes whose id differs, each once, in list order |
| NotesPage.WithoutCategory | src/pages/Notes/Notes.jsx:143-148 | 'ALL' empties the list; any other category keeps exactly the notes of other categories, each once, in list order |
| NotesPage.DeletedCategoryIsEmpty | src/pages/Notes/Notes.jsx:141-154 | after deleting a category, that category's tab shows nothing |
| NotesPage.DeletingCategoryKeepsOtherTabs | src/pages/Notes/Notes.jsx:147 | deleting one category leaves every other category's tab exactly as it was, order included |
| NotesPage.AddedNoteIsListedLast | src/pages/Notes/Notes.jsx:104 | a note added at the end shows last under 'ALL' and under its own category |
| NotesPage.AddedNoteIsHiddenElsewhere | src/pages/Notes/Notes.jsx:104 | a note added at the end leaves the tabs of other categories unchanged |
| NotesPage.DeletingUnknownIdKeepsNotes | src/pages/Notes/Notes.jsx:123 | deleting an id that no note has keeps the list as it was |
| NotesPage.Errors | src/pages/Notes/Notes.jsx:69-85 | `title` exactly for a blank title, `body` exactly for a blank body, `category` exactly for an empty category, each with its message, and no other key; empty exactly when all three pass |
| NotesPage.Notes.constructor | src/pages/Notes/Notes.jsx:16-27 | no notes, the 'ALL' tab, the form with category 'DEFAULT', no errors, no pending deletion |
| NotesPage.Notes.LoadNotes | src/pages/Notes/Notes.jsx:30-38 | with a user logged in, the list becomes the stored list for the user's e-mail; the store, the tab, the form, the errors and both confirmations are unchanged |
| NotesPage.Notes.HandleChange | src/pages/Notes/Notes.jsx:61-67 | sets only the edited field, and clears only that field's error, and only when one was set; the list, the tab and both confirmations are unchanged |
| NotesPage.Notes.Validate | src/pages/Notes/Notes.jsx:69-85 | builds the error object `validate()` describes, step by step |
| NotesPage.Notes.HandleSubmit | src/pages/Notes/Notes.jsx:87-114 | with any error, only the errors change; otherwise exactly one note with the form's fields is appended after all others and saved, and the form and errors are reset. The tab and both confirmations are unchanged in either case |
| NotesPage.Notes.SelectTab | src/pages/Notes/Notes.jsx:266-279 | a tab button makes its category, or 'ALL', the active tab and changes nothing else |
| NotesPage.Notes.DeleteNote | src/pages/Notes/Notes.jsx:116-119 | remembers the id and opens the confirmation; the list, tab, form, errors and the category confirmation are unchanged |
| NotesPage.Notes.ConfirmDeleteNote | src/pages/Notes/Notes.jsx:121-129 | a truthy pending id removes exactly the notes with that id, in order, and saves; otherwise the list and store are unchanged. The confirmation closes and the pending id is cleared in both cases; the tab, form, errors and the category confirmation are unchanged |
| NotesPage.Notes.CancelDeleteNote | src/pages/Notes/Notes.jsx:131-134 | closes the confirmation and forgets the id; nothing else changes |
| NotesPage.Notes.DeleteAllInCategory | src/pages/Notes/Notes.jsx:136-139 | remembers the category and opens the confirmation; the list, tab, form, errors and the single-note confirmation are unchanged |
| NotesPage.Notes.ConfirmDeleteAll | src/pages/Notes/Notes.jsx:141-154 | a pending 'ALL' empties the list; another pending category removes exactly its notes and saves, after which its tab is empty. The confirmation closes and the pending category is cleared; the tab, form, errors and the single-note confirmation are unchanged |
| NotesPage.Notes.CancelDeleteAll | src/pages/Notes/Notes.jsx:156-159 | closes the confirmation and forgets the category; nothing else changes |
| NewsPage.InsertPermutes | src/pages/News/News.jsx:101 | inserting one item adds exactly that item and loses none |
| NewsPage.InsertAbove | src/pages/News/News.jsx:101-105 | inserting an item no lower than a bound into a list no lower than that bound gives a list no lower than it |
| NewsPage.InsertSorted | src/pages/News/News.jsx:101-105 | inserting into a sorted list keeps it sorted |
| NewsPage.SortNewsPermutes | src/pages/News/News.jsx:101 | the sorted copy holds the same items, each as often |
| NewsPage.SortNewsSorted | src/pages/News/News.jsx:101-105 | the sorted copy is in the comparator's order |
| NewsPage.NoneOfLowerRank | src/pages/News/News.jsx:101-105 | a sorted list whose first item sorts after a rank holds no item of that rank |
| NewsPage.InsertInFrontIsStable | src/pages/News/News.jsx:101-105 | an item put in front of higher-ranked items comes after the items of its own rank |
| NewsPage.InsertBehindIsStable | src/pages/News/News.jsx:101-105 | the step of insertion behind the first item keeps each rank's items in order |
| NewsPage.InsertIsStable | src/pages/News/News.jsx:101-105 | inserting keeps the order among items of equal rank and puts the new item after those of its rank |
| NewsPage.SortNewsIsStable | src/pages/News/News.jsx:101-105 | items with the same publish time keep their stored order |
| NewsPage.Eligible | src/pages/News/News.jsx:95-99 | with "my news" on and a user logged in, exactly the items whose author e-mail is the user's, each once, in storage order; otherwise every item |
| NewsPage.FilteredAndSortedNews | src/pages/News/News.jsx:94-108 | the shown list is a permutation of the eligible items; with 'newest' the publish times never increase, and with any other order they never decrease |
| NewsPage.Errors | src/pages/News/News.jsx:51-63 | `title` and `content` exactly when each is blank, with their messages, and no other key |
| NewsPage.PublishedItemIsMine | src/pages/News/News.jsx:74-108 | a published item carries the author's e-mail and is shown under that author's "my news", whatever the order |
| NewsPage.News.constructor | src/pages/News/News.jsx:8-17 | no items, "my news" off, 'newest' order, form hidden and empty, no errors |
| NewsPage.News.Displayed | src/pages/News/News.jsx:94-108 | the rendered list holds the eligible items, each as often as stored, only the user's own under "my news", in the chosen order of publish time |
| NewsPage.News.LoadNews | src/pages/News/News.jsx:38-41 | the list becomes every stored item, in storage order; the store, the form, its errors and visibility, "my news" and the sort order are unchanged |
| NewsPage.News.HandleChange | src/pages/News/News.jsx:43-49 | sets only the edited field, and clears only that field's error, and only when one was set; the list, "my news", the sort order and the form's visibility are unchanged |
| NewsPage.News.Validate | src/pages/News/News.jsx:51-63 | builds the error object `validate()` describes, step by step |
| NewsPage.News.HandleSubmit | src/pages/News/News.jsx:65-92 | with any error, only the errors change and nothing is saved. Otherwise an item with the user's e-mail and `${firstName} ${lastName}` is appended and reloaded, and the form is reset and hidden. "My news" and the sort order are unchanged in either case |
| NewsPage.News.SetShowMyNews | src/pages/News/News.jsx:188-192 | the "my news" checkbox sets that flag to its checked state and changes nothing else |
| NewsPage.News.SetSortOrder | src/pages/News/News.jsx:198-207 | each sort button sets the order it names and changes nothing else |
| NewsPage.News.SetShowAddForm | src/pages/News/News.jsx:129 | the add button shows the form, the cancel button of line 172 hides it, and nothing else changes |
| ProfilePage.FormOf | src/pages/Profile/Profile.jsx:14-19 | the form has exactly the four fields: each of firstName, lastName and dateOfBirth is the user's value or '' when the user lacks it, and the password is '' |
| ProfilePage.ValidateField | src/pages/Profile/Profile.jsx:29-50 | an empty password never produces an error, and names other than the four fields give '' |
| ProfilePage.NewPasswordCheck | src/pages/Profile/Profile.jsx:41-44 | an empty new password passes; a non-empty one passes exactly when it is non-blank with at least 6 code units, so spaces alone are refused as missing |
| ProfilePage.Errors | src/pages/Profile/Profile.jsx:66-84 | only the four form fields can be keys of the error object, and an empty new password is never one of them |
| ProfilePage.ErrorsAreFieldChecks | src/pages/Profile/Profile.jsx:66-84 | a key is in the error object exactly when that field's check fails, with its message; the password is checked only when non-empty; only the four fields can be keys |
| ProfilePage.NoErrorsIffEveryCheckPasses | src/pages/Profile/Profile.jsx:66-84 | the save passes the gate exactly when every field's check passes |
| ProfilePage.UpdatePayload | src/pages/Profile/Profile.jsx:109-117 | the payload always has firstName, lastName and dateOfBirth, has password only when one was typed, never has email, and copies the form's values |
| ProfilePage.SavingKeepsEmailAndUnsetPassword | src/pages/Profile/Profile.jsx:109-119 | merging the payload never changes the e-mail, keeps the stored password when none was typed, and keeps every field outside the form |
| ProfilePage.SavingUneditedFormKeepsUser | src/pages/Profile/Profile.jsx:86-117 | saving the form just loaded for a user who has every field leaves that user as it was |
| ProfilePage.Profile.constructor | src/pages/Profile/Profile.jsx:13-20 | not editing, no errors, the form filled from the logged-in user |
| ProfilePage.Profile.HandleChange | src/pages/Profile/Profile.jsx:52-54 | sets only the edited field |
| ProfilePage.Profile.SettleField | src/pages/Profile/Profile.jsx:60-63 | when the debounce fires, the field's error becomes its own check's message, '' included |
| ProfilePage.Profile.Validate | src/pages/Profile/Profile.jsx:66-84 | builds the error object `validate()` describes, step by step, with the password step only for a typed password |
| ProfilePage.Profile.HandleEdit | src/pages/Profile/Profile.jsx:86-95 | refills the form from the current user with an empty password, opens the editor and clears the errors |
| ProfilePage.Profile.HandleCancel | src/pages/Profile/Profile.jsx:97-100 | closes the editor and clears the errors |
| ProfilePage.Profile.HandleSave | src/pages/Profile/Profile.jsx:102-107 | with any error, only the errors change and no update is sent; otherwise the update is sent |
| ProfilePage.Profile.SendUpdate | src/pages/Profile/Profile.jsx:109-125 | the stored user gets the payload merged in, e-mails stay unique, and the current user becomes the stored record; editing ends only when the store finds the user |

## Left out

- `src/utils/storage.js`: the `fetch` calls and their network failures. Each page calls the `DataStore` method that the request reaches. A failed request, which the source logs and turns into `null` or `[]`, is not modelled.
- The file I/O, JSON text, Express routing, CORS and the 500 responses of `server.js`. The file is `Option<Document>`: `None` stands for a file that is missing or does not parse.
- Concurrency: overlapping requests that lose an update, and the race between registration's duplicate check and its save. Every operation here runs alone.
- Time: `Date.now()`, `new Date()` and `toISOString()` are parameters. A news item's publish time is an integer instant. `new Date(text)` and today's date reach the date-of-birth rule through `Clock`. Time zones and the time of day are not modelled, so "in the future" compares calendar days.
- `parseInt` on numbers beyond 2^53 is exact here; JavaScript would round them.
- The debounce timers: the delayed per-field check is `SettleField`, run at the moment the timer fires. Registration's one-second delayed login runs immediately.
- `navigate`, the `selectedNews` detail modal and its Escape key, and the open/closed state of the notes form's custom select.
- JSX rendering and CSS, and the pages with no logic of their own: `src/pages/Users/Users.jsx`, `src/App.jsx`, the header, dashboard layout, confirmation modal and auth page.
- The Notes, News (publishing) and Profile handlers require a logged-in user. These pages sit under the protected dashboard route, and the news form is rendered only when someone is logged in. Without a user the source would fail reading `currentUser.email`.
- ProfilePage.FormOf: used also for `handleEdit`, where a field missing from the stored user becomes `undefined` rather than ''. The model fills in '' there too. Every validator treats the two alike.
- A user stored without an `email` key is looked up under the text "undefined", as a template literal would spell it. JSON serialisation of such a record is not modelled.
- Server.DataStore.GetNotes / Server.DataStore.SaveNotes / Server.SaveThenGetNotes: `data.notes` is a plain JavaScript object, and the model treats it as a map. An e-mail that names an `Object.prototype` property, such as `toString` or `constructor`, reads the inherited value in the source, where the model gives `[]`. Saving under `__proto__` echoes the body but stores nothing, so the round trip fails for that key. No text that `validateEmail` accepts is such a name, because each contains an '@' (`Validation.AcceptedEmailHasAt`).
- NewsPage.AuthoredBy / NewsPage.Eligible: a user record without an `email` matches no item under "my news". In the source `item.authorEmail === currentUser.email` compares `undefined` with `undefined`, so such a user matches every item stored without `authorEmail`.
- Server.CreateThenDeleteNews: shown for non-negative ids only, because the model's decimal text covers natural numbers. `Date.now()` ids are never negative.
