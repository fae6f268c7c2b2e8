# School portal account and shortcut logic in Dafny

This project models the behaviour of a school staff portal's front end, a
React application that keeps its data in browser storage. It covers four
pieces of logic:

- **Login** (`Login.tsx`): the decision the login form makes. A hard-coded
  administrator email and password pair is checked first. Otherwise the
  email is looked up in the stored account list `registered_users`.
- **Password change** (`Settings.tsx`): the settings form. It runs a fixed
  chain of guards, then replaces the password of one stored account and
  hands the updated session user back to the application.
- **User management** (`UserManagement.tsx`): bulk registration from a CSV
  file, and deletion of an account by id. The import parses the uploaded
  text line by line and merges the new accounts into the stored list
  without adding an email twice.
- **Shortcut bar** (`ShortcutBar.tsx`): the row of external links. The
  administrator edits one global list. Every other signed-in user has an
  optional personal list. Links can be added, removed and edited in place.

## Modules

- `Prelude`: `Option`, an order-preserving `Filter` (JavaScript's
  `Array.prototype.filter`), and the subsequence relation, with their lemmas.
- `JsString`: the JavaScript string operations the handlers use, written
  over Dafny strings:
  - `trim`, with ECMAScript's WhiteSpace and LineTerminator characters
  - `split` on one character, with its inverse `join`
  - `includes`, `startsWith` and `endsWith`
  - `length`, counted in UTF-16 code units
- `Accounts`: the `User` record, the administrator constants,
  `findIndex`/`find` by email, and the `registered_users` storage entry as
  the class `UserStorage`.
- `Login`: the submit decision as a pure function `Submit`, with the
  outcome `LoggedIn(email, role)` or `Rejected`.
- `Settings`: the guard chain as a function `PasswordChange`, and the
  component as the class `PasswordSettings`. Its method
  `HandlePasswordChange` updates the form fields, the message and the
  storage, and is proved to do what `PasswordChange` says.
- `UserManagement`: the parser and the merge as specification functions
  (`ParseLine`, `Rows`, `ParsedUsers`, `Merged`, `Upload`).
  - The two loops of the upload handler are the methods `ParseUsers` and
    `MergeUsers`. Each is proved equal to its function.
  - The page is the class `UserManager`, holding the page's `users` list.
- `Shortcuts`: the load and save rules over a keyed store (`Loaded`,
  `Saved`), and the list edits as pure functions.
  - The storage is the class `ShortcutStorage`, whose field is a map from
    key to list.
  - The component is the class `ShortcutBar`, whose methods perform load,
    save, add, remove and the inline edits.

Inputs the code gets from the browser are parameters here:

- The chosen file is an `Option<CsvFile>` carrying its name and text.
- Random ids become a function `freshId` from line number to id for the
  import, and a plain `id` argument for a new shortcut.
- The callbacks `onLogin` and `onUserUpdate` become results.

## Behaviour of note

- Shortcut lists: the administrator's list is the global one, and every
  other signed-in user keeps an optional personal list that, once saved,
  replaces the global list in their view (src/components/ShortcutBar.tsx:36-38,
  50-51).
- Login: the password is never compared for a stored account. Any password
  logs in a registered email. The model states this as it is.
- CSV header: a first line containing `email` or `이메일` anywhere is
  dropped as a header. The model states this as it is.
- Import count: the success message reports the number of parsed rows, not
  the number of accounts actually added. The model states this as it is.

## Model

| member | source | states |
|---|---|---|
| Accounts.FindByEmail | src/pages/Settings.tsx:28 | None exactly when no account has the email; otherwise an in-range index holding the email with no earlier index holding it |
| Accounts.FirstMatchIsFound | src/pages/Login.tsx:32 | the first position holding an email is the one the lookup reports |
| Login.Submit | src/pages/Login.tsx:14-48 | login succeeds exactly for the administrator pair or an email present in the stored list, and always under the submitted email |
| Login.AdminPairIsAdmin | src/pages/Login.tsx:20-25 | the administrator pair logs in as administrator whatever is stored |
| Login.RegisteredEmailLogsInWithFirstRole | src/pages/Login.tsx:29-39 | outside the administrator pair, a stored email logs in with the role of the first account carrying it, with any password |
| Login.PasswordIgnoredForOtherEmails | src/pages/Login.tsx:20-39 | for every email but the administrator's, the outcome does not depend on the password |
| Login.AdminEmailWrongPasswordFallsThrough | src/pages/Login.tsx:20-39 | the administrator email with a wrong password falls through to the stored lookup and succeeds exactly when that email is stored |
| Login.NoStoredListRejects | src/pages/Login.tsx:29-46 | with nothing stored only the administrator pair gets in |
| Settings.ExpectedPassword | src/pages/Settings.tsx:38 | the password a submission must match is never empty: the stored one when a non-empty one is stored, the email's fixed fallback when the stored one is absent or empty |
| Settings.PasswordChange | src/pages/Settings.tsx:21-61 | the outcome of one submission; the guard order, the error cases and the update on success are proved in the three lemmas below and `ChangedPasswordBecomesCurrent` |
| Settings.GuardsBeforeLookup | src/pages/Settings.tsx:21-33 | the handler does nothing exactly when there is no signed-in user or no stored list; it reports "not found" exactly when the list lacks the user's email |
| Settings.FirstFailureReported | src/pages/Settings.tsx:35-53 | a wrong current password is reported before everything else, a confirmation mismatch before the length check, and a too short password when it is the only failure; success holds exactly when the current password equals the stored one or its fallback, confirmation matches and the length is at least 4 |
| Settings.SuccessChangesOnlyThatPassword | src/pages/Settings.tsx:56-61 | on success the list keeps its length, every other entry is unchanged, the found entry changes only its password, and the session user gets the new password |
| Settings.ChangedPasswordBecomesCurrent | src/pages/Settings.tsx:38-58 | after a change the new password is accepted as current and a different old one is refused |
| Settings.PasswordSettings.constructor | src/pages/Settings.tsx:11-15 | the form starts empty without a message |
| Settings.PasswordSettings.HandlePasswordChange | src/pages/Settings.tsx:17-67 | message, returned session update, storage and form fields after a submission; storage is unchanged and the form kept on every path but success |
| JsString.Trim | src/pages/UserManagement.tsx:59 | `trim`; `TrimStartShape` and `TrimEndShape` state that only ECMAScript whitespace is removed, from the ends only |
| JsString.Split | src/pages/UserManagement.tsx:52 | `split` on one character yields at least one piece; the round trip with `join` is proved below |
| JsString.Includes | src/pages/UserManagement.tsx:56 | `includes`: the text occurs at some position; `IncludesChar` reduces a one-character needle to membership |
| JsString.StartsWith | src/components/ShortcutBar.tsx:59 | `startsWith`: the prefix of the same length equals the argument |
| JsString.EndsWith | src/pages/UserManagement.tsx:42 | `endsWith`: the suffix of the same length equals the argument |
| Prelude.Filter | src/pages/UserManagement.tsx:97 | `Array.prototype.filter`; `FilterKeepsExactly` states that exactly the satisfying elements stay, with their multiplicities, in order |
| JsString.TrimEmptyIffWhitespace | src/pages/UserManagement.tsx:59-60 | a trimmed line is empty exactly when the line is all whitespace |
| JsString.SplitJoinsBack | src/pages/UserManagement.tsx:52 | no piece of a split contains the separator and joining the pieces restores the text |
| JsString.SplitJoin | src/pages/UserManagement.tsx:62 | splitting a join of separator-free pieces gives the pieces back |
| JsString.FirstPiece | src/pages/UserManagement.tsx:67 | the first piece of a split at `@` is the text before the first `@` |
| JsString.Utf16Length | src/pages/Settings.tsx:50 | the counted length lies between the number of code points and twice it |
| UserManagement.IsHeader | src/pages/UserManagement.tsx:56 | the header test: the line contains `email` or `이메일`; the header rule is proved in `HeaderOnlyFirstLine` |
| UserManagement.FirstDataLine | src/pages/UserManagement.tsx:56 | `startIndex`: 1 after a header line, else 0 |
| UserManagement.ParseLine | src/pages/UserManagement.tsx:59-69 | the account one line yields, if any; what it accepts and what it builds are proved in `ParseLineAccepts`, `ParsedAccount`, `ExtraFieldsIgnored` and `ParseLineIsIdBlind` |
| UserManagement.AccountOf | src/pages/UserManagement.tsx:62-69 | the account the trimmed fields of a non-blank line describe; its properties are proved through `ParseLine` in `ParsedAccount` |
| UserManagement.Rows | src/pages/UserManagement.tsx:58-71 | `newUsers` after a range of lines, for any line parser; membership, the first-line split and id independence are proved in `RowsMembers`, `RowsFirst` and `RowsIdIndependent` |
| UserManagement.ParsedUsers | src/pages/UserManagement.tsx:52-71 | `newUsers` for the whole text; the loop `ParseUsers` is proved to compute it and `HeaderOnlyFirstLine` states the header rule over it |
| UserManagement.ParseUsers | src/pages/UserManagement.tsx:52-71 | the read loop builds exactly the accounts `ParsedUsers` describes |
| UserManagement.HeaderOnlyFirstLine | src/pages/UserManagement.tsx:56-58 | the first line is dropped exactly when it contains `email` or `이메일`; every later line is parsed as data |
| UserManagement.RowsMembers | src/pages/UserManagement.tsx:58-71 | an account is among the rows read exactly when some line in range yields it |
| UserManagement.ParseLineAccepts | src/pages/UserManagement.tsx:59-63 | a line yields an account exactly when its first trimmed field contains `@` |
| UserManagement.ParsedAccount | src/pages/UserManagement.tsx:62-69 | the account has the given id, the first field as email and no password; the role is administrator exactly for `admin` or `관리자`; the name is the second field, or when that is missing or empty the email's text before its first `@` |
| UserManagement.FieldsAfterComma | src/pages/UserManagement.tsx:59-62 | text after a further comma only adds fields after the existing ones |
| UserManagement.ExtraFieldsIgnored | src/pages/UserManagement.tsx:62 | with three fields present, anything appended after another comma does not change the parsed account |
| UserManagement.ParseLineIsIdBlind | src/pages/UserManagement.tsx:64-69 | the generated id decides only the id of a row: whether a line yields an account, and every other field of it, is the same under any id |
| UserManagement.RowsIdIndependent | src/pages/UserManagement.tsx:58-71 | parsing with other ids gives the same accounts up to their ids |
| UserManagement.Merged | src/pages/UserManagement.tsx:77-82 | `updatedUsers` after the `forEach`; the loop `MergeUsers` is proved to compute it and the `Merged…` lemmas below state its per-row rule exactly (`MergedIsFirstNewRows`, with `MergedAppendsOnlyFirstNewRows` and `MergedKeepsFirstNewRows`) and its aggregate properties |
| UserManagement.MergeUsers | src/pages/UserManagement.tsx:77-82 | the merge loop computes exactly `Merged` |
| UserManagement.MergedExtends | src/pages/UserManagement.tsx:77 | the old list is a prefix of the merged list, in order |
| UserManagement.MergedEmails | src/pages/UserManagement.tsx:78-82 | an email is in the merged list exactly when it was in the old list or in the new rows |
| UserManagement.MergedKeepsUnique | src/pages/UserManagement.tsx:78-82 | unique emails stay unique, including among rows of the same file |
| UserManagement.MergedKnownAddsNothing | src/pages/UserManagement.tsx:79-81 | rows whose emails are all known add nothing |
| UserManagement.MergedAppendsOnlyFirstNewRows | src/pages/UserManagement.tsx:78-81 | every appended account is a new row whose email is in neither the old list nor an earlier row of the file, so a row with an email the old list holds, even twice, is skipped and of two rows with one new email the first is kept |
| UserManagement.MergedKeepsFirstNewRows | src/pages/UserManagement.tsx:78-81 | every new row whose email is in neither the old list nor an earlier row of the file is appended |
| UserManagement.FirstNewRows | src/pages/UserManagement.tsx:78-81 | the rows among the first `n` that are first new rows, in file order; never more than `n` of them |
| UserManagement.FirstNewRowsPrefix | src/pages/UserManagement.tsx:78-81 | whether a row is a first new row depends only on the old list and the rows up to it, not on later rows |
| UserManagement.MergedIsFirstNewRows | src/pages/UserManagement.tsx:77-82 | the merged list is exactly the old list followed by the first new rows in file order, each once: a row is appended if and only if neither the old list nor an earlier row of the file has its email, and a row repeated in the file is appended once, at its first occurrence |
| UserManagement.MergedTailFromIncoming | src/pages/UserManagement.tsx:78-82 | the appended accounts are some of the new rows, in file order |
| UserManagement.Upload | src/pages/UserManagement.tsx:42-84 | an import is the merge of the page list with the parsed rows and reports the number of parsed rows, which is positive; it keeps the old list as a prefix and keeps emails unique |
| UserManagement.UploadRefusals | src/pages/UserManagement.tsx:42-75 | a name not ending in `.csv` is refused first, then a file without valid rows; a chosen file is always refused or imported |
| UserManagement.ImportTwiceAddsNothing | src/pages/UserManagement.tsx:77-85 | importing the same file again leaves the list as it is and reports the same count |
| UserManagement.WithoutUser | src/pages/UserManagement.tsx:96-98 | deletion keeps exactly the accounts with another id, with their multiplicities, in their order |
| UserManagement.DeleteAbsentIdIsNoop | src/pages/UserManagement.tsx:96-98 | deleting an id no account has changes nothing |
| UserManagement.DeleteTwiceIsDeleteOnce | src/pages/UserManagement.tsx:96-98 | deleting twice is deleting once |
| UserManagement.UserManager.constructor | src/pages/UserManagement.tsx:12-17 | the page starts with the stored list, or the empty list when none is stored |
| UserManagement.UserManager.SaveUsers | src/pages/UserManagement.tsx:19-22 | the page list and the storage both become the new list |
| UserManagement.UserManager.HandleFileUpload | src/pages/UserManagement.tsx:38-94 | the outcome is `Upload` of the page list; only an import writes the list and storage; the banner shows the refusal or the parsed count |
| UserManagement.UserManager.DeleteUser | src/pages/UserManagement.tsx:96-98 | page list and storage become the list without that id |
| Shortcuts.PersonalKey | src/components/ShortcutBar.tsx:36 | a personal key is the prefix followed by the user id and is never the global key |
| Shortcuts.PersonalKeyInjective | src/components/ShortcutBar.tsx:51 | two users share a personal key exactly when they share an id |
| Shortcuts.SaveKey | src/components/ShortcutBar.tsx:47-52 | no key exactly for the anonymous visitor; the global key exactly for the administrator; `personal_shortcuts_<id>` for every other signed-in user |
| Shortcuts.GlobalList | src/components/ShortcutBar.tsx:25-26 | the stored global list, or the four defaults when none is stored |
| Shortcuts.Loaded | src/components/ShortcutBar.tsx:24-40 | the list a visitor sees for a given store; its relation to saving is proved in `SaveThenLoad`, `EmptyStoreLoadsDefaults`, `PersonalSaveIsPrivate` and `AdminSaveReachesGlobalViewers` |
| Shortcuts.Saved | src/components/ShortcutBar.tsx:45-53 | the save key holds the new list and every other key is unchanged |
| Shortcuts.SaveThenLoad | src/components/ShortcutBar.tsx:22-53 | what a signed-in user saves is what they load next |
| Shortcuts.EmptyStoreLoadsDefaults | src/components/ShortcutBar.tsx:25-38 | with nothing stored every visitor sees the four default links |
| Shortcuts.PersonalSaveIsPrivate | src/components/ShortcutBar.tsx:36-51 | a personal save changes nobody else's view |
| Shortcuts.AdminSaveReachesGlobalViewers | src/components/ShortcutBar.tsx:25-48 | an administrator save is seen by the anonymous visitor, administrators and users without a personal list, and by no user with one |
| Shortcuts.NormalizeUrl | src/components/ShortcutBar.tsx:59 | the result starts with `http` and ends with the input, and equals the input exactly when the input starts with `http` |
| Shortcuts.NormalizeUrlIdempotent | src/components/ShortcutBar.tsx:59 | normalising twice is normalising once |
| Shortcuts.WithShortcut | src/components/ShortcutBar.tsx:55-66 | nothing happens exactly when the label or URL is empty; otherwise exactly one link is appended with the given id, label and normalised URL, and the earlier links are unchanged |
| Shortcuts.Without | src/components/ShortcutBar.tsx:71-73 | removal keeps exactly the links with another id, with their multiplicities, in their order |
| Shortcuts.RemoveUndoesAdd | src/components/ShortcutBar.tsx:60-73 | removing a just-added link with a fresh id restores the list |
| Shortcuts.Relabeled | src/components/ShortcutBar.tsx:87-89 | the label edit keeps the length of the list; what else it keeps is proved in `RelabeledChangesOnlyLabels` |
| Shortcuts.Retargeted | src/components/ShortcutBar.tsx:98-100 | the URL edit keeps the length of the list; what else it keeps is proved in `RetargetedChangesOnlyUrls` |
| Shortcuts.RelabeledChangesOnlyLabels | src/components/ShortcutBar.tsx:86-91 | a label edit keeps length, order, ids and URLs and changes only the labels of links with that id |
| Shortcuts.RetargetedChangesOnlyUrls | src/components/ShortcutBar.tsx:97-102 | a URL edit keeps length, order, ids and labels and changes only the URLs of links with that id |
| Shortcuts.RelabelLastWins | src/components/ShortcutBar.tsx:86-91 | two label edits of the same link amount to the second |
| Shortcuts.EditsCommute | src/components/ShortcutBar.tsx:86-102 | label and URL edits do not interfere |
| Shortcuts.RemoveAfterRelabel | src/components/ShortcutBar.tsx:71-91 | editing a link and then removing it is removing it |
| Shortcuts.ShortcutBar.constructor | src/components/ShortcutBar.tsx:16-43 | mounting shows the loaded list with an empty add form |
| Shortcuts.ShortcutBar.LoadShortcuts | src/components/ShortcutBar.tsx:24-40 | the shown list becomes `Loaded` of the storage for the current user |
| Shortcuts.ShortcutBar.SetUser | src/components/ShortcutBar.tsx:22-43 | a new user re-runs the load |
| Shortcuts.ShortcutBar.SaveShortcuts | src/components/ShortcutBar.tsx:45-53 | the shown list becomes the new list and storage becomes `Saved` |
| Shortcuts.ShortcutBar.AddShortcut | src/components/ShortcutBar.tsx:55-69 | with an empty label or URL nothing changes; otherwise shown list and storage get `WithShortcut` and the form is cleared |
| Shortcuts.ShortcutBar.RemoveShortcut | src/components/ShortcutBar.tsx:71-73 | shown list and storage become the list without that id |
| Shortcuts.ShortcutBar.EditLabel | src/components/ShortcutBar.tsx:86-91 | shown list and storage become the relabelled list |
| Shortcuts.ShortcutBar.EditUrl | src/components/ShortcutBar.tsx:97-102 | shown list and storage become the retargeted list |

## Left out

- Rendering: JSX, icons, animations, CSS classes, the `isUploading`, `isEditing` and `isLoading` flags, and `setTimeout` delays in the login form. None of them decides anything.
- Browser APIs:
  - `FileReader`: the file's name and text are inputs.
  - The CSV template download (src/pages/UserManagement.tsx:24-36).
  - Resetting the file input.
- `localStorage` and `JSON`:
  - Stored lists are typed values, and an absent entry is `None` or a missing map key.
  - A corrupt entry that would make `JSON.parse` throw is not modelled.
  - The accounts entry and the shortcut entries share one browser store. They are two objects here, because their keys never coincide.
- `Math.random()` ids: they are parameters (`freshId` per line, `id` per shortcut). Their nine-character format and possible collisions are not modelled.
- Message texts: the Korean banner texts are constructors of a `Message` datatype.
- Storage write failures: `localStorage.setItem` can throw, for instance when the storage quota is exceeded. In the upload handler that exception is caught and its message shown (src/pages/UserManagement.tsx:87-88), after the page list has already been replaced (src/pages/UserManagement.tsx:20). In the other handlers it escapes. The model treats every write as succeeding, so `UserManager.HandleFileUpload`, `UserManager.DeleteUser`, `PasswordSettings.HandlePasswordChange` and the `ShortcutBar` methods do not model that failure, nor the generic error banner it can produce.
- React's stale closures: handlers read the state as of the last render. The model reads the current field.
- The form inputs' own `onChange` setters for the typed fields: those fields are plain class fields the caller assigns.
- Utf16Length: Dafny characters are Unicode scalar values, so a string holding an unpaired surrogate cannot be expressed.
- The other pages (calendar, dashboard, training board), routing, layout, the database client and the static holiday data are not part of this model.
