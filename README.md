# Kitap friend list, modelled in Dafny

Kitap is a single-screen React Native app. The user gets a local id and keeps a
list of "friends". Each friend record has an id, a name and three notification
settings (sound, vibration, notification). This project models the app
component's state machine in `App.js`:

- the component state: the friend list, the two fields of the add-friend form,
  the flag that shows the add-friend modal, and the user's own id;
- the handlers that change it: add a friend, remove a friend, toggle one
  setting, the form's typing, open and cancel handlers, and the start-up identity
  bootstrap.

Layout:

- `Text.dfy` (module `Text`): `String.prototype.trim`, i.e. stripping ECMAScript
  white space and line terminators from both ends.
- `Friends.dfy` (module `Friends`): the friend record and the list transforms.
  These are the append in the add handler, the `filter` in remove and the `map`
  with object spread in toggle. They are pure functions, with lemmas about them.
  The module also holds the add handler's accept/reject decision, both as
  written and as corrected (see Findings).
- `Identity.dfy` (module `Identity`): the identity bootstrap, as a function over
  a string-to-string storage map.
- `App.dfy` (module `KitapApp`): class `App`, one field per React state variable
  and one method per handler. Each method's `ensures`, together with its
  field-level `modifies` frame, gives the whole new state in terms of the old one
  and the functions above. Class `Storage` holds the device's key-value entries.

Points where the code's behaviour needs care:

- Unique friend ids are evidently intended: the add handler rejects an id with
  "Friend already added" (App.js:57-58). The code does not keep ids unique,
  though (see Findings). The model never assumes uniqueness. It proves
  uniqueness preserved only under the conditions where it actually holds.
- The `filter` in the remove handler (App.js:77) drops every record with the
  given id. `Friends.RemovedCount` shows that exactly one record goes when ids
  are unique and the id is present.
- The test `!id` (App.js:21) treats a missing stored id and an empty stored id
  alike: both lead to a new id. `Identity.HasStoredId` models this.

## Model

| member | source | states |
|---|---|---|
| `Text.Trim` | App.js:52 | the result is the text between the leading and trailing runs of white space; everything cut off is white space; the result neither starts nor ends with white space |
| `Text.TrimEmptyIff` | App.js:52-55 | a field trims to `''` (and is rejected) exactly when it is all white space |
| `Text.TrimFixedIff` | App.js:63 | `trim` leaves a string unchanged exactly when it neither starts nor ends with white space |
| `Text.TrimIdempotent` | App.js:63-64 | trimming twice equals trimming once |
| `Friends.Toggled` | App.js:83 | the object spread flips the named setting and keeps the other two settings, the id and the name |
| `Friends.NewFriend` | App.js:62-68 | a new record has the given id and name and all three settings true |
| `Friends.Removed` | App.js:77 | the filter never grows the list; a record is in the result exactly when it was in the list and its id differs |
| `Friends.RemovedConcat` | App.js:77 | removal distributes over concatenation, so order is kept and each record is decided on its own |
| `Friends.RemovedSingle` | App.js:77 | on one record, removal keeps it exactly when its id differs |
| `Friends.RemovedAbsent` | App.js:77 | removing an id that no record has leaves the list unchanged |
| `Friends.RemovedLacksId` | App.js:77 | after removal no record has that id |
| `Friends.RemovedIdempotent` | App.js:77 | removing the same id twice equals removing it once |
| `Friends.RemovedKeepsUnique` | App.js:77 | removal keeps ids unique |
| `Friends.RemovedCount` | App.js:76-78 | with unique ids, removal shortens the list by one when the id is present and by zero when it is absent |
| `Friends.ToggledAll` | App.js:82-84 | the map keeps length and positions; a record with the matching id is replaced by its toggled copy; every other record is untouched |
| `Friends.ToggledTwice` | App.js:83 | flipping one setting of one record twice restores the record |
| `Friends.ToggledAllTwice` | App.js:82-84 | toggling the same setting of the same id twice restores the whole list |
| `Friends.ToggledAllKeepsIds` | App.js:82-84 | toggling changes neither which ids are present nor whether ids are unique |
| `Friends.AddDecision` | App.js:51-60 | rejected as a missing field exactly when the id or the name is all white space; otherwise rejected as a duplicate exactly when some record's id equals the untrimmed input id; otherwise accepted |
| `Friends.AddDecisionCorrected` | App.js:57 | the same decision with the duplicate test made on the trimmed id |
| `Friends.Appended` | App.js:62-68 | the list grows by one; the old list is its prefix; the new last record holds the trimmed id and name with every setting true |
| `Friends.AppendUniqueIff` | App.js:62-68 | appending a record to a list with unique ids keeps them unique exactly when the new id is not already present |
| `Friends.DecisionsAgreeOnTrimmedId` | App.js:57 | the as-written and the corrected decision agree whenever the input id is already trimmed |
| `Friends.AddKeepsIdsUniqueWhenTrimmed` | App.js:57-63 | as written, a successful add keeps ids unique when the input id has no white space at either end |
| `Friends.CorrectedAddKeepsIdsUnique` | App.js:57-68 | with the corrected check, every successful add keeps ids unique |
| `Friends.AsWrittenAdmitsDuplicate` | App.js:57-64 | with `bob` on the list, adding `" bob"` is accepted and leaves two records with id `bob` |
| `Identity.Bootstrap` | App.js:20-25 | a non-empty stored id is returned and storage is unchanged; otherwise the id is `'user-' + suffix` and storage now maps `userId` to it; the id is never empty and no other key changes |
| `Identity.BootstrapIdempotent` | App.js:20-24 | a second bootstrap, with any suffix, returns the same id and leaves storage as the first left it |
| `KitapApp.App.constructor` | App.js:10-15 | the initial state: empty user id, empty list, empty form fields, modal hidden |
| `KitapApp.App.InitUser` | App.js:19-25 | the user id and the storage afterwards are exactly what `Identity.Bootstrap` gives for the old storage and the suffix |
| `KitapApp.App.OpenAddFriendModal` | App.js:155 | the modal is shown; nothing else changes |
| `KitapApp.App.EditNewFriendId` | App.js:208 | the id field holds the typed text; nothing else changes |
| `KitapApp.App.EditNewFriendName` | App.js:214 | the name field holds the typed text; nothing else changes |
| `KitapApp.App.CancelAddFriend` | App.js:219-221 | the modal is hidden and the typed fields are kept |
| `KitapApp.App.AddFriend` | App.js:51-73 | the outcome is `AddDecision` of the old state: a missing field exactly when the id or the name is all white space, a duplicate exactly when both are filled and some record has the untrimmed id. A rejection changes no field. A success appends the new record, clears both fields and hides the modal. Ids stay unique when they were unique and the input id is already trimmed |
| `KitapApp.App.RemoveFriend` | App.js:76-78 | the list becomes `Removed` of the old list; no record with that id remains; unique ids stay unique |
| `KitapApp.App.ToggleSetting` | App.js:81-85 | the list becomes `ToggledAll` of the old list; uniqueness of ids is unchanged |

## Left out

- Rendering, styles, the friend profile screen and the `selectedFriend` navigation state (App.js:88-414): this is user interface with no logic of its own.
- Loading the saved friend list at start-up and saving it after every change (App.js:27-28, 34-36): this is asynchronous device storage plus JSON serialisation. The order of the save effect against the initial load is an asynchronous race.
- Asynchronous storage in `initUser`: the `await`s are modelled as plain reads and writes of `Storage.entries`.
- `Math.random().toString(36).substr(2, 9)` (App.js:22): a random source and a float-to-string conversion. The suffix is a parameter of `InitUser` and `Bootstrap`, and no length or alphabet is assumed for it.
- Sharing the user id through the OS share sheet and its error dialog (App.js:39-48): an OS call.
- `Alert.alert` dialogs, `Vibration.vibrate` and the simulated "send" buttons (App.js:53, 58, 105-113, 128-130): OS calls that transmit nothing. The two alerts of the add handler appear only as the `MissingField` and `AlreadyAdded` outcomes.
- The message input bound to an undefined `setNotificationMessage` (App.js:120-124): a broken UI-only reference.
- Text.Trim: the white space set is the ECMAScript WhiteSpace and LineTerminator code points, with the Zs category as of Unicode 15. Dafny characters are Unicode scalar values, while JavaScript strings are UTF-16 code units; this makes no difference here because every trimmed code point is a single code unit.

## Findings

| source | as written | input that shows it | evidently intended | confidence | as-written member | corrected member |
|---|---|---|---|---|---|---|
| App.js:57 | the duplicate test compares each stored id with the untrimmed input, while line 63 stores the trimmed input | `bob` is on the list and the form holds id `" bob"` with name `Bob`: the add is accepted and the list has two records with id `bob` | compare with the id that will be stored, `newFriendId.trim()` | not executed; high (the counterexample is proved) | `Friends.AsWrittenAdmitsDuplicate` (about `Friends.AddDecision`) | `Friends.AddDecisionCorrected`, with `Friends.CorrectedAddKeepsIdsUnique` |

`KitapApp.App.AddFriend` models the handler as the code is, so its uniqueness
guarantee holds only when the input id is already trimmed. That guarantee is
proved by going through the corrected decision: the two decisions agree on
trimmed ids (`Friends.DecisionsAgreeOnTrimmedId`), and the corrected decision
keeps ids unique.
