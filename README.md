# Folder creation in sketzi, modelled in Dafny

sketzi is a notes app. It keeps its data as JSON arrays in the device's
key-value storage (AsyncStorage), and each screen loads, changes and writes back
whole collections. This project models the one screen that creates folders:
`app/notes/createpasta.tsx`. It covers the `Folder` record, `generateUniqueId`,
and the save handler `handleSaveFolder`.

The handler runs in seven steps:

1. It refuses a name that is blank once trimmed.
2. It reads the `folders` key. A missing key or an empty text counts as an empty collection.
3. It refuses a name that some stored name equals, ignoring case.
4. It builds `{id, name, createdAt}` from the clock and the trimmed name.
5. It appends that record to the loaded array.
6. It writes the whole array back under the same key.
7. It reports any exception as one storage error.

Modules, one per concern:

- `JsString` (`jsstring.dfy`) holds the JavaScript built-ins the handler calls.
  - `Trim` is written over the exact ECMAScript WhiteSpace and LineTerminator set.
  - `ToLower` folds case.
  - `DecimalString` is `Number.prototype.toString` on a non-negative integer.
  - `ParseDecimal` is the reference that reads those digits back.
- `FolderRecord` (`folder.dfy`) holds the `Folder` datatype and `GenerateUniqueId`.
- `AsyncStorage` (`async_storage.dfy`) holds the storage.
  - The class `KeyValueStore` has a map from key to stored value.
  - Two flags say whether the platform rejects reads or writes.
  - A ghost log records every `getItem`/`setItem` call, in order. The log is a device of the proofs; the platform keeps no such log.
  - A stored value is modelled by what `JSON.parse` makes of it: a folder array, the empty text, or something unparsable.
- `CreateFolder` (`create_folder.dfy`) holds the handler.
  - `SaveFolderRun` is the handler as a pure function of the stored map, the two fault flags, the typed name and the two clock readings. It returns the outcome, the calls made and the stored map afterwards.
  - `HandleSaveFolder` is the same handler, step by step, as a method against a `KeyValueStore`. It is proved equal to `SaveFolderRun`.
  - The lemmas state what the screen promises about the `folders` collection.

The clock readings are parameters: `Date.now()` is a `nat` of milliseconds, and
`new Date().toISOString()` is a string.

## Model

| member | source | states |
|---|---|---|
| `JsString.TrimStart` | app/notes/createpasta.tsx:23 | The result is a suffix of the input. Everything cut off is white space. The result does not start with white space. |
| `JsString.TrimEnd` | app/notes/createpasta.tsx:23 | The result is a prefix of the input. Everything cut off is white space. The result does not end with white space. |
| `JsString.Trim` | app/notes/createpasta.tsx:23 | `trim()` is empty exactly when the name is all white space, so `!folderName.trim()` means a blank name. A non-empty result neither starts nor ends with white space. |
| `JsString.TrimSlice` | app/notes/createpasta.tsx:42 | The trimmed name is a contiguous slice of the typed name, and everything around that slice is white space. |
| `JsString.TrimIdempotent` | app/notes/createpasta.tsx:42 | Trimming a trimmed name changes nothing, so the stored name is already trimmed. |
| `JsString.TrimStartPast` | app/notes/createpasta.tsx:23 | Leading white space before a text that starts with a visible character is exactly what `TrimStart` removes. |
| `JsString.TrimEndPast` | app/notes/createpasta.tsx:23 | Trailing white space after a text that ends with a visible character is exactly what `TrimEnd` removes. |
| `JsString.TrimPadded` | app/notes/createpasta.tsx:34 | Putting white space around a trimmed name and trimming again gives the trimmed name back. |
| `JsString.LowerChar` | app/notes/createpasta.tsx:34 | No capital letter is left. A capital becomes its small letter (code point + 0x20), and every other character is kept. |
| `JsString.ToLower` | app/notes/createpasta.tsx:34 | `toLowerCase()` keeps the length and leaves no capital. It lowers every capital and keeps every other character. |
| `JsString.LowerCharKeepsNonWhiteSpace` | app/notes/createpasta.tsx:34 | Lower-casing never turns a visible character into white space. |
| `JsString.ToLowerIdempotent` | app/notes/createpasta.tsx:34 | Lower-casing a lower-cased name changes nothing. |
| `JsString.ToLowerIgnoresCase` | app/notes/createpasta.tsx:34 | Two names of the same length lower to the same text when, at each position, the characters are equal or one is a capital and the other its small letter. |
| `JsString.DigitChar` | app/notes/createpasta.tsx:15 | A digit value below ten prints as one decimal digit that reads back as that value. |
| `JsString.DecimalString` | app/notes/createpasta.tsx:15 | `toString()` of the millisecond count is a non-empty string of decimal digits with no leading zero. |
| `JsString.ParseDecimalString` | app/notes/createpasta.tsx:15 | Reading the printed digits back gives the original number (round trip). |
| `JsString.DecimalStringInjective` | app/notes/createpasta.tsx:15 | Different numbers never print alike. |
| `FolderRecord.GenerateUniqueId` | app/notes/createpasta.tsx:14-16 | The identifier is non-empty and all decimal digits, with no leading zero (the canonical `toString` form). It reads back as the clock reading it came from. |
| `FolderRecord.DistinctMillisDistinctIds` | app/notes/createpasta.tsx:14-16 | Identifiers taken in different milliseconds differ. |
| `AsyncStorage.ReadAfterWrite` | app/notes/createpasta.tsx:50 | After `setItem(key, value)`, reading `key` gives `value` back, and every other key reads as it did before the write. |
| `AsyncStorage.KeyValueStore.GetItem` | app/notes/createpasta.tsx:30 | A read is logged. It rejects exactly when reads fail, and otherwise yields the stored value or none. It never changes what is stored. |
| `AsyncStorage.KeyValueStore.SetItem` | app/notes/createpasta.tsx:50 | A write is logged. It rejects exactly when writes fail, and then stores nothing. Otherwise it replaces the value under that key and leaves every other key alone. |
| `CreateFolder.ParseFolders` | app/notes/createpasta.tsx:31 | Loading throws exactly when the stored text is not a folder array. A missing key and the empty text (both falsy) load as the empty collection, and a stored folder array loads as itself. |
| `CreateFolder.NameTakenAppend` | app/notes/createpasta.tsx:34 | The duplicate test over a collection with one more folder holds exactly when it held before, or the new folder's name equals the typed name trimmed, ignoring case. |
| `CreateFolder.NewFolder` | app/notes/createpasta.tsx:40-44 | The new record's name is the typed name trimmed. It is blank only for a blank entry, and otherwise has no white space at either end. Its identifier is `generateUniqueId` of the clock reading, a digit string that reads back as that reading. Its creation time is the ISO text. |
| `CreateFolder.SaveFolderRun` | app/notes/createpasta.tsx:22-60 | A blank name gives `EmptyName` with no storage call at all. A duplicate gives `Duplicate` after exactly one read and no write. Any outcome but `Ok` leaves storage unchanged. Keys other than `folders` are never changed. `Ok` happens exactly when the name is not blank, the read succeeds, the collection parses, the name is not taken and the write succeeds. On `Ok`, the saved array is the loaded one with one more record at the end: every earlier record is kept in place, and the new record has the trimmed name, the clock's identifier and the ISO time. The write carries exactly that array. A failed read, or a collection that does not parse, gives `StorageError` after that one read. A rejected write gives `StorageError` after the read and an attempted write of the whole new collection. |
| `CreateFolder.HandleSaveFolder` | app/notes/createpasta.tsx:22-60 | The step-by-step handler returns `SaveFolderRun`'s outcome. It leaves the store holding `SaveFolderRun`'s map, and it appends exactly `SaveFolderRun`'s calls to the log. |
| `CreateFolder.FirstFolderIsWholeCollection` | app/notes/createpasta.tsx:30-31 | With no `folders` key, a non-blank name and storage that accepts both calls, the create succeeds, and the collection is then exactly the one new folder. |
| `CreateFolder.EmptyTextActsAsMissingKey` | app/notes/createpasta.tsx:31 | A stored empty text is treated like a missing key: same outcome and same calls. |
| `CreateFolder.AppendKeepsNamesTrimmed` | app/notes/createpasta.tsx:42-47 | Appending a trimmed, non-blank name keeps every stored name trimmed and non-blank. |
| `CreateFolder.AppendKeepsNamesDistinct` | app/notes/createpasta.tsx:34-47 | Appending a name that clashes with no stored name, ignoring case, keeps the stored names pairwise distinct, ignoring case. |
| `CreateFolder.CreatePreservesWellFormed` | app/notes/createpasta.tsx:34-47 | If the stored names are trimmed, non-blank and pairwise distinct ignoring case, they still are after a successful create. |
| `CreateFolder.CreateAgainIsDuplicate` | app/notes/createpasta.tsx:34-37 | After a create that succeeded, and with storage accepting the read, creating the same name again is refused as `Duplicate` and writes nothing. This holds in any capitalisation, with any surrounding white space and at any later time. |
| `CreateFolder.SameMillisecondIdsCollide` | app/notes/createpasta.tsx:40-44 | Take storage that accepts every call, and two names that differ ignoring case. Suppose the second name clashes with no name stored before the first create. Then two creates in the same millisecond both succeed, and the two new folders share one identifier. |
| `CreateFolder.UntrimmedStoredNameNeverMatches` | app/notes/createpasta.tsx:34 | Only the typed name is trimmed. A stored name that starts with white space never matches whatever is typed. |
| `CreateFolder.SurroundingSpaceIgnored` | app/notes/createpasta.tsx:34 | White space typed around a name does not change the duplicate test. |

## Left out

- The React Native view, the styles, the `Alert` dialogs, the `console.error` logging and the `router.back()` navigation are not modelled. In the source, an exception thrown by the success alert or by navigation after a successful write would also land in the catch block. The model only reports storage failures there.
- The `maxLength={50}` limit belongs to the text input, not to the handler, so it is not modelled.
- The two `await`s can interleave with other screens writing the same key (last writer wins). The model runs the handler alone on one store.
- AsyncStorage itself is a foreign call. It is a map plus two fault flags: a rejected `setItem` stores nothing, and the flags hold for the whole call.
- `JSON.parse` and `JSON.stringify` are foreign calls. A stored value is modelled by what parsing makes of it, and writing an array stores exactly that array. Any text that is not a folder array counts as `Unparsable` and gives `StorageError`. This includes JSON that is not an array and an array with an element that has no string `name`. In the source, `some` stops at the first match, so a duplicate placed before such an element would still be reported as `Duplicate`.
- `Date.now()` and `new Date().toISOString()` are clock reads, so they are parameters. The ISO text is not checked for format.
- `JsString.ToLower`: lowers only ASCII A–Z and the Latin-1 capitals U+00C0–U+00DE (except U+00D7). JavaScript's `toLowerCase` applies full Unicode case mapping, including mappings that change a string's length.
- `JsString.LowerChar`: maps only ASCII A–Z and the Latin-1 capitals U+00C0–U+00DE (except U+00D7) to small letters. Every other character, including capitals outside that range, is kept as it is.
- `JsString.Trim`: works on Unicode scalar values. JavaScript strings are UTF-16 code units, and every character `trim` removes is a single code unit, so the results agree.
- `JsString.DecimalString`: prints plain decimal digits for every `nat`. JavaScript switches to exponent notation from 10^21. Clock readings in milliseconds are far below that, and negative clock readings are not modelled.
- The other app files are not part of this model: the login and account screens, the note editor's local state, the settings screens and the tab screens that list notes, lists and reminders.
