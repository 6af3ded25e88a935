# CredStore vault: a Dafny model

CredStore keeps a list of secret records (logins, API keys) in the browser. The list is
encrypted under one master password and stored as a single blob. This project models the
vault subsystem of the `CredStore` component in `app/page.tsx`:

- the salt text made from random bytes;
- key derivation and authenticated encryption, as an ideal model;
- the stored slot `credstore_data`, with the shapes it can hold;
- the session's lock state machine: unlock, lock, teardown, auto-lock after five idle minutes,
  and lock when the page is hidden;
- the debounced save, a single pending write that each new request cancels and replaces;
- the record operations on the vault screen: add, delete, show/hide a password, search;
- the password generator.

The model proves these properties about its parts:

- hex salts decode back to their bytes;
- what a save writes opens under the same passphrase to exactly the saved list;
- every decryption failure looks the same to the caller;
- a burst of save requests writes once, with the last list;
- a locked session holds no record, no visible password and no pending save;
- the list, set and search operations have exact contents and order.

Modules, one per component:

- `Common`: `Byte`, `Option`, `Result`.
- `JsString`: the ECMAScript string operations the component relies on (`trim`, `toLowerCase`,
  `includes`, decimal `toString`).
- `Hex`: `generateSalt`.
- `Crypto`: PBKDF2 (section 5.2 of RFC 8018) and AES-GCM (NIST SP 800-38D). PBKDF2 is
  deterministic and is treated as collision-free, so a key is the tuple of its inputs. An
  AES-GCM ciphertext is a sealed term that only the same key and IV open. Any other bytes fail
  authentication.
- `Records`: the credential record, the add dialog's draft, and the list and set updates.
- `Search`: `filteredCredentials`.
- `Codec`: `encryptData` and `decryptData`, plus the stored shapes. A plaintext is represented
  by what `JSON.parse` makes of it (`Document`). The stored text is represented by its parse
  (`StoredText`).
- `Debounce`: the single-slot timer as a pure trace model (`Call` and `Tick` events).
- `Vault`: the `VaultStore` slot, the `Session` class with the component's state fields, and
  `UnlockResultOf`, the function `handleUnlock` is proved against.
- `Scenarios`: whole-session walks through an unlock, a wrong passphrase, a search, and an
  auto-lock followed by a new unlock. One walk
  follows the source as React commits it (see Findings).

Time is explicit. Each step that reads `Date.now()` takes a `now` parameter. The debounce timer
becomes the step `FireSave`, and the 30-second interval becomes the step `AutoLockCheck`.
Random bytes (salt, IV, password) are parameters.

Facts about the code that shape the model:

- The salt is 8 random bytes and PBKDF2 runs 10000 iterations (app/page.tsx:78, :93).
- PBKDF2 receives the salt's hex text, not the random bytes behind it (app/page.tsx:92).
- `handleUnlock` reports every failure with one error flag and clears the entered passphrase
  (app/page.tsx:473-476). The failures are unparsable stored text, a wrong shape, a failed
  decryption, and a plaintext that is not an array.
- `addCredential` appends the draft as it is (app/page.tsx:489-497). The dialog's button is
  disabled while a field is empty (app/page.tsx:752-754), but that is rendering, so the model
  appends whatever draft it is given.
- A blank passphrase raises the error flag and returns before the passphrase is cleared
  (app/page.tsx:447-450).
- `if (savedData)` (app/page.tsx:456) treats a stored empty string like a missing item, so
  both open an empty vault.

Some methods require a lock state. Add, delete and visibility toggling require an unlocked
session, because their controls render only then (app/page.tsx:581-590). Entering a passphrase
and `handleUnlock` require a locked session, because they belong to the unlock screen.

## Model

| member | source | states |
|---|---|---|
| `JsString.TrimEmptyIffBlank` | app/page.tsx:447 | `trim()` yields the empty string exactly when the passphrase is empty or made only of whitespace |
| `JsString.Trim` | app/page.tsx:447 | `trim()`: removes ECMAScript whitespace and line terminators from both ends (no contract of its own; see `TrimEmptyIffBlank`) |
| `JsString.ToLower` | app/page.tsx:574-575 | `toLowerCase()`, character by character (no contract of its own; its use is stated by `Search.SearchFindsTitleInfix`) |
| `JsString.Includes` | app/page.tsx:574-575 | `includes`: the needle occurs at some position (no contract of its own; see `IncludesInfix` and `IncludesWitness`) |
| `JsString.DecimalString` | app/page.tsx:491 | the id text is a non-empty run of decimal digits with no leading zero |
| `JsString.DecimalInjective` | app/page.tsx:491 | two clock readings print the same id text exactly when they are equal |
| `JsString.IncludesInfix` | app/page.tsx:574-575 | `includes` finds the term wherever it occurs in the text |
| `JsString.IncludesWitness` | app/page.tsx:574-575 | when `includes` reports a match, some slice of the text equals the term |
| `Hex.ByteToHexDigits` | app/page.tsx:80 | `toString(16)` padded to two characters is the byte's high then low nibble as lower-case digits |
| `Hex.ToRadix16` | app/page.tsx:80 | `toString(16)` of a byte: one or two lower-case hex digits (no contract of its own; see `ByteToHexDigits`) |
| `Hex.PadStart` | app/page.tsx:80 | `padStart(2, "0")`: the result is as long as the width, or as the text when that is longer |
| `Hex.PadStartContents` | app/page.tsx:80 | the padded text ends with the original text, and every character before it is the fill character |
| `Hex.ByteToHex` | app/page.tsx:80 | the per-byte lambda `byte.toString(16).padStart(2, "0")` (no contract of its own; see `ByteToHexDigits`) |
| `Hex.HexEncode` | app/page.tsx:80 | the joined text has two characters per byte, all lower-case hex digits |
| `Hex.GenerateSalt` | app/page.tsx:77-81 | eight random bytes give a 16-character lower-case hex salt |
| `Hex.HexRoundTrip` | app/page.tsx:77-80 | the salt text decodes back to exactly the bytes it was made from |
| `Hex.HexInjective` | app/page.tsx:77-80 | distinct random bytes give distinct salt texts, and conversely |
| `Crypto.DeriveKey` | app/page.tsx:83-103 | PBKDF2 with SHA-256, 10000 iterations and a 256-bit AES-GCM key over the passphrase and the salt text (no contract of its own; see `DeriveKeyInjective`) |
| `Crypto.DeriveKeyInjective` | app/page.tsx:83-103 | same passphrase and salt give the same key; a different passphrase or salt gives a different key |
| `Crypto.Encrypt` | app/page.tsx:111 | `crypto.subtle.encrypt` with AES-GCM: the ciphertext sealed under the key and IV (no contract of its own; see `Decrypt`) |
| `Crypto.Decrypt` | app/page.tsx:123-127 | AES-GCM decryption succeeds exactly for a ciphertext sealed under this key and IV, and then returns the sealed plaintext |
| `Records.CategoryName` | app/page.tsx:55 | no category is named "all", so the filter value "all" never equals a record's category |
| `Records.NewCredential` | app/page.tsx:490-495 | the record addCredential builds from the draft, the clock and two timestamps (no contract of its own; see `NewCredentialIdsCollideIffSameClock` and `Vault.Session.AddCredential`) |
| `Records.NewCredentialIdsCollideIffSameClock` | app/page.tsx:491 | two records get the same id exactly when they are added in the same millisecond |
| `Records.KeepIfSpec` | app/page.tsx:514 | `filter` keeps exactly the passing elements, each as often as it occurs, in their original order |
| `Records.KeepIf` | app/page.tsx:514 | `Array.prototype.filter` (no contract of its own; see `KeepIfSpec`) |
| `Records.WithoutId` | app/page.tsx:514 | the list without the records carrying the id (no contract of its own; see `WithoutIdKeepsOthers`) |
| `Records.KeepIfAll` | app/page.tsx:569-571 | a filter that every element passes returns the list unchanged |
| `Records.WithoutIdKeepsOthers` | app/page.tsx:514 | deleting an id removes every record with that id and keeps all others, with their multiplicity and order |
| `Records.WithoutAbsentId` | app/page.tsx:514 | deleting an id that no record carries leaves the list unchanged |
| `Records.Toggled` | app/page.tsx:555-565 | toggling flips the id's membership and leaves every other id's membership unchanged |
| `Records.ToggleTwice` | app/page.tsx:555-565 | toggling the same id twice restores the original set |
| `Search.FilteredIsMatchingSubsequence` | app/page.tsx:568-579 | a record is listed iff it matches the term (case-insensitive, in title or username) and the category; the listing keeps multiplicity and order; the shortcut for no term and "all" agrees |
| `Search.FilteredCredentials` | app/page.tsx:568-579 | `filteredCredentials`, with the shortcut for no term and "all" (no contract of its own; see `FilteredIsMatchingSubsequence`) |
| `Search.FilterAllIsIdentity` | app/page.tsx:569 | with no term and category "all" the listing is the credential list itself |
| `Search.SearchFindsTitleInfix` | app/page.tsx:572-575 | a term occurring in a title, in any letter case, finds that record |
| `Search.CategoryOnly` | app/page.tsx:576 | an empty term with a category lists exactly the records of that category |
| `Codec.EncryptData` | app/page.tsx:105-118 | the record carries the hex salt and the given IV, and decrypts under the same passphrase to the plaintext |
| `Codec.DecryptData` | app/page.tsx:120-133 | every failure is the single "Invalid password or corrupted data" error; success happens exactly for a genuine record sealed under this passphrase, salt and IV, and returns its plaintext |
| `Codec.DecryptRaw` | app/page.tsx:121-129 | the try block of decryptData: derive the key from the stored salt, then open the ciphertext with the stored IV (no contract of its own; see `DecryptData`) |
| `Codec.FailuresIndistinguishable` | app/page.tsx:130-131 | a wrong passphrase, a wrong shape and a forged ciphertext produce identical results |
| `Codec.WrongPassphraseRejected` | app/page.tsx:120-133 | a record encrypted under one passphrase fails under any other |
| `Codec.ForgedCiphertextRejected` | app/page.tsx:123-127 | replacing the ciphertext with bytes that no encryption produced makes decryption fail |
| `Codec.IvOrSaltChangeRejected` | app/page.tsx:122-126 | altering the stored IV or salt of a genuine record makes decryption fail |
| `Debounce.RunOnlyAppends` | app/page.tsx:376-386 | the timer only appends writes, at most one per event |
| `Debounce.Step` | app/page.tsx:370-386 | one event of the timer slot: a call re-arms it with its job, a due timer check writes the pending job and empties the slot (no contract of its own; see the lemmas below and `Vault.Session.SaveToStorage` and `FireSave`) |
| `Debounce.Arm` | app/page.tsx:370-376 | clearTimeout then setTimeout: only the new job is pending, due 500 ms from now (no contract of its own; see `ArmedIsLastCall`) |
| `Debounce.Fires` | app/page.tsx:376-386 | the timer callback runs once the 500 ms have passed (no contract of its own; see `QuietRun` and `BurstWritesLastJobOnce`) |
| `Debounce.Run` | app/page.tsx:364-394 | a sequence of events applied in order (no contract of its own; see the lemmas below) |
| `Debounce.ArmedIsLastCall` | app/page.tsx:370-376 | the job left pending is the one from the last request |
| `Debounce.QuietRun` | app/page.tsx:370-376 | while no timer check reaches the due time, nothing is written and the latest job stays pending |
| `Debounce.BurstWritesLastJobOnce` | app/page.tsx:364-394 | a burst of requests followed by one due timer check writes exactly one job, that of the last request, and leaves nothing pending |
| `Generator.MapToCharset` | app/page.tsx:484 | each byte becomes the charset character at index byte mod 70, position by position |
| `Generator.GeneratePassword` | app/page.tsx:480-486 | twelve random bytes give a 12-character password drawn from the charset |
| `Generator.ModuloBias` | app/page.tsx:484 | the first 46 charset characters have four byte preimages each, the other 24 have three |
| `Vault.ResetCredStore` | components/reset-button.tsx:20-32 | the reset removes the stored slot |
| `Vault.VaultStore.SetItem` | app/page.tsx:380 | `localStorage.setItem("credstore_data", …)` replaces the slot |
| `Vault.VaultStore.RemoveItem` | components/reset-button.tsx:24 | `localStorage.removeItem("credstore_data")` empties the slot |
| `Vault.UnlockResultOf` | app/page.tsx:446-477 | the outcome of `handleUnlock` for a passphrase and a slot (no contract of its own; see the `Unlock…` lemmas and `Vault.Session.HandleUnlock`) |
| `Vault.NothingSaved` | app/page.tsx:456 | `if (savedData)`: a missing item and the empty string are both falsy (no contract of its own; see `UnlockFirstRun`) |
| `Vault.UnlockBlankIffWhitespace` | app/page.tsx:447-450 | unlock refuses the passphrase before reading the slot exactly when it is empty or whitespace only |
| `Vault.UnlockFirstRun` | app/page.tsx:456-471 | with nothing stored, or an empty string stored, any non-blank passphrase opens an empty vault |
| `Vault.UnlockRoundTrip` | app/page.tsx:456-464 | a list saved under a passphrase is exactly what that passphrase opens |
| `Vault.UnlockWrongPassphrase` | app/page.tsx:456-476 | any other non-blank passphrase is rejected |
| `Vault.UnlockNonArrayRejected` | app/page.tsx:459-467 | a plaintext that decrypts but is not an array is rejected |
| `Vault.UnlockOpensOnlyGenuine` | app/page.tsx:456-471 | a stored slot opens only if it is the empty string, which opens an empty vault, or it holds that very list sealed under the entered passphrase |
| `Vault.Session.constructor` | app/page.tsx:315-335 | the component starts locked, holding no passphrase, records, visible passwords or pending save, with lastActivity at creation time |
| `Vault.Session.Cleanup` | app/page.tsx:338-356 | cleanup forgets the passphrase, records, visibility set, error flag, search state and draft, and cancels the pending save |
| `Vault.Session.HandleLock` | app/page.tsx:358-361 | lock sets locked and does everything cleanup does, so a pending save is lost |
| `Vault.Session.Teardown` | app/page.tsx:413-415 | page unload resets everything cleanup resets and cancels the pending save, without writing; the lock state and lastActivity are kept |
| `Vault.Session.SaveToStorage` | app/page.tsx:364-394 | called with the list just stored, it restores the session invariant; with an empty passphrase nothing is scheduled; otherwise the pending save is replaced by one for this list and the captured passphrase, due 500 ms from now, which is the debounce model's `Call` step |
| `Vault.Session.FireSave` | app/page.tsx:376-386 | the timer slot changes as the debounce model's `Tick` step changes it; a due timer encrypts the pending list under the captured passphrase and writes it if the store accepts; the slot empties either way; what is written opens under the session's passphrase to the session's list |
| `Vault.Session.EnterPassphrase` | app/page.tsx:288 | typing on the unlock screen replaces the held passphrase |
| `Vault.Session.HandleUnlock` | app/page.tsx:446-477 | the session opens exactly when `UnlockResultOf` opens, with those records and lastActivity reset; a blank passphrase only raises the error flag; a rejection keeps the session locked, raises the flag and clears the passphrase; nothing else changes |
| `Vault.Session.RecordActivity` | app/page.tsx:426-428 | a mouse or key event sets lastActivity |
| `Vault.Session.AutoLockCheck` | app/page.tsx:418-423 | an unlocked session locks exactly when strictly more than 300000 ms have passed since the last activity; on locking, every field cleanup resets is reset, the pending save is cancelled and lastActivity is kept; otherwise nothing changes |
| `Vault.Session.VisibilityChange` | app/page.tsx:407-411 | a hidden page locks an unlocked session and resets every field cleanup resets; otherwise nothing changes |
| `Vault.Session.SetDraft` | app/page.tsx:685-730 | the add dialog's inputs replace the draft |
| `Vault.Session.GeneratePassword` | app/page.tsx:480-486 | only the draft's password changes, to the generated one |
| `Vault.Session.AddCredential` | app/page.tsx:489-510 | exactly one record, built from the draft, is appended after the unchanged earlier ones; a save of the new list is scheduled when a passphrase is held; the draft is emptied |
| `Vault.Session.DeleteCredential` | app/page.tsx:512-525 | the list becomes the list without that id, a save of it is scheduled when a passphrase is held, and the id leaves the visibility set |
| `Vault.Session.TogglePasswordVisibility` | app/page.tsx:555-565 | the visibility set becomes the toggled set |
| `Vault.Session.SetSearchTerm` | app/page.tsx:637 | the search box sets the term |
| `Vault.Session.SetCategory` | app/page.tsx:641 | the category selector sets the selected category |
| `Vault.Session.Visible` | app/page.tsx:568-579 | the listed records are exactly those matching the session's term and category, each as often as in the list, in list order |
| `Vault.Session.HandleUnlockAsCommitted` | app/page.tsx:406-477 | as written, a successful unlock is followed by the effect teardown's cleanup: every field cleanup resets is reset, the pending save is cancelled and lastActivity is the unlock time; a blank or rejected attempt ends exactly as in `HandleUnlock` |
| `Scenarios.AutoLockThenUnlock` | app/page.tsx:338-579 | after an auto-lock, unlocking again opens exactly what `UnlockResultOf` opens, and the listing is the whole list because the search term and category were reset |
| `Scenarios.SearchFindsGmail` | app/page.tsx:568-579 | searching "gmail" with "all" lists the "Gmail" record |
| `Scenarios.UnlockScenario` | app/page.tsx:446-510 | the right passphrase opens the one saved record, and adding a record schedules a save |
| `Scenarios.WrongPassphraseScenario` | app/page.tsx:456-476 | a wrong passphrase leaves the session locked, raises the error flag and clears the input |
| `Scenarios.SearchScenario` | app/page.tsx:568-579 | after unlocking, the term "gmail" lists the "Gmail" record |
| `Scenarios.UnlockScenarioAsCommitted` | app/page.tsx:406-477 | as written, the same unlock lists no record, and a record added next schedules no save |

## Findings

| source | as written | input that shows it | evidently intended | confidence | as-written member | corrected member |
|---|---|---|---|---|---|---|
| app/page.tsx:406-443 | The auto-lock effect lists `isLocked` as a dependency, and its teardown calls `cleanup()`. React runs that teardown every time `isLocked` changes, including right after a successful unlock. Unlocking therefore wipes the decrypted records and the passphrase. With the passphrase empty, `saveToStorage` returns false for every later edit, so the vault is never written again. | A slot holding `[Gmail]` sealed under "correct-horse". Enter "correct-horse" and unlock. The session is unlocked, lists nothing, and the next add schedules no save. | After unlocking, the session keeps the passphrase and the decrypted records, and edits are saved. Teardown cleanup should run only on unmount. | not executed; follows from React's rule that an effect's cleanup runs before it re-runs on a dependency change | `Vault.Session.HandleUnlockAsCommitted`, `Scenarios.UnlockScenarioAsCommitted` | `Vault.Session.HandleUnlock`, `Scenarios.UnlockScenario` |

The rest of the model uses `HandleUnlock`, the intended behaviour.

## Left out

- PBKDF2 and AES-GCM internals (app/page.tsx:83-111) are WebCrypto calls. The model idealises
  them: the derived key is collision-free, and authentication is perfect (only a sealing under
  the same key and IV opens).
- Freshness of salt and IV: `crypto.getRandomValues` is replaced by parameters. That repeated
  encryptions get distinct salts and nonces is a probabilistic claim and is not stated.
- `JSON.stringify` and `JSON.parse` (app/page.tsx:378-380, 457-459) are not modelled as text.
  A plaintext is its parse result, and the stored text is its parse. Field losses in a JSON
  round trip are not modelled.
- `localStorage` is the `VaultStore` slot. A rejected `setItem` (for example, over quota) is the
  `accepted` parameter of `FireSave`. The `console.error` logging is not modelled.
  A `getItem` that throws inside `handleUnlock`'s try block (app/page.tsx:452-454; it would raise
  the error flag and clear the passphrase) is not modelled. Neither is a `removeItem` that throws
  during a reset (components/reset-button.tsx:22-31), which would leave the slot in place.
- `setTimeout` and `setInterval` become the explicit steps `FireSave` and `AutoLockCheck`. The
  30-second polling period is not modelled, so the model does not bound how late auto-lock
  happens.
- Asynchrony: an encryption in flight cannot overlap a later save in the model, because each
  step is atomic. The Promise that `saveToStorage` returns is modelled by the `scheduled` and
  `written` results. A cancelled save's Promise never settles; the model does not capture this.
- `Date.prototype.toISOString`: the createdAt and updatedAt texts are parameters.
- Crypto.DeriveKeyInjective: a `string` is a sequence of Unicode scalar values, not of UTF-16 code units. `TextEncoder` (app/page.tsx:84-85, 92) turns a lone surrogate into U+FFFD, so in the program two passphrases or salts that differ only in lone surrogates derive the same key. The model does not capture this, and the lemma holds for well-formed text only.
- Codec.WrongPassphraseRejected: holds for well-formed passphrases only, for the same reason as `Crypto.DeriveKeyInjective`.
- Vault.UnlockWrongPassphrase: holds for well-formed passphrases only, for the same reason as `Crypto.DeriveKeyInjective`.
- Codec.IvOrSaltChangeRejected: the stored IV is modelled as a sequence of bytes. `new Uint8Array(encryptedData.iv)` (app/page.tsx:124) reduces arbitrary JSON numbers modulo 256, so in the program two different stored IV arrays can give the same IV. The lemma covers only IV arrays whose values are already bytes.
- JsString.ToLower, JsString.LowerChar: case mapping covers ASCII and Latin-1 capitals only. Other Unicode case
  mappings of `toLowerCase` are not modelled.
- UI only: rendering (`CredentialCard`, `UnlockScreen`, dialogs, the add dialog's open flag),
  `exportData`, `copyToClipboard` and its fallback. The disabled state of the unlock and add
  buttons is not modelled either.
- The mount effect (app/page.tsx:397-403) calls `cleanup()` on already-initial state, so its
  effect is folded into the constructor.
- `window.location.reload()` after a reset is not modelled; a fresh `Session` stands for it.
- reset-credstore.ts defines an emergency reset that nothing in the application calls. It is
  not part of this model, apart from the slot removal it shares with the reset button.
- electron/main.js, capacitor.config.ts and app/layout.tsx are platform shell and markup.
  security-analysis.ts, storage-locations.ts and enhanced-security-options.ts hold
  documentation constants only. None of them is part of this model.
