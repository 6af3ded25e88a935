/**
 * The CredStore component: the stored slot, and the session around it with its lock state,
 * the passphrase and decrypted list it holds, the visibility set, the search state, the add
 * dialog's draft, the pending debounced save and the time of the last activity.
 *
 * Clocks are explicit: every step that reads Date.now() takes `now`, and the timers become
 * the steps FireSave (the debounce timer) and AutoLockCheck (the 30-second interval).
 */
module Vault {
  import opened Common
  import opened JsString
  import opened Crypto
  import opened Records
  import opened Codec
  import opened Debounce
  import Hex
  import Search
  import Generator

  /** Inactivity, in milliseconds, after which the periodic check locks the vault. */
  const AutoLockAfter := 300000

  /** The localStorage slot "credstore_data". */
  class VaultStore {
    var slot: Option<StoredText>

    constructor (initial: Option<StoredText>)
      ensures slot == initial
    {
      slot := initial;
    }

    method SetItem(text: StoredText)
      modifies this
      ensures slot == Some(text)
    {
      slot := Some(text);
    }

    method RemoveItem()
      modifies this
      ensures slot == None
    {
      slot := None;
    }
  }

  /** The reset button: the slot is removed; the page reload that follows starts a fresh Session. */
  method ResetCredStore(store: VaultStore)
    modifies store
    ensures store.slot == None
  {
    store.RemoveItem();
  }

  /** What handleUnlock concludes from the entered passphrase and the stored slot. */
  datatype UnlockResult = BlankPassphrase | Opened(items: seq<Credential>) | Rejected

  /** A missing item and the empty string are both falsy, so unlock treats both as a first run. */
  predicate NothingSaved(saved: Option<StoredText>) {
    saved == None || saved == Some(EmptyText)
  }

  function UnlockResultOf(passphrase: string, saved: Option<StoredText>): UnlockResult {
    if Trim(passphrase) == "" then BlankPassphrase
    else if NothingSaved(saved) then Opened([])
    else if saved.value.Unparsable? then Rejected
    else match DecryptData(saved.value.value, passphrase)
      case Success(CredentialArray(items)) => Opened(items)
      case _ => Rejected
  }

  /** An empty or whitespace-only passphrase, and only such a one, is refused before the slot is read. */
  lemma UnlockBlankIffWhitespace(passphrase: string, saved: Option<StoredText>)
    ensures UnlockResultOf(passphrase, saved) == BlankPassphrase <==> Blank(passphrase)
  {
    TrimEmptyIffBlank(passphrase);
  }

  /** First run: with nothing stored, or an empty string stored, any non-blank passphrase opens an empty vault. */
  lemma UnlockFirstRun(passphrase: string, saved: Option<StoredText>)
    requires !Blank(passphrase) && NothingSaved(saved)
    ensures UnlockResultOf(passphrase, saved) == Opened([])
  {
    TrimEmptyIffBlank(passphrase);
  }

  /** A list saved under a passphrase is exactly what that passphrase opens. */
  lemma UnlockRoundTrip(list: seq<Credential>, passphrase: string, saltRandom: seq<Byte>, iv: seq<Byte>)
    requires !Blank(passphrase)
    requires |saltRandom| == Hex.SaltBytes && |iv| == IvBytes
    ensures UnlockResultOf(passphrase, Some(Parsed(VaultRecord(EncryptData(CredentialArray(list), passphrase, saltRandom, iv)))))
            == Opened(list)
  {
    TrimEmptyIffBlank(passphrase);
  }

  /** Any other non-blank passphrase is rejected. */
  lemma UnlockWrongPassphrase(list: seq<Credential>, passphrase: string, attempt: string, saltRandom: seq<Byte>, iv: seq<Byte>)
    requires !Blank(attempt) && attempt != passphrase
    requires |saltRandom| == Hex.SaltBytes && |iv| == IvBytes
    ensures UnlockResultOf(attempt, Some(Parsed(VaultRecord(EncryptData(CredentialArray(list), passphrase, saltRandom, iv)))))
            == Rejected
  {
    TrimEmptyIffBlank(attempt);
  }

  /** A plaintext that decrypts but is not an array is rejected like a wrong passphrase. */
  lemma UnlockNonArrayRejected(doc: Document, passphrase: string, saltRandom: seq<Byte>, iv: seq<Byte>)
    requires !Blank(passphrase) && !doc.CredentialArray?
    requires |saltRandom| == Hex.SaltBytes && |iv| == IvBytes
    ensures UnlockResultOf(passphrase, Some(Parsed(VaultRecord(EncryptData(doc, passphrase, saltRandom, iv))))) == Rejected
  {
    TrimEmptyIffBlank(passphrase);
  }

  /**
   * A stored slot opens only if it is the empty string, which opens an empty vault, or holds
   * that very list sealed under the entered passphrase.
   */
  lemma UnlockOpensOnlyGenuine(passphrase: string, text: StoredText, items: seq<Credential>)
    requires UnlockResultOf(passphrase, Some(text)) == Opened(items)
    ensures text.EmptyText? ==> items == []
    ensures !text.EmptyText? ==> text.Parsed? && text.value.VaultRecord?
    ensures text.Parsed? ==>
              (text.value.VaultRecord? &&
               var e := text.value.data;
               e.encrypted == Encrypt(DeriveKey(passphrase, e.salt), e.iv, CredentialArray(items)))
  {
  }

  /** The job a debounced save carries: the list to write and the passphrase captured when it was scheduled. */
  datatype SaveJob = SaveJob(list: seq<Credential>, passphrase: string)

  class Session {
    var isLocked: bool
    var masterPassword: string
    var credentials: seq<Credential>
    var searchTerm: string
    var selectedCategory: string
    var showPassword: set<string>
    var hasError: bool
    var newCredential: Draft
    var saveTimeout: Option<Pending<SaveJob>>
    var lastActivity: int
    const store: VaultStore

    /**
     * While locked no record, no visible password and no pending save is held; an unlocked
     * session's passphrase is non-blank unless it was wiped; a pending save always carries
     * the current list and passphrase.
     */
    ghost predicate Valid()
      reads this
    {
      && (isLocked ==> credentials == [] && showPassword == {} && saveTimeout == None)
      && (!isLocked ==> masterPassword == "" || !Blank(masterPassword))
      && (saveTimeout.Some? ==> saveTimeout.value.job == SaveJob(credentials, masterPassword) && masterPassword != "")
    }

    /**
     * Valid, except that a pending save may still carry an earlier list: the state between
     * setCredentials and the saveToStorage call that follows it.
     */
    ghost predicate ValidExceptPending()
      reads this
    {
      && (isLocked ==> credentials == [] && showPassword == {} && saveTimeout == None)
      && (!isLocked ==> masterPassword == "" || !Blank(masterPassword))
      && (saveTimeout.Some? ==> masterPassword != "")
    }

    /** The component's first render and mount effect: locked, with nothing held. */
    constructor (store: VaultStore, now: int)
      ensures Valid() && this.store == store
      ensures isLocked && masterPassword == "" && credentials == [] && showPassword == {} && !hasError
      ensures searchTerm == "" && selectedCategory == "all" && newCredential == EmptyDraft
      ensures saveTimeout == None && lastActivity == now
    {
      this.store := store;
      isLocked := true;
      masterPassword := "";
      credentials := [];
      searchTerm := "";
      selectedCategory := "all";
      showPassword := {};
      hasError := false;
      newCredential := EmptyDraft;
      saveTimeout := None;
      lastActivity := now;
    }

    /** cleanup: forget the passphrase, the records and the transient UI state, and cancel the pending save. */
    method Cleanup()
      modifies this
      ensures Valid()
      ensures masterPassword == "" && credentials == [] && showPassword == {} && !hasError
      ensures searchTerm == "" && selectedCategory == "all" && newCredential == EmptyDraft
      ensures saveTimeout == None
      ensures isLocked == old(isLocked) && lastActivity == old(lastActivity)
    {
      masterPassword := "";
      credentials := [];
      showPassword := {};
      hasError := false;
      searchTerm := "";
      selectedCategory := "all";
      newCredential := EmptyDraft;
      saveTimeout := None;
    }

    /** handleLock: locked, with everything cleanup forgets forgotten; a pending save is lost. */
    method HandleLock()
      modifies this
      ensures Valid() && isLocked
      ensures masterPassword == "" && credentials == [] && showPassword == {} && !hasError
      ensures searchTerm == "" && selectedCategory == "all" && newCredential == EmptyDraft
      ensures saveTimeout == None && lastActivity == old(lastActivity)
    {
      isLocked := true;
      Cleanup();
    }

    /** beforeunload: the session state is discarded without being saved. */
    method Teardown()
      modifies this
      ensures Valid()
      ensures masterPassword == "" && credentials == [] && showPassword == {} && !hasError
      ensures searchTerm == "" && selectedCategory == "all" && newCredential == EmptyDraft
      ensures saveTimeout == None
      ensures isLocked == old(isLocked) && lastActivity == old(lastActivity)
    {
      Cleanup();
    }

    /**
     * saveToStorage: with no passphrase nothing is scheduled; otherwise the pending save is
     * replaced by one for this list that fires a quiet period from now.
     */
    method SaveToStorage(list: seq<Credential>, now: int) returns (scheduled: bool)
      requires ValidExceptPending() && !isLocked && list == credentials
      modifies this`saveTimeout
      ensures Valid()
      ensures scheduled <==> masterPassword != ""
      ensures saveTimeout == if scheduled then Arm(SaveJob(list, masterPassword), now) else old(saveTimeout)
      ensures scheduled ==> saveTimeout == Step(Scheduler(old(saveTimeout), []), Call(SaveJob(list, masterPassword), now)).slot
    {
      if masterPassword == "" {
        return false;
      }
      saveTimeout := Arm(SaveJob(list, masterPassword), now);
      scheduled := true;
    }

    /**
     * The debounce timer at time now. When it is due, the pending list is encrypted under the
     * captured passphrase with fresh salt bytes and IV, and written if the store accepts it;
     * either way the slot is emptied. What was written opens under the session's passphrase
     * to exactly the session's list.
     */
    method FireSave(now: int, saltRandom: seq<Byte>, iv: seq<Byte>, accepted: bool) returns (written: bool)
      requires Valid()
      requires |saltRandom| == Hex.SaltBytes && |iv| == IvBytes
      modifies this`saveTimeout, store
      ensures Valid()
      ensures saveTimeout == if Fires(old(saveTimeout), now) then None else old(saveTimeout)
      ensures saveTimeout == Step(Scheduler(old(saveTimeout), []), Tick(now)).slot
      ensures Fires(old(saveTimeout), now) ==> Step(Scheduler(old(saveTimeout), []), Tick(now)).written == [old(saveTimeout).value.job]
      ensures written <==> Fires(old(saveTimeout), now) && accepted
      ensures written ==> store.slot == Some(Parsed(VaultRecord(EncryptData(
                CredentialArray(old(saveTimeout).value.job.list), old(saveTimeout).value.job.passphrase, saltRandom, iv))))
      ensures !written ==> store.slot == old(store.slot)
      ensures written ==> UnlockResultOf(masterPassword, store.slot) == Opened(credentials)
    {
      written := false;
      if Fires(saveTimeout, now) {
        var job := saveTimeout.value.job;
        saveTimeout := None;
        if accepted {
          var blob := EncryptData(CredentialArray(job.list), job.passphrase, saltRandom, iv);
          store.SetItem(Parsed(VaultRecord(blob)));
          written := true;
          UnlockRoundTrip(job.list, job.passphrase, saltRandom, iv);
        }
      }
    }

    /** The unlock screen's input: the typed passphrase replaces the held one. */
    method EnterPassphrase(text: string)
      requires Valid() && isLocked
      modifies this`masterPassword
      ensures Valid() && masterPassword == text
    {
      masterPassword := text;
    }

    /**
     * handleUnlock. A blank passphrase only raises the error flag. With nothing stored the
     * vault opens empty; a record that decrypts to an array opens with that array; anything
     * else raises the error flag and clears the entered passphrase, leaving the session locked.
     */
    method HandleUnlock(now: int)
      requires Valid() && isLocked
      modifies this
      ensures Valid()
      ensures var outcome := UnlockResultOf(old(masterPassword), store.slot);
        && (isLocked <==> !outcome.Opened?)
        && (hasError <==> !outcome.Opened?)
        && (outcome.Opened? ==> credentials == outcome.items && lastActivity == now)
        && (!outcome.Opened? ==> credentials == old(credentials) && lastActivity == old(lastActivity))
        && masterPassword == (if outcome.Rejected? then "" else old(masterPassword))
      ensures showPassword == old(showPassword) && saveTimeout == old(saveTimeout)
      ensures searchTerm == old(searchTerm) && selectedCategory == old(selectedCategory)
      ensures newCredential == old(newCredential)
    {
      TrimEmptyIffBlank(masterPassword);
      if Trim(masterPassword) == "" {
        hasError := true;
        return;
      }
      hasError := false;
      if NothingSaved(store.slot) {
        credentials := [];
        isLocked := false;
        lastActivity := now;
      } else if store.slot.value.Unparsable? {
        hasError := true;
        masterPassword := "";
      } else {
        var decrypted := DecryptData(store.slot.value.value, masterPassword);
        if decrypted.Success? && decrypted.value.CredentialArray? {
          credentials := decrypted.value.items;
          isLocked := false;
          lastActivity := now;
        } else {
          hasError := true;
          masterPassword := "";
        }
      }
    }

    /** A mousedown or keydown. */
    method RecordActivity(now: int)
      requires Valid()
      modifies this`lastActivity
      ensures Valid() && lastActivity == now
    {
      lastActivity := now;
    }

    /** The periodic check: locks an unlocked session idle for strictly more than five minutes. */
    method AutoLockCheck(now: int)
      requires Valid()
      modifies this
      ensures Valid()
      ensures isLocked <==> old(isLocked) || now - old(lastActivity) > AutoLockAfter
      ensures !old(isLocked) && isLocked ==>
                masterPassword == "" && credentials == [] && showPassword == {} && !hasError
                && searchTerm == "" && selectedCategory == "all" && newCredential == EmptyDraft
                && saveTimeout == None && lastActivity == old(lastActivity)
      ensures old(isLocked) || now - old(lastActivity) <= AutoLockAfter ==> unchanged(this)
    {
      if !isLocked && now - lastActivity > AutoLockAfter {
        HandleLock();
      }
    }

    /** visibilitychange: a hidden page locks an unlocked session. */
    method VisibilityChange(hidden: bool)
      requires Valid()
      modifies this
      ensures Valid()
      ensures isLocked <==> old(isLocked) || hidden
      ensures !old(isLocked) && hidden ==>
                masterPassword == "" && credentials == [] && showPassword == {} && !hasError
                && searchTerm == "" && selectedCategory == "all" && newCredential == EmptyDraft
                && saveTimeout == None && lastActivity == old(lastActivity)
      ensures old(isLocked) || !hidden ==> unchanged(this)
    {
      if hidden && !isLocked {
        HandleLock();
      }
    }

    /** The add dialog's inputs. */
    method SetDraft(d: Draft)
      requires Valid()
      modifies this`newCredential
      ensures Valid() && newCredential == d
    {
      newCredential := d;
    }

    /** generatePassword: the draft's password becomes a fresh 12-character password. */
    method GeneratePassword(random: seq<Byte>)
      requires Valid() && |random| == Generator.PasswordLength
      modifies this`newCredential
      ensures Valid()
      ensures newCredential == old(newCredential).(password := Generator.GeneratePassword(random))
    {
      newCredential := newCredential.(password := Generator.GeneratePassword(random));
    }

    /**
     * addCredential: the draft, stamped with an id from the clock, is appended after every
     * existing record, a save of the new list is scheduled, and the draft is emptied.
     */
    method AddCredential(now: nat, createdAt: string, updatedAt: string) returns (scheduled: bool)
      requires Valid() && !isLocked
      modifies this
      ensures Valid() && !isLocked
      ensures credentials == old(credentials) + [NewCredential(old(newCredential), now, createdAt, updatedAt)]
      ensures scheduled <==> masterPassword != ""
      ensures saveTimeout == if scheduled then Arm(SaveJob(credentials, masterPassword), now) else None
      ensures newCredential == EmptyDraft
      ensures masterPassword == old(masterPassword) && showPassword == old(showPassword) && hasError == old(hasError)
      ensures searchTerm == old(searchTerm) && selectedCategory == old(selectedCategory)
      ensures lastActivity == old(lastActivity)
    {
      var credential := NewCredential(newCredential, now, createdAt, updatedAt);
      credentials := credentials + [credential];
      scheduled := SaveToStorage(credentials, now);
      newCredential := EmptyDraft;
    }

    /**
     * deleteCredential: every record with this id is removed, the others keep their order, a
     * save of the new list is scheduled, and the id leaves the visibility set.
     */
    method DeleteCredential(id: string, now: int) returns (scheduled: bool)
      requires Valid() && !isLocked
      modifies this
      ensures Valid() && !isLocked
      ensures credentials == WithoutId(old(credentials), id)
      ensures showPassword == old(showPassword) - {id}
      ensures scheduled <==> masterPassword != ""
      ensures saveTimeout == if scheduled then Arm(SaveJob(credentials, masterPassword), now) else None
      ensures masterPassword == old(masterPassword) && newCredential == old(newCredential) && hasError == old(hasError)
      ensures searchTerm == old(searchTerm) && selectedCategory == old(selectedCategory)
      ensures lastActivity == old(lastActivity)
    {
      credentials := WithoutId(credentials, id);
      scheduled := SaveToStorage(credentials, now);
      showPassword := showPassword - {id};
    }

    /** togglePasswordVisibility: flips whether this one record's password is shown. */
    method TogglePasswordVisibility(id: string)
      requires Valid() && !isLocked
      modifies this`showPassword
      ensures Valid()
      ensures showPassword == Toggled(old(showPassword), id)
    {
      showPassword := Toggled(showPassword, id);
    }

    method SetSearchTerm(term: string)
      requires Valid()
      modifies this`searchTerm
      ensures Valid() && searchTerm == term
    {
      searchTerm := term;
    }

    method SetCategory(selected: string)
      requires Valid()
      modifies this`selectedCategory
      ensures Valid() && selectedCategory == selected
    {
      selectedCategory := selected;
    }

    /** The records the vault screen lists: those matching the search term and category, in order. */
    function Visible(): (r: seq<Credential>)
      reads this
      ensures forall c :: c in r <==> c in credentials && Search.Matches(c, searchTerm, selectedCategory)
      ensures forall c :: multiset(r)[c] == if Search.Matches(c, searchTerm, selectedCategory) then multiset(credentials)[c] else 0
      ensures IsSubsequence(r, credentials)
    {
      Search.FilteredIsMatchingSubsequence(credentials, searchTerm, selectedCategory);
      Search.FilteredCredentials(credentials, searchTerm, selectedCategory)
    }

    /**
     * handleUnlock followed by what React does next: the auto-lock effect depends on isLocked,
     * so when the lock state changes its teardown runs, and that teardown calls cleanup.
     * An unlock that succeeds is therefore left holding neither the records nor the passphrase.
     */
    method HandleUnlockAsCommitted(now: int)
      requires Valid() && isLocked
      modifies this
      ensures Valid()
      ensures var outcome := UnlockResultOf(old(masterPassword), store.slot);
        && (isLocked <==> !outcome.Opened?)
        && (outcome.Opened? ==>
              && masterPassword == "" && credentials == [] && showPassword == {} && !hasError
              && searchTerm == "" && selectedCategory == "all" && newCredential == EmptyDraft
              && saveTimeout == None && lastActivity == now)
        && (!outcome.Opened? ==>
              && hasError && credentials == old(credentials) && lastActivity == old(lastActivity)
              && masterPassword == (if outcome.Rejected? then "" else old(masterPassword))
              && showPassword == old(showPassword) && saveTimeout == old(saveTimeout)
              && searchTerm == old(searchTerm) && selectedCategory == old(selectedCategory)
              && newCredential == old(newCredential))
    {
      HandleUnlock(now);
      if !isLocked {
        Cleanup();
      }
    }
  }
}
