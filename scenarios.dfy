/**
 * Whole-session walks through the vault: a record saved under "correct-horse" is found by
 * its passphrase and not by another, and search finds it ignoring case. The last method
 * follows the same steps through the component as React commits them.
 */
module Scenarios {
  import opened Common
  import opened JsString
  import opened Records
  import opened Codec
  import opened Vault

  const Gmail := Credential("1", "Gmail", "a@b.com", "x", "", "", Website, "", "")
  const Passphrase := "correct-horse"
  const SaltRandom: seq<Byte> := [1, 2, 3, 4, 5, 6, 7, 8]
  const Iv: seq<Byte> := [0, 1, 2, 3, 4, 5, 6, 7, 8, 9, 10, 11]

  function SavedVault(): Option<StoredText> {
    Some(Parsed(VaultRecord(EncryptData(CredentialArray([Gmail]), Passphrase, SaltRandom, Iv))))
  }

  lemma PassphraseNotBlank()
    ensures !Blank(Passphrase) && !Blank("wrong")
  {
    assert !IsJsSpace(Passphrase[0]);
    assert !IsJsSpace("wrong"[0]);
  }

  /** Searching "gmail" in any category "all" lists the "Gmail" record. */
  lemma SearchFindsGmail()
    ensures Search.FilteredCredentials([Gmail], "gmail", "all") == [Gmail]
  {
    var found := Search.FilteredCredentials([Gmail], "gmail", "all");
    assert ToLower(Gmail.title) == ToLower("gmail");
    assert Includes(ToLower(Gmail.title), ToLower("gmail"));
    assert Search.Matches(Gmail, "gmail", "all");
    Search.FilteredIsMatchingSubsequence([Gmail], "gmail", "all");
    assert multiset(found) == multiset{Gmail} by {
      forall c ensures multiset(found)[c] == multiset{Gmail}[c] {
        if c != Gmail { assert c !in found; }
      }
    }
    assert |found| == 1 by { assert |found| == |multiset(found)|; }
    assert found[0] in found;
  }

  /**
   * The intended session: the right passphrase opens the one saved record, and adding a
   * record then schedules a save.
   */
  method UnlockScenario() returns (listed: seq<Credential>, scheduled: bool)
    ensures listed == [Gmail] && scheduled
  {
    PassphraseNotBlank();
    UnlockRoundTrip([Gmail], Passphrase, SaltRandom, Iv);
    var store := new VaultStore(SavedVault());
    var session := new Session(store, 0);
    session.EnterPassphrase(Passphrase);
    session.HandleUnlock(1000);
    listed := session.credentials;
    session.SetDraft(Draft("AWS", "root", "k", "", "", Api));
    scheduled := session.AddCredential(2000, "", "");
  }

  /** After unlocking, typing "gmail" in the search box lists the "Gmail" record. */
  method SearchScenario() returns (found: seq<Credential>)
    ensures found == [Gmail]
  {
    PassphraseNotBlank();
    UnlockRoundTrip([Gmail], Passphrase, SaltRandom, Iv);
    var store := new VaultStore(SavedVault());
    var session := new Session(store, 0);
    session.EnterPassphrase(Passphrase);
    session.HandleUnlock(1000);
    session.SetSearchTerm("gmail");
    SearchFindsGmail();
    found := session.Visible();
  }

  /**
   * An idle session locks after five minutes and forgets its search state, so unlocking it
   * again lists the whole vault, whatever filter was set before.
   */
  method AutoLockThenUnlock(session: Session, now: int, passphrase: string, later: int) returns (listed: seq<Credential>)
    requires session.Valid() && !session.isLocked && now - session.lastActivity > AutoLockAfter
    modifies session
    ensures session.isLocked <==> !UnlockResultOf(passphrase, session.store.slot).Opened?
    ensures !session.isLocked ==> listed == session.credentials == UnlockResultOf(passphrase, session.store.slot).items
  {
    session.AutoLockCheck(now);
    session.EnterPassphrase(passphrase);
    session.HandleUnlock(later);
    Search.FilterAllIsIdentity(session.credentials);
    listed := session.Visible();
  }

  /** The wrong passphrase leaves the session locked, raises the error flag and clears the input. */
  method WrongPassphraseScenario() returns (locked: bool, flagged: bool, held: string)
    ensures locked && flagged && held == ""
  {
    PassphraseNotBlank();
    UnlockWrongPassphrase([Gmail], Passphrase, "wrong", SaltRandom, Iv);
    var store := new VaultStore(SavedVault());
    var session := new Session(store, 0);
    session.EnterPassphrase("wrong");
    session.HandleUnlock(1000);
    locked, flagged, held := session.isLocked, session.hasError, session.masterPassword;
  }

  /**
   * The same unlock through the component as written: the session opens, yet it lists no
   * record although the slot holds one, and a record added next schedules no save, so the
   * vault is never written again.
   */
  method UnlockScenarioAsCommitted() returns (locked: bool, listed: seq<Credential>, scheduled: bool)
    ensures !locked && listed == [] && !scheduled
  {
    PassphraseNotBlank();
    UnlockRoundTrip([Gmail], Passphrase, SaltRandom, Iv);
    var store := new VaultStore(SavedVault());
    var session := new Session(store, 0);
    session.EnterPassphrase(Passphrase);
    session.HandleUnlockAsCommitted(1000);
    locked := session.isLocked;
    listed := session.credentials;
    session.SetDraft(Draft("AWS", "root", "k", "", "", Api));
    scheduled := session.AddCredential(2000, "", "");
  }
}
