/** The credential record, the add-dialog draft, and the list and set updates of the vault screen. */
module Records {
  import opened JsString

  datatype Category = Website | Api | Database | Other

  /** The string a category is stored and compared as. */
  function CategoryName(c: Category): (name: string)
    ensures name != "all"
  {
    match c
    case Website => "website"
    case Api => "api"
    case Database => "database"
    case Other => "other"
  }

  datatype Credential = Credential(
    id: string, title: string, username: string, password: string,
    url: string, notes: string, category: Category,
    createdAt: string, updatedAt: string)

  /** The fields of the add dialog. */
  datatype Draft = Draft(
    title: string, username: string, password: string,
    url: string, notes: string, category: Category)

  const EmptyDraft := Draft("", "", "", "", "", Website)

  /**
   * The record addCredential builds: the id is the clock in milliseconds printed in decimal,
   * the draft's fields are copied, and the two ISO timestamps are passed in.
   */
  function NewCredential(d: Draft, clock: nat, createdAt: string, updatedAt: string): Credential {
    Credential(DecimalString(clock), d.title, d.username, d.password, d.url, d.notes, d.category,
               createdAt, updatedAt)
  }

  /** Two records added at different milliseconds get different ids; at the same millisecond, the same id. */
  lemma NewCredentialIdsCollideIffSameClock(d1: Draft, d2: Draft, t1: nat, t2: nat,
                                            created1: string, updated1: string, created2: string, updated2: string)
    ensures NewCredential(d1, t1, created1, updated1).id == NewCredential(d2, t2, created2, updated2).id <==> t1 == t2
  {
    DecimalInjective(t1, t2);
  }

  /** sub is obtained from s by dropping elements, keeping the order of the rest. */
  predicate IsSubsequence<T(==)>(sub: seq<T>, s: seq<T>)
    decreases |s|
  {
    if sub == [] then true
    else if s == [] then false
    else if sub[0] == s[0] then IsSubsequence(sub[1..], s[1..])
    else IsSubsequence(sub, s[1..])
  }

  /** Array.prototype.filter. */
  function KeepIf<T>(s: seq<T>, keep: T -> bool): seq<T> {
    if s == [] then []
    else if keep(s[0]) then [s[0]] + KeepIf(s[1..], keep)
    else KeepIf(s[1..], keep)
  }

  /**
   * The filter keeps exactly the elements that pass, each as often as it occurs, in their
   * original order.
   */
  lemma {:induction false} KeepIfSpec<T(!new)>(s: seq<T>, keep: T -> bool)
    ensures forall x :: x in KeepIf(s, keep) <==> x in s && keep(x)
    ensures forall x :: multiset(KeepIf(s, keep))[x] == if keep(x) then multiset(s)[x] else 0
    ensures IsSubsequence(KeepIf(s, keep), s)
  {
    if s != [] {
      KeepIfSpec(s[1..], keep);
      assert s == [s[0]] + s[1..];
    }
  }

  /** Every element kept means nothing is dropped. */
  lemma {:induction false} KeepIfAll<T(!new)>(s: seq<T>, keep: T -> bool)
    requires forall x :: x in s ==> keep(x)
    ensures KeepIf(s, keep) == s
  {
    if s != [] {
      KeepIfAll(s[1..], keep);
      assert s == [s[0]] + s[1..];
    }
  }

  /** The list deleteCredential keeps. */
  function WithoutId(creds: seq<Credential>, id: string): seq<Credential> {
    KeepIf(creds, (c: Credential) => c.id != id)
  }

  /**
   * Deleting an id removes every record with that id and keeps every other record, as often
   * as it occurred and in the original order.
   */
  lemma WithoutIdKeepsOthers(creds: seq<Credential>, id: string)
    ensures forall c :: c in WithoutId(creds, id) ==> c.id != id
    ensures forall c :: c in creds && c.id != id ==> c in WithoutId(creds, id)
    ensures forall c :: multiset(WithoutId(creds, id))[c] == if c.id == id then 0 else multiset(creds)[c]
    ensures IsSubsequence(WithoutId(creds, id), creds)
  {
    KeepIfSpec(creds, (c: Credential) => c.id != id);
  }

  /** Deleting an id no record carries changes nothing. */
  lemma WithoutAbsentId(creds: seq<Credential>, id: string)
    requires forall c :: c in creds ==> c.id != id
    ensures WithoutId(creds, id) == creds
  {
    KeepIfAll(creds, (c: Credential) => c.id != id);
  }

  /** The visibility set after togglePasswordVisibility(id). */
  function Toggled(shown: set<string>, id: string): (r: set<string>)
    ensures id in r <==> id !in shown
    ensures forall x :: x != id ==> (x in r <==> x in shown)
  {
    if id in shown then shown - {id} else shown + {id}
  }

  /** Toggling the same id twice restores the set. */
  lemma ToggleTwice(shown: set<string>, id: string)
    ensures Toggled(Toggled(shown, id), id) == shown
  {
  }
}
