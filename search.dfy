/** filteredCredentials: the list shown on the vault screen for a search term and a category. */
module Search {
  import opened JsString
  import opened Records

  /** The search term is empty, or occurs, ignoring case, in the title or in the username. */
  predicate MatchesSearch(c: Credential, term: string) {
    term == ""
    || Includes(ToLower(c.title), ToLower(term))
    || Includes(ToLower(c.username), ToLower(term))
  }

  /** The category filter is "all", or names the record's category. */
  predicate MatchesCategory(c: Credential, selected: string) {
    selected == "all" || CategoryName(c.category) == selected
  }

  predicate Matches(c: Credential, term: string, selected: string) {
    MatchesSearch(c, term) && MatchesCategory(c, selected)
  }

  /** With no term and category "all" the list itself is returned, otherwise the matching records. */
  function FilteredCredentials(creds: seq<Credential>, term: string, selected: string): seq<Credential> {
    if term == "" && selected == "all" then creds
    else KeepIf(creds, (c: Credential) => Matches(c, term, selected))
  }

  /**
   * A record is shown exactly when it matches, as often as it occurs in the list, and in
   * the list's order; the shortcut for an empty term and "all" agrees with the filter.
   */
  lemma FilteredIsMatchingSubsequence(creds: seq<Credential>, term: string, selected: string)
    ensures forall c :: c in FilteredCredentials(creds, term, selected) <==> c in creds && Matches(c, term, selected)
    ensures forall c :: multiset(FilteredCredentials(creds, term, selected))[c]
                        == if Matches(c, term, selected) then multiset(creds)[c] else 0
    ensures IsSubsequence(FilteredCredentials(creds, term, selected), creds)
  {
    var r := FilteredCredentials(creds, term, selected);
    var keep := (c: Credential) => Matches(c, term, selected);
    KeepIfSpec(creds, keep);
    if term == "" && selected == "all" {
      KeepIfAll(creds, keep);
      assert r == KeepIf(creds, keep);
    }
  }

  /** No term and category "all": the credential list itself. */
  lemma FilterAllIsIdentity(creds: seq<Credential>)
    ensures FilteredCredentials(creds, "", "all") == creds
  {
  }

  /** A term that occurs inside a title, in any letter case, finds that record. */
  lemma {:induction false} SearchFindsTitleInfix(c: Credential, before: string, term: string, after: string, selected: string)
    requires ToLower(c.title) == before + ToLower(term) + after
    requires MatchesCategory(c, selected)
    ensures c in FilteredCredentials([c], term, selected)
  {
    IncludesInfix(before, ToLower(term), after);
    FilteredIsMatchingSubsequence([c], term, selected);
  }

  /** An empty term with a category shows exactly the records of that category. */
  lemma CategoryOnly(creds: seq<Credential>, cat: Category)
    ensures forall c :: c in FilteredCredentials(creds, "", CategoryName(cat)) <==> c in creds && c.category == cat
  {
    FilteredIsMatchingSubsequence(creds, "", CategoryName(cat));
    forall c: Credential ensures CategoryName(c.category) == CategoryName(cat) <==> c.category == cat {
    }
  }
}
