/**
 * The popup's filter engine: the free-text search predicate, the category
 * filter predicate `isMatchingActiveFilters`, and the visible list that
 * `updateDisplay` renders.
 */
module LoginFilter {
  import opened Wrappers
  import opened JsStrings
  import opened Sequences
  import opened Logins

  /**
   * The search predicate of `updateDisplay`: the lower-cased search string is
   * contained in the lower-cased username, description or any category value.
   */
  function MatchesSearch(login: Login, search: string): (matching: bool)
    ensures search == "" ==> matching
  {
    var query := ToLowerCase(search);
    || Includes(ToLowerCase(login.username), query)
    || Includes(ToLowerCase(login.description), query)
    || (login.categories.Some? &&
        exists value :: value in login.categories.value.Values && Includes(ToLowerCase(value), query))
  }

  /** What `isMatchingActiveFilters` computes: every active filter names a category the login has with that value. */
  predicate MatchesFilters(login: Login, activeFilters: map<string, string>) {
    forall key :: key in activeFilters ==> HasCategory(login, key, activeFilters[key])
  }

  function SearchPredicate(search: string): Login -> bool {
    login => MatchesSearch(login, search)
  }

  function FiltersPredicate(activeFilters: map<string, string>): Login -> bool {
    login => MatchesFilters(login, activeFilters)
  }

  /** The list `updateDisplay` renders: remote then custom logins, filtered by search, then by the active filters. */
  function Visible(remoteLogins: seq<Login>, customLogins: seq<Login>, search: string,
                   activeFilters: map<string, string>): (visible: seq<Login>)
    ensures |visible| <= |remoteLogins| + |customLogins|
    ensures forall i :: 0 <= i < |visible| ==>
      visible[i] in remoteLogins + customLogins &&
      MatchesSearch(visible[i], search) && MatchesFilters(visible[i], activeFilters)
    ensures forall i :: 0 <= i < |remoteLogins + customLogins| ==>
      var login := (remoteLogins + customLogins)[i];
      MatchesSearch(login, search) && MatchesFilters(login, activeFilters) ==> login in visible
  {
    Filter(Filter(remoteLogins + customLogins, SearchPredicate(search)), FiltersPredicate(activeFilters))
  }

  /**
   * `isMatchingActiveFilters`: one boolean per active filter is collected,
   * and the login matches when none of them is false.
   */
  method IsMatchingActiveFilters(login: Login, activeFilters: map<string, string>) returns (matching: bool)
    ensures matching == MatchesFilters(login, activeFilters)
  {
    var matches: seq<bool> := [];
    var remaining := activeFilters.Keys;
    ghost var visited: set<string> := {};
    while remaining != {}
      invariant remaining + visited == activeFilters.Keys
      invariant remaining !! visited
      invariant (false in matches) <==> exists key :: key in visited && !HasCategory(login, key, activeFilters[key])
      decreases remaining
    {
      var key :| key in remaining;
      matches := matches + [HasCategory(login, key, activeFilters[key])];
      remaining := remaining - {key};
      visited := visited + {key};
    }
    matching := false !in matches;
  }

  /** Substring form of the search predicate, with `includes` spelled out. */
  lemma MatchesSearchIsSubstring(login: Login, search: string)
    ensures MatchesSearch(login, search) <==>
      var query := ToLowerCase(search);
      || IsSubstring(query, ToLowerCase(login.username))
      || IsSubstring(query, ToLowerCase(login.description))
      || (login.categories.Some? &&
          exists value :: value in login.categories.value.Values && IsSubstring(query, ToLowerCase(value)))
  {
    var query := ToLowerCase(search);
    forall hay: string ensures Includes(hay, query) == IsSubstring(query, hay) {
      IncludesIsSubstring(hay, query);
    }
  }

  /** A lower-case search whose first character occurs in no searched field of the login fails. */
  lemma SearchMissesWithoutFirstChar(login: Login, search: string)
    requires search != [] && ToLowerCase(search) == search
    requires search[0] !in ToLowerCase(login.username) && search[0] !in ToLowerCase(login.description)
    requires login.categories.Some? ==>
      forall value :: value in login.categories.value.Values ==> search[0] !in ToLowerCase(value)
    ensures !MatchesSearch(login, search)
  {
    forall hay | search[0] !in hay ensures !Includes(hay, search) {
      NotIncludesWithoutFirstChar(hay, search);
    }
  }

  /** An empty search passes every login. */
  lemma EmptySearchMatches(login: Login)
    ensures MatchesSearch(login, "")
  {
  }

  /** The search is case-insensitive: it only sees the search string lower-cased. */
  lemma SearchIgnoresCase(login: Login, search: string, other: string)
    requires ToLowerCase(search) == ToLowerCase(other)
    ensures MatchesSearch(login, search) == MatchesSearch(login, other)
  {
  }

  /** A search string and its lower-cased form select the same logins. */
  lemma SearchLowerCased(login: Login, search: string)
    ensures MatchesSearch(login, search) == MatchesSearch(login, ToLowerCase(search))
  {
    ToLowerCaseIdempotent(search);
  }

  /** Neither predicate reads the password. */
  lemma PasswordNeverConsulted(login: Login, password: string, search: string, activeFilters: map<string, string>)
    ensures MatchesSearch(login.(password := password), search) == MatchesSearch(login, search)
    ensures MatchesFilters(login.(password := password), activeFilters) == MatchesFilters(login, activeFilters)
  {
  }

  /** With no active filter, every login passes (the conjunction is empty). */
  lemma NoFiltersMatch(login: Login)
    ensures MatchesFilters(login, map[])
  {
  }

  /** A missing `categories` object fails every non-empty set of filters, without an error. */
  lemma MissingCategoriesFail(login: Login, activeFilters: map<string, string>)
    requires login.categories.None? && activeFilters != map[]
    ensures !MatchesFilters(login, activeFilters)
  {
    var key :| key in activeFilters;
    assert !HasCategory(login, key, activeFilters[key]);
  }

  /**
   * The visible list is the order-preserving sub-list of `remoteLogins ++ customLogins`
   * holding exactly the logins that pass both predicates, each as often as it occurs there.
   */
  lemma {:induction false} VisibleExactly(remoteLogins: seq<Login>, customLogins: seq<Login>, search: string,
                                           activeFilters: map<string, string>, login: Login)
    ensures var visible := Visible(remoteLogins, customLogins, search, activeFilters);
      && IsSubsequence(visible, remoteLogins + customLogins)
      && (login in visible <==>
            login in remoteLogins + customLogins && MatchesSearch(login, search) && MatchesFilters(login, activeFilters))
      && multiset(visible)[login] ==
            if MatchesSearch(login, search) && MatchesFilters(login, activeFilters)
            then multiset(remoteLogins + customLogins)[login] else 0
  {
    var all := remoteLogins + customLogins;
    var searched := Filter(all, SearchPredicate(search));
    var visible := Filter(searched, FiltersPredicate(activeFilters));
    FilterIsSubsequence(all, SearchPredicate(search));
    FilterIsSubsequence(searched, FiltersPredicate(activeFilters));
    SubsequenceTransitive(visible, searched, all);
    FilterCount(all, SearchPredicate(search), login);
    FilterCount(searched, FiltersPredicate(activeFilters), login);
  }

  /** The visible list keeps order and holds only logins passing both predicates. */
  lemma VisibleIsFilteredSubsequence(remoteLogins: seq<Login>, customLogins: seq<Login>, search: string,
                                     activeFilters: map<string, string>)
    ensures var visible := Visible(remoteLogins, customLogins, search, activeFilters);
      && IsSubsequence(visible, remoteLogins + customLogins)
      && forall i :: 0 <= i < |visible| ==>
           MatchesSearch(visible[i], search) && MatchesFilters(visible[i], activeFilters)
  {
    var all := remoteLogins + customLogins;
    var searched := Filter(all, SearchPredicate(search));
    FilterIsSubsequence(all, SearchPredicate(search));
    FilterIsSubsequence(searched, FiltersPredicate(activeFilters));
    SubsequenceTransitive(Filter(searched, FiltersPredicate(activeFilters)), searched, all);
  }

  /** Applying the category filter before the search filter gives the same list. */
  lemma VisibleOrderOfFiltersIrrelevant(remoteLogins: seq<Login>, customLogins: seq<Login>, search: string,
                                        activeFilters: map<string, string>)
    ensures Visible(remoteLogins, customLogins, search, activeFilters) ==
      Filter(Filter(remoteLogins + customLogins, FiltersPredicate(activeFilters)), SearchPredicate(search))
  {
    FilterCommute(remoteLogins + customLogins, SearchPredicate(search), FiltersPredicate(activeFilters));
  }

  /** With an empty search only the category filter narrows the list. */
  lemma VisibleEmptySearch(remoteLogins: seq<Login>, customLogins: seq<Login>, activeFilters: map<string, string>)
    ensures Visible(remoteLogins, customLogins, "", activeFilters) ==
      Filter(remoteLogins + customLogins, FiltersPredicate(activeFilters))
  {
    forall login | login in remoteLogins + customLogins ensures SearchPredicate("")(login) {
      EmptySearchMatches(login);
    }
    FilterAll(remoteLogins + customLogins, SearchPredicate(""));
  }

  /** With no active filter only the search narrows the list. */
  lemma VisibleNoFilters(remoteLogins: seq<Login>, customLogins: seq<Login>, search: string)
    ensures Visible(remoteLogins, customLogins, search, map[]) ==
      Filter(remoteLogins + customLogins, SearchPredicate(search))
  {
    var searched := Filter(remoteLogins + customLogins, SearchPredicate(search));
    FilterAll(searched, FiltersPredicate(map[]));
  }

  /**
   * Monotonicity: adding (or keeping) filter entries only removes logins from the
   * visible list. The narrower list is the wider one filtered again.
   */
  lemma VisibleMonotone(remoteLogins: seq<Login>, customLogins: seq<Login>, search: string,
                        activeFilters: map<string, string>, moreFilters: map<string, string>)
    requires activeFilters.Keys <= moreFilters.Keys
    requires forall key :: key in activeFilters ==> moreFilters[key] == activeFilters[key]
    ensures Visible(remoteLogins, customLogins, search, moreFilters) ==
      Filter(Visible(remoteLogins, customLogins, search, activeFilters), FiltersPredicate(moreFilters))
    ensures IsSubsequence(Visible(remoteLogins, customLogins, search, moreFilters),
                          Visible(remoteLogins, customLogins, search, activeFilters))
  {
    var searched := Filter(remoteLogins + customLogins, SearchPredicate(search));
    FilterNarrow(searched, FiltersPredicate(activeFilters), FiltersPredicate(moreFilters));
    FilterIsSubsequence(Visible(remoteLogins, customLogins, search, activeFilters), FiltersPredicate(moreFilters));
  }

  /** Appending logins to the custom list appends their visible part to the visible list. */
  lemma VisibleAppendCustom(remoteLogins: seq<Login>, customLogins: seq<Login>, added: seq<Login>, search: string,
                            activeFilters: map<string, string>)
    ensures Visible(remoteLogins, customLogins + added, search, activeFilters) ==
      Visible(remoteLogins, customLogins, search, activeFilters) + Visible([], added, search, activeFilters)
  {
    assert remoteLogins + (customLogins + added) == (remoteLogins + customLogins) + added;
    assert [] + added == added;
    FilterAppend(remoteLogins + customLogins, added, SearchPredicate(search));
    FilterAppend(Filter(remoteLogins + customLogins, SearchPredicate(search)), Filter(added, SearchPredicate(search)),
                 FiltersPredicate(activeFilters));
  }
}
