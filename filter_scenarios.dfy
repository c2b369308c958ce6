/** Two worked examples of the visible list over two logins. */
module FilterScenarios {
  import opened Wrappers
  import opened JsStrings
  import opened Sequences
  import opened Logins
  import opened LoginFilter

  function AccountA(): Login {
    Login("a@x.com", "", "foo", Some(map["type" := "single"]))
  }

  function AccountB(): Login {
    Login("b@x.com", "", "bar", Some(map["type" := "joint"]))
  }

  /** Filtering by type "single" with an empty search shows only the first account. */
  lemma FilterByTypeShowsMatching()
    ensures Visible([AccountA(), AccountB()], [], "", map["type" := "single"]) == [AccountA()]
  {
    var a, b := AccountA(), AccountB();
    var filters := map["type" := "single"];
    VisibleEmptySearch([a, b], [], filters);
    assert HasCategory(a, "type", "single");
    assert MatchesFilters(a, filters);
    assert !HasCategory(b, "type", "single");
    assert !MatchesFilters(b, filters);
    var p := FiltersPredicate(filters);
    assert [a, b] + [] == [a, b];
    assert [a, b][1..] == [b];
    assert Filter([b], p) == [] by { assert [b][1..] == []; }
    assert Filter([a, b], p) == [a] + Filter([b], p);
  }

  /** The first account's username, lower-cased, holds no 'b'. */
  lemma FirstAccountUsernameLacksB()
    ensures 'b' !in ToLowerCase(AccountA().username)
  {
    LowerCaseKeepsAbsent(AccountA().username, 'b');
  }

  /** The first account's description, lower-cased, holds no 'b'. */
  lemma FirstAccountDescriptionLacksB()
    ensures 'b' !in ToLowerCase(AccountA().description)
  {
    LowerCaseKeepsAbsent(AccountA().description, 'b');
  }

  /** The first account's category values, lower-cased, hold no 'b'. */
  lemma FirstAccountValuesLackB()
    ensures forall value :: value in AccountA().categories.value.Values ==> 'b' !in ToLowerCase(value)
  {
    LowerCaseKeepsAbsent("single", 'b');
    var categories := AccountA().categories.value;
    forall value | value in categories.Values
      ensures value == "single"
    {
      var key :| key in categories && categories[key] == value;
    }
  }

  lemma FirstAccountLacksBar()
    ensures !MatchesSearch(AccountA(), "bar")
  {
    LowerCaseUnchanged("bar");
    FirstAccountUsernameLacksB();
    FirstAccountDescriptionLacksB();
    FirstAccountValuesLackB();
    SearchMissesWithoutFirstChar(AccountA(), "bar");
  }

  lemma SecondAccountHasBar()
    ensures MatchesSearch(AccountB(), "bar")
  {
  }

  /** Searching "bar" with no filters shows only the account whose description is "bar". */
  lemma SearchShowsMatching()
    ensures Visible([AccountA(), AccountB()], [], "bar", map[]) == [AccountB()]
  {
    var a, b := AccountA(), AccountB();
    VisibleNoFilters([a, b], [], "bar");
    FirstAccountLacksBar();
    SecondAccountHasBar();
    var p := SearchPredicate("bar");
    assert [a, b] + [] == [a, b];
    assert [a, b][1..] == [b];
    assert Filter([b], p) == [b] by { assert [b][1..] == []; }
    assert Filter([a, b], p) == Filter([b], p);
  }
}
