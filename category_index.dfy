/**
 * `getCategories`: the index from each category key to the list of values the
 * popup offers in that key's select element.
 */
module CategoryIndex {
  import opened Wrappers
  import opened Sequences
  import opened Logins

  type Index = map<string, seq<string>>

  /**
   * How one entry (key, value) updates the key's list. `AsWritten` is the
   * branch in `getCategories`: a new value is appended, and in every other
   * case, including a value already listed, the list becomes [value].
   * `Intended` keeps the list when the value is already listed.
   */
  datatype Rule = AsWritten | Intended

  /** The key's list after the entry: it holds the new value, and otherwise only values listed before. */
  function Entry(rule: Rule, index: Index, key: string, value: string): (values: seq<string>)
    ensures value in values
    ensures forall v :: v in values ==> v == value || (key in index && v in index[key])
    ensures key in index && NoDuplicates(index[key]) ==> NoDuplicates(values)
  {
    if key in index && value !in index[key] then index[key] + [value]
    else if rule == Intended && key in index then index[key]
    else [value]
  }

  /** The index after the entries of `categories` whose keys are in `keys` have been handled. */
  function ApplyEntries(rule: Rule, index: Index, categories: map<string, string>, keys: set<string>): (updated: Index)
    requires keys <= categories.Keys
    ensures updated.Keys == index.Keys + keys
    ensures forall key :: key in keys ==> categories[key] in updated[key]
    ensures forall key :: key in index && key !in keys ==> updated[key] == index[key]
  {
    map key | key in index.Keys + keys :: if key in keys then Entry(rule, index, key, categories[key]) else index[key]
  }

  /** Every login has a `categories` object, so `Object.entries` does not throw. */
  predicate AllCategorized(logins: seq<Login>) {
    forall i :: 0 <= i < |logins| ==> logins[i].categories.Some?
  }

  /**
   * The properties a plain object `{}` inherits from `Object.prototype`. For
   * each of them `key in categoryCollection` already holds, and the inherited
   * value has no `includes` method.
   */
  const ObjectPrototypeNames: set<string> := {
    "constructor", "__proto__", "hasOwnProperty", "isPrototypeOf", "propertyIsEnumerable",
    "toLocaleString", "toString", "valueOf",
    "__defineGetter__", "__defineSetter__", "__lookupGetter__", "__lookupSetter__"
  }

  /** `getCategories` runs without a TypeError: every login has `categories` and none of its keys is inherited. */
  predicate Indexable(logins: seq<Login>) {
    forall i :: 0 <= i < |logins| ==>
      logins[i].categories.Some? && logins[i].categories.value.Keys !! ObjectPrototypeNames
  }

  /** The index built from `logins`, taken one login at a time from the left. */
  function Categories(rule: Rule, logins: seq<Login>): (index: Index)
    requires AllCategorized(logins)
    ensures forall key :: key in index ==> index[key] != []
  {
    if logins == [] then map[]
    else
      var categories := logins[|logins| - 1].categories.value;
      ApplyEntries(rule, Categories(rule, logins[..|logins| - 1]), categories, categories.Keys)
  }

  /** Handling one more key is one update of the index built so far. */
  lemma ApplyEntriesStep(rule: Rule, index: Index, categories: map<string, string>, done: set<string>, key: string)
    requires done <= categories.Keys && key in categories && key !in done
    ensures var partial := ApplyEntries(rule, index, categories, done);
      ApplyEntries(rule, index, categories, done + {key}) ==
        partial[key := Entry(rule, partial, key, categories[key])]
  {
  }

  /**
   * The inner `forEach` of `getCategories`: handles the entries of one login's
   * categories. `None` stands for the TypeError thrown at an inherited key.
   */
  method AddEntries(collection: Index, categories: map<string, string>) returns (updated: Option<Index>)
    ensures updated.None? <==> !(categories.Keys !! ObjectPrototypeNames)
    ensures updated.Some? ==> updated.value == ApplyEntries(AsWritten, collection, categories, categories.Keys)
  {
    var index := collection;
    var remaining := categories.Keys;
    while remaining != {}
      invariant remaining <= categories.Keys
      invariant (categories.Keys - remaining) !! ObjectPrototypeNames
      invariant index == ApplyEntries(AsWritten, collection, categories, categories.Keys - remaining)
      decreases remaining
    {
      var key :| key in remaining;
      var value := categories[key];
      if key in ObjectPrototypeNames {
        // `key in categoryCollection` holds through the prototype, and calling `includes` on it throws.
        updated := None;
        return;
      }
      ApplyEntriesStep(AsWritten, collection, categories, categories.Keys - remaining, key);
      if key in index && value !in index[key] {
        index := index[key := index[key] + [value]];
      } else {
        index := index[key := [value]];
      }
      assert categories.Keys - (remaining - {key}) == (categories.Keys - remaining) + {key};
      remaining := remaining - {key};
    }
    assert categories.Keys - remaining == categories.Keys;
    updated := Some(index);
  }

  /**
   * `getCategories`: walks `customLogins ++ remoteLogins` and each login's
   * entries. `None` stands for a TypeError: `Object.entries` throws on a login
   * without `categories`, and the inner loop throws at an inherited key.
   */
  method GetCategories(customLogins: seq<Login>, remoteLogins: seq<Login>) returns (result: Option<Index>)
    ensures result.None? <==> !Indexable(customLogins + remoteLogins)
    ensures result.Some? ==> AllCategorized(customLogins + remoteLogins)
    ensures result.Some? ==> result.value == Categories(AsWritten, customLogins + remoteLogins)
  {
    var allLogins := customLogins + remoteLogins;
    var collection: Index := map[];
    var i := 0;
    while i < |allLogins|
      invariant 0 <= i <= |allLogins|
      invariant Indexable(allLogins[..i])
      invariant AllCategorized(allLogins[..i])
      invariant collection == Categories(AsWritten, allLogins[..i])
    {
      var login := allLogins[i];
      if login.categories.None? {
        assert !Indexable(allLogins) by { assert allLogins[i] == login; }
        result := None;
        return;
      }
      var updated := AddEntries(collection, login.categories.value);
      if updated.None? {
        assert !Indexable(allLogins) by { assert allLogins[i] == login; }
        result := None;
        return;
      }
      collection := updated.value;
      assert allLogins[..i + 1] == allLogins[..i] + [login];
      assert allLogins[..i + 1][..i] == allLogins[..i];
      i := i + 1;
    }
    assert allLogins[..i] == allLogins;
    result := Some(collection);
  }

  /** The value each login carrying `key` gives it, in order. */
  function ValuesFor(logins: seq<Login>, key: string): seq<string> {
    if logins == [] then []
    else
      var last := logins[|logins| - 1];
      ValuesFor(logins[..|logins| - 1], key) + (if HasKey(last, key) then [last.categories.value[key]] else [])
  }

  /** The index has exactly the keys that occur in some login (for either rule). */
  lemma {:induction false} CategoriesKeys(rule: Rule, logins: seq<Login>, key: string)
    requires AllCategorized(logins)
    ensures key in Categories(rule, logins) <==> exists i :: 0 <= i < |logins| && HasKey(logins[i], key)
  {
    if logins != [] {
      var n := |logins| - 1;
      var prefix := logins[..n];
      CategoriesKeys(rule, prefix, key);
      if i :| 0 <= i < n && HasKey(prefix[i], key) {
        assert HasKey(logins[i], key);
      }
      if i :| 0 <= i < |logins| && HasKey(logins[i], key) {
        if i < n {
          assert HasKey(prefix[i], key);
        }
      }
    }
  }

  /** No list of the index repeats a value (for either rule). */
  lemma {:induction false} CategoriesDistinct(rule: Rule, logins: seq<Login>, key: string)
    requires AllCategorized(logins) && key in Categories(rule, logins)
    ensures NoDuplicates(Categories(rule, logins)[key])
  {
    var n := |logins| - 1;
    var prefix := logins[..n];
    if key in Categories(rule, prefix) {
      CategoriesDistinct(rule, prefix, key);
    }
  }

  /** Every listed value is the value some login gives that key (for either rule). */
  lemma {:induction false} CategoriesValuesSeen(rule: Rule, logins: seq<Login>, key: string, value: string)
    requires AllCategorized(logins) && key in Categories(rule, logins) && value in Categories(rule, logins)[key]
    ensures exists i :: 0 <= i < |logins| && HasCategory(logins[i], key, value)
  {
    var n := |logins| - 1;
    var prefix := logins[..n];
    var previous := Categories(rule, prefix);
    if HasCategory(logins[n], key, value) {
    } else {
      assert key in previous && value in previous[key];
      CategoriesValuesSeen(rule, prefix, key, value);
      var i :| 0 <= i < n && HasCategory(prefix[i], key, value);
      assert HasCategory(logins[i], key, value);
    }
  }

  /** How one more login changes a single key of the index. */
  lemma CategoriesAppendLogin(rule: Rule, logins: seq<Login>, key: string)
    requires AllCategorized(logins) && logins != []
    ensures var last := logins[|logins| - 1];
      var previous := Categories(rule, logins[..|logins| - 1]);
      var index := Categories(rule, logins);
      (key in index <==> key in previous || HasKey(last, key)) &&
      (HasKey(last, key) ==> index[key] == Entry(rule, previous, key, last.categories.value[key])) &&
      (!HasKey(last, key) && key in previous ==> index[key] == previous[key])
  {
  }

  /** As written, a key's list ends with the value of the last login carrying that key. */
  lemma {:induction false} CategoriesLastValue(logins: seq<Login>, j: int, key: string)
    requires AllCategorized(logins)
    requires 0 <= j < |logins| && HasKey(logins[j], key)
    requires forall i :: j < i < |logins| ==> !HasKey(logins[i], key)
    ensures key in Categories(AsWritten, logins)
    ensures var values := Categories(AsWritten, logins)[key];
      values != [] && values[|values| - 1] == logins[j].categories.value[key]
  {
    var n := |logins| - 1;
    var prefix := logins[..n];
    CategoriesAppendLogin(AsWritten, logins, key);
    if j < n {
      assert prefix[j] == logins[j];
      assert forall i :: j < i < |prefix| ==> !HasKey(prefix[i], key) by {
        forall i | j < i < |prefix| ensures !HasKey(prefix[i], key) {
          assert prefix[i] == logins[i];
        }
      }
      CategoriesLastValue(prefix, j, key);
      assert !HasKey(logins[n], key);
    }
  }

  /** The repaired rule lists, per key, the distinct values in the order first seen. */
  lemma {:induction false} IntendedPerKey(logins: seq<Login>, key: string)
    requires AllCategorized(logins)
    ensures key in Categories(Intended, logins) <==> ValuesFor(logins, key) != []
    ensures key in Categories(Intended, logins) ==>
      Categories(Intended, logins)[key] == Dedup(ValuesFor(logins, key))
  {
    if logins != [] {
      var n := |logins| - 1;
      var prefix := logins[..n];
      IntendedPerKey(prefix, key);
      var values := ValuesFor(logins, key);
      if HasKey(logins[n], key) {
        var value := logins[n].categories.value[key];
        assert values == ValuesFor(prefix, key) + [value];
        assert Categories(Intended, logins)[key] == Entry(Intended, Categories(Intended, prefix), key, value);
        assert values[..|values| - 1] == ValuesFor(prefix, key);
        assert Dedup(values) == if value in Dedup(ValuesFor(prefix, key)) then Dedup(ValuesFor(prefix, key))
                                else Dedup(ValuesFor(prefix, key)) + [value];
        var previous := Categories(Intended, prefix);
        if key !in previous {
          assert ValuesFor(prefix, key) == [];
          assert Dedup(values) == [value];
        } else {
          assert previous[key] == Dedup(ValuesFor(prefix, key));
          if value in previous[key] {
            assert Entry(Intended, previous, key, value) == previous[key];
          } else {
            assert Entry(Intended, previous, key, value) == previous[key] + [value];
          }
        }
      } else {
        assert values == ValuesFor(prefix, key);
      }
    }
  }

  lemma {:induction false} ValuesForMembers(logins: seq<Login>, key: string, value: string)
    ensures value in ValuesFor(logins, key) <==> exists i :: 0 <= i < |logins| && HasCategory(logins[i], key, value)
  {
    if logins != [] {
      var n := |logins| - 1;
      var prefix := logins[..n];
      ValuesForMembers(prefix, key, value);
      if i :| 0 <= i < n && HasCategory(prefix[i], key, value) {
        assert HasCategory(logins[i], key, value);
      }
      if i :| 0 <= i < |logins| && HasCategory(logins[i], key, value) {
        if i < n {
          assert HasCategory(prefix[i], key, value);
        }
      }
    }
  }

  /**
   * With the repaired rule, a key's list holds each value some login gives
   * that key, once, and nothing else.
   */
  lemma IntendedListsDistinctSeenValues(logins: seq<Login>, key: string, value: string)
    requires AllCategorized(logins) && key in Categories(Intended, logins)
    ensures NoDuplicates(Categories(Intended, logins)[key])
    ensures value in Categories(Intended, logins)[key] <==>
      exists i :: 0 <= i < |logins| && HasCategory(logins[i], key, value)
  {
    IntendedPerKey(logins, key);
    DedupDistinct(ValuesFor(logins, key), value);
    ValuesForMembers(logins, key, value);
  }

  /** One login with a single category entry contributes exactly that entry. */
  lemma ApplySingleEntry(rule: Rule, index: Index, key: string, value: string)
    ensures ApplyEntries(rule, index, map[key := value], {key}) == index[key := Entry(rule, index, key, value)]
  {
  }

  /**
   * As written, seeing an already listed value again drops every other value:
   * three logins tagged type "single", "joint", "single" leave only "single".
   */
  lemma RepeatedValueDropsOthers()
    ensures var single := Login("a@x.com", "", "", Some(map["type" := "single"]));
      var joint := Login("b@x.com", "", "", Some(map["type" := "joint"]));
      var logins := [single, joint, single];
      && HasCategory(logins[1], "type", "joint")
      && Categories(AsWritten, logins)["type"] == ["single"]
      && Categories(Intended, logins)["type"] == ["single", "joint"]
  {
    var single := Login("a@x.com", "", "", Some(map["type" := "single"]));
    var joint := Login("b@x.com", "", "", Some(map["type" := "joint"]));
    var logins := [single, joint, single];
    assert map["type" := "single"].Keys == {"type"};
    assert map["type" := "joint"].Keys == {"type"};
    assert logins[..2] == [single, joint];
    assert logins[..2][..1] == [single];
    assert logins[..2][..1][..0] == [];
    forall rule: Rule ensures Categories(rule, [single]) == map["type" := ["single"]] {
      ApplySingleEntry(rule, map[], "type", "single");
    }
    assert "joint" !in ["single"];
    assert Entry(AsWritten, map["type" := ["single"]], "type", "joint") == ["single", "joint"];
    assert Categories(AsWritten, [single]) == map["type" := ["single"]];
    ApplySingleEntry(AsWritten, map["type" := ["single"]], "type", "joint");
    ApplySingleEntry(Intended, map["type" := ["single"]], "type", "joint");
    assert Categories(AsWritten, logins[..2]) == map["type" := ["single", "joint"]];
    assert Categories(Intended, logins[..2]) == map["type" := ["single", "joint"]];
    ApplySingleEntry(AsWritten, map["type" := ["single", "joint"]], "type", "single");
    ApplySingleEntry(Intended, map["type" := ["single", "joint"]], "type", "single");
  }

  /**
   * As written, a login giving a key a value that is already listed resets
   * that key's list to just that value.
   */
  lemma RepeatedValueResetsList(logins: seq<Login>, login: Login, key: string)
    requires AllCategorized(logins) && HasKey(login, key)
    requires key in Categories(AsWritten, logins)
    requires login.categories.value[key] in Categories(AsWritten, logins)[key]
    ensures AllCategorized(logins + [login])
    ensures Categories(AsWritten, logins + [login])[key] == [login.categories.value[key]]
  {
    assert (logins + [login])[..|logins|] == logins;
  }
}
