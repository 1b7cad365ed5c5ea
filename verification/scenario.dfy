/** A session over two items, Apple and Banana: a search for "ap", two taps on Apple,
    then a clear, each followed by the debounce timer firing where it matters. */
module Scenario {
  import opened Items
  import Text
  import Search
  import Selection
  import Component

  const apple := Item("1", Some("Apple"))
  const banana := Item("2", Some("Banana"))

  /** "ap" finds Apple and not Banana, ignoring case. */
  lemma SearchAp()
    ensures Search.Filter([apple, banana], "ap") == [apple]
  {
    assert Text.Lower("ap") == "ap";
    assert Text.Lower("Apple") == "apple";
    assert Text.StartsWith("apple", "ap");
    assert Text.Lower("Banana") == "banana";
    assert !Text.Includes("", "ap");
    assert !Text.Includes("a", "ap");
    assert !Text.Includes("na", "ap");
    assert !Text.Includes("ana", "ap");
    assert !Text.Includes("nana", "ap");
    assert !Text.Includes("anana", "ap");
    assert !Text.Includes("banana", "ap");
    assert Search.Matches(apple, "ap") && !Search.Matches(banana, "ap");
    var r := Search.Filter([apple, banana], "ap");
    forall x ensures multiset(r)[x] == multiset([apple])[x] {
      Search.FilterExactly([apple, banana], "ap", x);
    }
    assert multiset(r) == multiset([apple]);
    assert |r| == 1 && r[0] in multiset(r);
  }

  /** Tapping Apple selects it, tapping it again deselects it. */
  lemma TapAppleTwice()
    ensures Selection.Toggle([], apple) == [apple]
    ensures Selection.Toggle([apple], apple) == []
    ensures Selection.Label([apple], apple) == "Selected"
    ensures Selection.Label([], apple) == "Not selected"
  {
  }

  /** The cleared search shows both fruits, which both have names. */
  lemma ClearShowsBoth()
    ensures Search.Filter([apple, banana], "") == [apple, banana]
  {
    Search.FilterEmptyTermIsData([apple, banana]);
  }

  /** The events of the example, with what each contract lets a caller conclude. */
  method Run() {
    SearchAp();
    TapAppleTwice();
    ClearShowsBoth();
    var list := new Component.SearchList([apple, banana]);
    list.Type("ap");
    list.Fire();
    assert list.dataSource == [apple];
    list.Tap(apple);
    assert list.selectedItems == [apple];
    list.Tap(apple);
    assert list.selectedItems == [];
    list.Clear();
    assert list.searchTerm == "" && list.dataSource == [apple];
    list.Fire();
    assert list.dataSource == [apple, banana];
  }
}
