/** The search filter applied when the debounce timer fires. */
module Search {
  import opened Items
  import Text
  import Sequences

  /** The callback given to data.filter: the item has a name, and the lower-cased name
      includes the lower-cased term. An absent name short-circuits to a falsy value. */
  predicate Matches(item: Item, term: string) {
    match item.name
    case None => false
    case Some(n) => Text.Includes(Text.Lower(n), Text.Lower(term))
  }

  /** The items of data that match term, in their order in data. */
  function Filter(data: seq<Item>, term: string): (r: seq<Item>)
    ensures |r| <= |data|
    ensures forall x :: x in r ==> x in data && Matches(x, term)
  {
    Sequences.KeepMembers(data, item => Matches(item, term));
    Sequences.Keep(data, item => Matches(item, term))
  }

  predicate HasName(item: Item) {
    item.name.Some?
  }

  /** The items that carry a name, in their order in data. */
  function Named(data: seq<Item>): (r: seq<Item>)
    ensures forall x :: x in r ==> x in data && x.name.Some?
  {
    Sequences.KeepMembers(data, HasName);
    Sequences.Keep(data, HasName)
  }

  /** The filter keeps the relative order of the items it retains. */
  lemma FilterIsSubsequence(data: seq<Item>, term: string)
    ensures Sequences.IsSubsequence(Filter(data, term), data)
  {
    Sequences.KeepIsSubsequence(data, item => Matches(item, term));
  }

  /** An item is retained exactly when it has a name whose lower-cased form contains
      the lower-cased term, and then as often as it occurs in data. */
  lemma FilterExactly(data: seq<Item>, term: string, x: Item)
    ensures x in Filter(data, term) <==>
            x in data && x.name.Some? && Text.Includes(Text.Lower(x.name.value), Text.Lower(term))
    ensures multiset(Filter(data, term))[x] == if Matches(x, term) then multiset(data)[x] else 0
  {
    Sequences.KeepCount(data, item => Matches(item, term), x);
    Sequences.KeepMembership(data, item => Matches(item, term), x);
  }

  /** A nameless item never passes, whatever the term. */
  lemma FilterDropsNameless(data: seq<Item>, term: string, x: Item)
    requires x.name.None?
    ensures x !in Filter(data, term)
  {
  }

  /** With the empty term, the result is the named items, not the whole of data. */
  lemma FilterEmptyTerm(data: seq<Item>)
    ensures Filter(data, "") == Named(data)
  {
    forall i | 0 <= i < |data|
      ensures Matches(data[i], "") == data[i].name.Some?
    {
      assert Text.Lower("") == "";
    }
    Sequences.KeepExt(data, item => Matches(item, ""), HasName);
  }

  /** The empty term gives back all of data exactly when every item has a name. */
  lemma FilterEmptyTermIsData(data: seq<Item>)
    ensures Filter(data, "") == data <==> forall i :: 0 <= i < |data| ==> data[i].name.Some?
  {
    FilterEmptyTerm(data);
    Sequences.KeepAllIff(data, HasName);
  }

  /** The case of the typed term does not matter. */
  lemma FilterIgnoresTermCase(data: seq<Item>, term: string)
    ensures Filter(data, term) == Filter(data, Text.Lower(term))
  {
    Text.LowerIdempotent(term);
    Sequences.KeepExt(data, item => Matches(item, term), item => Matches(item, Text.Lower(term)));
  }
}
