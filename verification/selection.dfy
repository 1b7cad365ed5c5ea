/** The multiple selection: the tap handler's toggle and the row label. */
module Selection {
  import opened Items
  import Sequences

  /** Some entry of sel has identifier id. */
  ghost predicate HasId(sel: seq<Item>, id: string) {
    exists k :: 0 <= k < |sel| && sel[k].id == id
  }

  /** No two entries of sel share an identifier. */
  ghost predicate UniqueIds(sel: seq<Item>) {
    forall j, k :: 0 <= j < k < |sel| ==> sel[j].id != sel[k].id
  }

  /** selectedItems.find with the id test: some entry with identifier id, if there is one. */
  function Find(sel: seq<Item>, id: string): (r: Option<Item>)
    ensures r.Some? <==> HasId(sel, id)
    ensures r.Some? ==> r.value in sel && r.value.id == id
  {
    if sel == [] then None
    else if sel[0].id == id then Some(sel[0])
    else
      var r := Find(sel[1..], id);
      assert HasId(sel, id) ==> HasId(sel[1..], id) by {
        if HasId(sel, id) {
          var k :| 0 <= k < |sel| && sel[k].id == id;
          assert sel[1..][k - 1].id == id;
        }
      }
      assert HasId(sel[1..], id) ==> HasId(sel, id) by {
        if HasId(sel[1..], id) {
          var k :| 0 <= k < |sel[1..]| && sel[1..][k].id == id;
          assert sel[k + 1].id == id;
        }
      }
      r
  }

  predicate IdIsNot(id: string, x: Item) {
    x.id != id
  }

  /** prevState.filter with the id test: sel without its entries whose identifier is id. */
  function RemoveId(sel: seq<Item>, id: string): (r: seq<Item>)
    ensures !HasId(r, id)
    ensures forall x :: x in r ==> x in sel
  {
    var r := Sequences.Keep(sel, x => IdIsNot(id, x));
    Sequences.KeepMembers(sel, x => IdIsNot(id, x));
    assert forall k :: 0 <= k < |r| ==> r[k] in r;
    r
  }

  /** handleSelect: a tap deselects every entry with the tapped item's identifier when
      there is one, and otherwise appends the tapped item. */
  function Toggle(sel: seq<Item>, item: Item): (r: seq<Item>)
    ensures HasId(r, item.id) <==> !HasId(sel, item.id)
    ensures !HasId(sel, item.id) ==> r == sel + [item]
  {
    if Find(sel, item.id).Some? then RemoveId(sel, item.id)
    else
      assert (sel + [item])[|sel|].id == item.id;
      sel + [item]
  }

  /** Deselecting keeps the other entries, in order, each as often as before. */
  lemma ToggleRemoves(sel: seq<Item>, item: Item)
    requires HasId(sel, item.id)
    ensures Sequences.IsSubsequence(Toggle(sel, item), sel)
    ensures forall x :: multiset(Toggle(sel, item))[x] == if x.id != item.id then multiset(sel)[x] else 0
  {
    Sequences.KeepIsSubsequence(sel, x => IdIsNot(item.id, x));
    forall x
      ensures multiset(Toggle(sel, item))[x] == if x.id != item.id then multiset(sel)[x] else 0
    {
      Sequences.KeepCount(sel, y => IdIsNot(item.id, y), x);
    }
  }

  /** With unique identifiers, deselecting removes exactly the one entry with that identifier. */
  lemma ToggleRemovesOne(sel: seq<Item>, item: Item, k: nat)
    requires UniqueIds(sel)
    requires k < |sel| && sel[k].id == item.id
    ensures Toggle(sel, item) == sel[..k] + sel[k + 1..]
  {
    var p := x => IdIsNot(item.id, x);
    var before, after := sel[..k], sel[k + 1..];
    assert sel == before + [sel[k]] + after;
    forall i | 0 <= i < |before| ensures p(before[i]) {
      assert before[i] == sel[i];
    }
    forall i | 0 <= i < |after| ensures p(after[i]) {
      assert after[i] == sel[k + 1 + i];
    }
    Sequences.KeepAll(before, p);
    Sequences.KeepAll(after, p);
    assert Sequences.Keep([sel[k]], p) == [];
    Sequences.KeepAppend(before + [sel[k]], after, p);
    Sequences.KeepAppend(before, [sel[k]], p);
    assert Sequences.Keep(sel, p) == before + after;
    assert HasId(sel, item.id);
    assert Toggle(sel, item) == RemoveId(sel, item.id);
  }

  /** A tap never lets two entries share an identifier. */
  lemma ToggleKeepsIdsUnique(sel: seq<Item>, item: Item)
    requires UniqueIds(sel)
    ensures UniqueIds(Toggle(sel, item))
  {
    if HasId(sel, item.id) {
      var k :| 0 <= k < |sel| && sel[k].id == item.id;
      ToggleRemovesOne(sel, item, k);
      var r := sel[..k] + sel[k + 1..];
      forall j, l | 0 <= j < l < |r| ensures r[j].id != r[l].id {
        var j' := if j < k then j else j + 1;
        var l' := if l < k then l else l + 1;
        assert r[j] == sel[j'] && r[l] == sel[l'];
      }
    }
  }

  /** Tapping an unselected item twice gives back the selection it started from. */
  lemma ToggleTwice(sel: seq<Item>, item: Item)
    requires !HasId(sel, item.id)
    ensures Toggle(Toggle(sel, item), item) == sel
  {
    var p := x => IdIsNot(item.id, x);
    Sequences.KeepAppend(sel, [item], p);
    Sequences.KeepAll(sel, p);
  }

  /** Tapping a selected item twice does not restore the selection: the item moves to the end. */
  lemma ToggleTwiceSelected(sel: seq<Item>, item: Item, k: nat)
    requires UniqueIds(sel)
    requires k < |sel| && sel[k].id == item.id
    ensures Toggle(Toggle(sel, item), item) == sel[..k] + sel[k + 1..] + [item]
  {
    ToggleRemovesOne(sel, item, k);
  }

  /** Selecting two unselected items with different identifiers gives the same set of
      entries in either order; only their order in the selection differs. */
  lemma ToggleDistinct(sel: seq<Item>, a: Item, b: Item)
    requires a.id != b.id && !HasId(sel, a.id) && !HasId(sel, b.id)
    ensures Toggle(Toggle(sel, a), b) == sel + [a, b]
    ensures Toggle(Toggle(sel, b), a) == sel + [b, a]
  {
  }

  /** The row label: structural membership in the selection. */
  function Label(sel: seq<Item>, item: Item): (r: string)
    ensures r == "Selected" || r == "Not selected"
    ensures r == "Selected" ==> HasId(sel, item.id)
    ensures item in sel ==> r == "Selected"
  {
    if item in sel then "Selected" else "Not selected"
  }

  /** A row labelled Selected is deselected by a tap. */
  lemma LabelSelectedMeansTapDeselects(sel: seq<Item>, item: Item)
    requires Label(sel, item) == "Selected"
    ensures !HasId(Toggle(sel, item), item.id)
  {
  }

  /** The converse fails: an item whose identifier is selected, but which is not itself an
      entry of the selection, is labelled Not selected and still deselected by a tap. */
  lemma LabelMissesSameIdItem(sel: seq<Item>, item: Item)
    requires HasId(sel, item.id) && item !in sel
    ensures Label(sel, item) == "Not selected"
    ensures !HasId(Toggle(sel, item), item.id)
  {
  }

  /** Such an item exists: a selected Apple and a row for Apricot with the same identifier. */
  lemma LabelMismatchOccurs()
    ensures var sel := [Item("1", Some("Apple"))];
            var item := Item("1", Some("Apricot"));
            HasId(sel, item.id) && item !in sel &&
            Label(sel, item) == "Not selected" && Toggle(sel, item) == []
  {
    var sel := [Item("1", Some("Apple"))];
    assert sel[0].id == "1";
  }
}
