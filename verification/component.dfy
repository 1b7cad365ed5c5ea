/** The search list component: its state hooks, its two effects and its event handlers,
    with the debounce timer modelled as at most one pending, cancellable callback. */
module Component {
  import opened Items
  import Sequences
  import Search
  import Selection

  /** A scheduled filter callback and the data and search term its closure captured. */
  datatype Timer = Timer(data: seq<Item>, term: string)

  class SearchList {
    var data: seq<Item>           // the data prop
    var dataSource: seq<Item>     // the collection the list shows
    var searchTerm: string        // the text in the search field
    var selectedItems: seq<Item>  // the selection, in the order items were selected
    var pending: Option<Timer>    // the debounce timer, if one is scheduled and not yet fired
    var mounted: bool

    /** A pending timer belongs to a mounted component and captured the current data and
        term; the shown collection never reorders data; no two selected entries share an
        identifier; and once no timer is pending the shown collection has caught up. */
    ghost predicate Valid()
      reads this
    {
      (pending.Some? ==> mounted && pending.value == Timer(data, searchTerm)) &&
      Sequences.IsSubsequence(dataSource, data) &&
      Selection.UniqueIds(selectedItems) &&
      (mounted && pending.None? ==> dataSource == Search.Filter(data, searchTerm))
    }

    /** Mounting: the first effect shows data unfiltered, the second schedules the filter. */
    constructor (data: seq<Item>)
      ensures Valid()
      ensures this.data == data && dataSource == data
      ensures searchTerm == "" && selectedItems == []
      ensures pending == Some(Timer(data, "")) && mounted
    {
      this.data := data;
      dataSource := data;
      searchTerm := "";
      selectedItems := [];
      pending := Some(Timer(data, ""));
      mounted := true;
      Sequences.SubsequenceRefl(data);
    }

    /** A new data prop: the first effect shows it unfiltered at once; the second cancels the
        pending timer and schedules one over the new data. The selection is kept. */
    method SetData(newData: seq<Item>)
      requires Valid() && mounted
      modifies this
      ensures Valid()
      ensures data == newData && dataSource == newData
      ensures pending == Some(Timer(newData, searchTerm))
      ensures searchTerm == old(searchTerm) && selectedItems == old(selectedItems) && mounted
    {
      Sequences.SubsequenceRefl(newData);
      assert Selection.UniqueIds(selectedItems);
      data := newData;
      dataSource := newData;
      pending := Some(Timer(newData, searchTerm));
    }

    /** onChangeText: the field shows s at once. A changed term re-runs the second effect,
        replacing the pending timer; an unchanged one leaves state and timer as they are. */
    method Type(s: string)
      requires Valid() && mounted
      modifies this
      ensures Valid()
      ensures searchTerm == s
      ensures pending == if s == old(searchTerm) then old(pending) else Some(Timer(data, s))
      ensures data == old(data) && dataSource == old(dataSource)
      ensures selectedItems == old(selectedItems) && mounted
    {
      if s != searchTerm {
        searchTerm := s;
        pending := Some(Timer(data, s));
      }
    }

    /** handleClear: empties the search field; the list catches up only when the timer fires. */
    method Clear()
      requires Valid() && mounted
      modifies this
      ensures Valid()
      ensures searchTerm == ""
      ensures pending == if old(searchTerm) == "" then old(pending) else Some(Timer(data, ""))
      ensures data == old(data) && dataSource == old(dataSource)
      ensures selectedItems == old(selectedItems) && mounted
    {
      Type("");
    }

    /** A row tap: handleSelect toggles the tapped item; nothing else changes. */
    method Tap(item: Item)
      requires Valid() && mounted
      modifies this
      ensures Valid()
      ensures selectedItems == Selection.Toggle(old(selectedItems), item)
      ensures data == old(data) && dataSource == old(dataSource)
      ensures searchTerm == old(searchTerm) && pending == old(pending) && mounted
    {
      Selection.ToggleKeepsIdsUnique(selectedItems, item);
      selectedItems := Selection.Toggle(selectedItems, item);
    }

    /** The pending timer fires: the list shows the filter of the captured data and term,
        which are the current ones, since every change to either replaced the timer. */
    method Fire()
      requires Valid()
      modifies this
      ensures Valid()
      ensures old(pending).Some? ==> dataSource == Search.Filter(data, searchTerm)
      ensures old(pending).None? ==> dataSource == old(dataSource)
      ensures pending == None
      ensures data == old(data) && searchTerm == old(searchTerm)
      ensures selectedItems == old(selectedItems) && mounted == old(mounted)
    {
      if pending.Some? {
        var timer := pending.value;
        dataSource := Search.Filter(timer.data, timer.term);
        pending := None;
        Search.FilterIsSubsequence(data, searchTerm);
      }
    }

    /** Unmounting runs the effect's cleanup, which cancels the pending timer. */
    method Unmount()
      requires Valid()
      modifies this
      ensures Valid()
      ensures pending == None && !mounted
      ensures data == old(data) && dataSource == old(dataSource)
      ensures searchTerm == old(searchTerm) && selectedItems == old(selectedItems)
    {
      pending := None;
      mounted := false;
    }
  }
}
