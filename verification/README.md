# Searchable multi-select list, modelled in Dafny

This project models the logic of the `MyComponent` list widget of a React Native screen. The widget holds an array of items. Each item has an `id` and an optional `name`. The widget shows the items whose name contains a search term, ignoring case. The filter runs after a debounce delay. A tap on a row toggles the item in a multiple selection.

Under the rendering there are two pure operations and one event-driven state machine:

- **Search filter.** This is the callback passed to `data.filter`. An item passes when it has a name and its lower-cased name includes the lower-cased term. A missing name short-circuits the optional chain to a falsy value, so a nameless item never passes, even when the term is empty. Modelled as `Search.Filter`, over `Sequences.Keep`, which models `Array.prototype.filter`. The text functions are `Text.Lower` and `Text.Includes`.
- **Selection toggle.** This is `handleSelect`. If some selected entry has the tapped item's id, every entry with that id is removed. Otherwise the tapped item is appended. Modelled as `Selection.Toggle`. The row label is `Selection.Label`.
- **Component state.** `Component.SearchList` is a class. Its fields are the `data` prop, the three `useState` values (`dataSource`, `searchTerm`, `selectedItems`), the pending debounce timer, and whether the component is mounted. The timer is an `Option` of the `(data, term)` pair its closure captured. There is one method per event: mount (the constructor), `SetData`, `Type`, `Clear`, `Tap`, `Fire` and `Unmount`. `Valid()` is the invariant every event keeps. It has four parts:
  - a pending timer belongs to a mounted component and captured the current data and term;
  - the shown collection is a subsequence of `data`;
  - the selection never holds two entries with the same id;
  - while the component is mounted and no timer is pending, the shown collection equals `Filter(data, searchTerm)`.

  So when `Fire` runs, it shows the filter of the *current* data and term.

`Scenario.Run` is a client of the class. It mounts the list over two items, Apple and Banana, types "ap" and lets the timer fire (only Apple is shown), taps Apple twice (selected, then deselected), then clears and lets the timer fire (both are shown). It uses only the event contracts and three lemmas about the concrete values.

Where the behaviour described for the widget differs from the code, the model follows the code:

- **Empty search term.** After a clear and a fired timer, the list shows the *named* items, not all of `data` (`Search.FilterEmptyTerm`). The two agree exactly when every item has a name (`Search.FilterEmptyTermIsData`).
- **Clearing an empty term.** Setting the search term to the value it already has does not re-render the component. The effect's dependencies are unchanged, so the debounce is *not* re-triggered. `Type` and `Clear` keep the old timer in that case.
- **Tapping twice.** Tapping an unselected item twice restores the selection (`Selection.ToggleTwice`). Tapping a *selected* item twice moves it to the end (`Selection.ToggleTwiceSelected`).
- **Order of two selections.** Selecting two unselected items of different ids gives the same entries in either order. Their order in the selection follows the taps (`Selection.ToggleDistinct`).

The toggle decides by `id`, but the label tests membership of the item itself. So an item with a selected id that is not itself an entry of the selection shows "Not selected" and is still deselected by a tap (`Selection.LabelMissesSameIdItem`, with a concrete case in `Selection.LabelMismatchOccurs`). The converse direction holds: a row labelled "Selected" is deselected by a tap (`Selection.LabelSelectedMeansTapDeselects`).

## Model

| member | source | states |
|---|---|---|
| Text.Lower | src/components/MyComponent.tsx:36 | the ASCII fold standing in for `toLowerCase` keeps the length, folds each character, and leaves no upper-case letter |
| Text.LowerIdempotent | src/components/MyComponent.tsx:36 | lower-casing a lower-cased string changes nothing |
| Text.Includes | src/components/MyComponent.tsx:36 | `includes` of the empty string is always true |
| Text.IncludesIff | src/components/MyComponent.tsx:36 | `includes` holds exactly when the needle occurs at some position of the haystack |
| Sequences.KeepIsSubsequence | src/components/MyComponent.tsx:35-37 | `Array.filter` returns a subsequence of its input: the retained elements keep their relative order |
| Sequences.KeepCount | src/components/MyComponent.tsx:35-37 | `Array.filter` keeps every occurrence of an element that passes and none of one that fails |
| Sequences.Keep | src/components/MyComponent.tsx:35-37 | `Array.filter` (also used at line 50) returns no more elements than its input; its order and counts are stated by KeepIsSubsequence and KeepCount |
| Search.Filter | src/components/MyComponent.tsx:35-37 | every item shown comes from `data` and passes `Matches`, the line-36 callback: the item has a name (an absent name short-circuits to a falsy value) and its lower-cased name includes the lower-cased term; the result is no longer than `data` |
| Search.FilterIsSubsequence | src/components/MyComponent.tsx:35-37 | the filter result is a subsequence of `data` in the original order |
| Search.FilterExactly | src/components/MyComponent.tsx:36 | an item is in the result iff it is in `data`, has a name, and its lower-cased name includes the lower-cased term; it appears as often as in `data` |
| Search.FilterDropsNameless | src/components/MyComponent.tsx:36 | an item without a name is never in the result, whatever the term |
| Search.FilterEmptyTerm | src/components/MyComponent.tsx:36 | with the empty term the result is exactly the named items of `data` |
| Search.FilterEmptyTermIsData | src/components/MyComponent.tsx:36 | with the empty term the result equals `data` iff every item has a name |
| Search.FilterIgnoresTermCase | src/components/MyComponent.tsx:36 | filtering by a term and by its lower-cased form give the same result |
| Selection.Find | src/components/MyComponent.tsx:48 | `find` by id returns an entry iff some entry has that id, and the entry it returns is in the selection with that id |
| Selection.RemoveId | src/components/MyComponent.tsx:49-51 | after removing an id, no entry has it, and every remaining entry was there before |
| Selection.Toggle | src/components/MyComponent.tsx:46-59 | after a tap the selection holds the tapped id iff it did not before; if it did not, the result is the old selection with the item appended at the end |
| Selection.ToggleRemoves | src/components/MyComponent.tsx:48-51 | deselecting keeps every entry of another id, in order and as often as before, and drops every entry of the tapped id |
| Selection.ToggleRemovesOne | src/components/MyComponent.tsx:48-51 | with unique ids, deselecting removes exactly the one entry with that id and keeps the others around it |
| Selection.ToggleKeepsIdsUnique | src/components/MyComponent.tsx:46-59 | a tap never makes two entries share an id |
| Selection.ToggleTwice | src/components/MyComponent.tsx:46-59 | two taps on an item whose id is not selected restore the original selection |
| Selection.ToggleTwiceSelected | src/components/MyComponent.tsx:46-59 | two taps on an item whose id is selected remove that entry and append the item at the end |
| Selection.ToggleDistinct | src/components/MyComponent.tsx:53-56 | selecting two unselected items with different ids appends both, in tap order |
| Selection.Label | src/components/MyComponent.tsx:87 | the label is "Selected" or "Not selected"; an item in the selection is labelled "Selected", and "Selected" only when the item's id is selected |
| Selection.LabelSelectedMeansTapDeselects | src/components/MyComponent.tsx:87 | a row labelled "Selected" is deselected by a tap |
| Selection.LabelMissesSameIdItem | src/components/MyComponent.tsx:87 | every item whose id is selected but which is not itself an entry of the selection is labelled "Not selected", yet a tap deselects it; with Label's own contract this fixes the label completely |
| Selection.LabelMismatchOccurs | src/components/MyComponent.tsx:87 | such an item exists: a selected Apple and an Apricot row with the same id, labelled "Not selected" and deselected by a tap |
| Component.SearchList.constructor | src/components/MyComponent.tsx:22-44 | mounting starts with an empty term and selection, shows `data` unfiltered, and schedules one timer over `(data, "")` |
| Component.SearchList.SetData | src/components/MyComponent.tsx:28-44 | a new `data` is shown unfiltered at once and replaces the pending timer with one over the new data; the term and selection are unchanged |
| Component.SearchList.Type | src/components/MyComponent.tsx:32-44 | a keystroke (line 71) sets the term; a changed term replaces the pending timer, an unchanged one keeps it; the shown collection, data and selection are unchanged |
| Component.SearchList.Clear | src/components/MyComponent.tsx:61-63 | clear sets the term to ""; the shown collection and selection are unchanged until the timer fires |
| Component.SearchList.Tap | src/components/MyComponent.tsx:46-59 | a tap replaces the selection by its toggle; the shown collection, term and timer are unchanged, and ids stay unique |
| Component.SearchList.Fire | src/components/MyComponent.tsx:33-39 | a firing timer shows `Filter(data, searchTerm)` of the current data and term, and leaves none pending; without a pending timer nothing changes |
| Component.SearchList.Unmount | src/components/MyComponent.tsx:41-43 | unmounting cancels the pending timer and changes nothing else |
| Scenario.SearchAp | src/components/MyComponent.tsx:35-37 | searching "ap" over Apple and Banana gives exactly Apple |
| Scenario.TapAppleTwice | src/components/MyComponent.tsx:46-59 | the first tap on Apple selects it and labels it "Selected"; the second deselects it |
| Scenario.ClearShowsBoth | src/components/MyComponent.tsx:61-63 | after clearing, the filter over two named items shows both |

## Left out

- Rendering and styling: the view tree, `FlatList`, `TouchableOpacity`, `StyleSheet` and the unused `inputRef`. The only rendered logic kept is the row label.
- The host screen `src/screens/Main.tsx`. It picks theme colours and mounts the component with static data. It has no logic to state.
- Real time. The 1000 ms delay, `setTimeout` and `clearTimeout` are replaced by a pending-timer value and an explicit `Fire` event.
- React's scheduling. Batching, render and effect ordering, and the stale closure in `handleSelect` are not modelled. In a sequential model, the selection read at line 48 and the `prevState` used at lines 49 and 53 are the same value.
- The first render before the effects run, when `dataSource` is briefly `[]`. The constructor gives the state after the mount effects.
- Re-renders that pass the same `data` reference do not re-run the effects. `SetData` stands for a new array reference, even when its contents are equal.
- Events on an unmounted component. `SetData`, `Type`, `Clear` and `Tap` require `mounted`, because React never calls them after unmount.
- Text.Lower: only ASCII letters are folded. Unicode `toLowerCase` is not modelled.
- Selection.Label: uses structural equality where the source uses reference identity. A fresh object with equal fields is labelled "Selected" in the model but "Not selected" by the source.
- Selection.Find: does not state that the entry returned is the *first* with that id. Only whether one exists decides the toggle.
- The `Item` type file (`src/types/data`) and the dummy data are not part of this model. Items carry only `id` and an optional `name`.
- The optional chain on `searchTerm`. The term is always a string here: it starts as `''` and is set only from the text field or by clear.
