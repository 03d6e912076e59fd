# Portfolio site: a Dafny model of the map story, the link parser and the pin editor

This project models the logic at the core of a personal portfolio site built with React and a hosted Postgres table of "pins":

- **Link parser.** `parseLinks` scans a pin's text for markdown-style links `[anchor](href)`. It splits the text into plain runs and links. Empty text comes back as is.
- **Scroll story.** The landing page is a scroll-driven story over a dotted world map:
  - the scroll position selects one of six sections;
  - every country dot and city pin is classified as current, past or background/hidden;
  - entering a section clears the terminal text and closes the pin view;
  - the country animation then plays, and a typewriter reveals the section text one character per tick.
- **Pin editor.** Each edit on the admin page rebuilds the list of pins with one change, copying any list it writes to: one field, an element of a list field, appending to and removing from a list, and a question.
- **Pin store client.** This covers:
  - mapping table rows (storage names such as `to_read`) to pins (`toRead`), with defaults for missing lists;
  - the update request written back for a pin, keyed by its id;
  - the all-or-nothing verdict of saving every pin.

JavaScript values are modelled exactly where the code depends on them (`js_value.dfy`):

- objects are maps from property names to a JSON-like `Value`;
- `||` follows JavaScript truthiness;
- `[...v]` throws on values that are not iterable, modelled as `None`: the edit never reaches `setPins`;
- writing past the end of an array leaves holes that read as `undefined`;
- `splice` past the end changes nothing.

Modules:

| file | module | what |
|---|---|---|
| js_value.dfy | `Basics`, `JsValue` | `Option`; JavaScript values, truthiness, spreads, array writes |
| links.dfy | `Links` | the `parseLinks` scanner and its reference predicate `Canonical` |
| story.dfy | `Story` | the story sections, section index, past/current sets, dot and pin states, animation ranks |
| scroll_machine.dfy | `ScrollMachine` | the scroll/animation/typewriter state machine and its invariant |
| admin_edits.dfy | `AdminEdits` | the pin editor's list edits |
| pin_store.dfy | `PinStore` | row/pin mapping, update requests, batch save verdict |

The story texts in the source are UTF-8 flag emoji, as regional-indicator pairs. The model writes them as the decoded characters, for example `\U{1F1EA}\U{1F1F8}`.

The current and past sets are not disjoint: in the explore section every story country is both past and current, and `getDotState`/`getPinState` rely on current taking precedence over past. `Story.ExploreEverythingCurrent` states this overlap; `Story.StoryPastCurrentDisjoint` shows the sets are disjoint in every earlier section.

## Model

| member | source | states |
|---|---|---|
| Links.ParseLinks | src/components/WorldMap.jsx:12-36 | Empty text comes back unchanged, and any other text comes back as parts. Writing every part back out (links as `[anchor](href)`) gives exactly the input. The parts are canonical, i.e. what a leftmost scan for the link pattern produces. |
| Links.LinkPrefix | src/components/WorldMap.jsx:14 | A match of the pattern at the start of a text is a link with a non-empty anchor free of `]` and a non-empty href free of `)`, and its written form is a prefix of the text. |
| Links.NextLink | src/components/WorldMap.jsx:14-19 | `exec` finds the leftmost match: a match at the returned offset and none at any earlier offset, or no match at any offset. |
| Links.SegmentsRender | src/components/WorldMap.jsx:19-33 | The plain slices and links pushed by the loop, concatenated in order, reproduce the text. |
| Links.SegmentsCanonical | src/components/WorldMap.jsx:19-33 | The loop's output is canonical: links well formed, plain runs non-empty and free of matches, and a plain run is always followed by a link. |
| Links.CanonicalUnique | src/components/WorldMap.jsx:14-33 | Conversely, any canonical decomposition of a text is exactly the scanner's output for that text, so the reference predicate characterises `parseLinks` completely. |
| Links.CanonicalShape | src/components/WorldMap.jsx:19-33 | In a canonical result every link is well formed, every plain part is non-empty, and no two plain parts are adjacent. |
| Links.NoLinkUnchanged | src/components/WorldMap.jsx:31-35 | Non-empty text with no match anywhere comes back as a single plain part equal to the text. |
| Story.Progress | src/components/WorldMap.jsx:202 | The scroll fraction lies in [0, 1] when the scroll position lies within the scrollable range, and multiplying it back by the range gives the position. |
| Story.SectionIndex | src/components/WorldMap.jsx:203 | The selected section is `floor(progress * N)` clamped to the last one. It never exceeds the last index and is non-negative for non-negative progress. Below the last section, progress * N lies in [index, index + 1). |
| Story.OverscrollSelectsMinusOne | src/components/WorldMap.jsx:202-203 | A scroll fraction just below zero (progress * N in [-1, 0)) selects section -1, because the floor is clamped only from above. |
| Story.PastSetMembers | src/components/WorldMap.jsx:212-219 | A name is in the past set iff it is not `ALL` and some section strictly before the current one lists it (both directions). |
| Story.PastSetMonotone | src/components/WorldMap.jsx:212-219 | The past set only grows as the section index grows. |
| Story.CurrentSet | src/components/WorldMap.jsx:222-226 | Without `ALL`, the current set is the active section's list. With `ALL`, it is every story country plus `REST` (countries) or every story pin (pins). |
| Story.Classify | src/components/WorldMap.jsx:229-230 | Current iff in the current set; past iff not current and in the past set; background iff in neither (each both ways). |
| Story.DotState | src/components/WorldMap.jsx:229 | A dot is "current", "past" or "base", matching the current-over-past classification of its country tag. |
| Story.PinState | src/components/WorldMap.jsx:230 | A story pin is "current", "past" or "hidden", matching the current-over-past classification of its name. |
| Story.EarlierIsPast | src/components/WorldMap.jsx:212-230 | A name listed by an earlier section and not current in the active one is classified past. |
| Story.StoryPastCurrentDisjoint | src/components/WorldMap.jsx:211-226 | With the story's sections, the past and current sets of every section before "explore" are disjoint. |
| Story.ExploreEverythingCurrent | src/components/WorldMap.jsx:222-229 | In the explore section every story country and `REST` is drawn "current", although the story countries are also in the past set. |
| Story.WithoutAll | src/components/WorldMap.jsx:233-234 | The filtered list holds exactly the section's names other than `ALL`, and a list without `ALL` comes back unchanged, in order and with duplicates. |
| Story.WithoutAllAppend | src/components/WorldMap.jsx:233-234 | Filtering keeps order: filtering a concatenation is concatenating the filtered parts. |
| Story.DelayRank | src/components/WorldMap.jsx:236-243 | The delay rank of a listed name is its first position in the filtered list; an unlisted name gets rank 0. |
| ScrollMachine.EnterSection | src/components/WorldMap.jsx:159-194 | Entering a section clears the text, closes the pin view and reaches a state satisfying the invariant. The phase is "animating" iff the section is not simple and has countries. The typewriter starts iff the phase is done, the section is not simple and has text, and one of the typewriter effect's dependencies changed. |
| ScrollMachine.Initial | src/components/WorldMap.jsx:159-194 | After mounting, section 0 is active with empty text and no pin open. It animates iff section 0 animates; otherwise the typewriter runs iff section 0 has text and is not simple. |
| ScrollMachine.Step | src/components/WorldMap.jsx:159-209 | Every event (scroll, animation timeout, typewriter tick, opening or closing a pin) keeps the invariant: a valid section; a pending timeout exactly while animating; no text while animating; the text shown is a prefix of the section text; a pin open only in the explore section. |
| ScrollMachine.RunKeepsInv | src/components/WorldMap.jsx:159-209 | Any sequence of events from a reachable state keeps the invariant, so the section index stays in range. |
| ScrollMachine.ScrollChangesSection | src/components/WorldMap.jsx:201-205 | A scroll selects `min(floor(progress * N), N - 1)`. A new section resets the text and the pin view and picks the phase; the same section leaves the state unchanged. |
| ScrollMachine.TypewriterReveals | src/components/WorldMap.jsx:179-194 | After k ticks from j revealed characters, the first j + k characters are shown. The interval stops exactly when the whole text is shown. |
| ScrollMachine.StoppedTicksIdle | src/components/WorldMap.jsx:185-191 | Once the interval is cleared, further ticks change nothing. |
| ScrollMachine.AnimatedSectionFullyRevealed | src/components/WorldMap.jsx:165-194 | For an animating section with text, after the animation timeout and `|text|` ticks the whole text is shown and the interval has stopped. |
| ScrollMachine.StorySectionsPhases | src/components/WorldMap.jsx:44-51 | In the story as written, entering any section from any state: exactly the narrative sections (not start, not explore) animate, and no section starts the typewriter on entry. |
| JsValue.SpreadArray | src/components/Admin.jsx:83 | `[...v]` copies an array, splits a string into one one-character string per character, in order, and fails on every other value. |
| JsValue.Get | src/components/Admin.jsx:82 | `o.key` reads the property when the object has it and `undefined` otherwise. |
| JsValue.Or | src/lib/supabase.js:28-32 | `a || b` is `a` when `a` is truthy (not `undefined`, `null`, `false`, `0` or `""`) and `b` otherwise. |
| JsValue.At | src/components/Admin.jsx:84 | `arr[index]` is the element in range and `undefined` past the end. |
| JsValue.SpreadObject | src/components/Admin.jsx:84 | `{...v}` copies an object's properties; `undefined`, `null` and other non-objects give the empty object. |
| JsValue.SetAt | src/components/Admin.jsx:84 | `a[i] = v` sets element i. Every other element keeps its value, and elements past the old end read as `undefined`. The length grows to i + 1 only when i was past the end. |
| JsValue.RemoveAt | src/components/Admin.jsx:99-100 | `splice(i, 1)` removes element i and shifts the rest down by one. An index past the end changes nothing. |
| AdminEdits.MapMatching | src/components/Admin.jsx:81-86 | The map fails iff the edit throws on some pin with the id. Otherwise it keeps the length and every other pin, and puts the edited pin in place of each pin with the id. |
| AdminEdits.UpdatePinField | src/components/Admin.jsx:72-78 | The field update is applied to every pin with the id: the field takes the value, no other property changes, ids are kept (unless the id itself is edited), and other pins are untouched. The open pin is updated iff its id matches, gaining only `field`; with no pin open, an undefined id opens exactly `{[field]: value}`. |
| AdminEdits.UpdateArrayItem | src/components/Admin.jsx:80-87 | Fails iff a pin with the id has a non-iterable list. An edited pin keeps its key set. In range, only `key` of element `index` changes: the element's keys are its old keys plus `key`, and other elements, other keys and other pins are untouched. |
| AdminEdits.AddArrayItem | src/components/Admin.jsx:89-94 | Fails iff a pin with the id has a non-iterable list. Otherwise each such list gets the template appended, after its old contents; an edited pin keeps its key set and its other properties, and other pins are untouched. |
| AdminEdits.RemoveArrayItem | src/components/Admin.jsx:96-103 | Fails iff a pin with the id has a non-iterable list. Otherwise the item at the index is removed (nothing changes past the end); an edited pin keeps its key set and its other properties, and other pins are untouched. |
| AdminEdits.UpdateQuestion | src/components/Admin.jsx:105-112 | Fails iff a pin with the id has non-iterable questions. An edited pin keeps its key set. In range, question `index` takes the value and the other questions, properties and pins are untouched. |
| AdminEdits.AppendThenRemoveOne | src/components/Admin.jsx:89-103 | On one pin, appending an item and removing the item at the old length restores the pin. |
| AdminEdits.MapMatchingUndo | src/components/Admin.jsx:89-103 | Mapping an undo over the result of mapping an edit restores the list, when the edit keeps ids and the undo reverts it pin by pin. |
| AdminEdits.AddThenRemoveLast | src/components/Admin.jsx:89-103 | `addArrayItem` followed by `removeArrayItem` of the last item gives back the original pins. |
| AdminEdits.MapMatchingTwice | src/components/Admin.jsx:72-112 | Mapping an edit that is idempotent on the pins it keeps matching twice is the same as mapping it once. |
| AdminEdits.UpdatePinFieldTwice | src/components/Admin.jsx:72-78 | Setting the same field to the same value twice gives the same pins as once. |
| AdminEdits.EditArrayItemTwice | src/components/Admin.jsx:83-85 | On one pin, writing the same key of the same element twice is the same as once. |
| AdminEdits.UpdateArrayItemTwice | src/components/Admin.jsx:80-87 | `updateArrayItem` with the same arguments twice is the same as once. |
| AdminEdits.EditQuestionTwice | src/components/Admin.jsx:108-110 | On one pin, writing the same question twice is the same as once. |
| AdminEdits.UpdateQuestionTwice | src/components/Admin.jsx:105-112 | `updateQuestion` with the same arguments twice is the same as once. |
| PinStore.RowToPin | src/lib/supabase.js:21-33 | A pin has exactly the eleven app fields. Id and scalars are copied. `to_read` becomes `toRead`. A falsy list becomes `[]` and falsy music becomes `{}`; truthy values are kept. |
| PinStore.FetchPins | src/lib/supabase.js:9-34 | An error gives null; otherwise every row is mapped, one pin per row, in the order returned. |
| PinStore.LoadPins | src/components/WorldMap.jsx:86-88 | A failed fetch keeps the pins shown; a successful one replaces them with the mapped rows, even when there are none. |
| PinStore.UpdatePin | src/lib/supabase.js:37-52 | The request filters on the pin's id and writes the ten other fields: never the id, and `toRead` under `to_read`. |
| PinStore.WriteThenRead | src/lib/supabase.js:21-52 | Writing a pin (no `undefined` at any depth, lists and music present) over its row and reading the row back gives the same pin. |
| PinStore.ReadThenWrite | src/lib/supabase.js:21-52 | Reading a complete row and saving the pin unchanged writes back exactly the row's own values, filtered on its id. |
| PinStore.Every | src/lib/supabase.js:64 | `every(r => r === true)` holds iff every result is true. |
| PinStore.UpdateAllPins | src/lib/supabase.js:62-65 | One update per pin, in order. The save succeeds iff no update failed; with no pins, it succeeds. |

## Left out

- Map geometry: the dotted-map grid, coordinate matching of dots to countries and pins, and the SVG layout are not modelled; dots are identified by their country tag.
- Animation delays are floating-point seconds; the model keeps only the rank (`Story.DelayRank`) that scales them.
- Timers and listeners: `setTimeout`, `setInterval`, scroll and focus listeners are events of the machine, not real time. Durations (2400 ms, 25 ms per character) are not modelled.
- React renders, JSX and CSS classes beyond the state strings are left out. Effect commits are collapsed into the state they settle in.
- The storage client, the network and authentication (`signIn`, `signOut`, `getSession`, `onAuthStateChange`) are left out. A query's result and each update's success are parameters. `PinStore.ApplyUpdate` is a model of the service's update semantics, not code of this repository.
- Ordering by id is done by the service; `PinStore.FetchPins` keeps whatever order it is given.
- `Promise.all` concurrency: the updates are modelled as independent requests with one outcome each.
- `PinStore.WriteThenRead`: holds only for pins with no `undefined` inside a list or object (`PinStore.JsonExact`). JSON sends an array hole as `null` and drops an `undefined` property, and `PinStore.ApplyUpdate` does not model that nested rewriting. A pin whose questions gained a hole from `updateQuestion` past the end therefore reads back with `null` in place of the hole, and the round trip is not claimed for it.
- `Story.Progress`: requires a positive scrollable range; with a zero range the source divides by zero.
- `ScrollMachine.Step`: scroll events are assumed to have scrollTop ≥ 0. Positions past the range need no assumption: the index is clamped to the last section, as `Math.min` does. A negative (overscrolled) position is not clamped from below: `Math.min(Math.floor(progress * 6), 5)` gives section -1 for a small bounce (`Story.OverscrollSelectsMinusOne`). The next render then takes `STORY_SECTIONS[-1]`, which is `undefined`, and reading its `isSimple` (src/components/WorldMap.jsx:154, 176) throws a TypeError. This is a possible defect of the source, on browsers that report negative scroll positions; the state machine does not represent it.
- `Story.SectionIndex`: uses exact real arithmetic; floating-point rounding of `progress * N` is not modelled.
- `ScrollMachine.TypewriterReveals`, `ScrollMachine.AnimatedSectionFullyRevealed` and the typewriter tick of `ScrollMachine.Step`: lengths and slices count Unicode scalar values, whereas JavaScript's `length` and `slice` count UTF-16 code units. Each story flag is two characters here but four code units in the browser, so there it takes four ticks and can show half a surrogate pair.
- `Links.ParseLinks`: takes a string; the callers may pass `null` or `undefined` (returned as is by the source) or non-strings, which are not modelled.
- `AdminEdits.MapMatching`, `AdminEdits.UpdatePinField`, `AdminEdits.UpdateArrayItem`, `AdminEdits.AddArrayItem`, `AdminEdits.RemoveArrayItem` and `AdminEdits.UpdateQuestion`: `===`/`!==` on objects and arrays compares references in JavaScript (the id tests of src/components/Admin.jsx:73, 75, 82, 91, 98, 107); the model compares values. Numbers are reals, so NaN is not represented.
- `JsValue.SpreadObject`: spreading a string or array into an object (index keys) is not modelled; only objects, `undefined` and `null` are spread by the editor's data.
- Header.jsx, App.jsx and vite.config.js (navigation, routing, build configuration) are not part of this model.
