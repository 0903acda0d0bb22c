# Lighting control panel: room-state synchroniser, in Dafny

This project models the logic of a browser control panel for a building's
lights. The panel has three pages.

- The **entry screen** (`app/page.tsx`) has a device-address field. Its
  `onKeyDown` filter decides which keys may be typed. The connect handler
  probes `GET http://<device>:8081/check`. On status 200 it stores the
  address under `device` and goes to `/dashboard`. Otherwise it shows an
  error message and schedules a clear of that message.
- The **dashboard** (`app/dashboard/page.tsx`) is the device (HTTP)
  variant. It reads `GET http://<device>:8081/status`, an object from
  `room<N>` to 0/1. It lists every entry sorted by `N`. It derives the chart
  data `[offCount, onCount]`. Without a `device` marker it redirects to `/`
  before any request. Logout removes the marker.
- The **controls page** (`app/controls/page.tsx`) is the realtime-store
  variant. Its subscription to the store root keeps only the keys starting
  with `Room` and sorts them by number. It derives the all-lights switch
  (`every` state is `true`, so it is true for no rooms). A single toggle
  writes one key and fetches again. A bulk toggle builds a map from every
  listed room to the requested value and `set`s it at the root, which
  replaces the whole root.

Modules:

- `Text` (text.dfy) gives the JavaScript meaning of `startsWith`,
  `replace(pat, "")` (first occurrence only) and `<` on strings. It reads
  `parseInt` of a digit string as the exact integer, not as JavaScript's
  double (see "## Left out").
- `Rooms` (rooms.dfy) holds the generic `Room<S>` record and the in-place
  sort that both pages run with their comparator. The sort is proved to
  produce `StableSorted`, a stable insertion sort written as a function,
  which is proved sorted, a permutation and stable.
- `Browser` (browser.dfy) holds `localStorage` and `window.location` as one
  object shared by the pages.
- `Dashboard`, `Controls` and `Home` model one page each. Each page is a
  class whose fields are the page's React state. Its methods are the
  handlers. Network outcomes are parameters: `StatusReply`, `Probe`, and the
  `written` flag of a store write.

The realtime store is a `Store` object whose `root` is a `map<string, Value>`.
A `Value` is `Flag(bool)` for a room or `Number(int)` for a counter such as
`loggedInUsers`. Firebase's `set` at a path is an assignment at that key, or
of the whole map at the root. `Object.entries(snapshot.val())` is
`ReadSnapshot`. It lists the map in an order the model leaves open, and it
gives `Null` for an empty root.

Behaviour of the code that the model keeps:

- The dashboard does not filter keys. Every entry of the status object is
  listed.
- An empty status object `{}` is truthy. It therefore gives an empty room
  list, not a failed fetch. Only a falsy body or a rejected request keeps
  the previous list.
- On the controls page, an empty store reads as `null`. The listener then
  throws, and the list and switch stay as they were.
- The sort is non-decreasing and stable, as `Array.prototype.sort` is.
  Keys with equal numbers, such as `room1` and `room01`, keep their payload
  order (`StableSortedIsStable`), so the listing is a function of the
  payload order. When no two keys share a number, the sorted list is the
  same whatever order the entries came in (`SortedUnique`).
- `handleAllToggle` uses `set` on the root, not a merge. After it, the store
  holds only the listed rooms, and `loggedInUsers` is gone. Over an empty
  list it empties the store. Then the next snapshot is `null`, and the
  switch keeps the value the handler gave it.
- The controls page's missing-`user` guard redirects but does not return,
  so the store is still read.
- The key filter compares strings lexicographically. It admits every key
  whose first character is `0` to `8`, whatever follows, and among keys
  starting with `9` only `"9"` itself (`InDigitRange`).

## Model

| member | source | states |
|---|---|---|
| Text.HasPrefix | app/controls/page.tsx:44 | `s.startsWith(p)` holds iff `s` is `p` followed by some string |
| Text.StartsWithIndexOf | app/controls/page.tsx:44 | JavaScript's identity: `s.startsWith(p)` iff the first occurrence of `p` in `s` is at index 0 |
| Text.IndexFrom | app/dashboard/page.tsx:50-51 | the index found is an occurrence of the pattern at or after the start, with none before it; None means no occurrence at all |
| Text.RemoveFirst | app/controls/page.tsx:48-49 | `replace(prefix, "")` on a key that starts with the prefix gives the rest of the key; without any occurrence the string is unchanged |
| Text.ParseDigits | app/dashboard/page.tsx:50-51 | `parseInt` of a string of decimal digits is its base-ten value, below 10 to the power of its length |
| Text.LeadingZero | app/controls/page.tsx:48-49 | a leading zero does not change the parsed number, so `Room01` and `Room1` get the same number |
| Text.ParseInjective | app/dashboard/page.tsx:50-51 | on digit strings without leading zeros, `parseInt` is one-to-one: equal numbers mean equal strings |
| Text.Less | app/page.tsx:98 | JavaScript's `<` on strings: never true of equal strings, and a proper prefix comes first; the lemmas below give the rule that decides every other pair |
| Text.LessAtFirstDifference | app/page.tsx:98 | `<` on strings is decided by the first position where they differ: the string with the smaller character there comes first |
| Text.NotLessThanPrefix | app/page.tsx:98 | a string never comes before one of its prefixes, itself included |
| Text.LessThanChar | app/page.tsx:98 | `key < "0"` holds iff the key is empty or its first character is below `0` |
| Text.CharLessThan | app/page.tsx:98 | `"9" < key` holds iff the key's first character is above `9`, or it is `9` followed by more characters |
| Rooms.Insert | app/controls/page.tsx:47-51 | one insertion step keeps every room, adds the new one, and keeps a sorted list sorted |
| Rooms.StableSorted | app/controls/page.tsx:47-51 | the list the comparator sort yields has the input's length and elements and is non-decreasing by rank |
| Rooms.InsertKeepsOrder | app/dashboard/page.tsx:49-53 | inserting a room puts it behind every room of the same rank already there, and changes the order of no rank class |
| Rooms.StableSortedIsStable | app/dashboard/page.tsx:49-53 | stability: for every rank, the rooms of that rank appear in the sorted list in the order of the input |
| Rooms.StableSortedFixed | app/controls/page.tsx:47-51 | a list that is already sorted is its own stable sort |
| Rooms.SiftDown | app/controls/page.tsx:47-51 | moving one room forward past rooms of greater rank leaves the array as that room inserted into the part before it, the rest unchanged |
| Rooms.SortByRank | app/controls/page.tsx:47-51 | the in-place sort leaves exactly `StableSorted` of the old contents: sorted, a permutation, equal ranks in input order |
| Rooms.SortBySuffix | app/dashboard/page.tsx:49-53 | with the comparator `parseInt(key.replace(prefix, ""))`, the array becomes the stable sort of its old contents by suffix number, with every key well formed |
| Rooms.SortedByUnique | app/dashboard/page.tsx:49-53 | two lists sorted by the same rank with the same elements are equal when no two elements share a rank |
| Rooms.SameNumberSameKey | app/dashboard/page.tsx:49-53 | two well-formed keys whose suffixes have no leading zero and read as the same number are the same key |
| Rooms.DistinctKeysDistinctNumbers | app/controls/page.tsx:47-51 | rooms with distinct keys, whose suffixes have no leading zero, have distinct numbers, the hypothesis of `SortedUnique` |
| Rooms.SortedUnique | app/controls/page.tsx:47-51 | with distinct numbers the result does not even depend on the payload order: two sorted orderings of the same rooms are the same list |
| Browser.GetItem | app/dashboard/page.tsx:36 | `localStorage.getItem(key)` is null iff the key is not stored, and otherwise the stored string |
| Browser.MarkerPresent | app/dashboard/page.tsx:36-37 | the guard `!localStorage.getItem(key)` is passed iff the key is stored with a non-empty value |
| Browser.MarkerAfterWrite | app/dashboard/page.tsx:18 | after `setItem(key, v)` the marker is present iff `v` is non-empty; after `removeItem(key)` it is absent; other keys' markers are unchanged |
| Dashboard.ToRooms | app/dashboard/page.tsx:47 | `Object.entries(data).map(...)` gives one room per entry, and a room is listed iff its key and state are an entry |
| Dashboard.WithState | app/dashboard/page.tsx:61-62 | `filter(state === v)` keeps a room iff it is listed and has state v, and never lengthens the list |
| Dashboard.WithStateMultiset | app/dashboard/page.tsx:61-62 | `filter(state === v)` keeps each room with state v as often as it occurs, and no other room |
| Dashboard.CountIsMultiplicity | app/dashboard/page.tsx:61-62 | `filter(state === v).length` is the number of occurrences of v among the rooms' states |
| Dashboard.CountsPartition | app/dashboard/page.tsx:61-62 | when every state is 0 or 1, onCount + offCount equals the number of rooms |
| Dashboard.ChartData | app/dashboard/page.tsx:60-71 | the chart data has two entries: index 0 is the number of rooms with state 0 (switched off), index 1 the number with state 1 (switched on); they sum to the room count when all states are 0/1 |
| Dashboard.ChartDataPermutationInvariant | app/dashboard/page.tsx:47-62 | the chart does not depend on list order, so sorting the payload leaves it unchanged |
| Dashboard.DashboardPage.constructor | app/dashboard/page.tsx:22-23 | the page starts with no rooms and empty chart data |
| Dashboard.DashboardPage.HandleLogout | app/dashboard/page.tsx:17-20 | only the `device` key leaves local storage, and the location becomes `/` |
| Dashboard.DashboardPage.FetchRooms | app/dashboard/page.tsx:34-58 | without a truthy `device` marker: location `/`, no request, rooms unchanged; otherwise the request is `http://<device>:8081/status`; an object body gives rooms as the stable sort by number of all payload entries, unfiltered; a rejected request or falsy body leaves rooms unchanged |
| Dashboard.DashboardPage.UpdateChartData | app/dashboard/page.tsx:60-81 | the chart data becomes `[offCount, onCount]` of the current rooms |
| Controls.IsRoomKey | app/controls/page.tsx:44 | `key.startsWith('Room')` holds iff the key's first four characters are `R`, `o`, `o`, `m` |
| Controls.FilterRooms | app/controls/page.tsx:43-45 | a room is listed iff its key starts with `Room` (case-sensitive) and the pair is an entry of the snapshot; so `loggedInUsers` and `room1` are dropped |
| Controls.AllOn | app/controls/page.tsx:55 | true iff every listed state is `true`; so true for an empty list |
| Controls.FilterCount | app/controls/page.tsx:43-45 | each room entry is listed exactly as often as it occurs in the snapshot, and other keys never |
| Controls.DistinctKeysOnce | app/controls/page.tsx:43 | an entry list with distinct keys holds no entry twice |
| Controls.FilteredWellFormed | app/controls/page.tsx:43-51 | every filtered room has a rankable `Room<digits>` key when the snapshot's room keys are well formed |
| Controls.FilterListsStore | app/controls/page.tsx:35-45 | filtering an enumeration of the store lists each room key of the store exactly once with its stored value, and nothing else |
| Controls.ReadSnapshot | app/controls/page.tsx:36-43 | the snapshot is null iff the store is empty; otherwise it lists every key of the store once with its value |
| Controls.BulkUpdates | app/controls/page.tsx:75-78 | the bulk map's keys are exactly the listed room names, and every value is the requested one |
| Controls.ListingAfterWrite | app/controls/page.tsx:65-67 | after one key is written, a listing of the store shows that room in its new state, and every other room as before |
| Controls.ToggleThenResync | app/controls/page.tsx:63-67 | toggle then resync: the toggled room appears with the new state; no other room's state changes, and no other room disappears |
| Controls.BulkThenResync | app/controls/page.tsx:73-81 | after a bulk write of v over a non-empty list, the resynced listing is non-empty, every room in it has state v, and the derived switch equals v |
| Controls.OneDigitNumber | app/controls/page.tsx:48-49 | `Room` followed by one digit is well formed and ranks as that digit |
| Controls.SampleFilter | app/controls/page.tsx:43-45 | the sample snapshot filters to its three room entries in given order, without `loggedInUsers` |
| Controls.SampleSorted | app/controls/page.tsx:47-51 | `Room1, Room2, Room3` is sorted with distinct numbers |
| Controls.SampleMultiset | app/controls/page.tsx:43-51 | the sample's filtered entries are a permutation of `Room1, Room2, Room3` |
| Controls.ScenarioListing | app/controls/page.tsx:43-56 | `Room1: true, Room3: false, Room2: true, loggedInUsers: 2` lists as `Room1, Room2, Room3` with the switch off |
| Controls.ControlsPage.constructor | app/controls/page.tsx:18-19 | the page starts with no rooms and the switch off |
| Controls.ControlsPage.OnSnapshot | app/controls/page.tsx:36-57 | a null snapshot changes nothing; otherwise rooms become the stable sort by number of the `Room` entries, and the switch is on iff every listed state is `true` |
| Controls.ControlsPage.FetchRooms | app/controls/page.tsx:29-61 | without a `user` marker the location becomes `/`, but the store is still read; an empty store changes nothing; otherwise rooms list each room key of the store exactly once, sorted, and the switch follows them |
| Controls.ControlsPage.HandleToggle | app/controls/page.tsx:63-71 | a successful write sets exactly the one key and leaves every other key as it was; the re-fetch lists the room in its new state and other rooms as before, and leaves the location alone when the `user` marker is set; a rejected write changes nothing |
| Controls.ControlsPage.HandleAllToggle | app/controls/page.tsx:73-85 | a successful write replaces the root by one entry per listed room, all with the requested value; non-room keys such as `loggedInUsers` are gone, and the switch equals the value; a rejected write changes nothing; rooms are untouched |
| Home.InDigitRange | app/page.tsx:98 | `!(key < "0" \|\| key > "9")` holds exactly for keys whose first character is 0 to 8, and for `"9"` |
| Home.DigitsAllowed | app/page.tsx:96-100 | every single digit `0` to `9` is let through, with or without Ctrl |
| Home.AllowListAllowed | app/page.tsx:86-97 | Backspace, Delete, ArrowLeft, ArrowRight, Tab, Enter and `.` are let through whatever the modifiers |
| Home.SelectAllAllowed | app/page.tsx:99 | Ctrl together with `a` is let through |
| Home.Prevented | app/page.tsx:96-102 | a key is stopped iff it is not allow-listed, lies lexicographically outside the digit range, and is not Ctrl+a |
| Home.PreventedExamples | app/page.tsx:96-102 | `a` without Ctrl, `-`, `Shift`, `9a` and the empty key are stopped |
| Home.HomePage.constructor | app/page.tsx:14-15 | the field starts empty and no error is shown |
| Home.HomePage.HandleDeviceConnection | app/page.tsx:17-44 | the probe goes to `http://<device>:8081/check`; on status 200, `device` is stored under the key `device` and the location becomes `/dashboard`; on any other status the wrong-address message is shown; on a failed request the connection message is shown; in both error cases nothing is stored and a clear is scheduled |
| Home.HomePage.ClearError | app/page.tsx:31-33 | a scheduled clear sets the error back to none |

## Left out

- Presentation is not modelled: JSX, CSS classes, the chart widget, its labels, colours and options, the data table and switches.
- Timing is not modelled: the 500 ms `setInterval` that calls `fetchRooms` again, and the 3000 ms delay of the error clear. `pendingClears` only counts the clears that are scheduled. An earlier clear can therefore wipe a later error before its own 3 seconds; the model allows that order but does not time it.
- Concurrency is not modelled: overlapping fetches, last-completed-wins effects, and the extra `onValue` listener each `fetchRooms` call registers. `Controls.ControlsPage.FetchRooms` delivers one snapshot of the current store. `OnSnapshot` stands for every later delivery.
- The `useEffect` wiring is not modelled. Mount, the Refresh button and the `rooms` dependency are not themselves modelled; a caller runs `FetchRooms` and `UpdateChartData` instead.
- The network and the store library are parameters, not models. These are axios, Firebase's `ref`, `onValue` and `set`, and `console.error` logging.
- Room keys outside the form `<prefix><digits>` are excluded by precondition (`KeysWellFormed`, `RoomKeysWellFormed`). This excludes more keys than the code leaves unordered. `parseInt` also accepts leading whitespace, a sign and a `0x` prefix, and it stops at the first non-digit. So `room 3`, `room-1`, `room0x1F` and `room2a` get the numbers 3, -1, 31 and 2, and the code sorts them by those numbers. The model does not cover such keys. Only a suffix with no leading number, such as `roomx` or an empty suffix, gives `NaN`, for which the code defines no order.
- Text.ParseDigits: reads a digit string as the exact integer. JavaScript's `parseInt` gives a double. Above 2^53 two different suffixes can parse to the same number, which the source then keeps in payload order. A suffix whose value is at least 2^1024 − 2^970 (about 1.8·10^308) gives `Infinity`, and two such keys make the comparator `NaN`. The model orders all such keys by their exact numbers.
- Text.RemoveFirst: its contract covers only a leading occurrence and no occurrence. These are the cases well-formed keys produce.
- Text.Less compares Unicode scalar values, while JavaScript compares UTF-16 code units. The two differ only between characters above U+FFFF and characters from U+E000 to U+FFFF.
- Store values other than booleans and integers are not modelled, such as nested objects. A room's value is kept as stored, because the TypeScript `as boolean` and `as number` casts convert nothing.
- The HTML `pattern` attribute of the address field is not modelled; the browser checks it. The field's `onChange` is a plain state update and is not modelled either.
- The device variant's per-room `/<N>/on` and `/<N>/off` toggles and any bulk write for that variant are not part of this model. No page in the modelled files calls them.
