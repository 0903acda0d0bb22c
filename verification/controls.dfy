/** The controls page of the realtime-store variant: it subscribes to the
    root of the store, lists the `Room<N>` keys sorted by number, derives the
    all-lights switch, and writes single and bulk toggles back. */
module Controls {
  import opened Text
  import opened Rooms
  import opened Browser

  /** The key prefix of room entries in the store: `Room1`, `Room2`, ... */
  const Prefix := "Room"

  /** A value at a root key of the store: a room's switch, or a counter such
      as `loggedInUsers`. */
  datatype Value = Flag(on: bool) | Number(n: int)

  /** `snapshot.val()` of the root: null for an empty store, otherwise the
      root object, given as `Object.entries` of it. */
  datatype Snapshot = Null | Object(entries: seq<(string, Value)>)

  /** `key.startsWith('Room')`: case-sensitive, so `room1` is not a room key. */
  predicate IsRoomKey(key: string): (r: bool)
    ensures r <==> |key| >= 4 && key[0] == 'R' && key[1] == 'o' && key[2] == 'o' && key[3] == 'm'
  {
    HasPrefix(key, Prefix)
  }

  /** Every key the room filter keeps has the form `Room<digits>`. */
  predicate RoomKeysWellFormed(entries: seq<(string, Value)>) {
    forall i :: 0 <= i < |entries| && IsRoomKey(entries[i].0) ==> WellFormedKey(Prefix, entries[i].0)
  }

  /** The same, for the keys of the store itself. */
  ghost predicate StoreKeysWellFormed(root: map<string, Value>) {
    forall k :: k in root && IsRoomKey(k) ==> WellFormedKey(Prefix, k)
  }

  /** `entries` lists `root`: each key once, each with its value. */
  ghost predicate Enumerates(entries: seq<(string, Value)>, root: map<string, Value>) {
    && (forall i :: 0 <= i < |entries| ==> entries[i].0 in root && root[entries[i].0] == entries[i].1)
    && (forall i, j :: 0 <= i < j < |entries| ==> entries[i].0 != entries[j].0)
    && (forall k :: k in root ==> (k, root[k]) in entries)
  }

  /** `rooms` lists the room keys of `root`: each listed room is a room key of
      the store with its stored value, and each room key of the store is
      listed exactly once. */
  ghost predicate ListsExactly(rooms: seq<Room<Value>>, root: map<string, Value>) {
    && (forall r :: r in rooms ==> IsRoomKey(r.room) && r.room in root && root[r.room] == r.state)
    && (forall k :: k in root && IsRoomKey(k) ==> multiset(rooms)[Room(k, root[k])] == 1)
  }

  /** `Object.entries(data).filter(([key]) => key.startsWith('Room')).map(...)`:
      the room entries, in the order given, other keys such as
      `loggedInUsers` dropped. */
  function FilterRooms(entries: seq<(string, Value)>): (rooms: seq<Room<Value>>)
    ensures forall r :: r in rooms <==> IsRoomKey(r.room) && (r.room, r.state) in entries
    ensures |rooms| <= |entries|
  {
    if entries == [] then []
    else
      var rest := FilterRooms(entries[1..]);
      assert forall e :: e in entries <==> e == entries[0] || e in entries[1..];
      if IsRoomKey(entries[0].0) then [Room(entries[0].0, entries[0].1)] + rest else rest
  }

  /** `roomsData.every(room => room.state === true)`; true for no rooms. */
  function AllOn(rooms: seq<Room<Value>>): (all: bool)
    ensures all <==> forall i :: 0 <= i < |rooms| ==> rooms[i].state == Flag(true)
  {
    if rooms == [] then true
    else
      var rest := AllOn(rooms[1..]);
      assert rest <==> forall i :: 1 <= i < |rooms| ==> rooms[i].state == Flag(true);
      rooms[0].state == Flag(true) && rest
  }

  /** `AllOn` in terms of membership. */
  lemma AllOnMembers(rooms: seq<Room<Value>>)
    ensures AllOn(rooms) <==> forall r :: r in rooms ==> r.state == Flag(true)
  {
    if !AllOn(rooms) {
      var i :| 0 <= i < |rooms| && rooms[i].state != Flag(true);
      assert rooms[i] in rooms;
    }
  }

  /** Each filtered room occurs as often as its entry does, and not at all
      when its key is not a room key. */
  lemma {:induction false} FilterCount(entries: seq<(string, Value)>, x: Room<Value>)
    ensures multiset(FilterRooms(entries))[x] ==
            if IsRoomKey(x.room) then multiset(entries)[(x.room, x.state)] else 0
  {
    if entries != [] {
      FilterCount(entries[1..], x);
      assert entries == [entries[0]] + entries[1..];
    }
  }

  /** In a list of entries whose keys are distinct, no entry occurs twice. */
  lemma {:induction false} DistinctKeysOnce(entries: seq<(string, Value)>, e: (string, Value))
    requires forall i, j :: 0 <= i < j < |entries| ==> entries[i].0 != entries[j].0
    ensures multiset(entries)[e] <= 1
  {
    if entries != [] {
      DistinctKeysOnce(entries[1..], e);
      assert entries == [entries[0]] + entries[1..];
      if e == entries[0] {
        assert e !in entries[1..];
      }
    }
  }

  /** The filtered rooms can all be ranked. */
  lemma FilteredWellFormed(entries: seq<(string, Value)>)
    requires RoomKeysWellFormed(entries)
    ensures AllWellFormed(FilterRooms(entries), Prefix)
  {
    var listed := FilterRooms(entries);
    forall i | 0 <= i < |listed| ensures WellFormedKey(Prefix, listed[i].room) {
      assert listed[i] in listed;
      var j :| 0 <= j < |entries| && entries[j] == (listed[i].room, listed[i].state);
    }
  }

  /** The room filter applied to an enumeration of the store lists exactly
      the room keys of the store. */
  lemma FilterListsStore(entries: seq<(string, Value)>, root: map<string, Value>, rooms: seq<Room<Value>>)
    requires Enumerates(entries, root)
    requires multiset(rooms) == multiset(FilterRooms(entries))
    ensures ListsExactly(rooms, root)
  {
    forall r | r in rooms
      ensures IsRoomKey(r.room) && r.room in root && root[r.room] == r.state
    {
      assert r in multiset(FilterRooms(entries));
      var i :| 0 <= i < |entries| && entries[i] == (r.room, r.state);
    }
    forall k | k in root && IsRoomKey(k)
      ensures multiset(rooms)[Room(k, root[k])] == 1
    {
      FilterCount(entries, Room(k, root[k]));
      DistinctKeysOnce(entries, (k, root[k]));
    }
  }

  /** `Object.entries(snapshot.val())` for the whole store: an enumeration in
      an order the store chooses, or null for an empty root. */
  method ReadSnapshot(root: map<string, Value>) returns (snap: Snapshot)
    ensures snap.Null? <==> root == map[]
    ensures snap.Object? ==> Enumerates(snap.entries, root)
  {
    if root == map[] {
      return Null;
    }
    var entries: seq<(string, Value)> := [];
    var rest := root;
    while rest != map[]
      invariant forall k :: k in rest ==> k in root && rest[k] == root[k]
      invariant forall i :: 0 <= i < |entries| ==> entries[i].0 in root && root[entries[i].0] == entries[i].1
      invariant forall i :: 0 <= i < |entries| ==> entries[i].0 !in rest
      invariant forall i, j :: 0 <= i < j < |entries| ==> entries[i].0 != entries[j].0
      invariant forall k :: k in root ==> k in rest || (k, root[k]) in entries
      decreases rest.Keys
    {
      var k :| k in rest;
      entries := entries + [(k, rest[k])];
      rest := rest - {k};
    }
    snap := Object(entries);
  }

  /** `handleAllToggle`'s `rooms.reduce((acc, { room }) => { acc[room] = value; return acc; }, {})`:
      one entry per listed room, all with the requested value. */
  method BulkUpdates(rooms: seq<Room<Value>>, value: bool) returns (updates: map<string, Value>)
    ensures updates.Keys == set r | r in rooms :: r.room
    ensures forall k :: k in updates ==> updates[k] == Flag(value)
  {
    updates := map[];
    for i := 0 to |rooms|
      invariant updates.Keys == set r | r in rooms[..i] :: r.room
      invariant forall k :: k in updates ==> updates[k] == Flag(value)
    {
      assert rooms[..i + 1] == rooms[..i] + [rooms[i]];
      updates := updates[rooms[i].room := Flag(value)];
    }
    assert rooms[..|rooms|] == rooms;
  }

  /** A listing of the store after `room` was set to `on` shows that room in
      its new state, every other listed room as the store held it before,
      and every other room key of the store. */
  lemma ListingAfterWrite(root: map<string, Value>, room: string, on: bool, rooms: seq<Room<Value>>)
    requires IsRoomKey(room)
    requires ListsExactly(rooms, root[room := Flag(on)])
    ensures Room(room, Flag(on)) in rooms
    ensures forall r :: r in rooms && r.room != room ==> r.room in root && root[r.room] == r.state
    ensures forall k :: k in root && IsRoomKey(k) && k != room ==> Room(k, root[k]) in rooms
  {
    var after := root[room := Flag(on)];
    assert multiset(rooms)[Room(room, after[room])] == 1;
    forall k | k in root && IsRoomKey(k) && k != room
      ensures Room(k, root[k]) in rooms
    {
      assert multiset(rooms)[Room(k, after[k])] == 1;
    }
  }

  /** Toggle, then resync: whatever order the store enumerates its entries
      in, the sorted listing shows the toggled room in its new state and
      leaves every other room as it was. */
  lemma ToggleThenResync(root: map<string, Value>, room: string, on: bool, entries: seq<(string, Value)>, rooms: seq<Room<Value>>)
    requires IsRoomKey(room)
    requires Enumerates(entries, root[room := Flag(on)])
    requires multiset(rooms) == multiset(FilterRooms(entries))
    ensures Room(room, Flag(on)) in rooms
    ensures forall r :: r in rooms && r.room != room ==> r.room in root && root[r.room] == r.state
    ensures forall k :: k in root && IsRoomKey(k) && k != room ==> Room(k, root[k]) in rooms
  {
    FilterListsStore(entries, root[room := Flag(on)], rooms);
    ListingAfterWrite(root, room, on, rooms);
  }

  /** After a bulk write of `value` over a non-empty room list, the listing
      the subscription delivers shows every room with that value, so the
      all-lights switch it derives equals `value`. (Over an empty list the
      write empties the store and the subscription receives null.) */
  lemma BulkThenResync(rooms: seq<Room<Value>>, value: bool, updates: map<string, Value>, entries: seq<(string, Value)>)
    requires rooms != [] && forall i :: 0 <= i < |rooms| ==> IsRoomKey(rooms[i].room)
    requires updates.Keys == set r | r in rooms :: r.room
    requires forall k :: k in updates ==> updates[k] == Flag(value)
    requires Enumerates(entries, updates)
    ensures FilterRooms(entries) != []
    ensures forall r :: r in FilterRooms(entries) ==> r.state == Flag(value)
    ensures AllOn(FilterRooms(entries)) == value
  {
    var listed := FilterRooms(entries);
    var k := rooms[0].room;
    assert k in updates;
    assert (k, updates[k]) in entries;
    assert Room(k, Flag(value)) in listed;
    forall r | r in listed ensures r.state == Flag(value) {
      var i :| 0 <= i < |entries| && entries[i] == (r.room, r.state);
    }
    if !value {
      var j :| 0 <= j < |listed| && listed[j] == Room(k, Flag(value));
    }
  }

  /** The number of a one-digit room key. */
  lemma OneDigitNumber(d: char)
    requires IsDigit(d)
    ensures WellFormedKey(Prefix, Prefix + [d])
    ensures SuffixNumber(Prefix, Prefix + [d]) == d as int - '0' as int
  {
    var key := Prefix + [d];
    assert key[..|Prefix|] == Prefix;
    assert key[|Prefix|..] == [d];
    assert RemoveFirst(key, Prefix) == [d];
    assert ParseDigits([d]) == ParseDigits([d][..0]) * 10 + (d as int - '0' as int);
    assert [d][..0] == [];
  }

  /** The sample store of the lemma below, as the store might enumerate it. */
  const SampleEntries: seq<(string, Value)> :=
    [("Room1", Flag(true)), ("loggedInUsers", Number(2)), ("Room3", Flag(false)), ("Room2", Flag(true))]

  /** Filtering a concatenation filters each part. */
  lemma {:induction false} FilterConcat(a: seq<(string, Value)>, b: seq<(string, Value)>)
    ensures FilterRooms(a + b) == FilterRooms(a) + FilterRooms(b)
    decreases |a|
  {
    if a == [] {
      assert a + b == b;
    } else {
      var head := if IsRoomKey(a[0].0) then [Room(a[0].0, a[0].1)] else [];
      assert (a + b)[0] == a[0] && (a + b)[1..] == a[1..] + b;
      calc {
        FilterRooms(a + b);
        head + FilterRooms(a[1..] + b);
        { FilterConcat(a[1..], b); }
        head + (FilterRooms(a[1..]) + FilterRooms(b));
        (head + FilterRooms(a[1..])) + FilterRooms(b);
        FilterRooms(a) + FilterRooms(b);
      }
    }
  }

  lemma SampleFilter()
    ensures FilterRooms(SampleEntries) ==
            [Room("Room1", Flag(true)), Room("Room3", Flag(false)), Room("Room2", Flag(true))]
  {
    var e := SampleEntries;
    assert e == [e[0], e[1]] + [e[2], e[3]];
    FilterConcat([e[0], e[1]], [e[2], e[3]]);
    assert !IsRoomKey(e[1].0);
    FilterPair(e[0], e[1]);
    FilterPair(e[2], e[3]);
  }

  /** Filtering two entries keeps each one that has a room key. */
  lemma FilterPair(x: (string, Value), y: (string, Value))
    ensures FilterRooms([x, y]) ==
            (if IsRoomKey(x.0) then [Room(x.0, x.1)] else []) + (if IsRoomKey(y.0) then [Room(y.0, y.1)] else [])
  {
    assert [x, y][1..] == [y] && [y][1..] == [];
  }

  /** The sample's room entries in room order. */
  const SampleListing: seq<Room<Value>> :=
    [Room("Room1", Flag(true)), Room("Room2", Flag(true)), Room("Room3", Flag(false))]

  /** A room whose key is `Room` and one digit ranks as that digit. */
  lemma OneDigitRoom(r: Room<Value>, d: char)
    requires IsDigit(d) && r.room == Prefix + [d]
    ensures WellFormedKey(Prefix, r.room) && SuffixRank(Prefix)(r) == d as int - '0' as int
  {
    OneDigitNumber(d);
    SuffixRankIsRank(Prefix, r);
  }

  lemma SampleSorted()
    ensures SortedBySuffix(SampleListing, Prefix) && DistinctNumbers(SampleListing, Prefix)
  {
    var s := SampleListing;
    OneDigitRoom(s[0], '1');
    OneDigitRoom(s[1], '2');
    OneDigitRoom(s[2], '3');
    Increasing3(s, SuffixRank(Prefix));
    WellFormed3(s, Prefix);
  }

  lemma SampleMultiset()
    ensures multiset(FilterRooms(SampleEntries)) == multiset(SampleListing)
  {
    SampleFilter();
    var s := SampleListing;
    assert FilterRooms(SampleEntries) == [s[0], s[2], s[1]];
    LastTwoSwapped(s[0], s[1], s[2]);
    assert s == [s[0], s[1], s[2]];
  }

  /** Kept apart so that the sample's string literals stay out of the
      multiset reasoning. */
  lemma LastTwoSwapped<T>(a: T, b: T, c: T)
    ensures multiset([a, c, b]) == multiset([a, b, c])
  {
  }

  /** A store holding `Room1: true, Room3: false, Room2: true` beside
      `loggedInUsers: 2`: any sorted listing of its room entries is
      `Room1, Room2, Room3`, the counter is not listed, and the all-lights
      switch is off. */
  lemma ScenarioListing(rooms: seq<Room<Value>>)
    requires SortedBySuffix(rooms, Prefix)
    requires multiset(rooms) == multiset(FilterRooms(SampleEntries))
    ensures rooms == SampleListing
    ensures !AllOn(rooms)
  {
    SampleMultiset();
    SampleSorted();
    SortedUnique(SampleListing, rooms, Prefix);
    assert rooms[2].state == Flag(false);
  }

  class Store {
    /** The root object of the realtime store. */
    var root: map<string, Value>

    constructor (root: map<string, Value>)
      ensures this.root == root
    {
      this.root := root;
    }
  }

  class ControlsPage {
    const db: Store
    const browser: Browser
    /** `rooms`, the sorted list of room entries. */
    var rooms: seq<Room<Value>>
    /** `allOn`, the state of the all-lights switch. */
    var allOn: bool

    /** The room keys of the store and of the list can all be ranked. */
    ghost predicate Valid()
      reads this, db
    {
      StoreKeysWellFormed(db.root) && AllWellFormed(rooms, Prefix)
    }

    constructor (db: Store, browser: Browser)
      requires StoreKeysWellFormed(db.root)
      ensures Valid() && this.db == db && this.browser == browser
      ensures rooms == [] && !allOn
    {
      this.db := db;
      this.browser := browser;
      rooms := [];
      allOn := false;
    }

    /** The body of the `onValue` listener, run with each snapshot of the
        root. A null snapshot throws inside the listener and changes nothing;
        otherwise the room entries become the new sorted list and the
        all-lights switch follows it. */
    method OnSnapshot(snap: Snapshot)
      requires Valid()
      requires snap.Object? ==> RoomKeysWellFormed(snap.entries)
      modifies this`rooms, this`allOn
      ensures Valid()
      ensures snap.Null? ==> rooms == old(rooms) && allOn == old(allOn)
      ensures snap.Object? ==> rooms == StableSorted(FilterRooms(snap.entries), SuffixRank(Prefix))
      ensures snap.Object? ==>
                SortedBySuffix(rooms, Prefix) && multiset(rooms) == multiset(FilterRooms(snap.entries))
      ensures snap.Object? ==> (allOn <==> forall r :: r in rooms ==> r.state == Flag(true))
    {
      if snap.Null? {
        return;
      }
      var listed := FilterRooms(snap.entries);
      FilteredWellFormed(snap.entries);
      var a := new Room<Value>[|listed|](i requires 0 <= i < |listed| => listed[i]);
      assert a[..] == listed;
      SortBySuffix(a, Prefix);
      rooms := a[..];
      allOn := AllOn(rooms);
      AllOnMembers(rooms);
    }

    /** `fetchRooms`: without a `user` marker the page is sent to `/`, but the
        subscription is registered all the same; it then delivers the
        current root. */
    method FetchRooms()
      requires Valid()
      modifies this`rooms, this`allOn, browser`location
      ensures Valid()
      ensures !MarkerPresent(browser.storage, "user") ==> browser.location == "/"
      ensures MarkerPresent(browser.storage, "user") ==> browser.location == old(browser.location)
      ensures db.root == map[] ==> rooms == old(rooms) && allOn == old(allOn)
      ensures db.root != map[] ==> SortedBySuffix(rooms, Prefix) && ListsExactly(rooms, db.root)
      ensures db.root != map[] ==> (allOn <==> forall r :: r in rooms ==> r.state == Flag(true))
    {
      if !MarkerPresent(browser.storage, "user") {
        browser.location := "/";
      }
      var snap := ReadSnapshot(db.root);
      assert snap.Object? ==> RoomKeysWellFormed(snap.entries);
      OnSnapshot(snap);
      if snap.Object? {
        FilterListsStore(snap.entries, db.root, rooms);
      }
    }

    /** `handleToggle(room, newState)`: set the one key `room` to `newState`,
        then fetch again. A rejected write is caught and changes nothing. */
    method HandleToggle(room: string, newState: bool, written: bool)
      requires Valid() && WellFormedKey(Prefix, room)
      modifies db, this`rooms, this`allOn, browser`location
      ensures Valid()
      ensures written ==> db.root == old(db.root)[room := Flag(newState)]
      ensures written ==> Room(room, Flag(newState)) in rooms
      ensures written ==> forall r :: r in rooms && r.room != room ==> r.room in old(db.root) && old(db.root)[r.room] == r.state
      ensures written ==> SortedBySuffix(rooms, Prefix) && ListsExactly(rooms, db.root)
      ensures written ==> (allOn <==> forall r :: r in rooms ==> r.state == Flag(true))
      ensures written && !MarkerPresent(browser.storage, "user") ==> browser.location == "/"
      ensures written && MarkerPresent(browser.storage, "user") ==> browser.location == old(browser.location)
      ensures !written ==> db.root == old(db.root) && rooms == old(rooms) && allOn == old(allOn)
      ensures !written ==> browser.location == old(browser.location)
    {
      if !written {
        return;
      }
      ghost var before := db.root;
      db.root := db.root[room := Flag(newState)];
      FetchRooms();
      assert db.root == before[room := Flag(newState)];
      assert room in db.root;
      assert ListsExactly(rooms, before[room := Flag(newState)]);
      ListingAfterWrite(before, room, newState, rooms);
    }

    /** `handleAllToggle(value)`: replace the whole root with one entry per
        listed room, all set to `value`, and set the switch at once. Keys
        that are not listed rooms, such as `loggedInUsers`, are gone from the
        store. A rejected write changes nothing. */
    method HandleAllToggle(value: bool, written: bool)
      requires Valid()
      modifies db, this`allOn
      ensures Valid() && rooms == old(rooms)
      ensures written ==> db.root.Keys == (set r | r in rooms :: r.room)
      ensures written ==> forall k :: k in db.root ==> db.root[k] == Flag(value) && IsRoomKey(k)
      ensures written ==> allOn == value
      ensures !written ==> db.root == old(db.root) && allOn == old(allOn)
    {
      var updates := BulkUpdates(rooms, value);
      if !written {
        return;
      }
      db.root := updates;
      allOn := value;
      forall k | k in db.root ensures IsRoomKey(k) {
        var r :| r in rooms && r.room == k;
        var i :| 0 <= i < |rooms| && rooms[i] == r;
      }
    }
  }
}
