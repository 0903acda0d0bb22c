/** The dashboard page of the device (HTTP) variant: it reads
    `GET http://<device>:8081/status`, lists the rooms sorted by number and
    shows how many bulbs are off and on. */
module Dashboard {
  import opened Text
  import opened Rooms
  import opened Browser

  /** The key prefix of the device's status payload: `room1`, `room2`, ... */
  const Prefix := "room"

  /** How the status request ended. */
  datatype StatusReply =
    | Threw                                   // axios rejected (network error, non-2xx status)
    | FalsyBody                               // resolved, but `response.data` is falsy
    | ObjectBody(entries: seq<(string, int)>) // `Object.entries(response.data)`

  function StatusUrl(device: string): string {
    "http://" + device + ":8081/status"
  }

  /** Every key of the payload has the form `room<digits>`. */
  predicate KeysWellFormed(entries: seq<(string, int)>) {
    forall i :: 0 <= i < |entries| ==> WellFormedKey(Prefix, entries[i].0)
  }

  /** `Object.entries(data).map(([room, state]) => ({ room, state }))`: every
      entry is kept, none is filtered out. */
  function ToRooms(entries: seq<(string, int)>): (rooms: seq<Room<int>>)
    ensures |rooms| == |entries|
    ensures forall k, v :: Room(k, v) in rooms <==> (k, v) in entries
  {
    var rooms := seq(|entries|, i requires 0 <= i < |entries| => Room(entries[i].0, entries[i].1));
    assert forall k, v :: (k, v) in entries ==> Room(k, v) in rooms by {
      forall k, v | (k, v) in entries ensures Room(k, v) in rooms {
        var i :| 0 <= i < |entries| && entries[i] == (k, v);
        assert rooms[i] == Room(k, v);
      }
    }
    rooms
  }

  /** `rooms.filter(room => room.state === v)` */
  function WithState(rooms: seq<Room<int>>, v: int): (kept: seq<Room<int>>)
    ensures forall r :: r in kept <==> r in rooms && r.state == v
    ensures |kept| <= |rooms|
  {
    if rooms == [] then []
    else (if rooms[0].state == v then [rooms[0]] else []) + WithState(rooms[1..], v)
  }

  /** The states of the rooms, in list order. */
  function States(rooms: seq<Room<int>>): seq<int> {
    seq(|rooms|, i requires 0 <= i < |rooms| => rooms[i].state)
  }

  /** The filter keeps exactly the rooms in state `v`, each as often as it
      occurs in the list. */
  lemma {:induction false} WithStateMultiset(rooms: seq<Room<int>>, v: int, x: Room<int>)
    ensures multiset(WithState(rooms, v))[x] == if x.state == v then multiset(rooms)[x] else 0
  {
    if rooms != [] {
      WithStateMultiset(rooms[1..], v, x);
      assert rooms == [rooms[0]] + rooms[1..];
    }
  }

  /** `rooms.filter(room => room.state === v).length` is the number of
      occurrences of `v` among the states. */
  lemma {:induction false} CountIsMultiplicity(rooms: seq<Room<int>>, v: int)
    ensures |WithState(rooms, v)| == multiset(States(rooms))[v]
  {
    if rooms != [] {
      var one := if rooms[0].state == v then 1 else 0;
      assert States(rooms) == [rooms[0].state] + States(rooms[1..]);
      calc {
        |WithState(rooms, v)|;
        one + |WithState(rooms[1..], v)|;
        { CountIsMultiplicity(rooms[1..], v); }
        one + multiset(States(rooms[1..]))[v];
        multiset(States(rooms))[v];
      }
    }
  }

  /** When every state is 0 or 1, the on and off counts add up to the number
      of rooms. */
  lemma {:induction false} CountsPartition(rooms: seq<Room<int>>)
    ensures (forall i :: 0 <= i < |rooms| ==> rooms[i].state == 0 || rooms[i].state == 1) ==>
              |WithState(rooms, 0)| + |WithState(rooms, 1)| == |rooms|
  {
    if rooms != [] {
      CountsPartition(rooms[1..]);
    }
  }

  /** `data: [offCount, onCount]`: index 0 is shown as the switched-off bulbs,
      index 1 as the switched-on ones. */
  function ChartData(rooms: seq<Room<int>>): (data: seq<nat>)
    ensures |data| == 2
    ensures data[0] == multiset(States(rooms))[0]
    ensures data[1] == multiset(States(rooms))[1]
    ensures (forall i :: 0 <= i < |rooms| ==> rooms[i].state == 0 || rooms[i].state == 1) ==>
              data[0] + data[1] == |rooms|
  {
    CountIsMultiplicity(rooms, 0);
    CountIsMultiplicity(rooms, 1);
    CountsPartition(rooms);
    [|WithState(rooms, 0)|, |WithState(rooms, 1)|]
  }

  /** The counts do not depend on the order of the list, so sorting the
      payload does not change the chart. */
  lemma ChartDataPermutationInvariant(a: seq<Room<int>>, b: seq<Room<int>>)
    requires multiset(a) == multiset(b)
    ensures ChartData(a) == ChartData(b)
  {
    forall v | v == 0 || v == 1
      ensures |WithState(a, v)| == |WithState(b, v)|
    {
      forall x ensures multiset(WithState(a, v))[x] == multiset(WithState(b, v))[x] {
        WithStateMultiset(a, v, x);
        WithStateMultiset(b, v, x);
      }
      assert multiset(WithState(a, v)) == multiset(WithState(b, v));
      assert |WithState(a, v)| == |multiset(WithState(a, v))|;
      assert |WithState(b, v)| == |multiset(WithState(b, v))|;
    }
  }

  class DashboardPage {
    const browser: Browser
    /** `rooms`, the sorted room list. */
    var rooms: seq<Room<int>>
    /** The chart's `data` array; empty for the initial `{}`. */
    var chartData: seq<nat>

    constructor (browser: Browser)
      ensures this.browser == browser && rooms == [] && chartData == []
    {
      this.browser := browser;
      rooms := [];
      chartData := [];
    }

    /** `handleLogout`: forget the device and go back to the entry screen. */
    method HandleLogout()
      modifies browser
      ensures browser.storage == old(browser.storage) - {"device"}
      ensures browser.location == "/"
    {
      browser.storage := browser.storage - {"device"};
      browser.location := "/";
    }

    /** `fetchRooms`, with the reply of the status request passed in. The
        result is the request issued, if any. Without a device marker the
        page redirects and throws before the request; a rejected request or
        a falsy body is caught and logged, and `rooms` keeps its value. */
    method FetchRooms(reply: StatusReply) returns (request: Option<string>)
      requires reply.ObjectBody? ==> KeysWellFormed(reply.entries)
      modifies this`rooms, browser`location
      ensures !MarkerPresent(browser.storage, "device") ==>
                request == None && browser.location == "/" && rooms == old(rooms)
      ensures MarkerPresent(browser.storage, "device") ==>
                request == Some(StatusUrl(browser.storage["device"])) &&
                browser.location == old(browser.location)
      ensures MarkerPresent(browser.storage, "device") && reply.ObjectBody? ==>
                rooms == StableSorted(ToRooms(reply.entries), SuffixRank(Prefix))
      ensures MarkerPresent(browser.storage, "device") && reply.ObjectBody? ==>
                SortedBySuffix(rooms, Prefix) && multiset(rooms) == multiset(ToRooms(reply.entries))
      ensures MarkerPresent(browser.storage, "device") && !reply.ObjectBody? ==> rooms == old(rooms)
    {
      if !MarkerPresent(browser.storage, "device") {
        browser.location := "/";
        return None;
      }
      request := Some(StatusUrl(browser.storage["device"]));
      if !reply.ObjectBody? {
        return;
      }
      var listed := ToRooms(reply.entries);
      var a := new Room<int>[|listed|](i requires 0 <= i < |listed| => listed[i]);
      assert a[..] == listed;
      SortBySuffix(a, Prefix);
      rooms := a[..];
    }

    /** `updateChartData`, run whenever `rooms` changes. */
    method UpdateChartData()
      modifies this`chartData
      ensures chartData == ChartData(rooms)
    {
      chartData := ChartData(rooms);
    }
  }
}
