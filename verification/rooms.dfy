/** A room as both pages list it, and the ordering both pages give the list:
    by the integer that follows the backend's room prefix in the key. */
module Rooms {
  import opened Text

  /** One controllable light: its store key and its state as the store holds it. */
  datatype Room<S> = Room(room: string, state: S)

  /** A key of the form `<prefix><digits>`, for which `parseInt(key.replace(prefix, ""))`
      is a number. */
  predicate WellFormedKey(prefix: string, key: string) {
    HasPrefix(key, prefix) && |key| > |prefix| && AllDigits(key[|prefix|..])
  }

  /** `parseInt(key.replace(prefix, ""))`, the sort key of a room. */
  function SuffixNumber(prefix: string, key: string): nat
    requires WellFormedKey(prefix, key)
  {
    ParseDigits(RemoveFirst(key, prefix))
  }

  /** The number the comparator computes for a room; keys outside the
      `<prefix><digits>` shape are excluded by every caller. */
  function Rank<S>(prefix: string, r: Room<S>): nat {
    if WellFormedKey(prefix, r.room) then SuffixNumber(prefix, r.room) else 0
  }

  predicate AllWellFormed<S>(s: seq<Room<S>>, prefix: string) {
    forall i :: 0 <= i < |s| ==> WellFormedKey(prefix, s[i].room)
  }

  /** Non-decreasing by `rank`. */
  predicate SortedBy<S>(s: seq<Room<S>>, rank: Room<S> -> nat) {
    forall i, j :: 0 <= i < j < |s| ==> rank(s[i]) <= rank(s[j])
  }

  /** The rank the source's comparator computes for one backend. */
  function SuffixRank<S>(prefix: string): Room<S> -> nat {
    r => Rank(prefix, r)
  }

  lemma SuffixRankIsRank<S>(prefix: string, r: Room<S>)
    ensures SuffixRank(prefix)(r) == Rank(prefix, r)
  {
  }

  /** Non-decreasing by suffix number, every key well formed. */
  predicate SortedBySuffix<S>(s: seq<Room<S>>, prefix: string) {
    AllWellFormed(s, prefix) && SortedBy(s, SuffixRank(prefix))
  }

  /** No two rooms share a suffix number (`DistinctKeysDistinctNumbers` gives
      it for distinct keys whose suffixes have no leading zero). */
  predicate DistinctNumbers<S>(s: seq<Room<S>>, prefix: string) {
    forall i, j :: 0 <= i < j < |s| ==> SuffixRank(prefix)(s[i]) != SuffixRank(prefix)(s[j])
  }

  /** Three rooms of strictly increasing rank are sorted, with no rank twice. */
  lemma Increasing3<S>(s: seq<Room<S>>, rank: Room<S> -> nat)
    requires |s| == 3 && rank(s[0]) < rank(s[1]) < rank(s[2])
    ensures SortedBy(s, rank)
    ensures forall i, j :: 0 <= i < j < |s| ==> rank(s[i]) != rank(s[j])
  {
  }

  /** Three rooms whose keys are well formed. */
  lemma WellFormed3<S>(s: seq<Room<S>>, prefix: string)
    requires |s| == 3
    requires WellFormedKey(prefix, s[0].room) && WellFormedKey(prefix, s[1].room) && WellFormedKey(prefix, s[2].room)
    ensures AllWellFormed(s, prefix)
  {
  }

  /** Puts `x` into `t` behind every room whose rank is at most `x`'s, moving
      it forward only past rooms of strictly greater rank: one step of a
      stable insertion sort. */
  function Insert<S>(t: seq<Room<S>>, x: Room<S>, rank: Room<S> -> nat): (r: seq<Room<S>>)
    ensures |r| == |t| + 1
    ensures multiset(r) == multiset(t) + multiset{x}
    ensures SortedBy(t, rank) ==> SortedBy(r, rank)
    decreases |t|
  {
    if t == [] || rank(t[|t| - 1]) <= rank(x) then t + [x]
    else
      var init := t[..|t| - 1];
      var last := t[|t| - 1];
      var rest := Insert(init, x, rank);
      assert t == init + [last];
      InsertBehind(t, x, rank, rest);
      rest + [last]
  }

  /** The step case of `Insert`: the last room of a sorted `t`, of rank
      greater than `x`'s, stays behind `x` inserted into the rest. */
  lemma InsertBehind<S>(t: seq<Room<S>>, x: Room<S>, rank: Room<S> -> nat, rest: seq<Room<S>>)
    requires t != [] && rank(t[|t| - 1]) > rank(x)
    requires multiset(rest) == multiset(t[..|t| - 1]) + multiset{x}
    requires SortedBy(t, rank) ==> SortedBy(rest, rank)
    ensures SortedBy(t, rank) ==> SortedBy(rest + [t[|t| - 1]], rank)
  {
    if SortedBy(t, rank) {
      var last := t[|t| - 1];
      forall i | 0 <= i < |rest| ensures rank(rest[i]) <= rank(last) {
        assert rest[i] in multiset(rest);
        if rest[i] != x {
          var j :| 0 <= j < |t| - 1 && t[j] == rest[i];
        }
      }
    }
  }

  /** The list `Array.prototype.sort` produces with an integer comparator:
      sorted by `rank`, and stable, rooms of equal rank in their input order. */
  function StableSorted<S>(s: seq<Room<S>>, rank: Room<S> -> nat): (r: seq<Room<S>>)
    ensures |r| == |s|
    ensures SortedBy(r, rank)
    ensures multiset(r) == multiset(s)
    decreases |s|
  {
    if s == [] then []
    else
      assert s == s[..|s| - 1] + [s[|s| - 1]];
      Insert(StableSorted(s[..|s| - 1], rank), s[|s| - 1], rank)
  }

  /** The rooms of `s` whose rank is `k`, in list order. */
  function OfRank<S>(s: seq<Room<S>>, rank: Room<S> -> nat, k: nat): seq<Room<S>>
    decreases |s|
  {
    if s == [] then []
    else OfRank(s[..|s| - 1], rank, k) + (if rank(s[|s| - 1]) == k then [s[|s| - 1]] else [])
  }

  lemma {:induction false} OfRankAppend<S>(s: seq<Room<S>>, t: seq<Room<S>>, rank: Room<S> -> nat, k: nat)
    ensures OfRank(s + t, rank, k) == OfRank(s, rank, k) + OfRank(t, rank, k)
    decreases |t|
  {
    if t == [] {
      assert s + t == s;
    } else {
      var t' := t[..|t| - 1];
      assert (s + t)[..|s + t| - 1] == s + t';
      OfRankAppend(s, t', rank, k);
    }
  }

  /** Inserting `x` keeps the rooms of every rank in order, with `x` behind
      the ones of its own rank. */
  lemma {:induction false} InsertKeepsOrder<S>(t: seq<Room<S>>, x: Room<S>, rank: Room<S> -> nat, k: nat)
    ensures OfRank(Insert(t, x, rank), rank, k) == OfRank(t, rank, k) + (if rank(x) == k then [x] else [])
    decreases |t|
  {
    OfRankSingle(x, rank, k);
    if t == [] || rank(t[|t| - 1]) <= rank(x) {
      InsertAtEnd(t, x, rank);
      OfRankAppend(t, [x], rank, k);
    } else {
      var init, last := t[..|t| - 1], t[|t| - 1];
      var X := if rank(x) == k then [x] else [];
      var L := if rank(last) == k then [last] else [];
      assert X == [] || L == [];
      InsertBefore(t, x, rank);
      InsertKeepsOrder(init, x, rank, k);
      OfRankAppend(Insert(init, x, rank), [last], rank, k);
      OfRankSingle(last, rank, k);
      assert OfRank(t, rank, k) == OfRank(init, rank, k) + L;
      calc {
        OfRank(Insert(t, x, rank), rank, k);
        OfRank(Insert(init, x, rank), rank, k) + L;
        OfRank(init, rank, k) + X + L;
        { SwapEmpty(OfRank(init, rank, k), X, L); }
        OfRank(init, rank, k) + L + X;
      }
    }
  }

  lemma SwapEmpty<T>(a: seq<T>, x: seq<T>, l: seq<T>)
    requires x == [] || l == []
    ensures a + x + l == a + l + x
  {
    if x == [] {
      assert a + x == a && a + l + x == a + l;
    } else {
      assert a + x + l == a + x && a + l == a;
    }
  }

  lemma OfRankSingle<S>(y: Room<S>, rank: Room<S> -> nat, k: nat)
    ensures OfRank([y], rank, k) == if rank(y) == k then [y] else []
  {
    assert [y][..0] == [];
  }

  /** Stability: the rooms of each rank come out in the order they went in. */
  lemma {:induction false} StableSortedIsStable<S>(s: seq<Room<S>>, rank: Room<S> -> nat, k: nat)
    ensures OfRank(StableSorted(s, rank), rank, k) == OfRank(s, rank, k)
    decreases |s|
  {
    if s != [] {
      StableSortedIsStable(s[..|s| - 1], rank, k);
      InsertKeepsOrder(StableSorted(s[..|s| - 1], rank), s[|s| - 1], rank, k);
    }
  }

  /** A list already sorted by `rank` comes out as it went in. */
  lemma {:induction false} StableSortedFixed<S>(s: seq<Room<S>>, rank: Room<S> -> nat)
    requires SortedBy(s, rank)
    ensures StableSorted(s, rank) == s
    decreases |s|
  {
    if s != [] {
      var init, last := s[..|s| - 1], s[|s| - 1];
      assert SortedBy(init, rank);
      StableSortedFixed(init, rank);
      if |init| > 0 {
        assert init[|init| - 1] == s[|s| - 2];
      }
      InsertAtEnd(init, last, rank);
      assert init + [last] == s;
    }
  }

  /** A room of rank at least the last one's goes at the end. */
  lemma InsertAtEnd<S>(t: seq<Room<S>>, x: Room<S>, rank: Room<S> -> nat)
    requires t == [] || rank(t[|t| - 1]) <= rank(x)
    ensures Insert(t, x, rank) == t + [x]
  {
  }

  /** A room of smaller rank than the last one goes in front of it. */
  lemma InsertBefore<S>(t: seq<Room<S>>, x: Room<S>, rank: Room<S> -> nat)
    requires t != [] && rank(t[|t| - 1]) > rank(x)
    ensures Insert(t, x, rank) == Insert(t[..|t| - 1], x, rank) + [t[|t| - 1]]
  {
  }

  /** Exchanges two neighbouring rooms; nothing else moves. */
  method Swap<S>(a: array<Room<S>>, i: nat)
    requires i + 1 < a.Length
    modifies a
    ensures a[..] == old(a[..])[..i] + [old(a[i + 1]), old(a[i])] + old(a[..])[i + 2..]
  {
    a[i], a[i + 1] := a[i + 1], a[i];
  }

  /** Exchanging `x` with the room in front of it, inside a list. */
  lemma SwapStep<S>(s: seq<Room<S>>, t: seq<Room<S>>, x: Room<S>, rest: seq<Room<S>>, j: nat)
    requires 0 < j <= |t|
    requires s == t[..j] + [x] + t[j..] + rest
    ensures s[j] == x && s[j - 1] == t[j - 1]
    ensures s[..j - 1] + [s[j], s[j - 1]] + s[j + 1..] == t[..j - 1] + [x] + t[j - 1..] + rest
  {
    assert s[..j - 1] == t[..j - 1];
    assert s[j] == x && s[j - 1] == t[j - 1];
    assert s[j + 1..] == t[j..] + rest;
    assert t[j - 1..] == [t[j - 1]] + t[j..];
  }

  /** Inserting behind a room of greater rank is inserting one place earlier. */
  lemma InsertStep<S>(t: seq<Room<S>>, x: Room<S>, rank: Room<S> -> nat, j: nat)
    requires 0 < j <= |t| && rank(t[j - 1]) > rank(x)
    requires Insert(t, x, rank) == Insert(t[..j], x, rank) + t[j..]
    ensures Insert(t, x, rank) == Insert(t[..j - 1], x, rank) + t[j - 1..]
  {
    assert t[..j][..j - 1] == t[..j - 1];
    InsertBefore(t[..j], x, rank);
    var front := Insert(t[..j - 1], x, rank);
    calc {
      Insert(t, x, rank);
      Insert(t[..j], x, rank) + t[j..];
      front + [t[j - 1]] + t[j..];
      { assert t[j - 1..] == [t[j - 1]] + t[j..]; }
      front + t[j - 1..];
    }
  }

  /** Where `SiftDown` stops, `x` is in its inserted place. */
  lemma SiftDone<S>(s: seq<Room<S>>, t: seq<Room<S>>, x: Room<S>, rest: seq<Room<S>>, rank: Room<S> -> nat, j: nat)
    requires j <= |t|
    requires s == t[..j] + [x] + t[j..] + rest
    requires j == 0 || rank(s[j - 1]) <= rank(s[j])
    requires Insert(t, x, rank) == Insert(t[..j], x, rank) + t[j..]
    ensures s == Insert(t, x, rank) + rest
  {
    if j > 0 {
      assert s[j] == x && s[j - 1] == t[j - 1];
      assert t[..j][j - 1] == t[j - 1];
    }
    InsertAtEnd(t[..j], x, rank);
  }

  /** Moves the room at index `i` forward past the rooms of strictly greater
      rank in front of it, which are sorted: `a[..i + 1]` becomes the
      insertion of that room into them. */
  method SiftDown<S>(a: array<Room<S>>, rank: Room<S> -> nat, i: nat, ghost t: seq<Room<S>>, ghost rest: seq<Room<S>>)
    requires i < a.Length && |t| == i
    requires a[..] == t + [a[i]] + rest
    modifies a
    ensures a[..] == Insert(t, old(a[i]), rank) + rest
  {
    ghost var x := a[i];
    var j := i;
    assert t[..j] == t && t[j..] == [];
    while 0 < j && rank(a[j - 1]) > rank(a[j])
      invariant 0 <= j <= i
      invariant a[..] == t[..j] + [x] + t[j..] + rest
      invariant Insert(t, x, rank) == Insert(t[..j], x, rank) + t[j..]
    {
      SwapStep(a[..], t, x, rest, j);
      InsertStep(t, x, rank, j);
      Swap(a, j - 1);
      j := j - 1;
    }
    SiftDone(a[..], t, x, rest, rank, j);
  }

  /** One round of `SortByRank`: the room at `i` is the next input room, and
      inserting it extends the sorted prefix by one. */
  lemma SortStep<S>(s: seq<Room<S>>, t: seq<Room<S>>, o: seq<Room<S>>, i: nat)
    requires i < |o| && |t| == i && s == t + o[i..]
    ensures s[i] == o[i] && s == t + [s[i]] + o[i + 1..]
  {
    assert o[i..] == [o[i]] + o[i + 1..];
  }

  /** Sorting one more room inserts it into the sorted rest. */
  lemma StableSortedSnoc<S>(o: seq<Room<S>>, rank: Room<S> -> nat, i: nat)
    requires i < |o|
    ensures StableSorted(o[..i + 1], rank) == Insert(StableSorted(o[..i], rank), o[i], rank)
  {
    var p := o[..i + 1];
    assert p[..|p| - 1] == o[..i] && p[|p| - 1] == o[i];
  }

  /** `roomsData.sort((a, b) => rank(a) - rank(b))`: an in-place insertion
      sort that moves a room forward only past rooms of strictly greater
      rank, which is the stable order of `StableSorted`. */
  method SortByRank<S>(a: array<Room<S>>, rank: Room<S> -> nat)
    modifies a
    ensures a[..] == StableSorted(old(a[..]), rank)
  {
    ghost var o := a[..];
    var i := 0;
    assert o[..0] == [] && o[0..] == o;
    while i < a.Length
      invariant 0 <= i <= a.Length
      invariant a[..] == StableSorted(o[..i], rank) + o[i..]
    {
      ghost var t := StableSorted(o[..i], rank);
      SortStep(a[..], t, o, i);
      StableSortedSnoc(o, rank, i);
      assert a[i] == o[i];
      SiftDown(a, rank, i, t, o[i + 1..]);
      assert a[..] == Insert(t, o[i], rank) + o[i + 1..];
      i := i + 1;
    }
    assert o[..a.Length] == o && o[a.Length..] == [];
  }

  /** The source's comparator for one backend: by the number after `prefix`. */
  method SortBySuffix<S>(a: array<Room<S>>, prefix: string)
    requires AllWellFormed(a[..], prefix)
    modifies a
    ensures a[..] == StableSorted(old(a[..]), SuffixRank(prefix))
    ensures SortedBySuffix(a[..], prefix)
    ensures multiset(a[..]) == multiset(old(a[..]))
  {
    SortByRank(a, SuffixRank(prefix));
    assert AllWellFormed(a[..], prefix) by {
      forall i | 0 <= i < a.Length ensures WellFormedKey(prefix, a[..][i].room) {
        assert a[..][i] in multiset(old(a[..]));
      }
    }
  }

  /** Removing the same first element from two equal multisets of rooms. */
  lemma TailsPermuted<S>(s: seq<Room<S>>, t: seq<Room<S>>)
    requires |s| > 0 && |t| > 0 && s[0] == t[0]
    requires multiset(s) == multiset(t)
    ensures multiset(s[1..]) == multiset(t[1..])
  {
    assert s == [s[0]] + s[1..];
    assert t == [t[0]] + t[1..];
    calc {
      multiset(s[1..]);
      multiset(s) - multiset{s[0]};
      multiset(t) - multiset{t[0]};
      multiset(t[1..]);
    }
  }

  /** The first element of a list sorted by `rank` has the least rank in it. */
  lemma FirstIsLeast<S>(s: seq<Room<S>>, rank: Room<S> -> nat, x: Room<S>)
    requires SortedBy(s, rank) && x in s
    ensures rank(s[0]) <= rank(x)
  {
    var i :| 0 <= i < |s| && s[i] == x;
    if i > 0 {
      assert rank(s[0]) <= rank(s[i]);
    }
  }

  /** Two well-formed keys whose suffixes carry no leading zero and read as
      the same number are the same key. */
  lemma SameNumberSameKey(prefix: string, k1: string, k2: string)
    requires WellFormedKey(prefix, k1) && WellFormedKey(prefix, k2)
    requires Canonical(k1[|prefix|..]) && Canonical(k2[|prefix|..])
    requires SuffixNumber(prefix, k1) == SuffixNumber(prefix, k2)
    ensures k1 == k2
  {
    ParseInjective(k1[|prefix|..], k2[|prefix|..]);
    assert k1 == k1[..|prefix|] + k1[|prefix|..];
    assert k2 == k2[..|prefix|] + k2[|prefix|..];
  }

  /** Distinct keys (as an object's keys are) whose suffixes are written
      without leading zeros get distinct numbers. */
  lemma DistinctKeysDistinctNumbers<S>(s: seq<Room<S>>, prefix: string)
    requires AllWellFormed(s, prefix)
    requires forall i :: 0 <= i < |s| ==> Canonical(s[i].room[|prefix|..])
    requires forall i, j :: 0 <= i < j < |s| ==> s[i].room != s[j].room
    ensures DistinctNumbers(s, prefix)
  {
    forall i, j | 0 <= i < j < |s|
      ensures SuffixRank(prefix)(s[i]) != SuffixRank(prefix)(s[j])
    {
      if SuffixRank(prefix)(s[i]) == SuffixRank(prefix)(s[j]) {
        SameNumberSameKey(prefix, s[i].room, s[j].room);
      }
    }
  }

  /** Two orderings, both sorted by `rank`, of the same rooms agree when no
      two rooms share a rank. */
  lemma {:induction false} SortedByUnique<S>(s: seq<Room<S>>, t: seq<Room<S>>, rank: Room<S> -> nat)
    requires SortedBy(s, rank) && SortedBy(t, rank)
    requires forall i, j :: 0 <= i < j < |s| ==> rank(s[i]) != rank(s[j])
    requires multiset(s) == multiset(t)
    ensures s == t
    decreases |s|
  {
    assert |s| == |t| by {
      assert |s| == |multiset(s)| && |t| == |multiset(t)|;
    }
    if |s| > 0 {
      assert t[0] in multiset(s) && s[0] in multiset(t);
      FirstIsLeast(s, rank, t[0]);
      FirstIsLeast(t, rank, s[0]);
      var i :| 0 <= i < |s| && s[i] == t[0];
      assert i == 0;
      TailsPermuted(s, t);
      SortedByUnique(s[1..], t[1..], rank);
    }
  }

  /** Whatever order the backend delivers its entries in, the sorted room
      list is the same, provided no two keys carry the same number. */
  lemma SortedUnique<S>(s: seq<Room<S>>, t: seq<Room<S>>, prefix: string)
    requires SortedBySuffix(s, prefix) && SortedBySuffix(t, prefix)
    requires DistinctNumbers(s, prefix)
    requires multiset(s) == multiset(t)
    ensures s == t
  {
    SortedByUnique(s, t, SuffixRank(prefix));
  }
}
