/** The windows of utils/grid.py: ranges and events of a timeline between two times, by binary search. */
module Timeline {

  datatype Range = Range(start: int, end: int, value: string)
  datatype Event = Event(at: int, value: string)

  /** s[lo:hi] for natural lo and hi. */
  function Slice<T>(s: seq<T>, lo: nat, hi: nat): seq<T> {
    var h := if hi <= |s| then hi else |s|;
    if lo <= h then s[lo..h] else []
  }

  lemma {:induction false} SliceNext<T>(s: seq<T>, a: nat, b: nat, n: nat)
    requires a <= b <= |s| && 0 < n <= |s|
    ensures Slice(s[..n], a, b) == Slice(s[..n - 1], a, b) + if a <= n - 1 < b then [s[n - 1]] else []
  {
    if a <= n - 1 < b {
      assert s[..n][a..n] == s[..n - 1][a..n - 1] + [s[n - 1]];
    } else if b <= n - 1 {
      assert s[..n][a..b] == s[..n - 1][a..b];
    }
  }

  // ----- Ranges -----

  /** Starts and ends never fall along the list; ranges may touch and overlap, but none lies inside an earlier one. */
  ghost predicate Ordered(rs: seq<Range>) {
    (forall i :: 0 <= i < |rs| ==> rs[i].start <= rs[i].end)
    && forall i, j :: 0 <= i < j < |rs| ==> rs[i].start <= rs[j].start && rs[i].end <= rs[j].end
  }

  /** The range neither starts nor ends before the last one. */
  ghost predicate NotBefore(rs: seq<Range>, r: Range) {
    rs == [] || (rs[|rs| - 1].start <= r.start && rs[|rs| - 1].end <= r.end)
  }

  /** No two ranges contain the key. */
  ghost predicate OneHit(rs: seq<Range>, key: int) {
    forall i, j :: 0 <= i < j < |rs| ==> !(Contains(rs[i], key) && Contains(rs[j], key))
  }

  predicate Contains(r: Range, key: int) {
    r.start <= key <= r.end
  }

  /** The range that contains the key, or -1. */
  ghost predicate Found(rs: seq<Range>, key: int, i: int) {
    (0 <= i < |rs| && Contains(rs[i], key))
    || (i == -1 && forall j :: 0 <= j < |rs| ==> !Contains(rs[j], key))
  }

  ghost predicate Hit(rs: seq<Range>, key: int) {
    exists i :: 0 <= i < |rs| && Contains(rs[i], key)
  }

  predicate Overlaps(r: Range, start: int, end: int) {
    r.start <= end && start <= r.end
  }

  /** The ranges that overlap the window, by looking at each. */
  function Overlapping(rs: seq<Range>, start: int, end: int): seq<Range> {
    if rs == [] then []
    else
      var n := |rs| - 1;
      Overlapping(rs[..n], start, end) + if Overlaps(rs[n], start, end) then [rs[n]] else []
  }

  /** What the binary search between l and u finds. */
  function SearchFrom(rs: seq<Range>, key: int, l: int, u: int): (found: int)
    requires 0 <= l <= u + 1 <= |rs|
    ensures found == -1 || (0 <= found < |rs| && Contains(rs[found], key))
    decreases u + 1 - l
  {
    if l > u then -1 else
    var i := (l + u) / 2;
    if Contains(rs[i], key) then i
    else if key < rs[i].start then SearchFrom(rs, key, l, i - 1)
    else SearchFrom(rs, key, i + 1, u)
  }

  function SearchAll(rs: seq<Range>, key: int): (found: int)
    ensures found == -1 || (0 <= found < |rs| && Contains(rs[found], key))
  {
    SearchFrom(rs, key, 0, |rs| - 1)
  }

  /** The window between two search results. */
  function Window(rs: seq<Range>, s: int, e: int): (nat, nat)
    requires -1 <= s && -1 <= e
  {
    if s == -1 && e == -1 then (0, 0)
    else if s == -1 then (0, e + 1)
    else if e == -1 then (s, |rs|)
    else (s, e + 1)
  }

  /** The ranges of the window, as the searches find it. */
  function RangesIn(rs: seq<Range>, start: int, end: int): seq<Range> {
    var (lo, hi) := Window(rs, SearchAll(rs, start), SearchAll(rs, end));
    Slice(rs, lo, hi)
  }

  /** When the window holds exactly the ranges that overlap it. */
  ghost predicate ExactWindow(rs: seq<Range>, start: int, end: int) {
    if Hit(rs, start) && Hit(rs, end) then true
    else if Hit(rs, end) then rs[0].end >= start
    else if Hit(rs, start) then rs[|rs| - 1].start <= end
    else forall i :: 0 <= i < |rs| ==> !(start < rs[i].start && rs[i].end < end)
  }

  /** A window whose ends lie in one range each at most, so that it does not matter how a range is found. */
  ghost predicate Settled(rs: seq<Range>, start: int, end: int) {
    Ordered(rs) && OneHit(rs, start) && OneHit(rs, end) && start <= end
  }

  /** What a window promises about the overlapping ranges. */
  ghost predicate WindowOf(rs: seq<Range>, start: int, end: int, r: seq<Range>) {
    var f := Overlapping(rs, start, end);
    (r == f <==> ExactWindow(rs, start, end))
    && (Hit(rs, start) || Hit(rs, end) ==> exists a, b :: 0 <= a <= b <= |r| && r[a..b] == f)
    && (!Hit(rs, start) && !Hit(rs, end) ==> r == [])
  }

  /** The a-th range is the first that does not end before the key. */
  ghost predicate FirstEnding(rs: seq<Range>, key: int, a: nat) {
    a <= |rs| && (forall i :: 0 <= i < a ==> rs[i].end < key) && forall i :: a <= i < |rs| ==> rs[i].end >= key
  }

  /** The b-th range is the first that starts after the key. */
  ghost predicate FirstStarting(rs: seq<Range>, key: int, b: nat) {
    b <= |rs| && (forall i :: 0 <= i < b ==> rs[i].start <= key) && forall i :: b <= i < |rs| ==> rs[i].start > key
  }

  lemma {:induction false} FindEnding(rs: seq<Range>, key: int) returns (a: nat)
    requires Ordered(rs)
    ensures FirstEnding(rs, key, a)
  {
    a := 0;
    while a < |rs| && rs[a].end < key
      invariant a <= |rs| && forall i :: 0 <= i < a ==> rs[i].end < key
    {
      a := a + 1;
    }
  }

  lemma {:induction false} FindStarting(rs: seq<Range>, key: int) returns (b: nat)
    requires Ordered(rs)
    ensures FirstStarting(rs, key, b)
  {
    b := 0;
    while b < |rs| && rs[b].start <= key
      invariant b <= |rs| && forall i :: 0 <= i < b ==> rs[i].start <= key
    {
      b := b + 1;
    }
  }

  /** The overlapping ranges are the ones from the first that ends late enough to the last that starts early enough. */
  lemma {:induction false} OverlappingIsSlice(rs: seq<Range>, start: int, end: int, a: nat, b: nat, n: nat)
    requires FirstEnding(rs, start, a) && FirstStarting(rs, end, b) && a <= b && n <= |rs|
    ensures Overlapping(rs[..n], start, end) == Slice(rs[..n], a, b)
    decreases n
  {
    if n == 0 {
    } else {
      OverlappingIsSlice(rs, start, end, a, b, n - 1);
      OverlappingNext(rs, start, end, n);
      assert Overlaps(rs[n - 1], start, end) <==> a <= n - 1 < b;
      SliceNext(rs, a, b, n);
    }
  }

  lemma {:induction false} OverlappingNext(rs: seq<Range>, start: int, end: int, n: nat)
    requires 0 < n <= |rs|
    ensures Overlapping(rs[..n], start, end)
            == Overlapping(rs[..n - 1], start, end) + if Overlaps(rs[n - 1], start, end) then [rs[n - 1]] else []
  {
    assert rs[..n][..n - 1] == rs[..n - 1];
  }

  lemma {:induction false} Overlapped(rs: seq<Range>, start: int, end: int) returns (a: nat, b: nat)
    requires Ordered(rs) && start <= end
    ensures FirstEnding(rs, start, a) && FirstStarting(rs, end, b) && a <= b
    ensures Overlapping(rs, start, end) == rs[a..b]
  {
    a := FindEnding(rs, start);
    b := FindStarting(rs, end);
    assert b < |rs| ==> rs[b].start > end;
    OverlappingIsSlice(rs, start, end, a, b, |rs|);
    assert rs[..|rs|] == rs;
  }

  /** Where the search results are, seen from the overlapping ranges. */
  lemma {:induction false} FoundPlaces(rs: seq<Range>, start: int, end: int, s: int, e: int, a: nat, b: nat)
    requires Ordered(rs) && OneHit(rs, start) && OneHit(rs, end) && Found(rs, start, s) && Found(rs, end, e)
    requires FirstEnding(rs, start, a) && FirstStarting(rs, end, b)
    ensures s != -1 ==> s == a
    ensures e != -1 ==> e + 1 == b
    ensures s != -1 <==> Hit(rs, start)
    ensures e != -1 <==> Hit(rs, end)
  {
    if 0 <= s {
      assert a <= s && Contains(rs[a], start);
    }
    if 0 <= e {
      assert e < b && Contains(rs[b - 1], end);
    }
  }

  lemma {:induction false} SameSlice(rs: seq<Range>, lo: nat, a: nat, b: nat, hi: nat)
    requires lo <= a <= b <= hi <= |rs|
    ensures rs[lo..hi][a - lo..b - lo] == rs[a..b]
    ensures rs[lo..hi] == rs[a..b] <==> lo == a && b == hi
  {
    assert |rs[lo..hi]| == hi - lo && |rs[a..b]| == b - a;
    var inner := rs[lo..hi][a - lo..b - lo];
    assert forall k :: 0 <= k < b - a ==> inner[k] == rs[lo..hi][a - lo + k] == rs[a + k] == rs[a..b][k];
  }

  lemma {:induction false} WindowMeaning(rs: seq<Range>, start: int, end: int, s: int, e: int)
    requires Ordered(rs) && OneHit(rs, start) && OneHit(rs, end)
    requires start <= end && Found(rs, start, s) && Found(rs, end, e)
    ensures var (lo, hi) := Window(rs, s, e); lo <= hi <= |rs| && WindowOf(rs, start, end, rs[lo..hi])
  {
    var a, b := Overlapped(rs, start, end);
    FoundPlaces(rs, start, end, s, e, a, b);
    if s == -1 && e == -1 {
      NoneInside(rs, start, end, a, b);
    } else {
      var (lo, hi) := Window(rs, s, e);
      SameSlice(rs, lo, a, b, hi);
      HalfHit(rs, start, end, s, e, a, b);
    }
  }

  lemma {:induction false} NoneInside(rs: seq<Range>, start: int, end: int, a: nat, b: nat)
    requires Ordered(rs) && start <= end && !Hit(rs, start) && !Hit(rs, end)
    requires FirstEnding(rs, start, a) && FirstStarting(rs, end, b) && a <= b
    ensures a == b <==> forall i :: 0 <= i < |rs| ==> !(start < rs[i].start && rs[i].end < end)
  {
    forall i | a <= i < b
      ensures start < rs[i].start && rs[i].end < end
    {
      assert !Contains(rs[i], start) && !Contains(rs[i], end);
    }
    if a < b {
      assert start < rs[a].start && rs[a].end < end;
    }
  }

  lemma {:induction false} HalfHit(rs: seq<Range>, start: int, end: int, s: int, e: int, a: nat, b: nat)
    requires Ordered(rs) && Found(rs, start, s) && Found(rs, end, e) && (s != -1 || e != -1)
    requires FirstEnding(rs, start, a) && FirstStarting(rs, end, b)
    requires s != -1 ==> s == a
    requires e != -1 ==> e + 1 == b
    ensures s == -1 ==> (a == 0 <==> rs[0].end >= start)
    ensures e == -1 ==> (b == |rs| <==> rs[|rs| - 1].start <= end)
  {
  }

  /** On an ordered list the search finds a range that contains the key, if there is one between l and u. */
  lemma {:induction false} SearchFinds(rs: seq<Range>, key: int, l: int, u: int)
    requires Ordered(rs) && 0 <= l <= u + 1 <= |rs|
    requires forall j :: 0 <= j < l ==> rs[j].end < key
    requires forall j :: u < j < |rs| ==> key < rs[j].start
    ensures Found(rs, key, SearchFrom(rs, key, l, u))
    decreases u + 1 - l
  {
    if l > u {
    } else {
      var i := (l + u) / 2;
      if Contains(rs[i], key) {
      } else if key < rs[i].start {
        SearchFinds(rs, key, l, i - 1);
      } else {
        SearchFinds(rs, key, i + 1, u);
      }
    }
  }

  /** A window that starts between two ranges: the range before it is in the result. */
  lemma {:induction false} EarlierRangeIsKept()
    ensures var rs := [Range(0, 1, ""), Range(4, 5, "")];
            Settled(rs, 2, 4) && RangesIn(rs, 2, 4) == rs && Overlapping(rs, 2, 4) != rs
  {
    var rs := [Range(0, 1, ""), Range(4, 5, "")];
    assert SearchFrom(rs, 2, 1, 0) == -1 && SearchFrom(rs, 4, 1, 1) == 1;
    assert SearchFrom(rs, 2, 1, 1) == -1;
    assert SearchAll(rs, 2) == -1 && SearchAll(rs, 4) == 1;
    var a, b := Overlapped(rs, 2, 4);
    assert rs[0].end == 1;
    assert |Overlapping(rs, 2, 4)| < 2;
  }

  /** A window around a range: the range is not in the result. */
  lemma {:induction false} InnerRangeIsLost()
    ensures var rs := [Range(1, 2, "")];
            Settled(rs, 0, 3) && RangesIn(rs, 0, 3) == [] && Overlapping(rs, 0, 3) == rs
  {
    var rs := [Range(1, 2, "")];
    OnlyRange(Range(1, 2, ""), 0);
    OnlyRange(Range(1, 2, ""), 3);
    assert rs[..1] == rs && rs[..0] == [];
    OverlappingNext(rs, 0, 3, 1);
  }

  lemma {:induction false} OnlyRange(r: Range, key: int)
    ensures SearchAll([r], key) == if Contains(r, key) then 0 else -1
  {
    assert SearchFrom([r], key, 0, -1) == -1 && SearchFrom([r], key, 1, 0) == -1;
  }

  /** A window that starts where two ranges touch: the search finds the second range, and the first is lost. */
  lemma {:induction false} TouchingRangeIsLost()
    ensures var rs := [Range(0, 1, ""), Range(1, 2, ""), Range(5, 6, "")];
            && Ordered(rs) && !OneHit(rs, 1)
            && RangesIn(rs, 1, 2) == [rs[1]] && Overlapping(rs, 1, 2) == [rs[0], rs[1]]
  {
    var rs := [Range(0, 1, ""), Range(1, 2, ""), Range(5, 6, "")];
    assert Contains(rs[0], 1) && Contains(rs[1], 1);
    assert SearchAll(rs, 1) == 1 && SearchAll(rs, 2) == 1;
    var a, b := Overlapped(rs, 1, 2);
    assert a == 0 && b == 2;
    assert rs[0..2] == [rs[0], rs[1]];
  }

  class TimelineDataRange {
    var name: string
    var ranges: seq<Range>

    constructor (name: string)
      ensures this.name == name && ranges == []
    {
      this.name := name;
      ranges := [];
    }

    method AddRange(range: Range)
      modifies this`ranges
      ensures ranges == old(ranges) + [range]
      ensures old(Ordered(ranges)) && range.start <= range.end && old(NotBefore(ranges, range)) ==> Ordered(ranges)
    {
      ranges := ranges + [range];
    }

    method Search(key: int) returns (found: int)
      ensures found == SearchAll(ranges, key)
      ensures Ordered(ranges) ==> Found(ranges, key, found)
    {
      if Ordered(ranges) {
        SearchFinds(ranges, key, 0, |ranges| - 1);
      }
      var l, u := 0, |ranges| - 1;
      while l <= u
        invariant 0 <= l <= u + 1 <= |ranges|
        invariant SearchFrom(ranges, key, l, u) == SearchAll(ranges, key)
      {
        var i := (l + u) / 2;
        if key >= ranges[i].start && key <= ranges[i].end {
          return i;
        } else if key < ranges[i].start {
          u := i - 1;
        } else {
          l := i + 1;
        }
      }
      return -1;
    }

    method GetRanges(start: int, end: int) returns (r: seq<Range>)
      ensures r == RangesIn(ranges, start, end)
      ensures Settled(ranges, start, end) ==> WindowOf(ranges, start, end, r)
    {
      var s := Search(start);
      var e := Search(end);
      if Settled(ranges, start, end) {
        WindowMeaning(ranges, start, end, s, e);
      }
      if s == -1 && e == -1 {
        r := [];
      } else if s == -1 {
        r := Slice(ranges, 0, e + 1);
      } else if e == -1 {
        r := Slice(ranges, s, |ranges|);
      } else {
        r := Slice(ranges, s, e + 1);
      }
    }

    method GetRangesBounds(start: int, end: int) returns (lo: nat, hi: nat)
      ensures Slice(ranges, lo, hi) == RangesIn(ranges, start, end)
      ensures Settled(ranges, start, end) ==> lo <= hi <= |ranges| && WindowOf(ranges, start, end, ranges[lo..hi])
    {
      var s := Search(start);
      var e := Search(end);
      if Settled(ranges, start, end) {
        WindowMeaning(ranges, start, end, s, e);
      }
      if s == -1 && e == -1 {
        return 0, 0;
      } else if s == -1 {
        return 0, e + 1;
      } else if e == -1 {
        return s, |ranges|;
      } else {
        return s, e + 1;
      }
    }
  }

  // ----- Events -----

  ghost predicate Sorted(es: seq<Event>) {
    forall i, j :: 0 <= i < j < |es| ==> es[i].at <= es[j].at
  }

  /** No two events are at the key. */
  ghost predicate OneAt(es: seq<Event>, key: int) {
    forall i, j :: 0 <= i < j < |es| ==> !(es[i].at == key && es[j].at == key)
  }

  /** An event at the key or, when there is none, the place where it would be. */
  ghost predicate Located(es: seq<Event>, key: int, i: nat) {
    && i <= |es|
    && ((i < |es| && es[i].at == key) || (FirstFrom(es, key, i) && forall j :: 0 <= j < |es| ==> es[j].at != key))
  }

  lemma {:induction false} LocatedIsFirst(es: seq<Event>, key: int, i: nat)
    requires Sorted(es) && OneAt(es, key) && Located(es, key, i)
    ensures FirstFrom(es, key, i)
  {
  }

  /** Where the binary search between l and u ends. */
  function LocateFrom(es: seq<Event>, key: int, l: int, u: int): (i: nat)
    requires 0 <= l <= u + 1 <= |es|
    ensures i <= |es|
    decreases u + 1 - l
  {
    if l > u then l else
    var m := (l + u) / 2;
    if key == es[m].at then m
    else if key < es[m].at then LocateFrom(es, key, l, m - 1)
    else LocateFrom(es, key, m + 1, u)
  }

  function LocateAll(es: seq<Event>, key: int): (i: nat)
    ensures i <= |es|
  {
    LocateFrom(es, key, 0, |es| - 1)
  }

  /** The events of the window, as the searches find it. */
  function EventsIn(es: seq<Event>, start: int, end: int): seq<Event> {
    Slice(es, LocateAll(es, start), LocateAll(es, end) + 1)
  }

  /** The first event that is not before the key. */
  ghost predicate FirstFrom(es: seq<Event>, key: int, i: nat) {
    i <= |es| && (forall j :: 0 <= j < i ==> es[j].at < key) && forall j :: i <= j < |es| ==> es[j].at >= key
  }

  /** The first event that is after the key. */
  ghost predicate FirstBeyond(es: seq<Event>, key: int, i: nat) {
    i <= |es| && (forall j :: 0 <= j < i ==> es[j].at <= key) && forall j :: i <= j < |es| ==> es[j].at > key
  }

  /** The events of the window, by looking at each. */
  function Within(es: seq<Event>, start: int, end: int): seq<Event> {
    if es == [] then []
    else
      var n := |es| - 1;
      Within(es[..n], start, end) + if start <= es[n].at <= end then [es[n]] else []
  }

  /** The first event after the key, if there is one. */
  function FirstAfter(es: seq<Event>, key: int): seq<Event> {
    if es == [] then [] else if es[0].at > key then [es[0]] else FirstAfter(es[1..], key)
  }

  predicate EventAt(es: seq<Event>, key: int) {
    exists i :: 0 <= i < |es| && es[i].at == key
  }

  /** The window's events, and the first event after it unless one is exactly at its end. */
  function EventWindow(es: seq<Event>, start: int, end: int): seq<Event> {
    Within(es, start, end) + if EventAt(es, end) then [] else FirstAfter(es, end)
  }

  lemma {:induction false} WithinIsSlice(es: seq<Event>, start: int, end: int, s: nat, b: nat, n: nat)
    requires s <= b <= |es| && n <= |es|
    requires FirstFrom(es, start, s) && FirstBeyond(es, end, b)
    ensures Within(es[..n], start, end) == Slice(es[..n], s, b)
    decreases n
  {
    if n == 0 {
    } else {
      WithinIsSlice(es, start, end, s, b, n - 1);
      WithinNext(es, start, end, n);
      assert start <= es[n - 1].at <= end <==> s <= n - 1 < b;
      SliceNext(es, s, b, n);
    }
  }

  lemma {:induction false} WithinNext(es: seq<Event>, start: int, end: int, n: nat)
    requires 0 < n <= |es|
    ensures Within(es[..n], start, end)
            == Within(es[..n - 1], start, end) + if start <= es[n - 1].at <= end then [es[n - 1]] else []
  {
    assert es[..n][..n - 1] == es[..n - 1];
  }

  lemma {:induction false} FirstAfterIs(es: seq<Event>, key: int, e: nat)
    requires FirstBeyond(es, key, e)
    ensures FirstAfter(es, key) == if e < |es| then [es[e]] else []
    decreases e
  {
    if e == 0 {
    } else {
      FirstAfterIs(es[1..], key, e - 1);
    }
  }

  lemma {:induction false} EventWindowMeaning(es: seq<Event>, start: int, end: int, s: nat, e: nat)
    requires Sorted(es) && OneAt(es, end) && start <= end && FirstFrom(es, start, s) && FirstFrom(es, end, e)
    ensures s <= e && Slice(es, s, e + 1) == EventWindow(es, start, end)
  {
    assert e < |es| ==> es[e].at >= end;
    assert es[..|es|] == es;
    if e < |es| && es[e].at == end {
      JustAt(es, end, e);
      WithinIsSlice(es, start, end, s, e + 1, |es|);
    } else {
      NotAt(es, end, e);
      WithinIsSlice(es, start, end, s, e, |es|);
      FirstAfterIs(es, end, e);
      OneMore(es, s, e);
    }
  }

  lemma {:induction false} OneMore(es: seq<Event>, s: nat, e: nat)
    requires s <= e <= |es|
    ensures Slice(es, s, e + 1) == Slice(es, s, e) + if e < |es| then [es[e]] else []
  {
    if e < |es| {
      assert es[s..e + 1] == es[s..e] + [es[e]];
    }
  }

  lemma {:induction false} JustAt(es: seq<Event>, key: int, e: nat)
    requires Sorted(es) && OneAt(es, key) && FirstFrom(es, key, e) && e < |es| && es[e].at == key
    ensures EventAt(es, key) && FirstBeyond(es, key, e + 1)
  {
  }

  lemma {:induction false} NotAt(es: seq<Event>, key: int, e: nat)
    requires Sorted(es) && FirstFrom(es, key, e) && (e < |es| ==> es[e].at != key)
    ensures !EventAt(es, key) && FirstBeyond(es, key, e)
  {
  }

  /** An event is exactly at the key, or none comes after it. */
  ghost predicate NothingAfter(es: seq<Event>, key: int) {
    EventAt(es, key) || forall i :: 0 <= i < |es| ==> es[i].at <= key
  }

  /** A window with one event at most at each end. */
  ghost predicate SettledEvents(es: seq<Event>, start: int, end: int) {
    Sorted(es) && OneAt(es, start) && OneAt(es, end) && start <= end
  }

  /** The window is exact when an event is exactly at its end or none comes after it. */
  lemma {:induction false} ExactEvents(es: seq<Event>, start: int, end: int)
    ensures EventWindow(es, start, end) == Within(es, start, end) <==> NothingAfter(es, end)
  {
    AfterEmpty(es, end);
    var w := Within(es, start, end);
    assert |EventWindow(es, start, end)| == |w| + if EventAt(es, end) then 0 else |FirstAfter(es, end)|;
  }

  lemma {:induction false} AfterEmpty(es: seq<Event>, key: int)
    ensures FirstAfter(es, key) == [] <==> forall i :: 0 <= i < |es| ==> es[i].at <= key
    decreases |es|
  {
    if es == [] || es[0].at > key {
    } else {
      AfterEmpty(es[1..], key);
      assert es == [es[0]] + es[1..];
    }
  }

  lemma {:induction false} LocateFinds(es: seq<Event>, key: int, l: int, u: int)
    requires Sorted(es) && 0 <= l <= u + 1 <= |es|
    requires forall j :: 0 <= j < l ==> es[j].at < key
    requires forall j :: u < j < |es| ==> key < es[j].at
    ensures Located(es, key, LocateFrom(es, key, l, u))
    decreases u + 1 - l
  {
    if l > u {
    } else {
      var m := (l + u) / 2;
      if key == es[m].at {
      } else if key < es[m].at {
        LocateFinds(es, key, l, m - 1);
      } else {
        LocateFinds(es, key, m + 1, u);
      }
    }
  }

  /** A window that ends between two events: the event after it is in the result. */
  lemma {:induction false} LaterEventIsKept()
    ensures var es := [Event(0, ""), Event(5, "")];
            SettledEvents(es, 0, 1) && EventsIn(es, 0, 1) == es && Within(es, 0, 1) != es
  {
    var es := [Event(0, ""), Event(5, "")];
    assert es[0].at == 0 && es[1].at == 5;
    assert LocateFrom(es, 1, 1, 0) == 1;
    assert LocateFrom(es, 1, 1, 1) == 1;
    assert LocateAll(es, 0) == 0 && LocateAll(es, 1) == 1;
    WithinIsSlice(es, 0, 1, 0, 1, 2);
    assert es[..2] == es;
    assert |Within(es, 0, 1)| == 1;
  }

  /** Two events where the window starts: the search finds the second one, and the first is lost. */
  lemma {:induction false} SimultaneousEventIsLost()
    ensures var es := [Event(0, "a"), Event(0, "b"), Event(5, "")];
            && Sorted(es) && !OneAt(es, 0)
            && EventsIn(es, 0, 0) == [es[1]] && Within(es, 0, 0) == [es[0], es[1]]
  {
    var es := [Event(0, "a"), Event(0, "b"), Event(5, "")];
    assert es[0].at == es[1].at == 0;
    assert LocateAll(es, 0) == 1;
    WithinIsSlice(es, 0, 0, 0, 2, 3);
    assert es[..3] == es;
    assert es[0..2] == [es[0], es[1]];
  }

  class TimelineEvent {
    var name: string
    var events: seq<Event>

    constructor (name: string)
      ensures this.name == name && events == []
    {
      this.name := name;
      events := [];
    }

    method AddEvent(event: Event)
      modifies this`events
      ensures events == old(events) + [event]
      ensures old(Sorted(events)) && (old(events) == [] || old(events)[|old(events)| - 1].at <= event.at) ==>
                Sorted(events)
    {
      events := events + [event];
    }

    method Search(key: int) returns (i: nat)
      ensures i == LocateAll(events, key)
      ensures Sorted(events) ==> Located(events, key, i)
    {
      if Sorted(events) {
        LocateFinds(events, key, 0, |events| - 1);
      }
      var l, u := 0, |events| - 1;
      while l <= u
        invariant 0 <= l <= u + 1 <= |events|
        invariant LocateFrom(events, key, l, u) == LocateAll(events, key)
      {
        var m := (l + u) / 2;
        if key == events[m].at {
          return m;
        } else if key < events[m].at {
          u := m - 1;
        } else {
          l := m + 1;
        }
      }
      return l;
    }

    method GetEvents(start: int, end: int) returns (r: seq<Event>)
      ensures r == EventsIn(events, start, end)
      ensures SettledEvents(events, start, end) ==> r == EventWindow(events, start, end)
      ensures SettledEvents(events, start, end) ==>
                (r == Within(events, start, end) <==> NothingAfter(events, end))
    {
      var s := Search(start);
      var e := Search(end);
      r := Slice(events, s, e + 1);
      if SettledEvents(events, start, end) {
        LocatedIsFirst(events, start, s);
        LocatedIsFirst(events, end, e);
        EventWindowMeaning(events, start, end, s, e);
        ExactEvents(events, start, end);
      }
    }

    /** The bounds may run one past the list, as a slice may. */
    method GetEventsBounds(start: int, end: int) returns (lo: nat, hi: nat)
      ensures Slice(events, lo, hi) == EventsIn(events, start, end)
      ensures SettledEvents(events, start, end) ==>
                lo < hi <= |events| + 1 && Slice(events, lo, hi) == EventWindow(events, start, end)
    {
      var s := Search(start);
      var e := Search(end);
      if SettledEvents(events, start, end) {
        LocatedIsFirst(events, start, s);
        LocatedIsFirst(events, end, e);
        EventWindowMeaning(events, start, end, s, e);
      }
      return s, e + 1;
    }
  }
}
