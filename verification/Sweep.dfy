/** pkg/server/store_maintenance.go, maintainTerminalRecordsInTx: which records one bounded call examines,
    where it leaves the cursor, and that repeated calls reach every record. Keys are in byte order. */
module Sweep {
  import opened Text

  /** The keys of the two buckets, swept in this order. */
  datatype Keys = Keys(jobs: set<nat>, deliveries: set<nat>)

  /** mBucketIndex and mCursorKey: the bucket to go on with, and the key to go on from. */
  datatype Cursor = Cursor(second: bool, key: Option<nat>)

  datatype Record = Record(second: bool, key: nat)

  function Bucket(ks: Keys, second: bool): set<nat> {
    if second then ks.deliveries else ks.jobs
  }

  function From(c: Cursor): nat {
    if c.key.Some? then c.key.value else 0
  }

  // ----- Keys in order -----

  function Above(keys: set<nat>, from: nat): set<nat> {
    set k | k in keys && from <= k
  }

  function Below(keys: set<nat>, to: nat): set<nat> {
    set k | k in keys && k < to
  }

  predicate IsLeast(keys: set<nat>, m: nat) {
    m in keys && forall k :: k in keys ==> m <= k
  }

  lemma {:induction false} HasLeast(keys: set<nat>) returns (m: nat)
    requires keys != {}
    ensures IsLeast(keys, m)
    decreases |keys|
  {
    var k :| k in keys;
    var rest := keys - {k};
    m := k;
    if rest != {} {
      var l := HasLeast(rest);
      m := if l < k then l else k;
    }
    forall j | j in keys
      ensures m <= j
    {
      assert j == k || j in rest;
    }
  }

  lemma HasSomeLeast(keys: set<nat>)
    requires keys != {}
    ensures exists m :: IsLeast(keys, m)
  {
    var m := HasLeast(keys);
  }

  /** The first key at or after `from`. */
  function Seek(keys: set<nat>, from: nat): (r: Option<nat>)
    ensures r.None? ==> Above(keys, from) == {}
    ensures r.Some? ==> IsLeast(Above(keys, from), r.value)
  {
    var above := Above(keys, from);
    if above == {} then None
    else
      HasSomeLeast(above);
      var m :| IsLeast(above, m);
      Some(m)
  }

  lemma SeekIs(keys: set<nat>, from: nat, k: nat)
    requires IsLeast(Above(keys, from), k)
    ensures Seek(keys, from) == Some(k)
  {
  }

  lemma Smaller(a: set<nat>, b: set<nat>)
    requires a <= b
    ensures |a| <= |b|
  {
    assert b == a + (b - a);
  }

  lemma AboveNext(keys: set<nat>, from: nat, k: nat)
    requires IsLeast(Above(keys, from), k)
    ensures Above(keys, from) == {k} + Above(keys, k + 1) && k !in Above(keys, k + 1)
    ensures |Above(keys, k + 1)| + 1 == |Above(keys, from)|
    ensures Above(keys, k) == Above(keys, from)
  {
    forall j
      ensures j in Above(keys, from) <==> j in {k} + Above(keys, k + 1)
      ensures j in Above(keys, k) <==> j in Above(keys, from)
    {
    }
  }

  /** The keys at or after `from`, in order. */
  function List(keys: set<nat>, from: nat): seq<nat>
    decreases |Above(keys, from)|
  {
    match Seek(keys, from)
    case None => []
    case Some(k) =>
      AboveNext(keys, from, k);
      [k] + List(keys, k + 1)
  }

  lemma ListUnfolds(keys: set<nat>, from: nat)
    ensures List(keys, from) == match Seek(keys, from) case None => [] case Some(k) => [k] + List(keys, k + 1)
  {
  }

  /** A scan that has collected some keys takes one more. */
  lemma ScanNext(items: seq<nat>, keys: set<nat>, at: nat, k: nat)
    requires Seek(keys, at) == Some(k)
    ensures items + List(keys, at) == items + [k] + List(keys, k + 1)
  {
    ListUnfolds(keys, at);
    hide List;
  }

  /** A scan ends when the bucket ends or its room is used up. */
  lemma ScanEnds(list: seq<nat>, items: seq<nat>, keys: set<nat>, at: nat, room: nat)
    requires list == items + List(keys, at) && |items| <= room
    requires Seek(keys, at).None? || |items| == room
    ensures items == Take(list, room) && Seek(keys, at) == if |list| > room then Some(list[room]) else None
  {
    ListUnfolds(keys, at);
    hide List;
  }

  lemma {:induction false} ListHolds(keys: set<nat>, from: nat)
    ensures forall k :: k in List(keys, from) <==> k in Above(keys, from)
    decreases |Above(keys, from)|
  {
    hide Above, IsLeast, List;
    ListUnfolds(keys, from);
    match Seek(keys, from)
    case None =>
    case Some(k) =>
      AboveNext(keys, from, k);
      ListHolds(keys, k + 1);
      forall j
        ensures j in List(keys, from) <==> j in Above(keys, from)
      {
        assert j in List(keys, from) <==> j == k || j in List(keys, k + 1);
      }
  }

  lemma {:induction false} ListIncreases(keys: set<nat>, from: nat, i: nat, j: nat)
    requires i < j < |List(keys, from)|
    ensures List(keys, from)[i] < List(keys, from)[j]
    decreases j
  {
    hide IsLeast;
    var k := Seek(keys, from).value;
    var rest := List(keys, k + 1);
    assert List(keys, from) == [k] + rest;
    if i == 0 {
      ListHolds(keys, k + 1);
      assert rest[j - 1] in Above(keys, k + 1);
    } else {
      ListIncreases(keys, k + 1, i - 1, j - 1);
    }
  }

  /** The list holds exactly these keys, in increasing order. */
  lemma ListSorted(keys: set<nat>, from: nat)
    ensures forall k :: k in List(keys, from) <==> k in Above(keys, from)
    ensures forall i, j :: 0 <= i < j < |List(keys, from)| ==> List(keys, from)[i] < List(keys, from)[j]
  {
    hide List, Above;
    ListHolds(keys, from);
    forall i, j | 0 <= i < j < |List(keys, from)|
      ensures List(keys, from)[i] < List(keys, from)[j]
    {
      ListIncreases(keys, from, i, j);
    }
  }

  lemma ItemsDistinct(keys: set<nat>, from: nat, room: nat)
    ensures var items := Take(List(keys, from), room);
      && (forall i, j :: 0 <= i < j < |items| ==> items[i] != items[j])
      && (forall i :: 0 <= i < |items| ==> items[i] in keys)
  {
    ListSorted(keys, from);
    hide List;
    var items := Take(List(keys, from), room);
    forall i | 0 <= i < |items|
      ensures items[i] in keys
    {
      assert items[i] in List(keys, from);
    }
  }

  /** Going on from the n-th key of a list gives the rest of the list. */
  lemma {:induction false} ListSuffix(keys: set<nat>, from: nat, n: nat)
    requires n < |List(keys, from)|
    ensures List(keys, List(keys, from)[n]) == List(keys, from)[n..]
    decreases n
  {
    hide Above, IsLeast;
    var k := Seek(keys, from).value;
    var rest := List(keys, k + 1);
    AboveNext(keys, from, k);
    assert List(keys, from) == [k] + rest;
    if n == 0 {
      SeekIs(keys, k, k);
    } else {
      ListSuffix(keys, k + 1, n - 1);
      assert ([k] + rest)[n..] == rest[n - 1..];
    }
  }

  /** A list depends only on the keys at or after its start. */
  lemma {:induction false} ListSame(a: set<nat>, b: set<nat>, from: nat)
    requires Above(a, from) == Above(b, from)
    ensures List(a, from) == List(b, from)
    decreases |Above(a, from)|
  {
    hide IsLeast;
    if Seek(a, from).Some? {
      var k := Seek(a, from).value;
      SeekIs(b, from, k);
      AboveNext(a, from, k);
      AboveNext(b, from, k);
      assert Above(a, k + 1) == Above(a, from) - {k} == Above(b, k + 1);
      ListSame(a, b, k + 1);
    } else {
      assert Seek(b, from) == None;
    }
  }

  /** The first key at or after `from` comes before `mid`, or none does. */
  lemma SeekBelow(keys: set<nat>, from: nat, mid: nat, k: nat)
    requires IsLeast(Above(keys, from), k) && from <= mid
    ensures k < mid ==> IsLeast(Above(Below(keys, mid), from), k)
    ensures k >= mid ==> Above(Below(keys, mid), from) == {} && Above(keys, mid) == Above(keys, from)
  {
    forall j
      ensures j in Above(Below(keys, mid), from) <==> j in Above(keys, from) && j < mid
      ensures k >= mid ==> (j in Above(keys, mid) <==> j in Above(keys, from))
    {
    }
  }

  lemma NothingAbove(keys: set<nat>, from: nat, mid: nat)
    requires Above(keys, from) == {} && from <= mid
    ensures Above(keys, mid) == {} && Above(Below(keys, mid), from) == {}
  {
    assert Above(keys, mid) <= Above(keys, from) && Above(Below(keys, mid), from) <= Above(keys, from);
  }

  /** The keys before a point, then the keys from it on. */
  lemma {:induction false} ListSplit(keys: set<nat>, from: nat, mid: nat)
    requires from <= mid
    ensures List(keys, from) == List(Below(keys, mid), from) + List(keys, mid)
    decreases |Above(keys, from)|
  {
    hide Above, IsLeast, Below, List;
    ListUnfolds(keys, from);
    ListUnfolds(Below(keys, mid), from);
    match Seek(keys, from)
    case None =>
      NothingAbove(keys, from, mid);
      ListUnfolds(keys, mid);
      EmptySeek(keys, mid);
      EmptySeek(Below(keys, mid), from);
    case Some(k) =>
      AboveNext(keys, from, k);
      SeekBelow(keys, from, mid, k);
      if k < mid {
        SeekIs(Below(keys, mid), from, k);
        ListSplit(keys, k + 1, mid);
      } else {
        EmptySeek(Below(keys, mid), from);
        ListSame(keys, keys, mid);
        SeekIs(keys, mid, k);
        ListUnfolds(keys, mid);
      }
  }

  lemma EmptySeek(keys: set<nat>, from: nat)
    requires Above(keys, from) == {}
    ensures Seek(keys, from) == None
  {
  }

  lemma {:induction false} ListLength(keys: set<nat>, from: nat)
    ensures |List(keys, from)| == |Above(keys, from)|
    decreases |Above(keys, from)|
  {
    hide Above, IsLeast;
    match Seek(keys, from)
    case None =>
    case Some(k) =>
      AboveNext(keys, from, k);
      ListLength(keys, k + 1);
  }

  // ----- One call -----

  function Tag(second: bool, keys: seq<nat>): (r: seq<Record>)
    ensures |r| == |keys|
    ensures forall i :: 0 <= i < |keys| ==> r[i] == Record(second, keys[i])
  {
    seq(|keys|, i requires 0 <= i < |keys| => Record(second, keys[i]))
  }

  function Take(list: seq<nat>, room: nat): seq<nat> {
    if |list| <= room then list else list[..room]
  }

  function First(ks: Keys, c: Cursor): seq<nat> {
    List(Bucket(ks, c.second), From(c))
  }

  function Second(ks: Keys, c: Cursor): seq<nat> {
    List(Bucket(ks, !c.second), 0)
  }

  /** The records one call examines, in order. */
  function Examined(ks: Keys, c: Cursor, limit: nat): seq<Record> {
    var a := First(ks, c);
    if |a| >= limit then Tag(c.second, a[..limit])
    else Tag(c.second, a) + Tag(!c.second, Take(Second(ks, c), limit - |a|))
  }

  function After(ks: Keys, c: Cursor, limit: nat): Cursor {
    var a := First(ks, c);
    if |a| > limit then Cursor(c.second, Some(a[limit]))
    else if |a| == limit then Cursor(!c.second, None)
    else
      var b := Second(ks, c);
      if |b| > limit - |a| then Cursor(!c.second, Some(b[limit - |a|])) else Cursor(c.second, None)
  }

  /** How one call goes over the two buckets. */
  lemma CallParts(ks: Keys, c: Cursor, limit: nat)
    ensures var a, b := First(ks, c), Second(ks, c);
      if |a| > limit then
        Examined(ks, c, limit) == Tag(c.second, Take(a, limit))
        && After(ks, c, limit) == Cursor(c.second, Some(a[limit]))
      else if |a| == limit then Examined(ks, c, limit) == Tag(c.second, a)
        && After(ks, c, limit) == Cursor(!c.second, None)
      else
        && Examined(ks, c, limit) == Tag(c.second, a) + Tag(!c.second, Take(b, limit - |a|))
        && After(ks, c, limit) == if |b| > limit - |a| then Cursor(!c.second, Some(b[limit - |a|]))
          else Cursor(c.second, None)
  {
    hide List;
    if |First(ks, c)| == limit {
      assert First(ks, c)[..limit] == First(ks, c);
    }
  }

  /** The cyclic order of all records, as the cursor stands. */
  function Order(ks: Keys, c: Cursor): seq<Record> {
    Tag(c.second, First(ks, c)) + Tag(!c.second, Second(ks, c))
    + Tag(c.second, List(Below(Bucket(ks, c.second), From(c)), 0))
  }

  predicate IsRecord(ks: Keys, r: Record) {
    r.key in Bucket(ks, r.second)
  }

  /** A call examines the next records of the cyclic order, `limit` of them or, when it comes to the end of
      the second bucket, fewer. */
  lemma ExaminesNext(ks: Keys, c: Cursor, limit: nat)
    ensures var live := |First(ks, c)| + |Second(ks, c)|;
      && |Examined(ks, c, limit)| == (if live <= limit then live else limit)
      && Examined(ks, c, limit) <= Order(ks, c)
  {
    hide List;
  }

  /** No record is examined twice in one call, and all of them exist. */
  lemma ExaminedOnce(ks: Keys, c: Cursor, limit: nat)
    ensures forall i, j :: 0 <= i < j < |Examined(ks, c, limit)| ==>
      Examined(ks, c, limit)[i] != Examined(ks, c, limit)[j]
    ensures forall i :: 0 <= i < |Examined(ks, c, limit)| ==> IsRecord(ks, Examined(ks, c, limit)[i])
  {
    ListSorted(Bucket(ks, c.second), From(c));
    ListSorted(Bucket(ks, !c.second), 0);
    forall i | 0 <= i < |Examined(ks, c, limit)|
      ensures IsRecord(ks, Examined(ks, c, limit)[i])
    {
      var r := Examined(ks, c, limit)[i];
      assert r.key in if i < |First(ks, c)| then First(ks, c) else Second(ks, c);
    }
  }

  lemma OrderLength(ks: Keys, c: Cursor)
    ensures |Order(ks, c)| == |ks.jobs| + |ks.deliveries|
  {
    var own, other := Bucket(ks, c.second), Bucket(ks, !c.second);
    ListSplit(own, 0, From(c));
    ListLength(own, 0);
    ListLength(other, 0);
    assert Above(own, 0) == own && Above(other, 0) == other;
  }

  lemma IndexOf(keys: set<nat>, from: nat, k: nat) returns (i: nat)
    requires k in keys && from <= k
    ensures i < |List(keys, from)| && List(keys, from)[i] == k
  {
    assert k in Above(keys, from);
    ListSorted(keys, from);
    i :| i < |List(keys, from)| && List(keys, from)[i] == k;
  }

  /** Every record has its place in the cyclic order. */
  lemma OrderComplete(ks: Keys, c: Cursor, r: Record) returns (d: nat)
    requires IsRecord(ks, r)
    ensures d < |Order(ks, c)| == |ks.jobs| + |ks.deliveries| && Order(ks, c)[d] == r
  {
    hide List;
    OrderLength(ks, c);
    var own := Bucket(ks, c.second);
    if r.second != c.second {
      d := IndexOf(Bucket(ks, !c.second), 0, r.key);
      d := |First(ks, c)| + d;
    } else if From(c) <= r.key {
      d := IndexOf(own, From(c), r.key);
    } else {
      d := IndexOf(Below(own, From(c)), 0, r.key);
      d := |First(ks, c)| + |Second(ks, c)| + d;
    }
  }

  // ----- Fairness -----

  datatype State = State(keys: Keys, cursor: Cursor)

  /** Only records the call examined are gone after it. */
  predicate Shrinks(ks: Keys, after: Keys, examined: seq<Record>) {
    && after.jobs <= ks.jobs && after.deliveries <= ks.deliveries
    && (forall k :: k in ks.jobs && k !in after.jobs ==> Record(false, k) in examined)
    && (forall k :: k in ks.deliveries && k !in after.deliveries ==> Record(true, k) in examined)
  }

  predicate Step(s: State, s': State, limit: nat) {
    && s'.cursor == After(s.keys, s.cursor, limit)
    && Shrinks(s.keys, s'.keys, Examined(s.keys, s.cursor, limit))
  }

  /** Some of the first `n` keys of a list are gone. */
  predicate Trimmed(keys: set<nat>, after: set<nat>, from: nat, n: nat) {
    after <= keys && forall k :: k in keys && k !in after ==> k in Take(List(keys, from), n)
  }

  lemma StepTrims(s: State, s': State, limit: nat)
    requires Step(s, s', limit)
    ensures var c, m := s.cursor, |First(s.keys, s.cursor)|;
      && Trimmed(Bucket(s.keys, c.second), Bucket(s'.keys, c.second), From(c), limit)
      && Trimmed(Bucket(s.keys, !c.second), Bucket(s'.keys, !c.second), 0, if m >= limit then 0 else limit - m)
  {
    hide List;
    var c := s.cursor;
    var x := Examined(s.keys, c, limit);
    forall k | k in Bucket(s.keys, c.second) && k !in Bucket(s'.keys, c.second)
      ensures k in Take(First(s.keys, c), limit)
    {
      assert Record(c.second, k) in x;
    }
    var other, other' := Bucket(s.keys, !c.second), Bucket(s'.keys, !c.second);
    forall k | k in other && k !in other'
      ensures |First(s.keys, c)| < limit && k in Take(Second(s.keys, c), limit - |First(s.keys, c)|)
    {
      assert Record(!c.second, k) in x;
    }
  }

  /** The keys before the start of a trimmed list are all there, and come first in their bucket. */
  lemma FrontKept(keys: set<nat>, after: set<nat>, from: nat, n: nat)
    requires Trimmed(keys, after, from, n)
    ensures List(Below(keys, from), 0) <= List(after, 0)
    ensures n < |List(keys, from)| ==> List(Below(keys, from), 0) <= List(Below(after, List(keys, from)[n]), 0)
  {
    ListSorted(keys, from);
    hide List;
    assert forall k :: k in Take(List(keys, from), n) ==> k in List(keys, from);
    assert Below(after, from) == Below(keys, from);
    ListSplit(after, 0, from);
    if n < |List(keys, from)| {
      var mid := List(keys, from)[n];
      assert mid in Above(keys, from);
      assert Below(Below(after, mid), from) == Below(keys, from);
      ListSplit(Below(after, mid), 0, from);
    }
  }

  /** The list from the first key that was not trimmed is the rest of the list. */
  lemma TailKept(keys: set<nat>, after: set<nat>, from: nat, n: nat)
    requires Trimmed(keys, after, from, n) && n < |List(keys, from)|
    ensures List(after, List(keys, from)[n]) == List(keys, from)[n..]
  {
    ListSorted(keys, from);
    ListSuffix(keys, from, n);
    hide List;
    var mid := List(keys, from)[n];
    assert Above(after, mid) == Above(keys, mid) by {
      forall k | k in keys && k !in after
        ensures k < mid
      {
        var i :| 0 <= i < n && List(keys, from)[i] == k;
      }
    }
    ListSame(keys, after, mid);
  }

  lemma Untrimmed(keys: set<nat>, after: set<nat>, from: nat)
    requires Trimmed(keys, after, from, 0)
    ensures after == keys
  {
  }

  lemma TagPrefix(second: bool, a: seq<nat>, b: seq<nat>)
    ensures a <= b ==> Tag(second, a) <= Tag(second, b)
  {
  }

  /** The records a call can still reach: those before the end of the second bucket. */
  function Live(s: State): nat {
    |First(s.keys, s.cursor)| + |Second(s.keys, s.cursor)|
  }

  /** The records of the first bucket before the cursor. */
  function Front(s: State): seq<nat> {
    List(Below(Bucket(s.keys, s.cursor.second), From(s.cursor)), 0)
  }

  /** How a call moves the parts of the cyclic order. */
  lemma Moves(s: State, s': State, limit: nat)
    requires Step(s, s', limit)
    ensures var a, b, second := First(s.keys, s.cursor), Second(s.keys, s.cursor), s.cursor.second;
      var a', b', second' := First(s'.keys, s'.cursor), Second(s'.keys, s'.cursor), s'.cursor.second;
      if |a| > limit then second' == second && a' == a[limit..] && b' == b && Front(s) <= Front(s')
      else if |a| == limit then second' != second && a' == b && Front(s) <= b'
      else if |b| > limit - |a| then second' != second && a' == b[limit - |a|..] && Front(s) <= b'
      else second' == second && Front(s) <= a'
  {
    hide List, Trimmed;
    StepTrims(s, s', limit);
    var c := s.cursor;
    var own, other := Bucket(s.keys, c.second), Bucket(s.keys, !c.second);
    var own', other' := Bucket(s'.keys, c.second), Bucket(s'.keys, !c.second);
    var a, b := First(s.keys, c), Second(s.keys, c);
    FrontKept(own, own', From(c), limit);
    if |a| > limit {
      TailKept(own, own', From(c), limit);
      Untrimmed(other, other', 0);
    } else if |a| == limit {
      Untrimmed(other, other', 0);
    } else if |b| > limit - |a| {
      TailKept(other, other', 0, limit - |a|);
    }
  }

  /** The cyclic order that starts with some keys of one bucket, and ends with its other keys. */
  function Cyclic(second: bool, a: seq<nat>, b: seq<nat>, front: seq<nat>): seq<Record> {
    Tag(second, a) + Tag(!second, b) + Tag(second, front)
  }

  lemma OrderParts(s: State)
    ensures Order(s.keys, s.cursor)
         == Cyclic(s.cursor.second, First(s.keys, s.cursor), Second(s.keys, s.cursor), Front(s))
  {
  }

  /** The call stopped inside the first bucket. */
  lemma StopsInFirst(second: bool, a: seq<nat>, b: seq<nat>, front: seq<nat>, more: seq<nat>, n: nat)
    requires n <= |a| && front <= more
    ensures n <= |Cyclic(second, a, b, front)|
    ensures Cyclic(second, a, b, front)[n..] <= Cyclic(second, a[n..], b, more)
  {
    var x, y, z := Tag(second, a), Tag(!second, b), Tag(second, front);
    assert (x + y + z)[n..] == x[n..] + y + z && x[n..] == Tag(second, a[n..]);
    TagPrefix(second, front, more);
    hide Tag;
  }

  /** The call came to the second bucket, and stopped inside it. */
  lemma StopsInSecond(second: bool, a: seq<nat>, b: seq<nat>, front: seq<nat>, own: seq<nat>, rest: seq<nat>, n: nat)
    requires |a| <= n <= |a| + |b| && front <= own
    ensures n <= |Cyclic(second, a, b, front)|
    ensures Cyclic(second, a, b, front)[n..] <= Cyclic(!second, b[n - |a|..], own, rest)
  {
    var x, y, z := Tag(second, a), Tag(!second, b), Tag(second, front);
    assert (x + y + z)[n..] == y[n - |a|..] + z && y[n - |a|..] == Tag(!second, b[n - |a|..]);
    TagPrefix(second, front, own);
    hide Tag;
  }

  /** The call came to the end of the second bucket, and the next one starts over. */
  lemma StartsOver(second: bool, a: seq<nat>, b: seq<nat>, front: seq<nat>, own: seq<nat>, other: seq<nat>,
      rest: seq<nat>)
    requires front <= own
    ensures |a| + |b| <= |Cyclic(second, a, b, front)|
    ensures Cyclic(second, a, b, front)[|a| + |b|..] <= Cyclic(second, own, other, rest)
  {
    var x, y, z := Tag(second, a), Tag(!second, b), Tag(second, front);
    assert (x + y + z)[|a| + |b|..] == z;
    TagPrefix(second, front, own);
    hide Tag;
  }

  /** What a call did not examine comes first in the next cyclic order. */
  lemma RestComesFirst(s: State, s': State, limit: nat)
    requires Step(s, s', limit)
    ensures |Examined(s.keys, s.cursor, limit)| <= |Order(s.keys, s.cursor)|
    ensures Order(s.keys, s.cursor)[|Examined(s.keys, s.cursor, limit)|..] <= Order(s'.keys, s'.cursor)
  {
    ExaminesNext(s.keys, s.cursor, limit);
    OrderParts(s);
    OrderParts(s');
    Moves(s, s', limit);
    hide List, Step, First, Second, Front, Order, Examined, Cyclic;
    var a, b, second := First(s.keys, s.cursor), Second(s.keys, s.cursor), s.cursor.second;
    var a', b' := First(s'.keys, s'.cursor), Second(s'.keys, s'.cursor);
    if |a| > limit {
      StopsInFirst(second, a, b, Front(s), Front(s'), limit);
    } else if |a| == limit || |b| > limit - |a| {
      assert b[0..] == b;
      StopsInSecond(second, a, b, Front(s), b', Front(s'), limit);
    } else {
      StartsOver(second, a, b, Front(s), a', b', Front(s'));
    }
  }

  /** After a call that came to the end of the second bucket, the front is within reach; otherwise the
      unreached records keep their distance to it. */
  lemma LiveMoves(s: State, s': State, limit: nat)
    requires Step(s, s', limit)
    ensures Live(s') >= if Live(s) <= limit then |Front(s)| else Live(s) - limit
  {
    Moves(s, s', limit);
    hide Step, First, Second, Front;
  }

  /** A bound on the calls until the record at place `d` of the cyclic order is examined. */
  function Turns(s: State, d: nat, limit: nat): nat
    requires limit > 0
  {
    d / limit + if d < Live(s) then 1 else 2
  }

  lemma CancelFactor(a: nat, b: nat, m: nat)
    requires m > 0 && a * m < b * m
    ensures a < b
  {
  }

  lemma Quotients(a: nat, x: nat, b: nat, y: nat, m: nat)
    requires x < m && y < m && a * m + x <= b * m + y
    ensures a <= b
  {
    assert (b + 1) * m == b * m + m;
    CancelFactor(a, b + 1, m);
  }

  lemma DivideMonotone(a: nat, b: nat, m: nat)
    requires m > 0 && a <= b
    ensures a / m <= b / m
  {
    assert a == (a / m) * m + a % m && b == (b / m) * m + b % m;
    Quotients(a / m, a % m, b / m, b % m, m);
  }

  lemma DivideShift(d: nat, m: nat)
    requires m > 0
    ensures (d + m) / m == d / m + 1
  {
    var e := d + m;
    var q, p := d / m, e / m;
    assert d == q * m + d % m && e == p * m + e % m;
    assert (q + 1) * m == q * m + m;
    Quotients(q + 1, d % m, p, e % m, m);
    Quotients(p, e % m, q + 1, d % m, m);
  }

  /** A call examines the record at place `d`, or brings it one turn nearer. */
  lemma NearerByOne(s: State, s': State, limit: nat, d: nat)
    requires limit > 0 && Step(s, s', limit) && d < |Order(s.keys, s.cursor)|
    ensures var n := |Examined(s.keys, s.cursor, limit)|;
      if d < n then Examined(s.keys, s.cursor, limit)[d] == Order(s.keys, s.cursor)[d]
      else
        && d - n < |Order(s'.keys, s'.cursor)|
        && Order(s'.keys, s'.cursor)[d - n] == Order(s.keys, s.cursor)[d]
        && Turns(s', d - n, limit) < Turns(s, d, limit)
  {
    ExaminesNext(s.keys, s.cursor, limit);
    RestComesFirst(s, s', limit);
    LiveMoves(s, s', limit);
    OrderParts(s);
    assert |Order(s.keys, s.cursor)| == Live(s) + |Front(s)|;
    assert |Examined(s.keys, s.cursor, limit)| == if Live(s) <= limit then Live(s) else limit;
    hide Step, First, Second, Front, Order, Examined, Live, Turns;
    var n := |Examined(s.keys, s.cursor, limit)|;
    if d >= n {
      TurnsFall(s, s', limit, d, n);
      assert Order(s.keys, s.cursor)[n..][d - n] == Order(s.keys, s.cursor)[d];
    }
  }

  lemma TurnsFall(s: State, s': State, limit: nat, d: nat, n: nat)
    requires limit > 0 && n <= d && n == if Live(s) <= limit then Live(s) else limit
    requires if Live(s) <= limit then d - n < Live(s') else Live(s) - limit <= Live(s')
    ensures Turns(s', d - n, limit) < Turns(s, d, limit)
  {
    hide Live;
    DivideMonotone(d - n, d, limit);
    if n == limit {
      DivideShift(d - limit, limit);
    }
  }

  /** A run of calls, with any changes to the records in between that add and remove none. */
  predicate Sweeps(run: seq<State>, limit: nat) {
    forall i :: 0 <= i < |run| - 1 ==> Step(run[i], run[i + 1], limit)
  }

  predicate ExaminedWithin(run: seq<State>, limit: nat, r: Record, n: nat) {
    exists i :: 0 <= i < n && i < |run| && r in Examined(run[i].keys, run[i].cursor, limit)
  }

  lemma {:induction false} ReachedInTurn(run: seq<State>, limit: nat, d: nat)
    requires limit > 0 && run != [] && Sweeps(run, limit) && d < |Order(run[0].keys, run[0].cursor)|
    requires |run| > Turns(run[0], d, limit)
    ensures ExaminedWithin(run, limit, Order(run[0].keys, run[0].cursor)[d], Turns(run[0], d, limit))
    decreases |run|
  {
    var s := run[0];
    var r := Order(s.keys, s.cursor)[d];
    assert Turns(s, d, limit) >= 1;
    hide Step, Order, Examined, Turns;
    assert Step(run[0], run[1], limit);
    NearerByOne(s, run[1], limit, d);
    var n := |Examined(s.keys, s.cursor, limit)|;
    if d < n {
      assert r in Examined(run[0].keys, run[0].cursor, limit);
    } else {
      var rest := run[1..];
      forall i | 0 <= i < |rest| - 1
        ensures Step(rest[i], rest[i + 1], limit)
      {
        assert Step(run[i + 1], run[i + 1 + 1], limit);
      }
      ReachedInTurn(rest, limit, d - n);
      var i :| 0 <= i < Turns(run[1], d - n, limit) && i < |rest| && r in Examined(rest[i].keys, rest[i].cursor, limit);
      assert run[i + 1] == rest[i];
    }
  }

  /** Fairness: with no insertions, each of N records is examined within ceil(N / limit) + 1 calls, wherever
      the cursor stands at first. */
  lemma EveryRecordExamined(run: seq<State>, limit: nat, r: Record)
    requires limit > 0 && run != [] && Sweeps(run, limit) && IsRecord(run[0].keys, r)
    requires var count := |run[0].keys.jobs| + |run[0].keys.deliveries|; |run| > (count + limit - 1) / limit + 1
    ensures var count := |run[0].keys.jobs| + |run[0].keys.deliveries|;
      ExaminedWithin(run, limit, r, (count + limit - 1) / limit + 1)
  {
    var count := |run[0].keys.jobs| + |run[0].keys.deliveries|;
    var d := OrderComplete(run[0].keys, run[0].cursor, r);
    DivideMonotone(d, count - 1, limit);
    DivideShift(count - 1, limit);
    ReachedInTurn(run, limit, d);
  }
}
