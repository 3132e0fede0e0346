/**
 * Lanes: the cars one intersection owns in one direction, put in leader-first
 * order by a stable sort, and the spacing pass that pushes every trailing car back
 * to at least 40 units behind the car ahead of it.
 *
 * A lane is a sequence of indices into the entry list, standing for the shared
 * `Car` references the source collects: writing through an index is writing
 * through the reference.
 */
module Lanes {
  import opened Basics
  import opened Cars
  import opened Motion

  /** Minimum following distance within a lane. */
  const LaneSpacing := 40

  /**
   * The lane comparators' sort key: UP and LEFT sort by ascending y and x, DOWN and
   * RIGHT by descending y and x; a smaller key is further ahead.
   */
  function Rank(c: CarState): (k: int)
    ensures k == -Along(c)
  {
    match c.dir
    case UP => c.y
    case DOWN => -c.y
    case LEFT => c.x
    case RIGHT => -c.x
  }

  predicate InLane(e: CarEntry, ix: int, dir: Direction) {
    e.ix == ix && e.car.dir == dir
  }

  predicate IndicesIn(s: seq<int>, n: int) {
    forall i :: 0 <= i < |s| ==> 0 <= s[i] < n
  }

  predicate Distinct(s: seq<int>) {
    forall i, j :: 0 <= i < j < |s| ==> s[i] != s[j]
  }

  /** Indices, in list order, of the lane's entries among the first `n`. */
  function LaneUpTo(cars: seq<CarEntry>, ix: int, dir: Direction, n: nat): (r: seq<int>)
    requires n <= |cars|
    ensures IndicesIn(r, n) && Distinct(r)
    ensures forall i, j :: 0 <= i < j < |r| ==> r[i] < r[j]
    ensures forall k :: 0 <= k < n ==> (k in r <==> InLane(cars[k], ix, dir))
    decreases n
  {
    if n == 0 then []
    else
      var r := LaneUpTo(cars, ix, dir, n - 1);
      if InLane(cars[n - 1], ix, dir) then r + [n - 1] else r
  }

  /** The stream filter of the source: the entries owned by `ix` travelling `dir`, in list order. */
  function LaneOf(cars: seq<CarEntry>, ix: int, dir: Direction): (r: seq<int>)
    ensures IndicesIn(r, |cars|) && Distinct(r)
    ensures forall i, j :: 0 <= i < j < |r| ==> r[i] < r[j]
    ensures forall k :: 0 <= k < |cars| ==> (k in r <==> InLane(cars[k], ix, dir))
  {
    LaneUpTo(cars, ix, dir, |cars|)
  }

  function KeyAt(cars: seq<CarEntry>, k: int): int
    requires 0 <= k < |cars|
  {
    Rank(cars[k].car)
  }

  predicate SortedByRank(cars: seq<CarEntry>, s: seq<int>)
    requires IndicesIn(s, |cars|)
  {
    forall i, j :: 0 <= i < j < |s| ==> KeyAt(cars, s[i]) <= KeyAt(cars, s[j])
  }

  /** Insert `k` after every element whose key is at most its own (keeps ties in order). */
  function InsertByRank(cars: seq<CarEntry>, s: seq<int>, k: int): (r: seq<int>)
    requires IndicesIn(s, |cars|) && 0 <= k < |cars|
    ensures IndicesIn(r, |cars|)
    ensures multiset(r) == multiset(s) + multiset{k}
    decreases |s|
  {
    if s == [] then [k]
    else
      var last := s[|s| - 1];
      if KeyAt(cars, last) <= KeyAt(cars, k) then s + [k]
      else
        assert s == s[..|s| - 1] + [last];
        InsertByRank(cars, s[..|s| - 1], k) + [last]
  }

  /** Insertion adds no key above a bound that every key of the lane and `k` respect. */
  lemma InsertBounded(cars: seq<CarEntry>, s: seq<int>, k: int, bound: int)
    requires IndicesIn(s, |cars|) && 0 <= k < |cars| && KeyAt(cars, k) <= bound
    requires forall m :: 0 <= m < |s| ==> KeyAt(cars, s[m]) <= bound
    ensures forall i :: 0 <= i < |InsertByRank(cars, s, k)| ==> KeyAt(cars, InsertByRank(cars, s, k)[i]) <= bound
  {
    var r := InsertByRank(cars, s, k);
    forall i | 0 <= i < |r| ensures KeyAt(cars, r[i]) <= bound {
      assert r[i] in multiset(r);
      if r[i] != k {
        assert r[i] in multiset(s);
        var m :| 0 <= m < |s| && s[m] == r[i];
      }
    }
  }

  /** Inserting into a sorted lane keeps it sorted. */
  lemma {:induction false} InsertSorted(cars: seq<CarEntry>, s: seq<int>, k: int)
    requires IndicesIn(s, |cars|) && 0 <= k < |cars| && SortedByRank(cars, s)
    ensures SortedByRank(cars, InsertByRank(cars, s, k))
    decreases |s|
  {
    if s != [] {
      var last := s[|s| - 1];
      var s' := s[..|s| - 1];
      if KeyAt(cars, last) > KeyAt(cars, k) {
        InsertSorted(cars, s', k);
        var r' := InsertByRank(cars, s', k);
        assert forall m :: 0 <= m < |s'| ==> KeyAt(cars, s'[m]) <= KeyAt(cars, last) by {
          forall m | 0 <= m < |s'| ensures KeyAt(cars, s'[m]) <= KeyAt(cars, last) {
            assert s'[m] == s[m];
          }
        }
        InsertBounded(cars, s', k, KeyAt(cars, last));
        assert InsertByRank(cars, s, k) == r' + [last];
      }
    }
  }

  /** Inserting a new index into a lane without repeats gives a lane without repeats. */
  lemma {:induction false} InsertDistinct(cars: seq<CarEntry>, s: seq<int>, k: int)
    requires IndicesIn(s, |cars|) && 0 <= k < |cars| && Distinct(s) && k !in s
    ensures Distinct(InsertByRank(cars, s, k))
    decreases |s|
  {
    if s != [] {
      var last := s[|s| - 1];
      var s' := s[..|s| - 1];
      if KeyAt(cars, last) > KeyAt(cars, k) {
        assert s == s' + [last];
        InsertDistinct(cars, s', k);
        var r' := InsertByRank(cars, s', k);
        forall m | 0 <= m < |s'| ensures s'[m] != last {
          assert s[m] != s[|s| - 1];
        }
        assert last !in multiset(s');
        assert last !in multiset(r');
      }
    }
  }

  /**
   * `List.sort` with the lane comparator, as the stable insertion sort: the result
   * is a permutation of the input in leader-first order.
   */
  function SortByRank(cars: seq<CarEntry>, s: seq<int>): (r: seq<int>)
    requires IndicesIn(s, |cars|)
    ensures IndicesIn(r, |cars|)
    ensures multiset(r) == multiset(s)
    ensures SortedByRank(cars, r)
    decreases |s|
  {
    if s == [] then []
    else
      var s', k := s[..|s| - 1], s[|s| - 1];
      assert s == s' + [k];
      var r' := SortByRank(cars, s');
      InsertSorted(cars, r', k);
      InsertByRank(cars, r', k)
  }

  /** Sorting a lane without repeats gives a lane without repeats. */
  lemma {:induction false} SortDistinct(cars: seq<CarEntry>, s: seq<int>)
    requires IndicesIn(s, |cars|) && Distinct(s)
    ensures Distinct(SortByRank(cars, s))
    decreases |s|
  {
    if s != [] {
      var s', k := s[..|s| - 1], s[|s| - 1];
      assert s == s' + [k];
      SortDistinct(cars, s');
      var r' := SortByRank(cars, s');
      assert k !in r' by {
        forall m | 0 <= m < |s'| ensures s'[m] != k {
          assert s[m] != s[|s| - 1];
        }
        assert k !in multiset(s');
      }
      InsertDistinct(cars, r', k);
    }
  }

  /** The elements of `s` whose key is `v`, in their order in `s`. */
  function WithKey(cars: seq<CarEntry>, s: seq<int>, v: int): seq<int>
    requires IndicesIn(s, |cars|)
    decreases |s|
  {
    if s == [] then []
    else WithKey(cars, s[..|s| - 1], v) + (if KeyAt(cars, s[|s| - 1]) == v then [s[|s| - 1]] else [])
  }

  lemma WithKeyAppend(cars: seq<CarEntry>, s: seq<int>, k: int, v: int)
    requires IndicesIn(s, |cars|) && 0 <= k < |cars|
    ensures IndicesIn(s + [k], |cars|)
    ensures WithKey(cars, s + [k], v) == WithKey(cars, s, v) + (if KeyAt(cars, k) == v then [k] else [])
  {
    assert (s + [k])[..|s|] == s;
  }

  /** Insertion puts the new index after every element of equal key. */
  lemma {:induction false} InsertStable(cars: seq<CarEntry>, s: seq<int>, k: int, v: int)
    requires IndicesIn(s, |cars|) && 0 <= k < |cars|
    ensures WithKey(cars, InsertByRank(cars, s, k), v) ==
              WithKey(cars, s, v) + (if KeyAt(cars, k) == v then [k] else [])
    decreases |s|
  {
    if s == [] {
      WithKeyAppend(cars, [], k, v);
    } else {
      var last := s[|s| - 1];
      var s' := s[..|s| - 1];
      assert s == s' + [last];
      WithKeyAppend(cars, s', last, v);
      if KeyAt(cars, last) <= KeyAt(cars, k) {
        WithKeyAppend(cars, s, k, v);
      } else {
        var ins := InsertByRank(cars, s', k);
        assert InsertByRank(cars, s, k) == ins + [last];
        InsertStable(cars, s', k, v);
        WithKeyAppend(cars, ins, last, v);
        // `last` outranks `k`, so at most one of the two carries the key `v`.
        var kv: seq<int> := if KeyAt(cars, k) == v then [k] else [];
        var lv: seq<int> := if KeyAt(cars, last) == v then [last] else [];
        assert kv == [] || lv == [];
        assert WithKey(cars, ins + [last], v) == WithKey(cars, s', v) + kv + lv;
        assert WithKey(cars, s, v) == WithKey(cars, s', v) + lv;
      }
    }
  }

  /**
   * The sort is stable: for every key, the elements with that key keep the order
   * they had in the input. With `LaneOf` listing a lane in list order, cars of
   * equal key stay in list order.
   */
  lemma {:induction false} SortStable(cars: seq<CarEntry>, s: seq<int>, v: int)
    requires IndicesIn(s, |cars|)
    ensures WithKey(cars, SortByRank(cars, s), v) == WithKey(cars, s, v)
    decreases |s|
  {
    if s != [] {
      var s', k := s[..|s| - 1], s[|s| - 1];
      assert s == s' + [k];
      SortStable(cars, s', v);
      InsertStable(cars, SortByRank(cars, s'), k, v);
      WithKeyAppend(cars, s', k, v);
    }
  }

  /** One lane in leader-first order. */
  function SortedLane(cars: seq<CarEntry>, ix: int, dir: Direction): seq<int> {
    SortByRank(cars, LaneOf(cars, ix, dir))
  }

  function Max(a: int, b: int): int {
    if a >= b then a else b
  }

  /**
   * The snap of one trailing car: if it is within the spacing of the car ahead, it
   * is put back to exactly the spacing. Only its progress changes, and only backward.
   */
  function SnapBehind(dir: Direction, ahead: CarState, behind: CarState): (r: CarState)
    ensures r.dir == behind.dir && r.stopped == behind.stopped
    ensures behind.dir == dir ==> Across(r) == Across(behind)
    ensures behind.dir == dir && ahead.dir == dir ==>
              Rank(r) == Max(Rank(behind), Rank(ahead) + LaneSpacing)
  {
    match dir
    case UP =>
      if behind.y <= ahead.y + LaneSpacing then behind.(y := ahead.y + LaneSpacing) else behind
    case DOWN =>
      if behind.y >= ahead.y - LaneSpacing then behind.(y := ahead.y - LaneSpacing) else behind
    case LEFT =>
      if behind.x <= ahead.x + LaneSpacing then behind.(x := ahead.x + LaneSpacing) else behind
    case RIGHT =>
      if behind.x >= ahead.x - LaneSpacing then behind.(x := ahead.x - LaneSpacing) else behind
  }

  /** The spacing loop over one sorted lane, from position `i` on. */
  function SpaceFrom(cars: seq<CarEntry>, lane: seq<int>, dir: Direction, i: nat): (r: seq<CarEntry>)
    requires IndicesIn(lane, |cars|) && i >= 1
    ensures |r| == |cars|
    decreases |lane| - i
  {
    if i >= |lane| then cars
    else
      var a, b := lane[i - 1], lane[i];
      SpaceFrom(cars[b := cars[b].(car := SnapBehind(dir, cars[a].car, cars[b].car))], lane, dir, i + 1)
  }

  function SpaceLane(cars: seq<CarEntry>, lane: seq<int>, dir: Direction): (r: seq<CarEntry>)
    requires IndicesIn(lane, |cars|)
    ensures |r| == |cars|
  {
    SpaceFrom(cars, lane, dir, 1)
  }

  /** Along `lane`, each car is at least the spacing behind the one before it. */
  predicate LaneSpaced(cars: seq<CarEntry>, lane: seq<int>)
    requires IndicesIn(lane, |cars|)
  {
    forall i :: 1 <= i < |lane| ==> KeyAt(cars, lane[i]) >= KeyAt(cars, lane[i - 1]) + LaneSpacing
  }

  /** `b` is `a` pushed back along its own lane: same owner, direction, flag and lane line. */
  predicate MovedBack(a: CarEntry, b: CarEntry) {
    && b.ix == a.ix && b.car.dir == a.car.dir && b.car.stopped == a.car.stopped
    && Across(b.car) == Across(a.car) && Rank(b.car) >= Rank(a.car)
  }

  /** One snap: the trailing car ends at least the spacing behind, and only moved back. */
  lemma SnapStep(cars: seq<CarEntry>, lane: seq<int>, dir: Direction, i: nat)
    requires IndicesIn(lane, |cars|) && Distinct(lane) && 1 <= i < |lane|
    requires forall m :: 0 <= m < |lane| ==> cars[lane[m]].car.dir == dir
    ensures var a, b := lane[i - 1], lane[i];
      var next := cars[b := cars[b].(car := SnapBehind(dir, cars[a].car, cars[b].car))];
      && |next| == |cars|
      && (forall m :: 0 <= m < |lane| ==> next[lane[m]].car.dir == dir)
      && (forall k :: 0 <= k < |cars| && k != b ==> next[k] == cars[k])
      && MovedBack(cars[b], next[b])
      && KeyAt(next, b) >= KeyAt(next, a) + LaneSpacing
  {
    var a, b := lane[i - 1], lane[i];
    assert a != b;
    assert cars[a].car.dir == dir && cars[b].car.dir == dir;
  }

  lemma {:induction false} SpaceFromSpec(cars: seq<CarEntry>, lane: seq<int>, dir: Direction, i: nat)
    requires IndicesIn(lane, |cars|) && Distinct(lane) && i >= 1
    requires forall m :: 0 <= m < |lane| ==> cars[lane[m]].car.dir == dir
    requires forall m :: 1 <= m < i && m < |lane| ==>
               KeyAt(cars, lane[m]) >= KeyAt(cars, lane[m - 1]) + LaneSpacing
    decreases |lane| - i
    ensures LaneSpaced(SpaceFrom(cars, lane, dir, i), lane)
    ensures forall k :: 0 <= k < |cars| ==> MovedBack(cars[k], SpaceFrom(cars, lane, dir, i)[k])
    ensures forall k :: 0 <= k < |cars| && k !in lane ==> SpaceFrom(cars, lane, dir, i)[k] == cars[k]
  {
    if i < |lane| {
      var a, b := lane[i - 1], lane[i];
      var next := cars[b := cars[b].(car := SnapBehind(dir, cars[a].car, cars[b].car))];
      SnapStep(cars, lane, dir, i);
      forall m | 1 <= m < i + 1 && m < |lane|
        ensures KeyAt(next, lane[m]) >= KeyAt(next, lane[m - 1]) + LaneSpacing
      {
        if m < i {
          assert lane[m] != b && lane[m - 1] != b;
        }
      }
      SpaceFromSpec(next, lane, dir, i + 1);
      var r := SpaceFrom(next, lane, dir, i + 1);
      assert r == SpaceFrom(cars, lane, dir, i);
      forall k | 0 <= k < |cars| ensures MovedBack(cars[k], r[k]) {
        if k != b {
          assert next[k] == cars[k];
        }
      }
      forall k | 0 <= k < |cars| && k !in lane ensures r[k] == cars[k] {
        assert k != b;
      }
    }
  }

  /**
   * Spacing one sorted lane leaves it spaced, moves its cars only backward along
   * their lane line, and touches no other entry.
   */
  lemma SpaceLaneSpec(cars: seq<CarEntry>, lane: seq<int>, dir: Direction)
    requires IndicesIn(lane, |cars|) && Distinct(lane)
    requires forall m :: 0 <= m < |lane| ==> cars[lane[m]].car.dir == dir
    ensures LaneSpaced(SpaceLane(cars, lane, dir), lane)
    ensures forall k :: 0 <= k < |cars| ==> MovedBack(cars[k], SpaceLane(cars, lane, dir)[k])
    ensures forall k :: 0 <= k < |cars| && k !in lane ==> SpaceLane(cars, lane, dir)[k] == cars[k]
  {
    SpaceFromSpec(cars, lane, dir, 1);
  }

  /** Position of a direction in `Directions`. */
  function DirIndex(d: Direction): (j: nat)
    ensures j < 4 && Directions[j] == d
  {
    match d
    case UP => 0
    case DOWN => 1
    case LEFT => 2
    case RIGHT => 3
  }

  /** `DirIndex` inverts indexing into `Directions`. */
  lemma DirIndexOf(j: nat)
    requires j < 4
    ensures DirIndex(Directions[j]) == j
  {
    if j == 0 {
    } else if j == 1 {
    } else if j == 2 {
    } else {
    }
  }

  /** The spacing pass over all lanes, from intersection `ix`, direction number `j` on. */
  function SpacedFrom(cars: seq<CarEntry>, n: nat, ix: nat, j: nat): (r: seq<CarEntry>)
    ensures |r| == |cars|
    decreases n - ix, 4 - j
  {
    if ix >= n then cars
    else if j >= 4 then SpacedFrom(cars, n, ix + 1, 0)
    else
      var d := Directions[j];
      SpacedFrom(SpaceLane(cars, SortedLane(cars, ix, d), d), n, ix, j + 1)
  }

  /**
   * The whole lane-spacing stage for `n` intersections. Afterwards every lane, in
   * leader-first order, keeps the spacing between consecutive cars; every car has
   * only moved backward along its lane line; cars of other owners are untouched.
   */
  function Spaced(cars: seq<CarEntry>, n: nat): (r: seq<CarEntry>)
    ensures |r| == |cars|
    ensures LanesSpaced(r, n)
    ensures forall k :: 0 <= k < |cars| ==> MovedBack(cars[k], r[k])
    ensures forall k :: 0 <= k < |cars| && !(0 <= cars[k].ix < n) ==> r[k] == cars[k]
  {
    SpacingPassSpacesEveryLane(cars, n);
    SpacedFrom(cars, n, 0, 0)
  }

  /** Lane (`kix`, `kd`) is still to be spaced when the pass is at (`ix`, `j`). */
  predicate Pending(n: nat, ix: nat, j: nat, kix: int, kd: Direction) {
    ix <= kix < n && (kix > ix || DirIndex(kd) >= j)
  }

  /** The lane filter reads only owners and directions. */
  lemma {:induction false} LaneUpToFrame(c1: seq<CarEntry>, c2: seq<CarEntry>, ix: int, dir: Direction, n: nat)
    requires n <= |c1| == |c2|
    requires forall k :: 0 <= k < |c1| ==> c1[k].ix == c2[k].ix && c1[k].car.dir == c2[k].car.dir
    ensures LaneUpTo(c1, ix, dir, n) == LaneUpTo(c2, ix, dir, n)
    decreases n
  {
    if n > 0 {
      LaneUpToFrame(c1, c2, ix, dir, n - 1);
    }
  }

  /** Insertion reads only the keys of the elements it orders. */
  lemma {:induction false} InsertFrame(c1: seq<CarEntry>, c2: seq<CarEntry>, s: seq<int>, k: int)
    requires |c1| == |c2| && IndicesIn(s, |c1|) && 0 <= k < |c1|
    requires forall m :: m in s || m == k ==> Rank(c1[m].car) == Rank(c2[m].car)
    ensures InsertByRank(c1, s, k) == InsertByRank(c2, s, k)
    decreases |s|
  {
    if s != [] {
      var s' := s[..|s| - 1];
      forall m | m in s' ensures m in s {
        assert s == s' + [s[|s| - 1]];
      }
      InsertFrame(c1, c2, s', k);
    }
  }

  /** The sort reads only the keys of the elements it orders. */
  lemma {:induction false} SortFrame(c1: seq<CarEntry>, c2: seq<CarEntry>, s: seq<int>)
    requires |c1| == |c2| && IndicesIn(s, |c1|)
    requires forall m :: m in s ==> Rank(c1[m].car) == Rank(c2[m].car)
    ensures SortByRank(c1, s) == SortByRank(c2, s)
    decreases |s|
  {
    if s != [] {
      var s' := s[..|s| - 1];
      assert s == s' + [s[|s| - 1]];
      SortFrame(c1, c2, s');
      var r := SortByRank(c1, s');
      forall m | m in r || m == s[|s| - 1] ensures Rank(c1[m].car) == Rank(c2[m].car) {
        if m in r {
          assert m in multiset(r);
        }
      }
      InsertFrame(c1, c2, r, s[|s| - 1]);
    }
  }

  /** The lane (`ix`, `d`) holds exactly the entries owned by `ix` travelling `d`. */
  lemma SortedLaneMembers(cars: seq<CarEntry>, ix: int, d: Direction)
    ensures IndicesIn(SortedLane(cars, ix, d), |cars|) && Distinct(SortedLane(cars, ix, d))
    ensures forall k :: 0 <= k < |cars| ==> (k in SortedLane(cars, ix, d) <==> InLane(cars[k], ix, d))
  {
    var lane, lane0 := SortedLane(cars, ix, d), LaneOf(cars, ix, d);
    SortDistinct(cars, lane0);
    forall k | 0 <= k < |cars| ensures k in lane <==> k in lane0 {
      assert k in lane <==> k in multiset(lane);
      assert k in lane0 <==> k in multiset(lane0);
    }
  }

  /**
   * Spacing lane (`ix`, `d`) does not change any other lane: its members are the
   * same and, having kept their keys, sort the same.
   */
  lemma OtherLaneKept(cars: seq<CarEntry>, ix: int, d: Direction, kix: int, kd: Direction)
    requires kix != ix || kd != d
    ensures var lane := SortedLane(cars, ix, d);
      SortedLane(SpaceLane(cars, lane, d), kix, kd) == SortedLane(cars, kix, kd)
  {
    var lane := SortedLane(cars, ix, d);
    SortedLaneMembers(cars, ix, d);
    SpaceLaneSpec(cars, lane, d);
    var next := SpaceLane(cars, lane, d);
    LaneUpToFrame(cars, next, kix, kd, |cars|);
    var s := LaneOf(cars, kix, kd);
    forall m | m in s ensures Rank(cars[m].car) == Rank(next[m].car) {
      assert m !in lane;
    }
    SortFrame(cars, next, s);
  }

  /**
   * One step of the pass, spacing lane (`ix`, `d`): the lane ends spaced, its
   * members keep owner `ix` and direction `d`, every entry only moves back, and
   * entries outside the lane are untouched.
   */
  lemma LaneStep(cars: seq<CarEntry>, ix: int, d: Direction)
    ensures IndicesIn(SortedLane(cars, ix, d), |cars|)
    ensures var lane := SortedLane(cars, ix, d);
      var next := SpaceLane(cars, lane, d);
      && LaneSpaced(next, lane)
      && (forall m :: 0 <= m < |lane| ==> next[lane[m]].ix == ix && next[lane[m]].car.dir == d)
      && (forall k :: 0 <= k < |cars| ==> MovedBack(cars[k], next[k]))
      && (forall k :: 0 <= k < |cars| && !InLane(cars[k], ix, d) ==> next[k] == cars[k])
  {
    var lane := SortedLane(cars, ix, d);
    SortedLaneMembers(cars, ix, d);
    SpaceLaneSpec(cars, lane, d);
    var next := SpaceLane(cars, lane, d);
    forall m | 0 <= m < |lane| ensures next[lane[m]].ix == ix && next[lane[m]].car.dir == d {
      assert InLane(cars[lane[m]], ix, d);
      assert MovedBack(cars[lane[m]], next[lane[m]]);
    }
  }

  /** Unfolding the pass by one lane. */
  lemma SpacedFromStep(cars: seq<CarEntry>, n: nat, ix: nat, j: nat)
    requires ix < n && j < 4
    ensures var d := Directions[j];
      SpacedFrom(cars, n, ix, j) == SpacedFrom(SpaceLane(cars, SortedLane(cars, ix, d), d), n, ix, j + 1)
  {
  }

  /** The pass only ever moves cars backward along their lane line. */
  lemma {:induction false} SpacedFromMovesBack(cars: seq<CarEntry>, n: nat, ix: nat, j: nat, k: int)
    requires 0 <= k < |cars|
    decreases n - ix, 4 - j
    ensures MovedBack(cars[k], SpacedFrom(cars, n, ix, j)[k])
  {
    if ix >= n {
    } else if j >= 4 {
      SpacedFromMovesBack(cars, n, ix + 1, 0, k);
      assert SpacedFrom(cars, n, ix, j) == SpacedFrom(cars, n, ix + 1, 0);
    } else {
      var d := Directions[j];
      var next := SpaceLane(cars, SortedLane(cars, ix, d), d);
      assert MovedBack(cars[k], next[k]) by {
        LaneStep(cars, ix, d);
      }
      SpacedFromMovesBack(next, n, ix, j + 1, k);
      SpacedFromStep(cars, n, ix, j);
      MovedBackTransitive(cars[k], next[k], SpacedFrom(next, n, ix, j + 1)[k]);
    }
  }

  lemma MovedBackTransitive(a: CarEntry, b: CarEntry, c: CarEntry)
    requires MovedBack(a, b) && MovedBack(b, c)
    ensures MovedBack(a, c)
  {
  }

  /** The pass leaves every entry of a lane it has already passed untouched. */
  lemma {:induction false} SpacedFromFrame(cars: seq<CarEntry>, n: nat, ix: nat, j: nat)
    decreases n - ix, 4 - j
    ensures forall k :: 0 <= k < |cars| && !Pending(n, ix, j, cars[k].ix, cars[k].car.dir) ==>
              SpacedFrom(cars, n, ix, j)[k] == cars[k]
  {
    if ix >= n {
    } else if j >= 4 {
      SpacedFromFrame(cars, n, ix + 1, 0);
      assert SpacedFrom(cars, n, ix, j) == SpacedFrom(cars, n, ix + 1, 0);
    } else {
      var d := Directions[j];
      LaneStep(cars, ix, d);
      var next := SpaceLane(cars, SortedLane(cars, ix, d), d);
      SpacedFromFrame(next, n, ix, j + 1);
      SpacedFromStep(cars, n, ix, j);
      var res := SpacedFrom(next, n, ix, j + 1);
      forall k | 0 <= k < |cars| && !Pending(n, ix, j, cars[k].ix, cars[k].car.dir)
        ensures res[k] == cars[k]
      {
        DirIndexOf(j);
        assert !InLane(cars[k], ix, d);
        assert next[k] == cars[k];
      }
    }
  }

  /** The lane spaced at (`ix`, `j`) stays spaced: the rest of the pass does not touch it. */
  lemma LaneStaysSpaced(cars: seq<CarEntry>, n: nat, ix: nat, j: nat)
    requires ix < n && j < 4
    ensures IndicesIn(SortedLane(cars, ix, Directions[j]), |cars|)
    ensures LaneSpaced(SpacedFrom(cars, n, ix, j), SortedLane(cars, ix, Directions[j]))
  {
    var d := Directions[j];
    var lane := SortedLane(cars, ix, d);
    LaneStep(cars, ix, d);
    var next := SpaceLane(cars, lane, d);
    SpacedFromFrame(next, n, ix, j + 1);
    SpacedFromStep(cars, n, ix, j);
    var res := SpacedFrom(next, n, ix, j + 1);
    DirIndexOf(j);
    forall m | 0 <= m < |lane| ensures res[lane[m]] == next[lane[m]] {
      assert !Pending(n, ix, j + 1, next[lane[m]].ix, next[lane[m]].car.dir);
    }
  }

  /**
   * A lane other than the one spaced at (`ix`, `j`) is the same lane after that
   * step, so it ends spaced when the rest of the pass spaces it.
   */
  lemma OtherLaneSpaced(cars: seq<CarEntry>, n: nat, ix: nat, j: nat, kix: int, kd: Direction)
    requires ix < n && j < 4 && (kix != ix || kd != Directions[j])
    requires var d := Directions[j];
      var next := SpaceLane(cars, SortedLane(cars, ix, d), d);
      && IndicesIn(SortedLane(next, kix, kd), |next|)
      && LaneSpaced(SpacedFrom(next, n, ix, j + 1), SortedLane(next, kix, kd))
    ensures IndicesIn(SortedLane(cars, kix, kd), |cars|)
    ensures LaneSpaced(SpacedFrom(cars, n, ix, j), SortedLane(cars, kix, kd))
  {
    OtherLaneKept(cars, ix, Directions[j], kix, kd);
    SpacedFromStep(cars, n, ix, j);
  }

  /**
   * A lane of intersection `ix` whose direction is not yet passed at direction
   * number `j` ends up spaced when the pass goes on from (`ix`, `j`).
   */
  lemma {:induction false} SpacedFromSpacesAt(cars: seq<CarEntry>, n: nat, ix: nat, j: nat, kd: Direction)
    requires ix < n && j <= DirIndex(kd)
    decreases 4 - j
    ensures IndicesIn(SortedLane(cars, ix, kd), |cars|)
    ensures LaneSpaced(SpacedFrom(cars, n, ix, j), SortedLane(cars, ix, kd))
  {
    if kd == Directions[j] {
      LaneStaysSpaced(cars, n, ix, j);
    } else {
      var d := Directions[j];
      assert j + 1 <= DirIndex(kd) by {
        DirIndexOf(j);
      }
      SpacedFromSpacesAt(SpaceLane(cars, SortedLane(cars, ix, d), d), n, ix, j + 1, kd);
      OtherLaneSpaced(cars, n, ix, j, ix, kd);
    }
  }

  /** A lane still pending when the pass reaches (`ix`, `j`) ends up spaced. */
  lemma {:induction false} SpacedFromSpaces(cars: seq<CarEntry>, n: nat, ix: nat, j: nat, kix: int, kd: Direction)
    requires Pending(n, ix, j, kix, kd)
    decreases n - ix, 4 - j
    ensures IndicesIn(SortedLane(cars, kix, kd), |cars|)
    ensures LaneSpaced(SpacedFrom(cars, n, ix, j), SortedLane(cars, kix, kd))
  {
    if kix == ix {
      SpacedFromSpacesAt(cars, n, ix, j, kd);
    } else if j >= 4 {
      SpacedFromSpaces(cars, n, ix + 1, 0, kix, kd);
      assert SpacedFrom(cars, n, ix, j) == SpacedFrom(cars, n, ix + 1, 0);
    } else {
      var d := Directions[j];
      SpacedFromSpaces(SpaceLane(cars, SortedLane(cars, ix, d), d), n, ix, j + 1, kix, kd);
      OtherLaneSpaced(cars, n, ix, j, kix, kd);
    }
  }

  /** Every lane of the `n` intersections, in leader-first order, is spaced. */
  predicate LanesSpaced(cars: seq<CarEntry>, n: nat) {
    forall ix, d :: 0 <= ix < n ==> LaneSpaced(cars, SortedLane(cars, ix, d))
  }

  predicate StrictlySorted(cars: seq<CarEntry>, s: seq<int>)
    requires IndicesIn(s, |cars|)
  {
    forall i, j :: 0 <= i < j < |s| ==> KeyAt(cars, s[i]) < KeyAt(cars, s[j])
  }

  lemma {:induction false} SpacedGap(cars: seq<CarEntry>, s: seq<int>, i: nat, j: nat)
    requires IndicesIn(s, |cars|) && LaneSpaced(cars, s) && i < j < |s|
    ensures KeyAt(cars, s[i]) < KeyAt(cars, s[j])
    decreases j - i
  {
    if j > i + 1 {
      SpacedGap(cars, s, i, j - 1);
    }
  }

  lemma SpacedIsStrict(cars: seq<CarEntry>, s: seq<int>)
    requires IndicesIn(s, |cars|) && LaneSpaced(cars, s)
    ensures StrictlySorted(cars, s)
  {
    forall i, j | 0 <= i < j < |s| ensures KeyAt(cars, s[i]) < KeyAt(cars, s[j]) {
      SpacedGap(cars, s, i, j);
    }
  }

  /**
   * A permutation that is sorted is the strictly sorted one: with pairwise distinct
   * keys there is only one leader-first order.
   */
  lemma HeadsAgree(a: seq<int>, b: seq<int>)
    requires a != [] && b != [] && a[0] == b[0] && multiset(a) == multiset(b)
    ensures multiset(a[1..]) == multiset(b[1..])
  {
    assert a == [a[0]] + a[1..] && b == [b[0]] + b[1..];
    assert multiset(a) == multiset{a[0]} + multiset(a[1..]);
    assert multiset(b) == multiset{b[0]} + multiset(b[1..]);
    assert multiset(a[1..]) == multiset(a) - multiset{a[0]};
    assert multiset(b[1..]) == multiset(b) - multiset{b[0]};
  }

  /** Both sequences start with the element of least key. */
  lemma SameLeader(cars: seq<CarEntry>, a: seq<int>, b: seq<int>)
    requires IndicesIn(a, |cars|) && IndicesIn(b, |cars|) && a != [] && b != []
    requires multiset(a) == multiset(b)
    requires StrictlySorted(cars, a) && SortedByRank(cars, b)
    ensures a[0] == b[0]
  {
    assert b[0] in multiset(a) && a[0] in multiset(b);
    var ia :| 0 <= ia < |a| && a[ia] == b[0];
    var ib :| 0 <= ib < |b| && b[ib] == a[0];
    assert KeyAt(cars, b[0]) <= KeyAt(cars, b[ib]);
  }

  /**
   * A permutation that is sorted is the strictly sorted one: with pairwise distinct
   * keys there is only one leader-first order.
   */
  lemma {:induction false} SortedUnique(cars: seq<CarEntry>, a: seq<int>, b: seq<int>)
    requires IndicesIn(a, |cars|) && IndicesIn(b, |cars|)
    requires multiset(a) == multiset(b)
    requires StrictlySorted(cars, a) && SortedByRank(cars, b)
    ensures a == b
    decreases |a|
  {
    assert |a| == |multiset(a)| == |multiset(b)| == |b|;
    if a != [] {
      SameLeader(cars, a, b);
      HeadsAgree(a, b);
      SortedUnique(cars, a[1..], b[1..]);
    }
  }

  /**
   * After the whole pass, every lane of every intersection, put in leader-first
   * order by the source's own sort, keeps at least the lane spacing between
   * consecutive cars; every car has moved only backward along its lane line, with
   * its owner, direction and stopped flag unchanged.
   */
  lemma SpacingPassSpacesEveryLane(cars: seq<CarEntry>, n: nat)
    ensures LanesSpaced(SpacedFrom(cars, n, 0, 0), n)
    ensures forall k :: 0 <= k < |cars| ==> MovedBack(cars[k], SpacedFrom(cars, n, 0, 0)[k])
    ensures forall k :: 0 <= k < |cars| && !(0 <= cars[k].ix < n) ==> SpacedFrom(cars, n, 0, 0)[k] == cars[k]
  {
    forall k | 0 <= k < |cars| ensures MovedBack(cars[k], SpacedFrom(cars, n, 0, 0)[k]) {
      SpacedFromMovesBack(cars, n, 0, 0, k);
    }
    SpacedFromFrame(cars, n, 0, 0);
    var res := SpacedFrom(cars, n, 0, 0);
    forall ix, d | 0 <= ix < n ensures LaneSpaced(res, SortedLane(res, ix, d)) {
      SpacedFromSpaces(cars, n, 0, 0, ix, d);
      var lane := SortedLane(cars, ix, d);
      LaneUpToFrame(cars, res, ix, d, |cars|);
      SpacedIsStrict(res, lane);
      SortedUnique(res, lane, SortedLane(res, ix, d));
    }
  }

  /** The spacing loop of one lane: `ahead` is the car before, as it stands now. */
  method SnapLane(cars: seq<CarEntry>, lane: seq<int>, dir: Direction) returns (out: seq<CarEntry>)
    requires IndicesIn(lane, |cars|)
    ensures out == SpaceLane(cars, lane, dir)
  {
    out := cars;
    var i := 1;
    while i < |lane|
      invariant i >= 1 && |out| == |cars|
      invariant SpaceFrom(out, lane, dir, i) == SpaceLane(cars, lane, dir)
      decreases |lane| - i
    {
      var ahead := out[lane[i - 1]].car;
      var behind := out[lane[i]].car;
      out := out[lane[i] := out[lane[i]].(car := SnapBehind(dir, ahead, behind))];
      i := i + 1;
    }
  }

  /** The lane-spacing stage: for every intersection and direction, sort the lane and snap. */
  method EnforceSpacing(cars: seq<CarEntry>, n: nat) returns (out: seq<CarEntry>)
    ensures out == Spaced(cars, n)
  {
    out := cars;
    for ix := 0 to n
      invariant SpacedFrom(out, n, ix, 0) == Spaced(cars, n)
    {
      for j := 0 to 4
        invariant SpacedFrom(out, n, ix, j) == Spaced(cars, n)
      {
        var dir := Directions[j];
        var lane := SortByRank(out, LaneOf(out, ix, dir));
        out := SnapLane(out, lane, dir);
      }
    }
  }
}
