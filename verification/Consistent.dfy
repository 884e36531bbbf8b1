/** The consistent-hash ring as an object: a circle of points, the member set, the sorted points and
    the member count, all updated in place. */
module ConsistentHash {
  import opened RingSpec
  import opened Types

  /** What a lookup answers. A negative result capacity makes the original panic. */
  datatype Lookup = Found(names: seq<string>) | EmptyCircle | CapOutOfRange

  class Consistent {
    const params: Params
    var circle: Circle
    var members: map<string, bool>
    var sortedHashes: seq<Hash>
    var count: int

    ghost predicate Valid()
      reads this
    {
      && params.replicas >= 1
      && params.Owned(circle, members.Keys)
      && Lists(sortedHashes, circle.Keys)
    }

    constructor New(params: Params)
      requires params.replicas >= 1
      ensures Valid() && this.params == params
      ensures circle == map[] && members == map[] && count == 0
    {
      this.params := params;
      circle, members, sortedHashes, count := map[], map[], [], 0;
    }

    // ---- Updates ----

    /** The hash of one of the element's replica keys. */
    ghost predicate IsPoint(elt: string, p: Hash) {
      exists i: nat :: i < params.replicas && p == params.hash(EltKey(elt, i))
    }

    method Add(elt: string)
      requires Valid()
      modifies this
      ensures Valid()
      ensures circle == params.Added(old(circle), elt)
      ensures forall p :: p in circle <==> p in old(circle) || IsPoint(elt, p)
      ensures forall p :: p in circle ==> circle[p] == if IsPoint(elt, p) then elt else old(circle)[p]
      ensures members == old(members)[elt := true]
      ensures count == old(count) + 1
    {
      for i := 0 to params.replicas
        invariant circle == params.AddedBelow(old(circle), elt, i)
        invariant members == old(members) && count == old(count)
      {
        circle := circle[params.Point(elt, i) := elt];
      }
      assert circle == params.Added(old(circle), elt);
      forall p ensures p in circle <==> p in old(circle) || IsPoint(elt, p)
        ensures p in circle ==> circle[p] == if IsPoint(elt, p) then elt else old(circle)[p]
      {
        params.AddedIff(old(circle), elt, p);
      }
      members := members[elt := true];
      params.AddedOwned(old(circle), old(members).Keys, elt);
      assert members.Keys == old(members).Keys + {elt};
      UpdateSortedHashes();
      count := count + 1;
    }

    method Remove(elt: string)
      requires Valid()
      modifies this
      ensures Valid()
      ensures circle == params.Removed(old(circle), elt)
      ensures forall p :: p in circle <==> p in old(circle) && !IsPoint(elt, p)
      ensures forall p :: p in circle ==> circle[p] == old(circle)[p]
      ensures members == old(members) - {elt}
      ensures count == old(count) - 1
    {
      for i := 0 to params.replicas
        invariant circle == old(circle) - params.PointsBelow(elt, i)
        invariant members == old(members) && count == old(count)
      {
        circle := circle - {params.Point(elt, i)};
      }
      forall p ensures p in circle <==> p in old(circle) && !IsPoint(elt, p)
      {
        params.RemovedIff(old(circle), elt, p);
      }
      members := members - {elt};
      params.RemovedOwned(old(circle), old(members).Keys, elt);
      assert members.Keys == old(members).Keys - {elt};
      UpdateSortedHashes();
      count := count - 1;
    }

    ghost predicate Clean(elts: seq<string>)
      reads this
    {
      CleanFor(params, circle, members.Keys, elts)
    }

    /** Makes exactly `elts` the members. */
    method Set(elts: seq<string>)
      requires Valid()
      modifies this
      ensures Valid()
      ensures members.Keys == Names(elts)
      ensures count - |members| == old(count - |members|)
      ensures old(Clean(elts)) ==> params.Exact(circle, members.Keys)
      ensures old(members.Keys) == Names(elts) ==> circle == old(circle) && count == old(count)
    {
      DropAbsent(elts);
      AddMissing(elts);
    }

    /** First loop of `Set`: removes the members not in `elts`, in any order. */
    method DropAbsent(elts: seq<string>)
      requires Valid()
      modifies this
      ensures Valid()
      ensures members.Keys == old(members.Keys) * Names(elts)
      ensures count - |members| == old(count - |members|)
      ensures old(Clean(elts)) ==> Clean(elts)
      ensures old(members.Keys) <= Names(elts) ==> circle == old(circle)
    {
      var pending := members.Keys;
      while pending != {}
        invariant Valid()
        invariant pending <= members.Keys <= old(members.Keys)
        invariant members.Keys - pending <= Names(elts)
        invariant old(members.Keys) * Names(elts) <= members.Keys
        invariant count - |members| == old(count - |members|)
        invariant old(Clean(elts)) ==> Clean(elts)
        invariant old(members.Keys) <= Names(elts) ==> circle == old(circle)
        decreases pending
      {
        var k :| k in pending;
        pending := pending - {k};
        var found := Occurs(elts, k);
        if !found {
          RemovalKeepsClean(elts, k);
          Remove(k);
        }
      }
    }

    /** Second loop of `Set`: adds the elements that are not members yet. */
    method AddMissing(elts: seq<string>)
      requires Valid() && members.Keys <= Names(elts)
      modifies this
      ensures Valid()
      ensures members.Keys == Names(elts)
      ensures count - |members| == old(count - |members|)
      ensures old(Clean(elts)) ==> Clean(elts)
      ensures old(members.Keys) == Names(elts) ==> circle == old(circle)
    {
      hide Valid, CleanFor, Names, Clean;
      for j := 0 to |elts|
        invariant Valid()
        invariant members.Keys <= Names(elts)
        invariant forall i :: 0 <= i < j ==> elts[i] in members
        invariant count - |members| == old(count - |members|)
        invariant old(Clean(elts)) ==> Clean(elts)
        invariant old(members.Keys) <= members.Keys
        invariant old(members.Keys) == Names(elts) ==> circle == old(circle)
      {
        NameIn(elts, j);
        AddIfMissing(elts, elts[j]);
      }
      AllNames(elts, members.Keys);
    }

    /** Body of that loop: an element that exists already is left alone. */
    method AddIfMissing(ghost elts: seq<string>, v: string)
      requires Valid() && v in elts && members.Keys <= Names(elts)
      modifies this
      ensures Valid()
      ensures members.Keys == old(members.Keys) + {v}
      ensures count - |members| == old(count - |members|)
      ensures old(Clean(elts)) ==> Clean(elts)
      ensures v in old(members) ==> circle == old(circle)
    {
      hide Valid, CleanFor;
      if v !in members {
        AdditionKeepsClean(elts, v);
        Add(v);
      }
    }

    lemma RemovalKeepsClean(elts: seq<string>, k: string)
      requires k in members
      ensures |members - {k}| == |members| - 1 && (members - {k}).Keys == members.Keys - {k}
      ensures Clean(elts) ==> CleanFor(params, params.Removed(circle, k), members.Keys - {k}, elts)
    {
      assert (members - {k}).Keys == members.Keys - {k};
      assert |members.Keys| == |members| && |(members - {k}).Keys| == |members - {k}|;
      assert members.Keys + {k} == members.Keys;
      if Clean(elts) {
        params.RemovedExact(circle, members.Keys, k);
      }
    }

    lemma AdditionKeepsClean(elts: seq<string>, v: string)
      requires v in elts && v !in members && members.Keys <= Names(elts)
      ensures |members[v := true]| == |members| + 1 && members[v := true].Keys == members.Keys + {v}
      ensures Clean(elts) ==> CleanFor(params, params.Added(circle, v), members.Keys + {v}, elts)
    {
      if Clean(elts) {
        params.AddedExact(circle, members.Keys, v);
      }
    }

    /** Re-reads the circle's points in any order and sorts them. */
    method UpdateSortedHashes()
      requires params.replicas >= 1
      modifies this`sortedHashes
      ensures Lists(sortedHashes, circle.Keys)
    {
      var hashes: seq<Hash> := [];
      var pending := circle.Keys;
      while pending != {}
        invariant pending <= circle.Keys
        invariant forall h :: h in hashes <==> h in circle.Keys && h !in pending
        invariant NoRepeats(hashes)
        decreases pending
      {
        var k :| k in pending;
        pending := pending - {k};
        hashes := hashes + [k];
      }
      assert PointSet(hashes) == circle.Keys;
      sortedHashes := Sort(hashes);
    }

    // ---- Lookups ----

    /** The index of the first point strictly above `key`, wrapping to 0. */
    method Search(key: Hash) returns (i: nat)
      requires Valid() && sortedHashes != []
      ensures i == StartOf(sortedHashes, key) < |sortedHashes|
      ensures Walk(sortedHashes, key) == sortedHashes[i..] + sortedHashes[..i]
    {
      var lo, hi := 0, |sortedHashes|;
      while lo < hi
        invariant 0 <= lo <= hi <= |sortedHashes|
        invariant forall j :: 0 <= j < lo ==> sortedHashes[j] <= key
        invariant forall j :: hi <= j < |sortedHashes| ==> sortedHashes[j] > key
      {
        var mid := (lo + hi) / 2;
        if sortedHashes[mid] > key {
          hi := mid;
        } else {
          lo := mid + 1;
        }
      }
      WalkIsRotation(sortedHashes, key, lo);
      i := lo;
      if i >= |sortedHashes| {
        i := 0;
        assert sortedHashes[lo..] + sortedHashes[..lo] == sortedHashes[0..] + sortedHashes[..0];
      }
    }

    /** The owners by point index. */
    ghost function PointOwners(): seq<string>
      requires Valid()
      reads this
    {
      Owners(circle, sortedHashes)
    }

    lemma OwnersByIndex()
      requires Valid()
      ensures |PointOwners()| == |sortedHashes|
      ensures forall i :: 0 <= i < |sortedHashes|
                ==> sortedHashes[i] in circle && circle[sortedHashes[i]] == PointOwners()[i]
    {
    }

    /** The owners met walking clockwise from a name. */
    ghost function WalkFrom(name: string): seq<string>
      requires Valid()
      reads this
    {
      WalkOwners(circle, sortedHashes, params.hash(name))
    }

    /** Where lookups of a name start. */
    ghost function Start(name: string): nat
      reads this
    {
      StartOf(sortedHashes, params.hash(name))
    }

    /** The owner of the least point strictly above the name's hash, wrapping to the least point of all. */
    method Get(name: string) returns (r: Lookup)
      requires Valid()
      ensures r == if circle == map[] then EmptyCircle else Found(Nearest(WalkFrom(name), 1))
      ensures r.Found? ==> |r.names| == 1 && r.names[0] in members && Owner(circle, params.hash(name), r.names[0])
    {
      hide Walk, StartOf, IsSuccessor, Distinct, Rotated;
      if |circle| == 0 {
        return EmptyCircle;
      }
      var key := params.hash(name);
      NonemptyPoints();
      var i := Search(key);
      OwnerIsMember(params, circle, members.Keys, sortedHashes, key);
      WalkByIndex(name);
      ScanBegins(PointOwners(), i, 1);
      r := Found([circle[sortedHashes[i]]]);
    }

    lemma NonemptyPoints()
      requires Valid()
      ensures sortedHashes == [] <==> circle == map[]
      ensures |circle| == 0 <==> circle == map[]
    {
      ListsEmpty(sortedHashes, circle.Keys);
    }

    /** The walk of a name, read off the owners by point index. */
    lemma WalkByIndex(name: string)
      requires Valid() && circle != map[]
      ensures sortedHashes != [] && Start(name) < |sortedHashes| && |Distinct(PointOwners())| >= 1
      ensures WalkFrom(name) == Rotated(PointOwners(), Start(name))
    {
      NonemptyPoints();
      SomeDistinct(PointOwners());
      WalkOwnersRotate(circle, sortedHashes, params.hash(name));
    }

    /** No two members collide on the circle and each was added once. */
    ghost predicate Proper()
      reads this
    {
      params.Exact(circle, members.Keys) && count == |members|
    }

    /** The first `k` distinct owners clockwise from the name, all of them members. */
    ghost predicate Answers(names: seq<string>, name: string, k: int)
      requires Valid()
      reads this
    {
      && 0 <= k <= |Distinct(WalkFrom(name))| && names == Distinct(WalkFrom(name))[..k]
      && NoRepeats(names) && |names| == k && forall x :: x in names ==> x in members
    }

    /** On a proper ring the loops end, and the lookups answer in full. */
    lemma FullAnswer(name: string, n: int)
      requires Valid() && Proper() && circle != map[] && n >= 1
      ensures 1 <= Clamped(n) <= |Distinct(PointOwners())|
      ensures Clamped(n) == if n <= |members| then n else |members|
      ensures Answers(Nearest(WalkFrom(name), Clamped(n)), name, Clamped(n))
    {
      WalkByIndex(name);
      OwnerIsMember(params, circle, members.Keys, sortedHashes, params.hash(name));
      assert |members.Keys| == |members| >= 1;
      var k := Clamped(n);
      EveryMemberIsMet(params, circle, members.Keys, sortedHashes, Start(name), k);
      OwnersAreMembers(params, circle, members.Keys, sortedHashes);
      FirstDistinct(PointOwners(), Start(name), k);
    }

    /** On a proper ring with two members or more `GetTwo` answers what `GetN` answers for two. */
    lemma TwoAreFound(name: string)
      requires Valid() && Proper() && circle != map[] && count >= 2
      ensures |Distinct(PointOwners())| >= 2
      ensures NearestTwo(WalkFrom(name)) == Nearest(WalkFrom(name), Clamped(2))
      ensures Answers(NearestTwo(WalkFrom(name)), name, 2)
    {
      FullAnswer(name, 2);
    }

    /** On a proper ring the answer for fewer owners is a prefix of the answer for more. */
    lemma AnswersNest(name: string, m: int, n: int)
      requires Valid() && Proper() && circle != map[] && 1 <= m <= n
      ensures Nearest(WalkFrom(name), Clamped(m)) <= Nearest(WalkFrom(name), Clamped(n))
    {
      FullAnswer(name, m);
      FullAnswer(name, n);
    }

    /** The two nearest distinct owners. The loop needs a second owner unless it starts past point 0. */
    method GetTwo(name: string) returns (r: Lookup)
      requires Valid()
      requires circle != map[] && count != 1 ==> Start(name) != 0 || |Distinct(PointOwners())| >= 2
      ensures circle == map[] <==> r == EmptyCircle
      ensures circle != map[] && count == 1 ==> r == Found(Nearest(WalkFrom(name), 1) + [""])
      ensures circle != map[] && count != 1 ==> r == Found(NearestTwo(WalkFrom(name)))
      ensures circle != map[] ==> r.Found? && |r.names| == 2 && r.names[..1] == Nearest(WalkFrom(name), 1)
      ensures circle != map[] && Proper() && count >= 2 ==> r.Found? && Answers(r.names, name, 2)
    {
      hide Answers, Proper, Clamped;
      hide Scanning, StartOf, Walk, Distinct, Rotated, Nearest, NearestTwo, Valid, PointOwners, WalkFrom;
      OwnersByIndex();
      if |circle| == 0 {
        return EmptyCircle;
      }
      var key := params.hash(name);
      NonemptyPoints();
      var i: nat := Search(key);
      var a := circle[sortedHashes[i]];
      ghost var owners := PointOwners();
      WalkByIndex(name);
      ScanBegins(owners, i, if count == 1 then 1 else 2);
      if count == 1 {
        return Found([a, ""]);
      }
      var start := i;
      var b := "";
      i := start + 1;
      ghost var v := 1;
      while i != start
        invariant 1 <= v <= |owners| && (b == a || (v == 1 && i == start + 1))
        invariant Scanning(owners, start, 2, v, i, [a])
        decreases |owners| - v
      {
        if v == |owners| {
          ScanTurned(owners, start, 2, i, [a]);
        }
        ScanPass(owners, start, 2, v, i, [a]);
        if i >= |sortedHashes| {
          i := 0;
        }
        b := circle[sortedHashes[i]];
        if b != a {
          break;
        }
        v := v + 1;
        i := i + 1;
      }
      if b == a {
        if v != |owners| {
          ScanPass(owners, start, 2, v, i, [a]);
        }
        ScanTurned(owners, start, 2, i, [a]);
      }
      TwoOnWalk(Rotated(owners, start), a, b);
      r := Found([a, b]);
      if Proper() && count >= 2 {
        TwoAreFound(name);
      }
    }

    /** The `n` nearest distinct owners, all of them when there are fewer. */
    method GetN(name: string, n: int) returns (r: Lookup)
      requires Valid()
      requires circle != map[] && Clamped(n) >= 0
               ==> Start(name) != 0 || 1 <= Clamped(n) <= |Distinct(PointOwners())|
      ensures circle == map[] <==> r == EmptyCircle
      ensures circle != map[] && Clamped(n) < 0 <==> r == CapOutOfRange
      ensures circle != map[] && Clamped(n) >= 0
              ==> r == Found(Nearest(WalkFrom(name), Clamped(n)))
      ensures circle != map[] && Proper() && n >= 1 ==> r.Found? && Answers(r.names, name, Clamped(n))
    {
      hide Answers, Proper;
      hide Scanning, StartOf, Walk, Distinct, Rotated, Nearest, Valid, PointOwners, WalkFrom;
      OwnersByIndex();
      if |circle| == 0 {
        return EmptyCircle;
      }
      var m := n;
      if count < m {
        m := count;
      }
      var key := params.hash(name);
      NonemptyPoints();
      if Proper() && n >= 1 {
        FullAnswer(name, n);
      }
      var i: nat := Search(key);
      var start := i;
      if m < 0 {
        return CapOutOfRange;
      }
      ghost var owners := PointOwners();
      WalkByIndex(name);
      ScanBegins(owners, start, m);
      var res := [circle[sortedHashes[i]]];
      if |res| == m {
        return Found(res);
      }
      i := start + 1;
      ghost var v := 1;
      while i != start
        invariant 1 <= v <= |owners|
        invariant Scanning(owners, start, m, v, i, res)
        decreases |owners| - v
      {
        if v == |owners| {
          ScanTurned(owners, start, m, i, res);
        }
        ScanPass(owners, start, m, v, i, res);
        if i >= |sortedHashes| {
          i := 0;
        }
        var elem := circle[sortedHashes[i]];
        var contains := Occurs(res, elem);
        if !contains {
          res := res + [elem];
        }
        if |res| == m {
          return Found(res);
        }
        v := v + 1;
        i := i + 1;
      }
      if v != |owners| {
        ScanPass(owners, start, m, v, i, res);
      }
      ScanTurned(owners, start, m, i, res);
      r := Found(res);
    }

    /** The requested length, cut down to the member count. */
    ghost function Clamped(n: int): (m: int)
      reads this
      ensures m <= n && m <= count && (m == n || m == count)
    {
      if count < n then count else n
    }
  }

  lemma FirstDistinct(owners: seq<string>, start: nat, k: int)
    requires start < |owners| && 1 <= k <= |Distinct(owners)|
    ensures var walk := Rotated(owners, start);
            && k <= |Distinct(walk)| && Nearest(walk, k) == Distinct(walk)[..k]
            && NoRepeats(Distinct(walk)[..k]) && forall x :: x in Distinct(walk)[..k] ==> x in owners
  {
    var walk := Rotated(owners, start);
    RotationKeepsDistinctCount(owners, start);
    DistinctMembers(walk);
    forall x | x in Distinct(walk)[..k]
      ensures x in owners
    {
      assert x in Distinct(walk);
    }
  }

  /** A ring on which lookups do not return: one replica, and one element added twice. The count is two, there is
      one point, and every lookup starts at it; neither loop ever ends. */
  method TwiceAdded(hash: string -> Hash, elt: string) returns (ring: Consistent)
    ensures fresh(ring) && ring.Valid() && ring.params == Params(hash, 1)
    ensures ring.count == 2 && ring.members.Keys == {elt} && ring.PointOwners() == [elt]
    ensures forall name :: ring.Start(name) == 0
    ensures !TwoHalts(ring.PointOwners(), 0)
    ensures forall n :: n != 1 && n >= 0 ==> ring.Clamped(n) != 1 && !ScanHalts(ring.PointOwners(), 0, ring.Clamped(n))
  {
    ring := new Consistent.New(Params(hash, 1));
    ring.Add(elt);
    ring.Add(elt);
    OnePoint(ring.params, elt, ring.circle, ring.sortedHashes);
    var owners := [elt];
    assert owners == [] + [elt];
    DistinctSnoc([], elt);
    TwoHaltsIff(owners, 0);
    forall n | n != 1
      ensures !ScanHalts(owners, 0, n)
    {
      ScanHaltsIff(owners, 0, n);
    }
  }

  lemma OnePoint(params: Params, elt: string, circle: Circle, hs: seq<Hash>)
    requires params.replicas == 1 && circle == params.Added(params.Added(map[], elt), elt) && Lists(hs, circle.Keys)
    ensures circle == map[params.Point(elt, 0) := elt] && hs == [params.Point(elt, 0)]
    ensures Owners(circle, hs) == [elt] && forall key :: StartOf(hs, key) == 0
  {
    var p := params.Point(elt, 0);
    assert params.PointsBelow(elt, 0) == {} && params.Points(elt) == {p};
    params.AddedLookup(map[], elt, 1);
    params.AddedLookup(params.Added(map[], elt), elt, 1);
    assert circle.Keys == {p};
    ListsUnique(hs, [p], circle.Keys);
    forall key ensures StartOf(hs, key) == 0 {
      WalkFromStart(hs, key);
    }
  }

  /** The circle is exact, and no two members collide, before or after the members become `elts`. */
  ghost predicate CleanFor(params: Params, circle: Circle, members: set<string>, elts: seq<string>) {
    && params.Exact(circle, members)
    && params.CollisionFree(members)
    && params.CollisionFree(Names(elts))
  }

  lemma NameIn(elts: seq<string>, j: nat)
    requires j < |elts|
    ensures elts[j] in Names(elts)
  {
  }

  lemma AllNames(elts: seq<string>, names: set<string>)
    requires names <= Names(elts) && forall i :: 0 <= i < |elts| ==> elts[i] in names
    ensures names == Names(elts)
  {
  }

  ghost function Names(elts: seq<string>): set<string> {
    set e | e in elts
  }

  /** Linear membership test. */
  method Occurs(names: seq<string>, name: string) returns (found: bool)
    ensures found <==> name in names
  {
    for j := 0 to |names|
      invariant name !in names[..j]
    {
      if names[j] == name {
        return true;
      }
    }
    assert names[..|names|] == names;
    found := false;
  }

  ghost function PointSet(points: seq<Hash>): set<Hash> {
    set h | h in points
  }

  /** The stand-in for the library sort: insertion into an increasing prefix. */
  method Sort(points: seq<Hash>) returns (r: seq<Hash>)
    requires NoRepeats(points)
    ensures Lists(r, PointSet(points))
  {
    r := [];
    for k := 0 to |points|
      invariant Lists(r, PointSet(points[..k]))
    {
      var x := points[k];
      var at := |r|;
      while at > 0 && r[at - 1] > x
        invariant 0 <= at <= |r|
        invariant forall j :: at <= j < |r| ==> r[j] > x
      {
        at := at - 1;
      }
      assert x !in points[..k];
      InsertPoint(r, PointSet(points[..k]), at, x);
      r := r[..at] + [x] + r[at..];
      assert points[..k + 1] == points[..k] + [x];
      assert PointSet(points[..k + 1]) == PointSet(points[..k]) + {x};
    }
    assert points[..|points|] == points;
  }

  lemma InsertPoint(r: seq<Hash>, keys: set<Hash>, at: nat, x: Hash)
    requires Lists(r, keys) && x !in keys && at <= |r|
    requires at > 0 ==> r[at - 1] <= x
    requires forall j :: at <= j < |r| ==> r[j] > x
    ensures Lists(r[..at] + [x] + r[at..], keys + {x})
  {
    var s := r[..at] + [x] + r[at..];
    forall h
      ensures h in s <==> h in keys + {x}
    {
      assert r == r[..at] + r[at..];
      assert h in s <==> h in r[..at] || h == x || h in r[at..];
      assert h in r <==> h in r[..at] || h in r[at..];
    }
    assert at > 0 ==> r[at - 1] in keys;
    InsertSorted(r, at, x);
  }

  lemma InsertSorted(r: seq<Hash>, at: nat, x: Hash)
    requires StrictlySorted(r) && at <= |r|
    requires at > 0 ==> r[at - 1] < x
    requires forall j :: at <= j < |r| ==> r[j] > x
    ensures StrictlySorted(r[..at] + [x] + r[at..])
  {
    var s := r[..at] + [x] + r[at..];
    forall i, j | 0 <= i < j < |s|
      ensures s[i] < s[j]
    {
      assert s[i] == if i < at then r[i] else if i == at then x else r[i - 1];
      assert s[j] == if j < at then r[j] else if j == at then x else r[j - 1];
    }
  }
}
