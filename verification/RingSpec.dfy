/** The value-level view of the consistent-hash ring: points, clockwise walks and
    preference lists, and how they react when a member joins or leaves. */
module RingSpec {
  import opened Types

  type Hash = h: int | 0 <= h < 0x1_0000_0000

  type Circle = map<Hash, string>

  // ---- Replica keys and ring points ----

  function Digit(d: nat): char
    requires d < 10
  {
    "0123456789"[d]
  }

  /** Decimal rendering of a replica index. */
  function Itoa(n: nat): string {
    if n < 10 then [Digit(n)] else Itoa(n / 10) + [Digit(n % 10)]
  }

  function EltKey(elt: string, idx: nat): string {
    Itoa(idx) + elt
  }

  /** What a string of digits means in base ten, by character code. */
  function ReadBack(s: string): int {
    if s == "" then 0 else 10 * ReadBack(s[..|s| - 1]) + (s[|s| - 1] as int - 48)
  }

  /** The rendering is decimal: digits only, no leading zero, and it reads back. */
  lemma {:induction false} ItoaIsDecimal(n: nat)
    ensures Itoa(n) != "" && ReadBack(Itoa(n)) == n
    ensures forall i :: 0 <= i < |Itoa(n)| ==> 48 <= Itoa(n)[i] as int <= 57
    ensures Itoa(n)[0] as int == 48 <==> n == 0
  {
    DigitCode(n % 10);
    if n < 10 {
      assert Itoa(n)[..0] == "" && ReadBack("") == 0;
    } else {
      ItoaIsDecimal(n / 10);
      assert Itoa(n)[..|Itoa(n)| - 1] == Itoa(n / 10);
    }
  }

  lemma DigitCode(d: nat)
    requires d < 10
    ensures Digit(d) as int == 48 + d
  {
  }

  /** A replica key is the index in decimal followed by the name. */
  lemma KeyIs(elt: string, idx: nat)
    ensures var digits := Itoa(idx);
            && EltKey(elt, idx)[..|digits|] == digits && EltKey(elt, idx)[|digits|..] == elt
            && ReadBack(digits) == idx && |digits| >= 1
  {
    ItoaIsDecimal(idx);
  }

  /** The hash is arbitrary; the replica count is fixed for the life of a ring. */
  datatype Params = Params(hash: string -> Hash, replicas: nat) {

    function Point(elt: string, idx: nat): Hash {
      hash(EltKey(elt, idx))
    }

    function PointsBelow(elt: string, n: nat): set<Hash> {
      if n == 0 then {} else PointsBelow(elt, n - 1) + {Point(elt, n - 1)}
    }

    lemma {:induction false} PointIsBelow(elt: string, i: nat, n: nat)
      requires i < n
      ensures Point(elt, i) in PointsBelow(elt, n)
    {
      if i < n - 1 {
        PointIsBelow(elt, i, n - 1);
      }
    }

    function Points(elt: string): set<Hash> {
      PointsBelow(elt, replicas)
    }

    /** Distinct members never share a ring point. */
    ghost predicate CollisionFree(members: set<string>) {
      forall a, b :: a in members && b in members && a != b ==> Points(a) !! Points(b)
    }

    /** What every ring keeps, whatever the hash: an occupied point belongs to a member that hashes to it. */
    ghost predicate Owned(circle: Circle, members: set<string>) {
      forall p :: p in circle ==> circle[p] in members && p in Points(circle[p])
    }

    /** Every point of every member is on the circle and belongs to that member. */
    ghost predicate Exact(circle: Circle, members: set<string>) {
      && Owned(circle, members)
      && forall m, p :: m in members && p in Points(m) ==> p in circle && circle[p] == m
    }

    /** The circle after the first `n` points of `elt` were written. */
    function AddedBelow(circle: Circle, elt: string, n: nat): Circle {
      if n == 0 then circle else AddedBelow(circle, elt, n - 1)[Point(elt, n - 1) := elt]
    }

    function Added(circle: Circle, elt: string): Circle {
      AddedBelow(circle, elt, replicas)
    }

    lemma {:induction false} AddedLookup(circle: Circle, elt: string, n: nat)
      ensures AddedBelow(circle, elt, n).Keys == circle.Keys + PointsBelow(elt, n)
      ensures forall p :: p in AddedBelow(circle, elt, n)
                ==> AddedBelow(circle, elt, n)[p] == if p in PointsBelow(elt, n) then elt else circle[p]
    {
      if n > 0 {
        AddedLookup(circle, elt, n - 1);
      }
    }

    function Removed(circle: Circle, elt: string): Circle {
      circle - Points(elt)
    }

    /** The points of an element are the hashes of its replica keys. */
    lemma {:induction false} PointsBelowIff(elt: string, n: nat, p: Hash)
      ensures p in PointsBelow(elt, n) <==> exists i: nat :: i < n && p == hash(EltKey(elt, i))
    {
      if n > 0 {
        PointsBelowIff(elt, n - 1, p);
        if p == Point(elt, n - 1) {
          var last: nat := n - 1;
          assert last < n && p == hash(EltKey(elt, last));
        }
      }
    }

    /** Adding writes the element at each of its points, over whoever had it, and leaves every other point. */
    lemma AddedIff(circle: Circle, elt: string, p: Hash)
      ensures p in Added(circle, elt) <==> p in circle || exists i: nat :: i < replicas && p == hash(EltKey(elt, i))
      ensures p in Added(circle, elt)
              ==> Added(circle, elt)[p] == if exists i: nat :: i < replicas && p == hash(EltKey(elt, i)) then elt else circle[p]
    {
      AddedLookup(circle, elt, replicas);
      PointsBelowIff(elt, replicas, p);
    }

    /** Removing frees each of the element's points, even one that another member shares or owns, and leaves every
        other point. */
    lemma RemovedIff(circle: Circle, elt: string, p: Hash)
      ensures p in Removed(circle, elt) <==> p in circle && !exists i: nat :: i < replicas && p == hash(EltKey(elt, i))
      ensures p in Removed(circle, elt) ==> Removed(circle, elt)[p] == circle[p]
    {
      PointsBelowIff(elt, replicas, p);
    }

    lemma AddedOwned(circle: Circle, members: set<string>, elt: string)
      requires Owned(circle, members)
      ensures Owned(Added(circle, elt), members + {elt})
    {
      AddedLookup(circle, elt, replicas);
    }

    lemma RemovedOwned(circle: Circle, members: set<string>, elt: string)
      requires Owned(circle, members)
      ensures Owned(Removed(circle, elt), members - {elt})
    {
    }

    lemma AddedExact(circle: Circle, members: set<string>, elt: string)
      requires Exact(circle, members) && CollisionFree(members + {elt})
      ensures Exact(Added(circle, elt), members + {elt})
    {
      var after := Added(circle, elt);
      AddedLookup(circle, elt, replicas);
      AddedOwned(circle, members, elt);
      forall m, p | m in members + {elt} && p in Points(m)
        ensures p in after && after[p] == m
      {
        if m != elt {
          assert Points(m) !! Points(elt);
        }
      }
    }

    lemma RemovedExact(circle: Circle, members: set<string>, elt: string)
      requires Exact(circle, members) && CollisionFree(members + {elt})
      ensures Exact(Removed(circle, elt), members - {elt})
    {
      var after := Removed(circle, elt);
      RemovedOwned(circle, members, elt);
      forall m, p | m in members - {elt} && p in Points(m)
        ensures p in after && after[p] == m
      {
        assert Points(m) !! Points(elt);
      }
    }

    /** An exact circle is determined by its members alone. */
    lemma ExactUnique(c1: Circle, c2: Circle, members: set<string>)
      requires Exact(c1, members) && Exact(c2, members)
      ensures c1 == c2
    {
      assert forall p :: p in c1 ==> p in c2 && c2[p] == c1[p];
      assert forall p :: p in c2 ==> p in c1;
    }

    /** The circle a fresh ring ends with when elements are added one by one. */
    function Built(elts: seq<string>): Circle {
      if elts == [] then map[] else Added(Built(elts[..|elts| - 1]), elts[|elts| - 1])
    }

    lemma {:induction false} BuiltExact(elts: seq<string>)
      requires CollisionFree(set e | e in elts)
      ensures Exact(Built(elts), set e | e in elts)
    {
      if elts != [] {
        var init, last := elts[..|elts| - 1], elts[|elts| - 1];
        assert elts == init + [last];
        assert (set e | e in elts) == (set e | e in init) + {last};
        BuiltExact(init);
        AddedExact(Built(init), (set e | e in init), last);
      }
    }
  }

  // ---- Which collisions no hash can avoid ----

  /** Two names have a replica key in common. */
  ghost predicate Clash(a: string, b: string, replicas: nat) {
    exists i: nat, j: nat :: i < replicas && j < replicas && EltKey(a, i) == EltKey(b, j)
  }

  lemma ClashAt(a: string, b: string, replicas: nat, i: nat, j: nat)
    requires i < replicas && j < replicas && EltKey(a, i) == EltKey(b, j)
    ensures Clash(a, b, replicas)
  {
  }

  /** Replica keys are not separated from the replica index: "10" + x is also "1" + "0x". */
  lemma LeadingZeroClashes(elt: string)
    ensures EltKey(elt, 10) == EltKey("0" + elt, 1)
  {
    assert Itoa(10) == Itoa(1) + [Digit(0)];
    assert ("1" + "0") + elt == "1" + ("0" + elt);
  }

  /** With one-digit indices a replica key determines its name. */
  lemma OneDigitKeysDiffer(a: string, b: string, i: nat, j: nat)
    requires i < 10 && j < 10 && EltKey(a, i) == EltKey(b, j)
    ensures a == b
  {
    assert EltKey(a, i)[1..] == a && EltKey(b, j)[1..] == b;
  }

  /** Names that no hash can keep apart exist exactly from eleven replicas on. */
  lemma ClashesExistIff(replicas: nat)
    ensures (exists a, b :: a != b && Clash(a, b, replicas)) <==> replicas >= 11
  {
    if replicas >= 11 {
      LeadingZeroClashes("");
      ClashAt("", "0" + "", replicas, 10, 1);
      assert "" != "0" + "";
    } else {
      forall a, b | Clash(a, b, replicas)
        ensures a == b
      {
        var i: nat, j: nat :| i < replicas && j < replicas && EltKey(a, i) == EltKey(b, j);
        OneDigitKeysDiffer(a, b, i, j);
      }
    }
  }

  ghost predicate IsKeyOf(key: string, name: string, replicas: nat) {
    exists i: nat :: i < replicas && EltKey(name, i) == key
  }

  /** The position of a name that the key belongs to. */
  ghost function Slot(names: seq<string>, replicas: nat, key: string): (r: nat)
    ensures r < |names| || r == 0
  {
    if names == [] then 0
    else if IsKeyOf(key, names[|names| - 1], replicas) then |names| - 1
    else Slot(names[..|names| - 1], replicas, key)
  }

  lemma {:induction false} SlotIs(names: seq<string>, replicas: nat, i: nat, j: nat)
    requires i < |names| && j < replicas
    requires forall k :: 0 <= k < |names| && k != i ==> !Clash(names[i], names[k], replicas)
    ensures Slot(names, replicas, EltKey(names[i], j)) == i
  {
    var key, last := EltKey(names[i], j), names[|names| - 1];
    if i == |names| - 1 {
      assert IsKeyOf(key, last, replicas);
    } else {
      assert !Clash(names[i], last, replicas);
      assert !IsKeyOf(key, last, replicas);
      SlotIs(names[..|names| - 1], replicas, i, j);
    }
  }

  lemma {:induction false} PointSource(params: Params, elt: string, p: Hash, n: nat) returns (i: nat)
    requires p in params.PointsBelow(elt, n)
    ensures i < n && params.Point(elt, i) == p
  {
    if p == params.Point(elt, n - 1) {
      i := n - 1;
    } else {
      i := PointSource(params, elt, p, n - 1);
    }
  }

  ghost predicate CanSeparate(names: set<string>, replicas: nat) {
    exists hash: string -> Hash :: Params(hash, replicas).CollisionFree(names)
  }

  /** Some hash keeps the members apart if and only if no two of them have a replica key in common and there are
      points for all of them. */
  lemma CanSeparateIff(names: seq<string>, replicas: nat)
    requires NoRepeats(names)
    ensures CanSeparate((set x | x in names), replicas)
       <==> && (forall a, b :: a in names && b in names && a != b ==> !Clash(a, b, replicas))
            && (replicas == 0 || |names| <= 0x1_0000_0000)
  {
    var all := set x | x in names;
    if CanSeparate(all, replicas) {
      var hash: string -> Hash :| Params(hash, replicas).CollisionFree(all);
      forall a, b | a in names && b in names && Clash(a, b, replicas)
        ensures a == b
      {
        SeparateNamesDoNotClash(Params(hash, replicas), all, a, b);
      }
      if replicas > 0 {
        EachTakesAPoint(Params(hash, replicas), names);
      }
    }
    if forall a, b :: a in names && b in names && a != b ==> !Clash(a, b, replicas) {
      if replicas == 0 {
        assert Params(_ => 0, 0).CollisionFree(all);
      } else if |names| <= 0x1_0000_0000 {
        SlotsSeparate(names, replicas);
      }
    }
  }

  lemma SeparateNamesDoNotClash(params: Params, all: set<string>, a: string, b: string)
    requires params.CollisionFree(all) && a in all && b in all && Clash(a, b, params.replicas)
    ensures a == b
  {
    var i: nat, j: nat :| i < params.replicas && j < params.replicas && EltKey(a, i) == EltKey(b, j);
    params.PointIsBelow(a, i, params.replicas);
    params.PointIsBelow(b, j, params.replicas);
    assert params.Point(a, i) == params.Point(b, j);
    assert params.Point(a, i) in params.Points(a) && params.Point(a, i) in params.Points(b);
  }

  lemma EachTakesAPoint(params: Params, names: seq<string>)
    requires NoRepeats(names) && params.replicas > 0 && params.CollisionFree(set x | x in names)
    ensures |names| <= 0x1_0000_0000
  {
    var points: seq<Hash> := seq(|names|, i requires 0 <= i < |names| => params.Point(names[i], 0));
    forall i, j | 0 <= i < j < |points|
      ensures points[i] != points[j]
    {
      OwnFirstPoint(params, (set x | x in names), names[i], names[j]);
    }
    assert NoRepeats(points);
    SizeOfElements(points);
    BelowSize((set p | p in points), 0x1_0000_0000);
    assert |points| <= 0x1_0000_0000;
  }

  lemma OwnFirstPoint(params: Params, all: set<string>, a: string, b: string)
    requires params.replicas > 0 && params.CollisionFree(all) && a in all && b in all && a != b
    ensures params.Point(a, 0) != params.Point(b, 0)
  {
    params.PointIsBelow(a, 0, params.replicas);
    params.PointIsBelow(b, 0, params.replicas);
    assert params.Points(a) !! params.Points(b);
  }

  lemma {:induction false} BelowSize(s: set<Hash>, n: nat)
    requires forall h :: h in s ==> h < n
    ensures |s| <= n
    decreases n
  {
    if n == 0 {
      assert s == {};
    } else if h :| h in s && h == n - 1 {
      BelowSize(s - {h}, n - 1);
    } else {
      BelowSize(s, n - 1);
    }
  }

  /** Two names collide under every hash if and only if they have a replica key in common. */
  lemma AlwaysCollideIff(a: string, b: string, replicas: nat)
    requires a != b
    ensures (forall hash: string -> Hash :: !Params(hash, replicas).CollisionFree({a, b})) <==> Clash(a, b, replicas)
  {
    CanSeparateIff([a, b], replicas);
    assert (set x | x in [a, b]) == {a, b};
    ClashIsMutual(a, b, replicas);
  }

  lemma ClashIsMutual(a: string, b: string, replicas: nat)
    ensures Clash(a, b, replicas) <==> Clash(b, a, replicas)
  {
  }

  lemma SlotsSeparate(names: seq<string>, replicas: nat)
    requires NoRepeats(names) && |names| <= 0x1_0000_0000
    requires forall a, b :: a in names && b in names && a != b ==> !Clash(a, b, replicas)
    ensures CanSeparate((set x | x in names), replicas)
  {
    var hash: string -> Hash := key => Slot(names, replicas, key);
    var params := Params(hash, replicas);
    var all := set x | x in names;
    forall a, b, p | a in all && b in all && p in params.Points(a) && p in params.Points(b)
      ensures a == b
    {
      OwnSlot(names, params, a, p);
      OwnSlot(names, params, b, p);
    }
    assert params.CollisionFree(all);
  }

  lemma OwnSlot(names: seq<string>, params: Params, a: string, p: Hash)
    requires NoRepeats(names) && |names| <= 0x1_0000_0000 && a in names && p in params.Points(a)
    requires forall x, y :: x in names && y in names && x != y ==> !Clash(x, y, params.replicas)
    requires forall key :: params.hash(key) == Slot(names, params.replicas, key)
    ensures p < |names| && names[p] == a
  {
    var j := PointSource(params, a, p, params.replicas);
    var i :| 0 <= i < |names| && names[i] == a;
    SlotIs(names, params.replicas, i, j);
  }

  /** In particular a name and the same name with a leading zero share a point under every hash from eleven
      replicas on, and a leading one does the same from twelve on. */
  lemma PrefixedNameAlwaysCollides(params: Params, elt: string)
    requires params.replicas >= 11
    ensures !params.CollisionFree({elt, "0" + elt})
    ensures params.replicas >= 12 ==> !params.CollisionFree({elt, "1" + elt})
  {
    LeadingZeroClashes(elt);
    SharedPoint(params, elt, "0" + elt, 10, 1);
    assert Itoa(11) == Itoa(1) + [Digit(1)];
    assert ("1" + "1") + elt == "1" + ("1" + elt);
    if params.replicas >= 12 {
      SharedPoint(params, elt, "1" + elt, 11, 1);
    }
  }

  lemma SharedPoint(params: Params, a: string, b: string, i: nat, j: nat)
    requires i < params.replicas && j < params.replicas && EltKey(a, i) == EltKey(b, j) && |a| != |b|
    ensures !params.CollisionFree({a, b})
  {
    params.PointIsBelow(a, i, params.replicas);
    params.PointIsBelow(b, j, params.replicas);
    assert params.Point(a, i) == params.Point(b, j);
  }

  // ---- Sequences: selection and first occurrences ----

  /** The elements of `s` that are in `keep`, in order. */
  ghost function Only<T(!new)>(s: seq<T>, keep: iset<T>): seq<T> {
    if s == [] then []
    else Only(s[..|s| - 1], keep) + (if s[|s| - 1] in keep then [s[|s| - 1]] else [])
  }

  lemma OnlySnoc<T(!new)>(s: seq<T>, x: T, keep: iset<T>)
    ensures Only(s + [x], keep) == Only(s, keep) + (if x in keep then [x] else [])
  {
    assert (s + [x])[..|s + [x]| - 1] == s;
  }

  lemma {:induction false} OnlyMembers<T(!new)>(s: seq<T>, keep: iset<T>)
    ensures forall x :: x in Only(s, keep) <==> x in s && x in keep
  {
    if s != [] {
      OnlyMembers(s[..|s| - 1], keep);
      assert s == s[..|s| - 1] + [s[|s| - 1]];
    }
  }

  lemma {:induction false} OnlyOnly<T(!new)>(s: seq<T>, a: iset<T>, b: iset<T>)
    ensures Only(Only(s, a), b) == Only(s, a * b)
  {
    if s != [] {
      var init, last := s[..|s| - 1], s[|s| - 1];
      OnlyOnly(init, a, b);
      if last in a {
        OnlySnoc(Only(init, a), last, b);
      } else {
        assert Only(s, a) == Only(init, a);
      }
    }
  }

  lemma {:induction false} OnlyConcat<T(!new)>(s: seq<T>, t: seq<T>, keep: iset<T>)
    ensures Only(s + t, keep) == Only(s, keep) + Only(t, keep)
  {
    if t == [] {
      assert s + t == s;
    } else {
      var init, last := t[..|t| - 1], t[|t| - 1];
      assert s + t == (s + init) + [last];
      OnlySnoc(s + init, last, keep);
      OnlyConcat(s, init, keep);
    }
  }

  lemma {:induction false} OnlyAll<T(!new)>(s: seq<T>, keep: iset<T>)
    requires forall i :: 0 <= i < |s| ==> s[i] in keep
    ensures Only(s, keep) == s
  {
    if s != [] {
      assert s == s[..|s| - 1] + [s[|s| - 1]];
      OnlyAll(s[..|s| - 1], keep);
    }
  }

  lemma {:induction false} OnlyNone<T(!new)>(s: seq<T>, keep: iset<T>)
    requires forall i :: 0 <= i < |s| ==> s[i] !in keep
    ensures Only(s, keep) == []
  {
    if s != [] {
      OnlyNone(s[..|s| - 1], keep);
    }
  }

  predicate Differs(x: string, y: string) {
    x != y
  }

  /** Everything except `x`. */
  ghost function Others(x: string): iset<string> {
    iset y: string | Differs(x, y)
  }

  /** First occurrences, in order. */
  ghost function Distinct(s: seq<string>): seq<string> {
    if s == [] then []
    else if s[|s| - 1] in s[..|s| - 1] then Distinct(s[..|s| - 1])
    else Distinct(s[..|s| - 1]) + [s[|s| - 1]]
  }

  lemma DistinctSnoc(s: seq<string>, x: string)
    ensures Distinct(s + [x]) == if x in s then Distinct(s) else Distinct(s) + [x]
  {
    assert (s + [x])[..|s + [x]| - 1] == s;
  }

  lemma {:induction false} DistinctMembers(s: seq<string>)
    ensures forall x :: x in Distinct(s) <==> x in s
    ensures NoRepeats(Distinct(s))
  {
    if s != [] {
      DistinctMembers(s[..|s| - 1]);
      assert s == s[..|s| - 1] + [s[|s| - 1]];
    }
  }

  lemma SomeDistinct(s: seq<string>)
    requires s != []
    ensures |Distinct(s)| >= 1
  {
    DistinctMembers(s);
    assert s[0] in Distinct(s);
  }

  lemma {:induction false} DistinctOnly(s: seq<string>, keep: iset<string>)
    ensures Distinct(Only(s, keep)) == Only(Distinct(s), keep)
  {
    if s != [] {
      var init, last := s[..|s| - 1], s[|s| - 1];
      DistinctOnly(init, keep);
      if last !in keep {
        assert Only(s, keep) == Only(init, keep);
      } else {
        assert last in Only(init, keep) <==> last in init by { OnlyMembers(init, keep); }
        DistinctSnoc(Only(init, keep), last);
      }
      if last !in init {
        OnlySnoc(Distinct(init), last, keep);
      }
    }
  }

  lemma {:induction false} DistinctPrefix(s: seq<string>, k: nat)
    requires k <= |s|
    ensures Distinct(s[..k]) <= Distinct(s)
  {
    if k == |s| {
      assert s[..k] == s;
    } else {
      assert s[..|s| - 1][..k] == s[..k];
      DistinctPrefix(s[..|s| - 1], k);
    }
  }

  // ---- Sorted points and the clockwise walk ----

  ghost predicate StrictlySorted(hs: seq<Hash>) {
    forall i, j :: 0 <= i < j < |hs| ==> hs[i] < hs[j]
  }

  /** `hs` lists exactly `keys`, in increasing order. */
  ghost predicate Lists(hs: seq<Hash>, keys: set<Hash>) {
    StrictlySorted(hs) && forall h :: h in hs <==> h in keys
  }

  lemma ListsInit(hs: seq<Hash>, keys: set<Hash>)
    requires Lists(hs, keys) && hs != []
    ensures Lists(hs[..|hs| - 1], keys - {hs[|hs| - 1]})
    ensures hs[|hs| - 1] in keys && forall h :: h in keys ==> h <= hs[|hs| - 1]
  {
    var init, last := hs[..|hs| - 1], hs[|hs| - 1];
    assert hs == init + [last];
    assert last in hs;
  }

  lemma ListsEmpty(hs: seq<Hash>, keys: set<Hash>)
    requires Lists(hs, keys)
    ensures hs == [] <==> keys == {}
  {
    assert forall h :: h in keys ==> h in hs;
    if hs != [] {
      assert hs[0] in keys;
    }
  }

  lemma {:induction false} ListsUnique(a: seq<Hash>, b: seq<Hash>, keys: set<Hash>)
    requires Lists(a, keys) && Lists(b, keys)
    ensures a == b
  {
    ListsEmpty(a, keys);
    ListsEmpty(b, keys);
    if a != [] {
      ListsInit(a, keys);
      ListsInit(b, keys);
      ListsUnique(a[..|a| - 1], b[..|b| - 1], keys - {a[|a| - 1]});
      assert a == a[..|a| - 1] + [a[|a| - 1]] && b == b[..|b| - 1] + [b[|b| - 1]];
    }
  }

  lemma {:induction false} OnlySorted(hs: seq<Hash>, keep: iset<Hash>)
    requires StrictlySorted(hs)
    ensures StrictlySorted(Only(hs, keep))
  {
    if hs != [] {
      var init, last := hs[..|hs| - 1], hs[|hs| - 1];
      OnlySorted(init, keep);
      OnlyMembers(init, keep);
      forall i | 0 <= i < |Only(init, keep)|
        ensures Only(init, keep)[i] < last
      {
        assert Only(init, keep)[i] in init;
      }
    }
  }

  lemma OnlyLists(hs: seq<Hash>, keys: set<Hash>, keep: iset<Hash>)
    requires Lists(hs, keys)
    ensures Lists(Only(hs, keep), set h | h in keys && h in keep)
  {
    OnlySorted(hs, keep);
    OnlyMembers(hs, keep);
  }

  predicate Beyond(h: Hash, key: Hash) {
    h > key
  }

  ghost function Above(key: Hash): iset<Hash> {
    iset h: Hash | Beyond(h, key)
  }

  ghost function NotAbove(key: Hash): iset<Hash> {
    iset h: Hash | !Beyond(h, key)
  }

  /** All points clockwise from `key`: those strictly above it, then the rest. */
  ghost function Walk(hs: seq<Hash>, key: Hash): seq<Hash> {
    Only(hs, Above(key)) + Only(hs, NotAbove(key))
  }

  lemma WalkMembers(hs: seq<Hash>, key: Hash)
    ensures forall h :: h in Walk(hs, key) <==> h in hs
  {
    OnlyMembers(hs, Above(key));
    OnlyMembers(hs, NotAbove(key));
  }

  lemma WalkOnly(hs: seq<Hash>, key: Hash, keep: iset<Hash>)
    ensures Walk(Only(hs, keep), key) == Only(Walk(hs, key), keep)
  {
    var up, down := Above(key), NotAbove(key);
    OnlyConcat(Only(hs, up), Only(hs, down), keep);
    OnlyOnly(hs, up, keep);
    OnlyOnly(hs, down, keep);
    OnlyOnly(hs, keep, up);
    OnlyOnly(hs, keep, down);
    assert up * keep == keep * up && down * keep == keep * down;
  }

  /** The index a lookup starts at: the first point above the key, wrapping to 0. */
  ghost function StartOf(hs: seq<Hash>, key: Hash): nat {
    if |Only(hs, NotAbove(key))| >= |hs| then 0 else |Only(hs, NotAbove(key))|
  }

  /** On sorted points the walk is a rotation that starts at the first point above the key. */
  lemma WalkIsRotation(hs: seq<Hash>, key: Hash, i: nat)
    requires StrictlySorted(hs) && i <= |hs|
    requires forall j :: 0 <= j < i ==> hs[j] <= key
    requires forall j :: i <= j < |hs| ==> hs[j] > key
    ensures Walk(hs, key) == hs[i..] + hs[..i]
    ensures StartOf(hs, key) == if i == |hs| then 0 else i
  {
    hide Only;
    SplitAt(hs, key, i);
  }

  lemma SplitAt(hs: seq<Hash>, key: Hash, i: nat)
    requires i <= |hs|
    requires forall j :: 0 <= j < i ==> hs[j] <= key
    requires forall j :: i <= j < |hs| ==> hs[j] > key
    ensures Only(hs, Above(key)) == hs[i..] && Only(hs, NotAbove(key)) == hs[..i]
  {
    hide Only;
    var low, high := hs[..i], hs[i..];
    assert hs == low + high;
    OnlyConcat(low, high, Above(key));
    OnlyNone(low, Above(key));
    OnlyAll(high, Above(key));
    OnlyConcat(low, high, NotAbove(key));
    OnlyAll(low, NotAbove(key));
    OnlyNone(high, NotAbove(key));
  }

  /** The least point strictly above `key`, or the least point of all when there is none. */
  ghost predicate IsSuccessor(p: Hash, keys: set<Hash>, key: Hash) {
    && p in keys
    && if exists q :: q in keys && q > key
       then p > key && forall q :: q in keys && q > key ==> p <= q
       else forall q :: q in keys ==> p <= q
  }

  ghost predicate Owner(circle: Circle, key: Hash, owner: string) {
    exists p :: IsSuccessor(p, circle.Keys, key) && circle[p] == owner
  }

  ghost predicate On(points: seq<Hash>, circle: Circle) {
    forall i :: 0 <= i < |points| ==> points[i] in circle
  }

  ghost function Owners(circle: Circle, points: seq<Hash>): seq<string>
    requires On(points, circle)
  {
    seq(|points|, i requires 0 <= i < |points| => circle[points[i]])
  }

  /** The owners met walking clockwise from `key`. */
  ghost function WalkOwners(circle: Circle, hs: seq<Hash>, key: Hash): seq<string>
    requires Lists(hs, circle.Keys)
  {
    WalkMembers(hs, key);
    Owners(circle, Walk(hs, key))
  }

  /** The full preference list of a key: each owner once, nearest first. */
  ghost function Preference(circle: Circle, hs: seq<Hash>, key: Hash): seq<string>
    requires Lists(hs, circle.Keys)
  {
    Distinct(WalkOwners(circle, hs, key))
  }

  lemma {:induction false} OwnersOnly(before: Circle, after: Circle, points: seq<Hash>, keep: iset<Hash>, names: iset<string>)
    requires On(points, before)
    requires forall i :: 0 <= i < |points| ==> (points[i] in keep <==> before[points[i]] in names)
    requires forall p :: p in before && p in keep ==> p in after && after[p] == before[p]
    ensures On(Only(points, keep), after)
    ensures Owners(after, Only(points, keep)) == Only(Owners(before, points), names)
  {
    if points != [] {
      var init, last := points[..|points| - 1], points[|points| - 1];
      OwnersOnly(before, after, init, keep, names);
      assert Owners(before, points) == Owners(before, init) + [before[last]];
      OnlySnoc(Owners(before, init), before[last], names);
    }
  }

  /** Removing a member deletes it from every preference list and moves nothing else. */
  lemma RemovalKeepsPreferences(params: Params, circle: Circle, members: set<string>, elt: string,
                                hs: seq<Hash>, hs': seq<Hash>, key: Hash)
    requires params.Exact(circle, members) && params.CollisionFree(members) && elt in members
    requires Lists(hs, circle.Keys) && Lists(hs', params.Removed(circle, elt).Keys)
    ensures Preference(params.Removed(circle, elt), hs', key) == Only(Preference(circle, hs, key), Others(elt))
  {
    hide Distinct, Only, Walk;
    var after := params.Removed(circle, elt);
    var keep := iset h: Hash | h !in params.Points(elt);
    OnlyLists(hs, circle.Keys, keep);
    assert after.Keys == set h | h in circle.Keys && h in keep;
    ListsUnique(hs', Only(hs, keep), after.Keys);
    WalkOnly(hs, key, keep);
    var w := Walk(hs, key);
    WalkMembers(hs, key);
    forall i | 0 <= i < |w|
      ensures w[i] in keep <==> circle[w[i]] in Others(elt)
    {
      assert w[i] in hs;
      assert params.Points(elt) !! params.Points(circle[w[i]]) || circle[w[i]] == elt;
    }
    OwnersOnly(circle, after, w, keep, Others(elt));
    DistinctOnly(Owners(circle, w), Others(elt));
  }

  /** Adding a member inserts it somewhere into every preference list and moves nothing else. */
  lemma AdditionKeepsPreferences(params: Params, circle: Circle, members: set<string>, elt: string,
                                 hs: seq<Hash>, hs': seq<Hash>, key: Hash)
    requires params.Exact(circle, members) && params.CollisionFree(members + {elt}) && elt !in members
    requires params.replicas >= 1
    requires Lists(hs, circle.Keys) && Lists(hs', params.Added(circle, elt).Keys)
    ensures Only(Preference(params.Added(circle, elt), hs', key), Others(elt)) == Preference(circle, hs, key)
    ensures elt in Preference(params.Added(circle, elt), hs', key)
  {
    var after := params.Added(circle, elt);
    params.AddedExact(circle, members, elt);
    params.RemovedExact(after, members + {elt}, elt);
    assert (members + {elt}) - {elt} == members;
    params.ExactUnique(params.Removed(after, elt), circle, members);
    RemovalKeepsPreferences(params, after, members + {elt}, elt, hs', hs, key);
    var w := Walk(hs', key);
    WalkMembers(hs', key);
    params.AddedLookup(circle, elt, params.replicas);
    params.PointIsBelow(elt, 0, params.replicas);
    assert params.Point(elt, 0) in hs';
    var i :| 0 <= i < |w| && w[i] == params.Point(elt, 0);
    assert Owners(after, w)[i] == elt;
    DistinctMembers(Owners(after, w));
  }

  /** Whatever the hash, adding a member can only take names over to that member. */
  lemma AdditionOnlyMovesToNewMember(params: Params, circle: Circle, elt: string, key: Hash, owner: string, owner': string)
    requires Owner(circle, key, owner) && Owner(params.Added(circle, elt), key, owner')
    ensures owner' == owner || owner' == elt
  {
    var after := params.Added(circle, elt);
    params.AddedLookup(circle, elt, params.replicas);
    var p :| IsSuccessor(p, circle.Keys, key) && circle[p] == owner;
    var p' :| IsSuccessor(p', after.Keys, key) && after[p'] == owner';
    if p' !in params.Points(elt) {
      assert p' in circle;
      assert forall q :: q in circle ==> q in after;
      assert p == p';
    }
  }

  /** The points on one side of the key come first on the walk; they are the other side's only if it is empty. */
  lemma WalkStarts(hs: seq<Hash>, keys: set<Hash>, key: Hash, keep: iset<Hash>)
    requires Lists(hs, keys) && hs != []
    requires keep == if Only(hs, Above(key)) != [] then Above(key) else NotAbove(key)
    ensures Walk(hs, key) != [] && Only(hs, keep) != [] && Walk(hs, key)[0] == Only(hs, keep)[0]
    ensures keep == Above(key) || forall q :: q in keys ==> q !in Above(key)
  {
    hide Only, Lists;
    WalkMembers(hs, key);
    assert hs[0] in Walk(hs, key);
    OnlyMembers(hs, Above(key));
    if Only(hs, Above(key)) == [] {
      OnlyMembers(hs, NotAbove(key));
      forall q | q in keys ensures q !in Above(key) {
        ListsMember(hs, keys, q);
      }
    }
  }

  lemma ListsMember(hs: seq<Hash>, keys: set<Hash>, q: Hash)
    requires Lists(hs, keys)
    ensures q in hs <==> q in keys
  {
  }

  lemma WalkStartsAtSuccessor(hs: seq<Hash>, keys: set<Hash>, key: Hash)
    requires Lists(hs, keys) && hs != []
    ensures Walk(hs, key) != [] && IsSuccessor(Walk(hs, key)[0], keys, key)
  {
    var keep := if Only(hs, Above(key)) != [] then Above(key) else NotAbove(key);
    WalkStarts(hs, keys, key, keep);
    OnlyLists(hs, keys, keep);
    OnlyMembers(hs, keep);
    hide Only, Walk;
    var run := Only(hs, keep);
    assert run[0] in run;
    forall q | q in keys && q in keep ensures run[0] <= q {
      ListsMember(hs, keys, q);
      var i :| 0 <= i < |run| && run[i] == q;
    }
  }

  lemma SuccessorUnique(keys: set<Hash>, key: Hash, p: Hash, q: Hash)
    requires IsSuccessor(p, keys, key) && IsSuccessor(q, keys, key)
    ensures p == q
  {
  }

  /** The owner of a key is a current member, there is exactly one as soon as a point is occupied, and
      it heads the preference list. */
  lemma OwnerIsMember(params: Params, circle: Circle, members: set<string>, hs: seq<Hash>, key: Hash)
    requires params.Owned(circle, members) && Lists(hs, circle.Keys) && hs != []
    ensures Preference(circle, hs, key) != []
    ensures forall owner :: Owner(circle, key, owner) <==> owner == Preference(circle, hs, key)[0]
    ensures Preference(circle, hs, key)[0] in members
  {
    var w := Walk(hs, key);
    WalkStartsAtSuccessor(hs, circle.Keys, key);
    WalkMembers(hs, key);
    var owners := Owners(circle, w);
    DistinctPrefix(owners, 1);
    assert owners[..1] == [] + [circle[w[0]]];
    DistinctSnoc([], circle[w[0]]);
    forall owner | Owner(circle, key, owner)
      ensures owner == circle[w[0]]
    {
      var p :| IsSuccessor(p, circle.Keys, key) && circle[p] == owner;
      SuccessorUnique(circle.Keys, key, p, w[0]);
    }
  }

  // ---- The list lookups ----

  /** What `GetN` answers from the owners met on the walk: the first `n` distinct ones when there are
      that many, and all of them otherwise. */
  ghost function Nearest(walk: seq<string>, n: int): seq<string> {
    if 1 <= n <= |Distinct(walk)| then Distinct(walk)[..n] else Distinct(walk)
  }

  /** What `GetTwo` answers when there is more than one member: the nearest owner twice if it is alone on the walk. */
  ghost function NearestTwo(walk: seq<string>): seq<string> {
    if |Distinct(walk)| >= 2 then Nearest(walk, 2) else Nearest(walk, 1) + Nearest(walk, 1)
  }

  /** The answers as prefixes of the distinct owners in walking order. */
  lemma NearestAre(walk: seq<string>, n: int)
    requires walk != []
    ensures Nearest(walk, n) <= Distinct(walk)
    ensures |Nearest(walk, n)| == if 1 <= n <= |Distinct(walk)| then n else |Distinct(walk)|
    ensures |Distinct(walk)| >= 1 && |NearestTwo(walk)| == 2 && NearestTwo(walk)[0] == Distinct(walk)[0]
    ensures NearestTwo(walk)[1] == Distinct(walk)[if |Distinct(walk)| >= 2 then 1 else 0]
  {
    SomeDistinct(walk);
  }

  /** The scan of `GetN` over the owners by point index: `i` is the loop counter and `res` what was
      collected. `None`-like exhaustion of `fuel` means the loop is still running. */
  datatype Scan = Running | Stopped(res: seq<string>)

  ghost function ScanN(owners: seq<string>, start: nat, n: int, i: nat, res: seq<string>, fuel: nat): Scan
    requires start < |owners|
    decreases fuel
  {
    if fuel == 0 then Running
    else if i == start then Stopped(res)
    else
      var at := if i >= |owners| then 0 else i;
      var res' := if owners[at] in res then res else res + [owners[at]];
      if |res'| == n then Stopped(res') else ScanN(owners, start, n, at + 1, res', fuel - 1)
  }

  ghost function Rotated(owners: seq<string>, start: nat): seq<string>
    requires start < |owners|
  {
    owners[start..] + owners[..start]
  }

  /** The number of leading points not above `key`. */
  ghost function FirstAbove(hs: seq<Hash>, key: Hash): (i: nat)
    requires StrictlySorted(hs)
    ensures i <= |hs|
    ensures forall j :: 0 <= j < i ==> hs[j] <= key
    ensures forall j :: i <= j < |hs| ==> hs[j] > key
  {
    if hs == [] || hs[|hs| - 1] <= key then |hs| else FirstAbove(hs[..|hs| - 1], key)
  }

  lemma WalkFromStart(hs: seq<Hash>, key: Hash)
    requires StrictlySorted(hs) && hs != []
    ensures StartOf(hs, key) < |hs|
    ensures Walk(hs, key) == hs[StartOf(hs, key)..] + hs[..StartOf(hs, key)]
  {
    hide Only, Walk;
    var i := FirstAbove(hs, key);
    WalkIsRotation(hs, key, i);
    if i == |hs| {
      assert hs[i..] + hs[..i] == hs[0..] + hs[..0];
    }
  }

  /** The walk of a key, read off the owners by point index. */
  lemma WalkOwnersRotate(circle: Circle, hs: seq<Hash>, key: Hash)
    requires Lists(hs, circle.Keys) && hs != []
    ensures StartOf(hs, key) < |hs|
    ensures WalkOwners(circle, hs, key) == Rotated(Owners(circle, hs), StartOf(hs, key))
  {
    hide Only, Walk, StartOf;
    WalkFromStart(hs, key);
    WalkMembers(hs, key);
  }

  /** The scan counter after `v` points were visited. */
  ghost predicate CounterAt(size: nat, start: nat, v: nat, i: nat) {
    i == start + v <= size || i == start + v - size
  }

  /** One pass of the scan body visits the next owner of the rotation. */
  lemma ScanVisits(owners: seq<string>, start: nat, v: nat, i: nat)
    requires start < |owners| && 1 <= v < |owners| && CounterAt(|owners|, start, v, i)
    ensures i != start
    ensures var at := if i >= |owners| then 0 else i;
            owners[at] == Rotated(owners, start)[v] && CounterAt(|owners|, start, v + 1, at + 1)
    ensures Distinct(Rotated(owners, start)[..v + 1])
         == var seen := Rotated(owners, start)[..v];
            var next := Rotated(owners, start)[v];
            if next in Distinct(seen) then Distinct(seen) else Distinct(seen) + [next]
  {
    var walk := Rotated(owners, start);
    assert walk[..v + 1] == walk[..v] + [walk[v]];
    DistinctSnoc(walk[..v], walk[v]);
    DistinctMembers(walk[..v]);
  }

  /** What the scan has collected after `v` points, and what lets it end. */
  ghost predicate Scanning(owners: seq<string>, start: nat, n: int, v: nat, i: nat, res: seq<string>)
    requires start < |owners|
  {
    && 1 <= v <= |owners| && CounterAt(|owners|, start, v, i)
    && res == Distinct(Rotated(owners, start)[..v])
    && res != [] && (n < 1 || |res| < n)
    && (start != 0 || 2 <= n <= |Distinct(owners)|)
  }

  /** The scan starts with the owner its first point belongs to. */
  lemma ScanBegins(owners: seq<string>, start: nat, n: int)
    requires start < |owners|
    requires start != 0 || 1 <= n <= |Distinct(owners)|
    ensures Nearest(Rotated(owners, start), 1) == [owners[start]]
    ensures n != 1 ==> Scanning(owners, start, n, 1, start + 1, [owners[start]])
  {
    assert Rotated(owners, start)[..1] == [] + [owners[start]];
    DistinctSnoc([], owners[start]);
    DistinctPrefix(Rotated(owners, start), 1);
  }

  lemma TwoOnWalk(walk: seq<string>, a: string, b: string)
    requires Nearest(walk, 2) == [a, b] || (Nearest(walk, 2) == [a] == Nearest(walk, 1) && a == b)
    ensures NearestTwo(walk) == [a, b]
  {
  }

  lemma ScanTurned(owners: seq<string>, start: nat, n: int, i: nat, res: seq<string>)
    requires start < |owners| && Scanning(owners, start, n, |owners|, i, res)
    ensures i == start && res == Nearest(Rotated(owners, start), n)
  {
    var walk := Rotated(owners, start);
    assert walk[..|owners|] == walk;
    RotationKeepsDistinctCount(owners, start);
  }

  /** One pass of the scan either completes the answer or goes on scanning. */
  lemma ScanPass(owners: seq<string>, start: nat, n: int, v: nat, i: nat, res: seq<string>)
    requires start < |owners| && Scanning(owners, start, n, v, i, res) && v < |owners|
    ensures i != start
    ensures var at := if i >= |owners| then 0 else i;
            var res' := if owners[at] in res then res else res + [owners[at]];
            if |res'| == n then res' == Nearest(Rotated(owners, start), n)
            else Scanning(owners, start, n, v + 1, at + 1, res')
  {
    ScanVisits(owners, start, v, i);
    DistinctPrefix(Rotated(owners, start), v + 1);
    hide Distinct, Rotated, CounterAt;
  }

  /** The scan of `GetN` after its first element: it ends within one turn of the ring unless it started
      at point 0 without enough owners. */
  lemma {:induction false} ScanStops(owners: seq<string>, start: nat, n: int, v: nat, i: nat, res: seq<string>)
    requires start < |owners| && v <= |owners| && Scanning(owners, start, n, v, i, res)
    ensures ScanN(owners, start, n, i, res, |owners| + 1 - v) == Stopped(Nearest(Rotated(owners, start), n))
    decreases |owners| - v
  {
    hide Scanning, Distinct, Rotated, Nearest;
    if v == |owners| {
      ScanTurned(owners, start, n, i, res);
    } else {
      ScanPass(owners, start, n, v, i, res);
      var at := if i >= |owners| then 0 else i;
      var res' := if owners[at] in res then res else res + [owners[at]];
      if |res'| != n {
        ScanStops(owners, start, n, v + 1, at + 1, res');
      }
    }
  }

  lemma RotationKeepsDistinctCount(owners: seq<string>, start: nat)
    requires start < |owners|
    ensures |Distinct(Rotated(owners, start))| == |Distinct(owners)|
  {
    var a, b := Distinct(Rotated(owners, start)), Distinct(owners);
    DistinctMembers(Rotated(owners, start));
    DistinctMembers(owners);
    assert owners == owners[..start] + owners[start..];
    SizeOfElements(a);
    SizeOfElements(b);
    assert (set x | x in a) == (set x | x in b);
  }

  /** Started at point 0 with too few distinct owners, or with `n < 1`, the scan is still running after any number of passes. */
  lemma {:induction false} ScanNeverStops(owners: seq<string>, n: int, i: nat, res: seq<string>, fuel: nat)
    requires owners != [] && i >= 1
    requires forall x :: x in res ==> x in owners
    requires NoRepeats(res)
    requires n < 1 || n > |Distinct(owners)|
    requires res != []
    ensures ScanN(owners, 0, n, i, res, fuel) == Running
    decreases fuel
  {
    if fuel != 0 {
      var at := if i >= |owners| then 0 else i;
      var res' := if owners[at] in res then res else res + [owners[at]];
      AtMostDistinct(owners, res');
      ScanNeverStops(owners, n, at + 1, res', fuel - 1);
    }
  }

  lemma AtMostDistinct(owners: seq<string>, res: seq<string>)
    requires forall x :: x in res ==> x in owners
    requires NoRepeats(res)
    ensures |res| <= |Distinct(owners)|
  {
    DistinctMembers(owners);
    DistinctFitsIn(res, Distinct(owners));
  }

  /** When the scan of `GetN` stops: exactly when it began past point 0 or enough distinct owners exist. */
  ghost predicate ScanHalts(owners: seq<string>, start: nat, n: int)
    requires start < |owners|
  {
    n == 1 || exists fuel: nat :: StopsWithin(owners, start, n, fuel)
  }

  ghost predicate StopsWithin(owners: seq<string>, start: nat, n: int, fuel: nat)
    requires start < |owners|
  {
    ScanN(owners, start, n, start + 1, [owners[start]], fuel).Stopped?
  }

  lemma ScanHaltsIff(owners: seq<string>, start: nat, n: int)
    requires start < |owners|
    ensures ScanHalts(owners, start, n) <==> start != 0 || 1 <= n <= |Distinct(owners)|
  {
    var first := [owners[start]];
    assert Rotated(owners, start)[..1] == [] + first;
    DistinctSnoc([], owners[start]);
    assert Distinct(first) == first;
    hide Distinct, ScanN;
    AtMostDistinct(owners, first);
    if n != 1 && (start != 0 || 2 <= n <= |Distinct(owners)|) {
      ScanStops(owners, start, n, 1, start + 1, first);
      assert StopsWithin(owners, start, n, |owners|);
    } else if n != 1 {
      forall fuel: nat
        ensures !StopsWithin(owners, start, n, fuel)
      {
        ScanNeverStops(owners, n, 1, first, fuel);
      }
    }
  }

  /** The loop of `GetTwo`: whether it has ended within `fuel` passes. */
  ghost predicate TwoStops(owners: seq<string>, start: nat, i: nat, fuel: nat)
    requires start < |owners|
    decreases fuel
  {
    fuel > 0
    && (i == start
        || var at := if i >= |owners| then 0 else i;
           owners[at] != owners[start] || TwoStops(owners, start, at + 1, fuel - 1))
  }

  /** It is the loop of `GetN` for two owners. */
  lemma {:induction false} TwoStopsIff(owners: seq<string>, start: nat, i: nat, fuel: nat)
    requires start < |owners|
    ensures TwoStops(owners, start, i, fuel) <==> ScanN(owners, start, 2, i, [owners[start]], fuel).Stopped?
    decreases fuel
  {
    if fuel > 0 && i != start {
      var at := if i >= |owners| then 0 else i;
      if owners[at] == owners[start] {
        TwoStopsIff(owners, start, at + 1, fuel - 1);
      }
    }
  }

  ghost predicate TwoHalts(owners: seq<string>, start: nat)
    requires start < |owners|
  {
    exists fuel: nat :: TwoStopsWithin(owners, start, fuel)
  }

  ghost predicate TwoStopsWithin(owners: seq<string>, start: nat, fuel: nat)
    requires start < |owners|
  {
    TwoStops(owners, start, start + 1, fuel)
  }

  /** The loop of `GetTwo` ends exactly when it begins past point 0 or there is a second owner. */
  lemma TwoHaltsIff(owners: seq<string>, start: nat)
    requires start < |owners|
    ensures TwoHalts(owners, start) <==> start != 0 || |Distinct(owners)| >= 2
  {
    ScanHaltsIff(owners, start, 2);
    forall fuel: nat
      ensures TwoStopsWithin(owners, start, fuel) <==> StopsWithin(owners, start, 2, fuel)
    {
      TwoStopsIff(owners, start, start + 1, fuel);
    }
  }

  // ---- Rings without collisions ----

  lemma OwnersAreMembers(params: Params, circle: Circle, members: set<string>, hs: seq<Hash>)
    requires params.replicas >= 1 && params.Exact(circle, members) && Lists(hs, circle.Keys)
    ensures forall x :: x in Owners(circle, hs) <==> x in members
  {
    var owners := Owners(circle, hs);
    forall m | m in members
      ensures m in owners
    {
      params.PointIsBelow(m, 0, params.replicas);
      assert params.Point(m, 0) in hs;
      var i :| 0 <= i < |hs| && hs[i] == params.Point(m, 0);
      assert owners[i] == m;
    }
  }

  /** On an exact ring every member is met on the walk, so a request for 1 to |members| owners is always
      answered in full and the scan always stops. */
  lemma EveryMemberIsMet(params: Params, circle: Circle, members: set<string>, hs: seq<Hash>, start: nat, n: int)
    requires params.replicas >= 1 && params.Exact(circle, members) && Lists(hs, circle.Keys)
    requires start < |hs| && 1 <= n <= |members|
    ensures |Distinct(Owners(circle, hs))| == |members|
    ensures ScanHalts(Owners(circle, hs), start, n)
    ensures |Nearest(Rotated(Owners(circle, hs), start), n)| == n
  {
    hide Params.Exact, Distinct, Rotated;
    var owners := Owners(circle, hs);
    OwnersAreMembers(params, circle, members, hs);
    DistinctMembers(owners);
    SizeOfElements(Distinct(owners));
    assert (set x | x in Distinct(owners)) == members;
    ScanHaltsIff(owners, start, n);
    RotationKeepsDistinctCount(owners, start);
  }

  /** Setting the members leaves the ring that adding them to a fresh one, in any order, would give. */
  lemma SetEqualsRebuild(params: Params, circle: Circle, members: set<string>, order: seq<string>,
                         hs: seq<Hash>, hs': seq<Hash>, key: Hash)
    requires params.Exact(circle, members) && params.CollisionFree(members)
    requires members == set e | e in order
    requires Lists(hs, circle.Keys) && Lists(hs', params.Built(order).Keys)
    ensures circle == params.Built(order) && hs == hs'
    ensures WalkOwners(circle, hs, key) == WalkOwners(params.Built(order), hs', key)
  {
    params.BuiltExact(order);
    params.ExactUnique(circle, params.Built(order), members);
    ListsUnique(hs, hs', circle.Keys);
  }
}
