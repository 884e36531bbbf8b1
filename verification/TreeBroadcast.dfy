/** One broadcast down a tree and its confirmations back to the root, for any tree and any interleaving. */
module TreeBroadcast {
  import opened Types
  import T = TreeSpec

  /** `par[j]` is the parent of position j. Position 0 is the root; the others are its peers. */
  ghost predicate IsTree(par: seq<int>) {
    par != [] && forall j :: 1 <= j < |par| ==> 0 <= par[j] < j
  }

  predicate IsPeer(par: seq<int>, j: int) {
    1 <= j < |par|
  }

  ghost function Peers(par: seq<int>): set<int> {
    PositionsBelow(|par|)
  }

  ghost function PositionsBelow(n: nat): (r: set<int>)
    ensures forall j :: j in r <==> 1 <= j < n
    ensures n >= 1 ==> |r| == n - 1
  {
    if n <= 1 then {} else PositionsBelow(n - 1) + {n - 1}
  }

  ghost function Kids(par: seq<int>, p: int): set<int> {
    set j | 1 <= j < |par| && par[j] == p
  }

  /** The confirmations a peer has gathered from its children, on their way to the root. */
  datatype Back = Back(from: int, args: seq<int>)

  /** Calls and returns are named by the called peer. `handled` counts how often each peer has stored the
      request, `batches[p]` is what p has gathered, `answered` are the peers whose batch the root has handled,
      and `confirms` are the confirmations pushed at the root. */
  datatype Net = Net(
    started: bool,
    calls: multiset<int>,
    handled: multiset<int>,
    replies: multiset<int>,
    batches: seq<seq<int>>,
    backs: multiset<Back>,
    answered: set<int>,
    confirms: seq<int>)

  ghost function Init(par: seq<int>): Net {
    Net(false, multiset{}, multiset{}, multiset{}, seq(|par|, _ => []), multiset{}, {}, [])
  }

  datatype Step = RootStart | HandleCall(j: int) | HandleReturn(j: int) | HandleBack(b: Back)

  ghost predicate Enabled(par: seq<int>, s: Net, step: Step) {
    match step
    case RootStart => !s.started
    case HandleCall(j) => IsPeer(par, j) && j in s.calls
    case HandleReturn(j) => IsPeer(par, j) && j in s.replies
    case HandleBack(b) => b in s.backs
  }

  /** A peer stores the request, calls its children and returns its confirmation to its caller. The caller keeps
      the confirmation, at once if it is the root, else until it has one from every child. */
  ghost function Next(par: seq<int>, s: Net, step: Step): Net
    requires IsTree(par) && |s.batches| == |par| && Enabled(par, s, step)
  {
    match step
    case RootStart =>
      s.(started := true, calls := s.calls + multiset(Kids(par, 0)))
    case HandleCall(j) =>
      s.(calls := s.calls - multiset{j} + multiset(Kids(par, j)),
         handled := s.handled + multiset{j}, replies := s.replies + multiset{j})
    case HandleReturn(j) =>
      var s1 := s.(replies := s.replies - multiset{j});
      if par[j] == 0 then s1.(confirms := s.confirms + [j]) else Gathered(par, s1, par[j], j)
    case HandleBack(b) =>
      s.(backs := s.backs - multiset{b}, answered := s.answered + {b.from}, confirms := s.confirms + b.args)
  }

  ghost function Gathered(par: seq<int>, s: Net, p: int, j: int): Net
    requires 0 <= p < |s.batches|
  {
    var batch := s.batches[p] + [j];
    s.(batches := s.batches[p := batch],
       backs := if |batch| == |Kids(par, p)| then s.backs + multiset{Back(p, batch)} else s.backs)
  }

  // ---- The invariant ----

  /** How often position p has called its children. */
  ghost function Reached(s: Net, p: int): nat {
    if p != 0 then s.handled[p] else if s.started then 1 else 0
  }

  /** What position p has kept of its children's confirmations. */
  ghost function Kept(s: Net, p: int): seq<int>
    requires 0 <= p < |s.batches|
  {
    if p == 0 then s.confirms else s.batches[p]
  }

  /** The request is with j, in flight or handled, exactly as often as its parent has passed it on. */
  ghost predicate CallsMatch(par: seq<int>, s: Net)
    requires IsTree(par)
  {
    forall j :: CallsMatchAt(par, s, j)
  }

  ghost predicate CallsMatchAt(par: seq<int>, s: Net, j: int)
    requires IsTree(par)
  {
    if IsPeer(par, j) then s.calls[j] + s.handled[j] == Reached(s, par[j])
    else s.calls[j] == 0 && s.handled[j] == 0 && s.replies[j] == 0
  }

  /** Each confirmation made is in flight to the caller or kept by it. */
  ghost predicate ReturnsMatch(par: seq<int>, s: Net)
    requires IsTree(par) && |s.batches| == |par|
  {
    forall j :: ReturnsMatchAt(par, s, j)
  }

  ghost predicate ReturnsMatchAt(par: seq<int>, s: Net, j: int)
    requires IsTree(par) && |s.batches| == |par|
  {
    IsPeer(par, j) ==> s.handled[j] == s.replies[j] + multiset(Kept(s, par[j]))[j]
  }

  ghost predicate BatchesAreOfKids(par: seq<int>, s: Net)
    requires IsTree(par) && |s.batches| == |par|
  {
    s.batches[0] == [] && forall p: int, j: int :: 1 <= p < |par| && j in s.batches[p] ==> j in Kids(par, p)
  }

  ghost predicate Full(par: seq<int>, s: Net, p: int)
    requires |s.batches| == |par|
  {
    1 <= p < |par| && s.batches[p] != [] && |s.batches[p]| == |Kids(par, p)|
  }

  /** A full batch is in flight once, or has been handled once; others are neither. */
  ghost predicate BacksMatch(par: seq<int>, s: Net)
    requires |s.batches| == |par|
  {
    && (forall b :: b in s.backs ==> s.backs[b] == 1 && Full(par, s, b.from) && b.args == s.batches[b.from]
                                     && b.from !in s.answered)
    && (forall p :: Full(par, s, p) && p !in s.answered ==> Back(p, s.batches[p]) in s.backs)
    && forall p :: p in s.answered ==> Full(par, s, p)
  }

  /** The root has the confirmation of a deeper peer as often as it is in a batch the root has handled. */
  ghost predicate ConfirmsMatchAt(par: seq<int>, s: Net, j: int)
    requires IsTree(par) && |s.batches| == |par|
  {
    if IsPeer(par, j) then
      par[j] != 0 ==> multiset(s.confirms)[j] == if par[j] in s.answered then multiset(s.batches[par[j]])[j] else 0
    else
      multiset(s.confirms)[j] == 0
  }

  ghost predicate ConfirmsMatch(par: seq<int>, s: Net)
    requires IsTree(par) && |s.batches| == |par|
  {
    forall j :: ConfirmsMatchAt(par, s, j)
  }

  ghost predicate Inv(par: seq<int>, s: Net) {
    && IsTree(par) && |s.batches| == |par|
    && CallsMatch(par, s) && ReturnsMatch(par, s) && BatchesAreOfKids(par, s) && BacksMatch(par, s)
    && ConfirmsMatch(par, s)
  }

  lemma {:induction false} HandledAtMostOnce(par: seq<int>, s: Net, j: int)
    requires IsTree(par) && CallsMatch(par, s)
    ensures s.calls[j] + s.handled[j] <= 1
    decreases j
  {
    assert CallsMatchAt(par, s, j);
    if IsPeer(par, j) && par[j] != 0 {
      HandledAtMostOnce(par, s, par[j]);
    }
  }

  lemma KidIff(par: seq<int>, p: int, c: int)
    ensures c in Kids(par, p) <==> IsPeer(par, c) && par[c] == p
  {
  }

  /** A batch holds each child's confirmation at most once, and none that is still on its way. */
  lemma BatchCounts(par: seq<int>, s: Net, p: int, c: int)
    requires Inv(par, s) && 1 <= p < |par|
    ensures multiset(s.batches[p])[c] <= multiset(Kids(par, p))[c]
    ensures c in s.replies ==> c !in s.batches[p]
  {
    hide BacksMatch, ConfirmsMatch;
    HandledAtMostOnce(par, s, c);
    assert ReturnsMatchAt(par, s, c);
    KidIff(par, p, c);
    hide Kids;
  }

  lemma LeavesOneOut(batch: seq<int>, kids: set<int>, j: int)
    requires j in kids && j !in batch && forall c :: multiset(batch)[c] <= multiset(kids)[c]
    ensures |batch| < |kids|
  {
    forall c ensures multiset(batch)[c] <= multiset(kids - {j})[c] {
      assert multiset(batch)[c] <= multiset(kids)[c];
    }
    FewerElements(multiset(batch), multiset(kids - {j}));
    assert |multiset(batch)| == |batch|;
  }

  /** While a child's confirmation is on its way the batch is not full. */
  lemma NotFullYet(par: seq<int>, s: Net, j: int)
    requires Inv(par, s) && IsPeer(par, j) && j in s.replies && par[j] != 0
    ensures !Full(par, s, par[j])
  {
    var p := par[j];
    hide Kids, CallsMatch, ReturnsMatch, BatchesAreOfKids, BacksMatch, ConfirmsMatch;
    KidIff(par, p, j);
    BatchCounts(par, s, p, j);
    forall c ensures multiset(s.batches[p])[c] <= multiset(Kids(par, p))[c] {
      BatchCounts(par, s, p, c);
    }
    LeavesOneOut(s.batches[p], Kids(par, p), j);
  }

  lemma FewerElements<E>(a: multiset<E>, b: multiset<E>)
    requires a <= b
    ensures |a| <= |b|
  {
    assert b == a + (b - a);
  }

  lemma InitIsInv(par: seq<int>)
    requires IsTree(par)
    ensures Inv(par, Init(par))
  {
    var s := Init(par);
    assert CallsMatch(par, s);
    assert ReturnsMatch(par, s);
    assert BatchesAreOfKids(par, s);
    assert BacksMatch(par, s);
    assert ConfirmsMatch(par, s);
    hide CallsMatch, ReturnsMatch, BatchesAreOfKids, BacksMatch, ConfirmsMatch;
  }

  lemma KeepsCallsMatch(par: seq<int>, s: Net, step: Step)
    requires IsTree(par) && |s.batches| == |par| && CallsMatch(par, s) && Enabled(par, s, step)
    ensures CallsMatch(par, Next(par, s, step))
  {
    forall j ensures CallsMatchAt(par, Next(par, s, step), j) {
      assert CallsMatchAt(par, s, j);
      hide CallsMatch;
      KidIff(par, 0, j);
      if step.HandleCall? {
        KidIff(par, step.j, j);
      }
      hide Kids;
    }
  }

  lemma OthersKeepReturns(par: seq<int>, s: Net, step: Step, j: int)
    requires IsTree(par) && |s.batches| == |par| && ReturnsMatchAt(par, s, j) && Enabled(par, s, step)
    requires step.HandleBack? && IsPeer(par, j) && par[j] == 0 ==> j !in step.b.args
    requires !step.HandleReturn?
    ensures ReturnsMatchAt(par, Next(par, s, step), j)
  {
    hide Kids;
  }

  lemma ReturnKeepsReturns(par: seq<int>, s: Net, i: int, j: int)
    requires IsTree(par) && |s.batches| == |par| && ReturnsMatchAt(par, s, j) && Enabled(par, s, HandleReturn(i))
    ensures ReturnsMatchAt(par, Next(par, s, HandleReturn(i)), j)
  {
    hide Kids;
    if IsPeer(par, j) {
      var s' := Next(par, s, HandleReturn(i));
      assert Kept(s', par[j]) == if par[j] == par[i] then Kept(s, par[j]) + [i] else Kept(s, par[j]);
    }
  }

  lemma KeepsReturnsMatch(par: seq<int>, s: Net, step: Step)
    requires Inv(par, s) && Enabled(par, s, step)
    ensures ReturnsMatch(par, Next(par, s, step))
  {
    var s' := Next(par, s, step);
    forall j ensures ReturnsMatchAt(par, s', j) {
      if step.HandleReturn? {
        ReturnKeepsReturns(par, s, step.j, j);
      } else {
        if step.HandleBack? && IsPeer(par, j) {
          BackIsDeep(par, s, step.b, j);
        }
        OthersKeepReturns(par, s, step, j);
      }
    }
  }

  /** A batch in flight holds no confirmation of a child of the root. */
  lemma BackIsDeep(par: seq<int>, s: Net, b: Back, j: int)
    requires Inv(par, s) && b in s.backs && IsPeer(par, j)
    ensures par[j] == 0 ==> j !in b.args
  {
    hide CallsMatch, ReturnsMatch, ConfirmsMatch;
    assert Full(par, s, b.from) && b.args == s.batches[b.from];
    assert j in b.args ==> j in Kids(par, b.from);
  }

  lemma KeepsBatchesOfKids(par: seq<int>, s: Net, step: Step)
    requires IsTree(par) && |s.batches| == |par| && BatchesAreOfKids(par, s) && Enabled(par, s, step)
    ensures BatchesAreOfKids(par, Next(par, s, step))
  {
  }

  lemma KeepsBacksMatch(par: seq<int>, s: Net, step: Step)
    requires Inv(par, s) && Enabled(par, s, step)
    ensures BacksMatch(par, Next(par, s, step))
  {
    hide CallsMatch, ReturnsMatch, ConfirmsMatch, BatchesAreOfKids, Kids;
    var s' := Next(par, s, step);
    match step
    case RootStart => SameBatches(par, s, s');
    case HandleCall(j) => SameBatches(par, s, s');
    case HandleBack(b) => BackIsTaken(par, s, b);
    case HandleReturn(j) =>
      if par[j] == 0 {
        SameBatches(par, s, s');
      } else {
        NotFullYet(par, s, j);
        GatheringKeepsBacks(par, s.(replies := s.replies - multiset{j}), par[j], j);
      }
  }

  lemma SameBatches(par: seq<int>, s: Net, s': Net)
    requires |s.batches| == |par| && BacksMatch(par, s)
    requires s'.batches == s.batches && s'.backs == s.backs && s'.answered == s.answered
    ensures BacksMatch(par, s')
  {
    hide Kids;
    assert forall p :: Full(par, s', p) <==> Full(par, s, p);
    hide Full;
  }

  lemma BackIsTaken(par: seq<int>, s: Net, b: Back)
    requires IsTree(par) && |s.batches| == |par| && BacksMatch(par, s) && b in s.backs
    ensures BacksMatch(par, Next(par, s, HandleBack(b)))
  {
    hide Kids;
    var s' := Next(par, s, HandleBack(b));
    assert forall p :: Full(par, s', p) <==> Full(par, s, p);
    hide Full;
  }

  lemma GatheringKeepsBacks(par: seq<int>, s: Net, p: int, j: int)
    requires |s.batches| == |par| && BacksMatch(par, s) && 1 <= p < |par| && !Full(par, s, p)
    ensures BacksMatch(par, Gathered(par, s, p, j))
  {
    hide Kids;
    var s', batch := Gathered(par, s, p, j), s.batches[p] + [j];
    assert forall q :: q != p ==> (Full(par, s', q) <==> Full(par, s, q));
    assert Full(par, s', p) <==> |batch| == |Kids(par, p)|;
    hide Full;
    assert p !in s.answered;
    assert forall b :: b in s.backs ==> b.from != p;
  }

  lemma HandlingBackKeepsConfirms(par: seq<int>, s: Net, b: Back, j: int)
    requires Inv(par, s) && b in s.backs
    ensures ConfirmsMatchAt(par, Next(par, s, HandleBack(b)), j)
  {
    hide CallsMatch, ReturnsMatch;
    assert Full(par, s, b.from) && b.args == s.batches[b.from] && b.from !in s.answered;
    KidIff(par, b.from, j);
    assert j in b.args ==> j in Kids(par, b.from);
    hide BacksMatch, Full, BatchesAreOfKids, Kids;
    assert ConfirmsMatchAt(par, s, j);
  }

  lemma KeepsConfirmsMatch(par: seq<int>, s: Net, step: Step)
    requires Inv(par, s) && Enabled(par, s, step)
    ensures ConfirmsMatch(par, Next(par, s, step))
  {
    hide CallsMatch, ReturnsMatch, BatchesAreOfKids, Kids;
    var s' := Next(par, s, step);
    if step.HandleReturn? && par[step.j] != 0 {
      NotFullYet(par, s, step.j);
      assert par[step.j] !in s.answered;
    }
    hide Full, BacksMatch;
    forall j: int ensures ConfirmsMatchAt(par, s', j) {
      assert ConfirmsMatchAt(par, s, j);
      if step.HandleBack? {
        HandlingBackKeepsConfirms(par, s, step.b, j);
      }
    }
  }

  lemma StepKeepsInv(par: seq<int>, s: Net, step: Step)
    requires Inv(par, s) && Enabled(par, s, step)
    ensures Inv(par, Next(par, s, step))
  {
    KeepsCallsMatch(par, s, step);
    KeepsReturnsMatch(par, s, step);
    KeepsBatchesOfKids(par, s, step);
    KeepsBacksMatch(par, s, step);
    KeepsConfirmsMatch(par, s, step);
    hide CallsMatch, ReturnsMatch, ConfirmsMatch, BatchesAreOfKids, BacksMatch;
  }

  // ---- Runs ----

  ghost predicate Legal(par: seq<int>, steps: seq<Step>)
    requires IsTree(par)
    decreases |steps|, 0
  {
    steps != [] ==>
      var init, last := steps[..|steps| - 1], steps[|steps| - 1];
      Legal(par, init) && Enabled(par, After(par, init), last)
  }

  ghost function After(par: seq<int>, steps: seq<Step>): (s: Net)
    requires IsTree(par) && Legal(par, steps)
    ensures Inv(par, s)
    decreases |steps|, 1
  {
    if steps == [] then InitIsInv(par); Init(par)
    else
      var init, last := steps[..|steps| - 1], steps[|steps| - 1];
      StepKeepsInv(par, After(par, init), last);
      Next(par, After(par, init), last)
  }

  lemma ConfirmedIsHandled(par: seq<int>, s: Net, j: int)
    requires Inv(par, s)
    ensures multiset(s.confirms)[j] <= s.handled[j] <= 1
    ensures s.handled[j] > 0 ==> IsPeer(par, j)
  {
    assert CallsMatchAt(par, s, j);
    hide BacksMatch, BatchesAreOfKids;
    HandledAtMostOnce(par, s, j);
    assert ReturnsMatchAt(par, s, j) && ConfirmsMatchAt(par, s, j);
    hide ReturnsMatch, ConfirmsMatch;
  }

  /** In every run, each peer stores the request at most once and the root gets each peer's confirmation at most
      once, from a peer that has stored the request. */
  lemma AtMostOnce(par: seq<int>, steps: seq<Step>, j: int)
    requires IsTree(par) && Legal(par, steps)
    ensures var s := After(par, steps);
            && multiset(s.confirms)[j] <= s.handled[j] <= 1
            && (s.handled[j] > 0 ==> IsPeer(par, j))
  {
    hide After;
    ConfirmedIsHandled(par, After(par, steps), j);
  }

  // ---- Termination ----

  /** Falls with every step. */
  ghost function Left(par: seq<int>, s: Net): int {
    (if s.started then 0 else 1) + 3 * (|par| - 1 - |s.handled|) + 2 * |s.replies| + |s.backs|
  }

  lemma LeftIsNatural(par: seq<int>, s: Net)
    requires Inv(par, s)
    ensures Left(par, s) >= 0
  {
    forall j ensures s.handled[j] <= multiset(Peers(par))[j] {
      assert CallsMatchAt(par, s, j);
      HandledAtMostOnce(par, s, j);
    }
    assert s.handled <= multiset(Peers(par));
    FewerElements(s.handled, multiset(Peers(par)));
  }

  lemma StepShrinks(par: seq<int>, s: Net, step: Step)
    requires Inv(par, s) && Enabled(par, s, step)
    ensures Left(par, Next(par, s, step)) < Left(par, s)
  {
    hide Inv, Kids;
    assert step.HandleCall? ==> |s.handled + multiset{step.j}| == |s.handled| + 1;
  }

  /** No run is longer than three steps a peer, plus one. */
  lemma {:induction false} RunsEnd(par: seq<int>, steps: seq<Step>)
    requires IsTree(par) && Legal(par, steps)
    ensures |steps| + Left(par, After(par, steps)) <= Left(par, Init(par)) == 3 * |par| - 2
    ensures |steps| <= 3 * |par| - 2
  {
    LeftIsNatural(par, After(par, steps));
    if steps != [] {
      var init, last := steps[..|steps| - 1], steps[|steps| - 1];
      RunsEnd(par, init);
      StepShrinks(par, After(par, init), last);
    }
  }

  ghost predicate Stuck(par: seq<int>, s: Net) {
    forall step: Step :: !Enabled(par, s, step)
  }

  lemma {:induction false} AllHandled(par: seq<int>, s: Net, j: int)
    requires Inv(par, s) && Stuck(par, s) && IsPeer(par, j)
    ensures s.handled[j] == 1 && s.replies[j] == 0
    decreases j
  {
    assert CallsMatchAt(par, s, j);
    assert !Enabled(par, s, RootStart) && !Enabled(par, s, HandleCall(j)) && !Enabled(par, s, HandleReturn(j));
    if par[j] != 0 {
      AllHandled(par, s, par[j]);
    }
  }

  lemma FinalBatch(par: seq<int>, s: Net, p: int, c: int)
    requires Inv(par, s) && Stuck(par, s) && IsPeer(par, p)
    ensures multiset(s.batches[p])[c] == multiset(Kids(par, p))[c]
  {
    hide BacksMatch, ConfirmsMatch, Stuck;
    KidIff(par, p, c);
    assert ReturnsMatchAt(par, s, c);
    assert c in s.batches[p] ==> c in Kids(par, p);
    hide Kids, BatchesAreOfKids, ReturnsMatch;
    if IsPeer(par, c) && par[c] == p {
      AllHandled(par, s, c);
    }
  }

  lemma AllGathered(par: seq<int>, s: Net, p: int)
    requires Inv(par, s) && Stuck(par, s) && IsPeer(par, p) && Kids(par, p) != {}
    ensures Full(par, s, p) && p in s.answered
  {
    var batch := s.batches[p];
    hide CallsMatch, ReturnsMatch, ConfirmsMatch, BatchesAreOfKids, Kids;
    assert multiset(batch) == multiset(Kids(par, p)) by {
      forall c ensures multiset(batch)[c] == multiset(Kids(par, p))[c] {
        FinalBatch(par, s, p, c);
      }
    }
    assert |multiset(batch)| == |batch| && |multiset(Kids(par, p))| == |Kids(par, p)|;
    assert !Enabled(par, s, HandleBack(Back(p, batch)));
  }

  lemma AllConfirmed(par: seq<int>, s: Net, j: int)
    requires Inv(par, s) && Stuck(par, s)
    ensures s.handled[j] == multiset(Peers(par))[j] == multiset(s.confirms)[j]
  {
    assert CallsMatchAt(par, s, j);
    hide BacksMatch, BatchesAreOfKids, Stuck;
    assert j in Peers(par) <==> IsPeer(par, j);
    assert ReturnsMatchAt(par, s, j) && ConfirmsMatchAt(par, s, j);
    if IsPeer(par, j) {
      AllHandled(par, s, j);
      if par[j] != 0 {
        KidIff(par, par[j], j);
        hide Kids;
        AllGathered(par, s, par[j]);
      }
    }
  }

  /** A run that can go no further has brought the request to every peer exactly once, and every peer's
      confirmation to the root exactly once. */
  lemma EveryoneConfirms(par: seq<int>, steps: seq<Step>)
    requires IsTree(par) && Legal(par, steps) && Stuck(par, After(par, steps))
    ensures After(par, steps).handled == multiset(Peers(par))
    ensures multiset(After(par, steps).confirms) == multiset(Peers(par))
    ensures |After(par, steps).confirms| == |par| - 1
  {
    var s := After(par, steps);
    hide After, Legal, Inv, Stuck, Peers;
    forall j ensures s.handled[j] == multiset(Peers(par))[j] == multiset(s.confirms)[j] {
      AllConfirmed(par, s, j);
    }
    assert multiset(s.confirms) == multiset(Peers(par));
    assert |multiset(s.confirms)| == |s.confirms|;
    PeerCount(par);
  }

  lemma PeerCount(par: seq<int>)
    requires par != []
    ensures |Peers(par)| == |par| - 1
  {
  }

  /** Every run can be carried on to such an end. */
  lemma {:induction false} CanFinish(par: seq<int>, steps: seq<Step>) returns (all: seq<Step>)
    requires IsTree(par) && Legal(par, steps)
    ensures steps <= all && Legal(par, all) && Stuck(par, After(par, all))
    decreases 3 * |par| - |steps|
  {
    hide Inv, Enabled;
    RunsEnd(par, steps);
    if Stuck(par, After(par, steps)) {
      all := steps;
    } else {
      var step :| Enabled(par, After(par, steps), step);
      assert (steps + [step])[..|steps|] == steps;
      all := CanFinish(par, steps + [step]);
    }
  }

  // ---- On the trees that the servers build ----

  ghost function ParentsOf(k: int, n: nat): (par: seq<int>)
    requires k >= 1 && n >= 1
    ensures IsTree(par) && |par| == n && forall j :: 1 <= j < n ==> par[j] == T.Parent(k, j)
  {
    seq(n, j requires 0 <= j < n => if j == 0 then 0 else T.Parent(k, j))
  }

  /** The children a server reads from the tree it was sent are the children of its position: the broadcast
      over a built tree is the one above. */
  lemma KidsAreWhatIsRead(k: int, ids: seq<int>, p: int, j: int)
    requires k >= 1 && NoRepeats(ids) && 0 <= p < |ids| && 0 <= j < |ids|
    ensures ids[j] in T.Search([T.Complete(k, ids, 0)], ids[p]) <==> j in Kids(ParentsOf(k, |ids|), p)
  {
    var n := |ids|;
    T.SearchComplete(k, ids, p);
    var lo, hi := T.FirstChild(k, n, p), T.FirstChild(k, n, p + 1);
    if j >= 1 {
      T.ParentIff(k, n, p, j);
    }
    if ids[j] in ids[lo..hi] {
      var x :| lo <= x < hi && ids[x] == ids[j];
      assert x == j;
    }
    if lo <= j < hi {
      assert ids[lo..hi][j - lo] == ids[j];
    }
  }
}
