/** Why in-order links matter: a legal run that delivers two announcements to one follower in reverse. */
module PipelineReorder {
  import opened Types
  import opened ExecSpec
  import opened Pipeline

  lemma Extend(s: Cluster, steps: seq<Step>, step: Step, f: nat)
    requires Legal(s, steps, f) && Shape(After(s, steps, f)) && Enabled(After(s, steps, f), step)
    ensures Legal(s, steps + [step], f) && After(s, steps + [step], f) == Next(After(s, steps, f), step, f)
  {
    assert (steps + [step])[..|steps + [step]| - 1] == steps;
  }

  /** The proposer announces blocks 1 and 2; follower 1 receives 2 before 1 and answers both. */
  function ReversedSteps(u: Unit): seq<Step> {
    [Certify(0, u), Propose, Propose, Deliver(1, 1), Deliver(1, 0), Handle(1, 1), Handle(1, 0)]
  }

  /** The state after the first `i` steps of the reversed run. */
  ghost predicate At(u: Unit, i: nat, s: Cluster)
    requires i <= 7
  {
    && Legal(Boot(4), ReversedSteps(u)[..i], 1) && s == After(Boot(4), ReversedSteps(u)[..i], 1)
    && Shape(s) && |s.nodes| == 4 && s.nodes[2] == BOOT && s.nodes[3] == BOOT
  }

  lemma OneMore(u: Unit, i: nat, s: Cluster)
    requires i < 7 && At(u, i, s) && Shape(s) && Enabled(s, ReversedSteps(u)[i])
    ensures At(u, i + 1, Next(s, ReversedSteps(u)[i], 1))
    ensures Shape(Next(s, ReversedSteps(u)[i], 1)) && |Next(s, ReversedSteps(u)[i], 1).nodes| == 4
  {
    var run := ReversedSteps(u);
    assert run[..i + 1] == run[..i] + [run[i]];
    Extend(Boot(4), run[..i], run[i], 1);
  }

  lemma AtStart(u: Unit)
    ensures At(u, 0, Boot(4))
  {
    assert ReversedSteps(u)[..0] == [];
  }

  lemma Announced(u: Unit) returns (s: Cluster)
    ensures At(u, 3, s) && Shape(s) && |s.nodes| == 4
    ensures s.nodes[0].log == map[0 := EMPTY_ENTRY, 1 := EMPTY_ENTRY.(reqs := [u]), 2 := EMPTY_ENTRY]
    ensures s.nodes[0].ch == [] && s.nodes[1] == BOOT
    ensures s.requests[1] == [Sending(1, 0, [u]), Sending(2, 1, [])] && s.replies[1] == []
  {
    hide At;
    s := Boot(4);
    AtStart(u);
    OneMore(u, 0, s);
    s := Next(s, Certify(0, u), 1);
    assert s.nodes[0].pool == [u] && s.requests[1] == [];
    OneMore(u, 1, s);
    var first := Announcement(s.nodes[0]);
    s := Next(s, Propose, 1);
    assert s.requests[1] == [] + [first];
    assert s.nodes[0].index == 1 && s.nodes[0].pool == [];
    OneMore(u, 2, s);
    var second := Announcement(s.nodes[0]);
    s := Next(s, Propose, 1);
    assert s.requests[1] == ([] + [first]) + [second];
  }

  lemma Delivered(u: Unit) returns (s: Cluster)
    ensures At(u, 5, s) && Shape(s) && |s.nodes| == 4
    ensures s.nodes[0].log == map[0 := EMPTY_ENTRY, 1 := EMPTY_ENTRY.(reqs := [u]), 2 := EMPTY_ENTRY]
    ensures s.nodes[0].ch == []
    ensures 1 in s.nodes[1].log && s.nodes[1].log[1].reqs == []
    ensures s.replies[1] == [Reply(2, 1, [], 1), Reply(1, 0, [], 1)]
  {
    s := Announced(u);
    hide At;
    OneMore(u, 3, s);
    s := Next(s, Deliver(1, 1), 1);
    assert s.requests[1] == [Sending(1, 0, [u])];
    assert s.nodes[1].log[1] == EMPTY_ENTRY.(committed := true);
    OneMore(u, 4, s);
    s := Next(s, Deliver(1, 0), 1);
  }

  lemma Answered(u: Unit) returns (s: Cluster)
    ensures At(u, 7, s) && Shape(s) && |s.nodes| == 4
    ensures s.nodes[0].ch == [1] && 1 in s.nodes[0].log && s.nodes[0].log[1].reqs == [u]
    ensures 1 in s.nodes[1].log && s.nodes[1].log[1].reqs == []
  {
    s := Delivered(u);
    hide At;
    OneMore(u, 5, s);
    s := Next(s, Handle(1, 1), 1);
    assert s.nodes[0].log[1].prepareConfirms == [1] && s.nodes[0].log[1].prepared;
    assert s.replies[1] == [Reply(2, 1, [], 1)];
    OneMore(u, 6, s);
    s := Next(s, Handle(1, 0), 1);
  }

  /** In that run the proposer queues block 1 for execution on one follower's word, while no follower keeps
      its contents: with reordering, f answers do not stand for f stored copies. */
  lemma ReorderingLosesContents(u: Unit)
    ensures Legal(Boot(4), ReversedSteps(u), 1)
    ensures var s := After(Boot(4), ReversedSteps(u), 1);
            && Shape(s) && |s.nodes| == 4
            && s.nodes[0].ch == [1] && 1 in s.nodes[0].log && s.nodes[0].log[1].reqs == [u]
            && forall q :: 1 <= q < 4 ==> 1 !in s.nodes[q].log || s.nodes[q].log[1].reqs == []
  {
    hide Legal, After;
    var s := Answered(u);
    assert ReversedSteps(u)[..7] == ReversedSteps(u);
  }
}
