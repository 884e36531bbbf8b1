/** A run of the whole system is a run of certification and a run of the pipeline side by side, so whatever holds of
    every run of a part holds of that part of the whole. */
module WorldParts {
  import opened Types
  import opened World
  import C = Certification
  import P = Pipeline

  /** The certification steps of a run. */
  function CertSteps(steps: seq<Step>): seq<C.Step> {
    if steps == [] then []
    else CertSteps(steps[..|steps| - 1])
         + if steps[|steps| - 1].Certifying? then [steps[|steps| - 1].c] else []
  }

  lemma {:induction false} CertificationRuns(ids: seq<int>, steps: seq<Step>, f: nat)
    requires |ids| >= 1 && Legal(Boot(ids), steps, f)
    ensures C.Legal(C.Boot(ids), CertSteps(steps), f)
    ensures C.After(C.Boot(ids), CertSteps(steps), f) == After(Boot(ids), steps, f).cert
  {
    hide C.Next, P.Next, C.Enabled, P.Enabled, C.Outcome;
    if steps != [] {
      var before, last := steps[..|steps| - 1], steps[|steps| - 1];
      CertificationRuns(ids, before, f);
      if last.Certifying? {
        assert (CertSteps(before) + [last.c])[..|CertSteps(before)|] == CertSteps(before);
      } else {
        assert CertSteps(before) + [] == CertSteps(before);
      }
    }
  }

  /** What the steps of a run do to the pipeline. */
  ghost function PipeSteps(w: World, steps: seq<Step>, f: nat): seq<P.Step>
    requires Legal(w, steps, f)
    decreases |steps|
  {
    if steps == [] then []
    else
      var before := steps[..|steps| - 1];
      PipeSteps(w, before, f)
      + match PipeStep(After(w, before, f), steps[|steps| - 1], f)
        case Some(s) => [s]
        case None => []
  }

  lemma {:induction false} PipelineRuns(ids: seq<int>, steps: seq<Step>, f: nat)
    requires |ids| >= 1 && Legal(Boot(ids), steps, f)
    ensures P.Legal(P.Boot(|ids|), PipeSteps(Boot(ids), steps, f), f)
    ensures P.After(P.Boot(|ids|), PipeSteps(Boot(ids), steps, f), f) == After(Boot(ids), steps, f).pipe
  {
    hide C.Next, P.Next, C.Enabled, P.Enabled, C.Outcome, P.Boot, C.Boot;
    if steps == [] {
      BootParts(ids);
    } else {
      var before := steps[..|steps| - 1];
      PipelineRuns(ids, before, f);
      var init := PipeSteps(Boot(ids), before, f);
      match PipeStep(After(Boot(ids), before, f), steps[|steps| - 1], f)
      case Some(s) => assert (init + [s])[..|init|] == init;
      case None => assert init + [] == init;
    }
  }

  lemma BootParts(ids: seq<int>)
    requires |ids| >= 1
    ensures Boot(ids).pipe == P.Boot(|ids|) && Boot(ids).cert == C.Boot(ids)
  {
  }
}
