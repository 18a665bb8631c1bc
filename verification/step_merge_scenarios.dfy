/** Constructed instances of the splice rule: a two-step sub-pipeline A <- B
    in place of a step `parent` that sits between `upstream` and
    `downstream`, and a loaded step that reuses a base name. */
module StepMergeScenarios {
  import opened Wrappers
  import opened Steps
  import opened StepMerge

  const Upstream := Configured("upstream", Batch, {})
  const Parent := Configured("parent", Batch, {"upstream"})
  const Downstream := Configured("downstream", Batch, {"parent"})
  const LoadedA := Configured("A", Batch, {})
  const LoadedB := Configured("B", Batch, {"A"})

  function BaseSteps(): set<Step>
  {
    {Parent, Upstream, Downstream}
  }

  function SubPipeline(): set<Step>
  {
    {LoadedA, LoadedB}
  }

  lemma SubPipelineEnds()
    ensures LoadedRoots(SubPipeline()) == {LoadedA}
    ensures LoadedLeaves(SubPipeline()) == {LoadedB}
    ensures Names(SubPipeline()) == {"A", "B"}
  {
  }

  lemma BaseNames()
    ensures Names(BaseSteps()) == {"parent", "upstream", "downstream"}
  {
  }

  lemma KeptScenario()
    ensures KeptSteps(BaseSteps(), Parent, SubPipeline()) == {Upstream, Downstream.(deps := {"B"})}
  {
    SubPipelineEnds();
    assert Names(LoadedLeaves(SubPipeline())) == {"B"};
    assert MergedBaseStep(Upstream, Parent, SubPipeline()) == Upstream;
    assert Downstream.deps - {"parent"} + {"B"} == {"B"};
    assert MergedBaseStep(Downstream, Parent, SubPipeline()) == Downstream.(deps := {"B"});
  }

  lemma AddedScenario()
    ensures AddedSteps(Parent, SubPipeline()) == {LoadedA.(deps := {"upstream"}), LoadedB}
  {
    SubPipelineEnds();
    assert MergedLoadedStep(LoadedA, Parent, SubPipeline()) == LoadedA.(deps := {"upstream"});
    assert !(LoadedB.deps !! Names(SubPipeline()));
    assert MergedLoadedStep(LoadedB, Parent, SubPipeline()) == LoadedB;
  }

  lemma MergeLoadedStepsScenario()
    ensures MergeLoadedSteps(BaseSteps(), Parent, SubPipeline()) ==
      Success({Upstream, LoadedA.(deps := {"upstream"}), LoadedB, Downstream.(deps := {"B"})})
  {
    SubPipelineEnds();
    BaseNames();
    assert Names(SubPipeline()) * Names(BaseSteps()) == {};
    KeptScenario();
    AddedScenario();
    assert MergeLoadedSteps(BaseSteps(), Parent, SubPipeline()) ==
      Success(KeptSteps(BaseSteps(), Parent, SubPipeline()) + AddedSteps(Parent, SubPipeline()));
    assert {Upstream, Downstream.(deps := {"B"})} + {LoadedA.(deps := {"upstream"}), LoadedB} ==
      {Upstream, LoadedA.(deps := {"upstream"}), LoadedB, Downstream.(deps := {"B"})};
  }

  /** A loaded step reusing a base name is refused rather than overwriting. */
  lemma MergeCollisionScenario()
    ensures MergeLoadedSteps(BaseSteps(), Parent, {Configured("upstream", Batch, {})}).Failure?
  {
  }
}
