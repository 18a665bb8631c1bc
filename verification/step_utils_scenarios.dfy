/** The concrete step sets of the StepUtils unit tests and the exact results
    those tests expect, proved about the model. */
module StepUtilsScenarios {
  import opened Wrappers
  import opened Steps
  import opened StepUtils

  /** Configuring never changes the variant: a streaming step configured
      with an empty configuration is still streaming. */
  lemma ConfigureKeepsKind(s: Step, deps: set<string>)
    ensures Configure(s, deps).kind == s.kind && Configure(s, deps).name == s.name
    ensures Configure(s, deps).deps == deps && Configure(s, deps).state == Waiting
    ensures Configured("step4", Streaming, {}).IsStreaming()
  {
  }

  // ---------------------------------------------------------------------
  // allStepsSubmitted
  // ---------------------------------------------------------------------

  function TwoBatchSteps(first: StepState, second: StepState): set<Step>
  {
    {SetState(Configured("step1", Batch, {}), first),
     SetState(Configured("step2", Batch, {}), second)}
  }

  lemma AllStepsSubmittedScenarios()
    ensures AllStepsSubmitted(TwoBatchSteps(Submitted, Submitted))
    ensures !AllStepsSubmitted(TwoBatchSteps(Submitted, Waiting))
    ensures AllStepsSubmitted(TwoBatchSteps(Finished, Finished))
    ensures !AllStepsSubmitted(TwoBatchSteps(Finished, Waiting))
  {
  }

  // ---------------------------------------------------------------------
  // getDependencies
  // ---------------------------------------------------------------------

  lemma GetDependenciesScenario()
    ensures var s1 := Configured("step1", Batch, {});
            var s2 := SetDependencyNames(Configured("step2", Batch, {}), {"step1"});
            var s3 := SetDependencyNames(Configured("step3", Batch, {}), {"step1", "step2"});
            var steps := {s1, s2, s3};
            && Dependencies(s1, steps) == {}
            && Dependencies(s2, steps) == {s1}
            && Dependencies(s3, steps) == {s1, s2}
            && |Dependencies(s1, steps)| == 0
            && |Dependencies(s2, steps)| == 1
            && |Dependencies(s3, steps)| == 2
  {
  }

  // ---------------------------------------------------------------------
  // hasStreamingStep, getStreamingSteps, getDataSteps
  // ---------------------------------------------------------------------

  lemma StreamingScenarios()
    ensures var b1 := Configured("step1", Batch, {});
            var b2 := Configured("step2", Batch, {});
            var st2 := Configured("step2", Streaming, {});
            && HasStreamingStep({b1, st2})
            && !HasStreamingStep({b1, b2})
            && StreamingSteps({b1}) == {}
            && StreamingSteps({b1, st2}) == {st2}
  {
  }

  lemma GetDataStepsScenario()
    ensures var s1 := Configured("step1", Batch, {});
            var s2 := Configured("step2", Streaming, {});
            var s3 := Configured("step3", Loop, {});
            DataSteps({s1, s2, s3}) == {s1, s2}
  {
  }

  // ---------------------------------------------------------------------
  // getImmediateDependentSteps and getAllDependentSteps
  // ---------------------------------------------------------------------

  const Chain1 := Configured("step1", Batch, {})
  const Chain2 := Configured("step2", Batch, {"step1"})
  const Chain3 := Configured("step3", Batch, {"step2"})
  const Chain4 := Configured("step4", Batch, {"step3"})
  const Pair5 := Configured("step5", Batch, {})
  const Pair6 := Configured("step6", Batch, {"step5"})

  lemma GetImmediateDependentStepsScenario()
    ensures var steps := {Chain1, Chain2, Chain3};
            && ImmediateDependentSteps(Chain1, steps) == {Chain2}
            && ImmediateDependentSteps(Chain2, steps) == {Chain3}
            && ImmediateDependentSteps(Chain3, steps) == {}
  {
  }

  /** Following one dependent edge from a step that has exactly one. */
  lemma AllDependentStepsThroughOnly(step: Step, next: Step, steps: set<Step>)
    requires ImmediateDependentSteps(step, steps) == {next}
    ensures AllDependentSteps(step, steps) == {next} + AllDependentSteps(next, steps)
  {
    AllDependentStepsUnfold(step, steps);
    var u := set t, v | t in ImmediateDependentSteps(step, steps) && v in AllDependentSteps(t, steps) :: v;
    assert u == AllDependentSteps(next, steps);
  }

  function ChainSteps(): set<Step>
  {
    {Chain1, Chain2, Chain3, Chain4, Pair5, Pair6}
  }

  lemma ChainSinks()
    ensures ImmediateDependentSteps(Chain4, ChainSteps()) == {}
    ensures ImmediateDependentSteps(Pair6, ChainSteps()) == {}
  {
  }

  lemma ChainEdge1()
    ensures ImmediateDependentSteps(Chain1, ChainSteps()) == {Chain2}
  {
  }

  lemma ChainEdge2()
    ensures ImmediateDependentSteps(Chain2, ChainSteps()) == {Chain3}
  {
  }

  lemma ChainEdge3()
    ensures ImmediateDependentSteps(Chain3, ChainSteps()) == {Chain4}
  {
  }

  lemma ChainEdge5()
    ensures ImmediateDependentSteps(Pair5, ChainSteps()) == {Pair6}
  {
  }

  // The step set is a parameter equal to the fixture rather than the fixture
  // itself: on a literal argument the verifier keeps unfolding the closure's
  // fixpoint, so these lemmas instead go through the per-edge lemmas above.
  /** `steps` is the chain step1 <- step2 <- step3 <- step4 beside the pair
      step5 <- step6. */
  lemma GetAllDependentStepsScenario(steps: set<Step>)
    requires steps == ChainSteps()
    ensures AllDependentSteps(Chain1, steps) == {Chain2, Chain3, Chain4}
    ensures AllDependentSteps(Chain2, steps) == {Chain3, Chain4}
    ensures AllDependentSteps(Chain3, steps) == {Chain4}
    ensures AllDependentSteps(Chain4, steps) == {}
    ensures AllDependentSteps(Pair5, steps) == {Pair6}
    ensures AllDependentSteps(Pair6, steps) == {}
  {
    ChainTailDependents(steps);
    ChainHeadDependents(steps);
  }

  /** The first two steps of the chain, one edge at a time from the tail. */
  lemma ChainHeadDependents(steps: set<Step>)
    requires steps == ChainSteps()
    ensures AllDependentSteps(Chain1, steps) == {Chain2, Chain3, Chain4}
    ensures AllDependentSteps(Chain2, steps) == {Chain3, Chain4}
  {
    ChainTailDependents(steps);
    ChainStep2Dependents(steps);
    ChainStep1Dependents(steps);
  }

  lemma ChainStep2Dependents(steps: set<Step>)
    requires steps == ChainSteps()
    requires AllDependentSteps(Chain3, steps) == {Chain4}
    ensures AllDependentSteps(Chain2, steps) == {Chain3, Chain4}
  {
    ChainEdge2();
    AllDependentStepsThroughOnly(Chain2, Chain3, steps);
  }

  lemma ChainStep1Dependents(steps: set<Step>)
    requires steps == ChainSteps()
    requires AllDependentSteps(Chain2, steps) == {Chain3, Chain4}
    ensures AllDependentSteps(Chain1, steps) == {Chain2, Chain3, Chain4}
  {
    ChainEdge1();
    AllDependentStepsThroughOnly(Chain1, Chain2, steps);
  }

  /** The two sinks, and the steps one edge before them. */
  lemma ChainTailDependents(steps: set<Step>)
    requires steps == ChainSteps()
    ensures AllDependentSteps(Chain3, steps) == {Chain4}
    ensures AllDependentSteps(Chain4, steps) == {}
    ensures AllDependentSteps(Pair5, steps) == {Pair6}
    ensures AllDependentSteps(Pair6, steps) == {}
  {
    ChainSinks();
    AllDependentStepsOfSink(Chain4, steps);
    AllDependentStepsOfSink(Pair6, steps);
    ChainEdge3();
    AllDependentStepsThroughOnly(Chain3, Chain4, steps);
    ChainEdge5();
    AllDependentStepsThroughOnly(Pair5, Pair6, steps);
  }

  lemma ChainDistinct()
    ensures |{Chain2, Chain3, Chain4}| == 3 && |{Chain3, Chain4}| == 2
  {
    assert Chain2.name[4] == '2' && Chain3.name[4] == '3' && Chain4.name[4] == '4';
  }

  /** The sizes the test checks alongside the sets. */
  lemma GetAllDependentStepsSizes(steps: set<Step>)
    requires steps == ChainSteps()
    ensures |AllDependentSteps(Chain1, steps)| == 3
    ensures |AllDependentSteps(Chain2, steps)| == 2
    ensures |AllDependentSteps(Chain3, steps)| == 1
    ensures |AllDependentSteps(Pair5, steps)| == 1
  {
    GetAllDependentStepsScenario(steps);
    ChainDistinct();
  }

  // ---------------------------------------------------------------------
  // getIndependentNonStreamingSteps
  // ---------------------------------------------------------------------

  const Ind1 := Configured("step1", Batch, {})
  const Ind2 := Configured("step2", Batch, {"step1"})
  const Ind3 := Configured("step3", Batch, {"step2"})
  const Ind4 := Configured("step4", Streaming, {})
  const Ind5 := Configured("step5", Batch, {"step3", "step4"})
  const Ind6 := Configured("step6", Streaming, {})
  const Ind7 := Configured("step7", Batch, {"step1", "step6"})
  const Ind8 := Configured("step8", Batch, {"step2", "step6"})

  function EightSteps(): set<Step>
  {
    {Ind1, Ind2, Ind3, Ind4, Ind5, Ind6, Ind7, Ind8}
  }

  lemma EightStreaming()
    ensures StreamingSteps(EightSteps()) == {Ind4, Ind6}
  {
  }

  lemma EightSinks()
    ensures ImmediateDependentSteps(Ind5, EightSteps()) == {}
    ensures ImmediateDependentSteps(Ind7, EightSteps()) == {}
    ensures ImmediateDependentSteps(Ind8, EightSteps()) == {}
  {
  }

  lemma EightEdge4()
    ensures ImmediateDependentSteps(Ind4, EightSteps()) == {Ind5}
  {
  }

  lemma EightEdge6()
    ensures ImmediateDependentSteps(Ind6, EightSteps()) == {Ind7, Ind8}
  {
  }

  // The step set is a parameter equal to the fixture rather than the fixture
  // itself: on a literal argument the verifier keeps unfolding the closure's
  // fixpoint, so these lemmas instead go through the per-edge lemmas above.
  /** step5 depends on streaming step4, step7 and step8 on streaming step6,
      and nothing else depends on a streaming step. */
  lemma EightStreamingDependents(steps: set<Step>)
    requires steps == EightSteps()
    ensures AllDependentSteps(Ind4, steps) == {Ind5}
    ensures AllDependentSteps(Ind6, steps) == {Ind7, Ind8}
  {
    EightSinks();
    AllDependentStepsOfSink(Ind5, steps);
    AllDependentStepsOfSink(Ind7, steps);
    AllDependentStepsOfSink(Ind8, steps);
    EightEdge4();
    AllDependentStepsThroughOnly(Ind4, Ind5, steps);
    EightEdge6();
    AllDependentStepsUnfold(Ind6, steps);
  }

  lemma EightStreamingDependentSteps(steps: set<Step>)
    requires steps == EightSteps()
    ensures StreamingDependentSteps(steps) == {Ind5, Ind7, Ind8}
  {
    EightStreaming();
    EightStreamingDependents(steps);
    forall t | t in StreamingDependentSteps(steps)
      ensures t in {Ind5, Ind7, Ind8}
    {
      var u :| u in steps && u.IsStreaming() && t in AllDependentSteps(u, steps);
      assert u in StreamingSteps(steps);
    }
    assert Ind4 in steps && Ind4.IsStreaming();
    assert Ind6 in steps && Ind6.IsStreaming();
  }

  /** The batch chain and the remaining five steps are disjoint parts. */
  lemma EightSplit()
    ensures EightSteps() == {Ind1, Ind2, Ind3} + ({Ind4, Ind6} + {Ind5, Ind7, Ind8})
    ensures {Ind1, Ind2, Ind3} !! ({Ind4, Ind6} + {Ind5, Ind7, Ind8})
  {
  }

  /** Only the batch chain step1 <- step2 <- step3 is independent of both
      streaming steps. */
  lemma GetIndependentNonStreamingStepsScenario(steps: set<Step>)
    requires steps == EightSteps()
    ensures IndependentNonStreamingSteps(steps) == {Ind1, Ind2, Ind3}
  {
    EightStreaming();
    EightStreamingDependentSteps(steps);
    EightSplit();
    var low := {Ind1, Ind2, Ind3};
    var high := {Ind4, Ind6} + {Ind5, Ind7, Ind8};
    assert IndependentNonStreamingSteps(steps) == (low + high) - high;
  }

  // ---------------------------------------------------------------------
  // stepNamesAsString
  // ---------------------------------------------------------------------

  /** Joining three names in a given order. */
  lemma JoinThreeNames(order: seq<Step>)
    requires |order| == 3
    ensures JoinNames(order) == order[0].name + ", " + order[1].name + ", " + order[2].name
  {
    var p := order[..2];
    assert p[..1] == [order[0]] && p[1] == order[1];
    assert JoinNames(p) == order[0].name + ", " + order[1].name;
  }

  /** Three distinct names out of step1, step2, step3, joined with ", ". */
  lemma SixOrders(n0: string, n1: string, n2: string)
    requires n0 in {"step1", "step2", "step3"} && n1 in {"step1", "step2", "step3"}
    requires n2 in {"step1", "step2", "step3"}
    requires n0 != n1 && n0 != n2 && n1 != n2
    ensures n0 + ", " + n1 + ", " + n2 in {"step1, step2, step3", "step1, step3, step2", "step2, step1, step3",
                                           "step2, step3, step1", "step3, step1, step2", "step3, step2, step1"}
  {
    if n0 == "step1" && n1 == "step2" {
      assert n0 + ", " + n1 + ", " + n2 == "step1, step2, step3";
    } else if n0 == "step1" {
      assert n0 + ", " + n1 + ", " + n2 == "step1, step3, step2";
    } else if n0 == "step2" && n1 == "step1" {
      assert n0 + ", " + n1 + ", " + n2 == "step2, step1, step3";
    } else if n0 == "step2" {
      assert n0 + ", " + n1 + ", " + n2 == "step2, step3, step1";
    } else if n1 == "step1" {
      assert n0 + ", " + n1 + ", " + n2 == "step3, step1, step2";
    } else {
      assert n0 + ", " + n1 + ", " + n2 == "step3, step2, step1";
    }
  }

  /** An enumeration of three steps named step1, step2, step3 lists each name once. */
  lemma ThreeStepNames(order: seq<Step>)
    requires Enumerates(order, {Configured("step1", Batch, {}), Configured("step2", Batch, {}), Configured("step3", Batch, {})})
    ensures |order| == 3
    ensures order[0].name in {"step1", "step2", "step3"} && order[1].name in {"step1", "step2", "step3"}
    ensures order[2].name in {"step1", "step2", "step3"}
    ensures order[0].name != order[1].name && order[0].name != order[2].name && order[1].name != order[2].name
  {
  }

  /** Three steps render as their three names in one of the six orders. */
  lemma StepNamesAsStringScenario(order: seq<Step>)
    requires Enumerates(order, {Configured("step1", Batch, {}), Configured("step2", Batch, {}), Configured("step3", Batch, {})})
    ensures JoinNames(order) in {"step1, step2, step3", "step1, step3, step2", "step2, step1, step3",
                                 "step2, step3, step1", "step3, step1, step2", "step3, step2, step1"}
  {
    ThreeStepNames(order);
    JoinThreeNames(order);
    SixOrders(order[0].name, order[1].name, order[2].name);
  }

  // ---------------------------------------------------------------------
  // resetSteps, getStepForName, copySteps
  // ---------------------------------------------------------------------

  lemma ResetStepsScenario()
    ensures var s1 := SetState(SetData(Configured("step1", Batch, {})), Waiting);
            var s2 := SetState(SetData(Configured("step2", Batch, {})), Submitted);
            var s3 := SetState(SetData(Configured("step3", Batch, {})), Finished);
            ResetSteps({s1, s2, s3}) ==
              {Configured("step1", Batch, {}), Configured("step2", Batch, {}), Configured("step3", Batch, {})}
  {
  }

  function MixedSteps(): set<Step>
  {
    {Configured("step1", Batch, {}), Configured("step2", Streaming, {}), Configured("step3", Loop, {})}
  }

  lemma GetStepForNameScenario()
    ensures UniqueNames(MixedSteps())
    ensures GetStepForName("step1", MixedSteps()) == Some(Configured("step1", Batch, {}))
    ensures GetStepForName("step2", MixedSteps()) == Some(Configured("step2", Streaming, {}))
    ensures GetStepForName("step3", MixedSteps()) == Some(Configured("step3", Loop, {}))
  {
  }

  lemma CopyStepsScenario()
    ensures UniqueNames(CopySteps(MixedSteps(), 1))
    ensures forall c, s | c in CopySteps(MixedSteps(), 1) && s in MixedSteps() :: c != s
    ensures GetStepForName("step1", CopySteps(MixedSteps(), 1)).Some?
    ensures GetStepForName("step2", CopySteps(MixedSteps(), 1)).Some?
    ensures GetStepForName("step3", CopySteps(MixedSteps(), 1)).Some?
  {
  }
}
