/** Splicing a loaded sub-pipeline into a step set in place of the step that
    loads it. The loaded steps are given as a parameter: fetching and parsing
    the sub-pipeline's configuration are not part of this model. */
module StepMerge {
  import opened Wrappers
  import opened Steps
  import opened StepUtils

  datatype MergeError = NameCollision(names: set<string>)

  /** The entry points of the sub-pipeline: loaded steps that depend on no
      other loaded step. */
  function LoadedRoots(loaded: set<Step>): set<Step>
  {
    set l | l in loaded && l.deps !! Names(loaded)
  }

  /** The outputs of the sub-pipeline: loaded steps no loaded step depends on. */
  function LoadedLeaves(loaded: set<Step>): set<Step>
  {
    set l | l in loaded && forall m | m in loaded :: l.name !in m.deps
  }

  /** A base step after the merge: a dependent of the parent waits on the
      sub-pipeline's outputs instead of the parent. */
  function MergedBaseStep(b: Step, parent: Step, loaded: set<Step>): Step
  {
    if parent.name in b.deps then b.(deps := b.deps - {parent.name} + Names(LoadedLeaves(loaded)))
    else b
  }

  /** A loaded step after the merge: an entry point also waits on what the
      parent waited on. */
  function MergedLoadedStep(l: Step, parent: Step, loaded: set<Step>): Step
  {
    if l.deps !! Names(loaded) then l.(deps := l.deps + parent.deps)
    else l
  }

  /** The base steps other than the parent, rewired. */
  function KeptSteps(base: set<Step>, parent: Step, loaded: set<Step>): (r: set<Step>)
    ensures Names(r) == Names(base) - {parent.name}
  {
    var r := set b | b in base && b.name != parent.name :: MergedBaseStep(b, parent, loaded);
    assert Names(r) == Names(base) - {parent.name} by {
      forall n | n in Names(base) - {parent.name}
        ensures n in Names(r)
      {
        var b :| b in base && b.name == n;
        assert MergedBaseStep(b, parent, loaded) in r;
      }
    }
    r
  }

  /** The loaded steps, rewired. */
  function AddedSteps(parent: Step, loaded: set<Step>): (r: set<Step>)
    ensures Names(r) == Names(loaded)
  {
    var r := set l | l in loaded :: MergedLoadedStep(l, parent, loaded);
    assert Names(r) == Names(loaded) by {
      forall n | n in Names(loaded)
        ensures n in Names(r)
      {
        var l :| l in loaded && l.name == n;
        assert MergedLoadedStep(l, parent, loaded) in r;
      }
    }
    r
  }

  /** The base steps without the parent, rewired, together with the loaded
      steps, rewired; a loaded name already used in the base is an error. */
  function MergeLoadedSteps(base: set<Step>, parent: Step, loaded: set<Step>): (r: Result<set<Step>, MergeError>)
    ensures r.Failure? <==> Names(loaded) * Names(base) != {}
    ensures r.Failure? ==> r.error == NameCollision(Names(loaded) * Names(base))
    ensures r.Success? ==> Names(r.value) == (Names(base) - {parent.name}) + Names(loaded)
  {
    var collisions := Names(loaded) * Names(base);
    if collisions != {} then
      Failure(NameCollision(collisions))
    else
      var merged := KeptSteps(base, parent, loaded) + AddedSteps(parent, loaded);
      assert Names(merged) == Names(KeptSteps(base, parent, loaded)) + Names(AddedSteps(parent, loaded));
      Success(merged)
  }

  /** The conditions under which the merge lemmas apply: unique names on both
      sides, the parent in the base, and no loaded name already used in the
      base. */
  ghost predicate MergeReady(base: set<Step>, parent: Step, loaded: set<Step>)
  {
    && UniqueNames(base) && UniqueNames(loaded) && parent in base
    && Names(loaded) !! Names(base)
  }

  /** Two step sets with unique names and no name in common have a union
      with unique names. */
  lemma UniqueNamesUnion(a: set<Step>, b: set<Step>)
    requires UniqueNames(a) && UniqueNames(b) && Names(a) !! Names(b)
    ensures UniqueNames(a + b)
  {
    forall x, y | x in a + b && y in a + b && x.name == y.name
      ensures x == y
    {
      assert x in a ==> x.name in Names(a);
      assert x in b ==> x.name in Names(b);
      assert y in a ==> y.name in Names(a);
      assert y in b ==> y.name in Names(b);
    }
  }

  lemma KeptStepsUnique(base: set<Step>, parent: Step, loaded: set<Step>)
    requires UniqueNames(base)
    ensures UniqueNames(KeptSteps(base, parent, loaded))
  {
  }

  lemma AddedStepsUnique(parent: Step, loaded: set<Step>)
    requires UniqueNames(loaded)
    ensures UniqueNames(AddedSteps(parent, loaded))
  {
  }

  /** The merged set has unique names and one step fewer than the base plus
      the loaded steps, and the parent's name is gone. */
  lemma MergeLoadedStepsShape(base: set<Step>, parent: Step, loaded: set<Step>)
    requires MergeReady(base, parent, loaded)
    ensures MergeLoadedSteps(base, parent, loaded).Success?
    ensures UniqueNames(MergeLoadedSteps(base, parent, loaded).value)
    ensures parent.name !in Names(MergeLoadedSteps(base, parent, loaded).value)
    ensures |MergeLoadedSteps(base, parent, loaded).value| == |base| - 1 + |loaded|
  {
    var kept := KeptSteps(base, parent, loaded);
    var added := AddedSteps(parent, loaded);
    var merged := MergeLoadedSteps(base, parent, loaded).value;
    assert merged == kept + added;
    KeptStepsUnique(base, parent, loaded);
    AddedStepsUnique(parent, loaded);
    UniqueNamesUnion(kept, added);
    MergeSize(base, parent, loaded, merged);
  }

  lemma MergeSize(base: set<Step>, parent: Step, loaded: set<Step>, merged: set<Step>)
    requires UniqueNames(base) && UniqueNames(loaded) && UniqueNames(merged)
    requires parent in base && Names(loaded) !! Names(base)
    requires Names(merged) == (Names(base) - {parent.name}) + Names(loaded)
    ensures |merged| == |base| - 1 + |loaded|
  {
    UniqueNamesCard(base);
    UniqueNamesCard(loaded);
    UniqueNamesCard(merged);
    var kept := Names(base) - {parent.name};
    assert parent.name in Names(base);
    assert |kept| == |Names(base)| - 1;
    assert kept !! Names(loaded);
    assert |kept + Names(loaded)| == |kept| + |Names(loaded)|;
  }

  /** A base step after the merge: unchanged when it did not depend on the
      parent, and otherwise waiting on the sub-pipeline's outputs in place of
      the parent, with every other dependency and every other field kept. It
      no longer names the parent. */
  lemma MergedBaseStepWiring(b: Step, parent: Step, loaded: set<Step>)
    requires parent.name !in Names(loaded)
    ensures parent.name !in b.deps ==> MergedBaseStep(b, parent, loaded) == b
    ensures parent.name in b.deps ==>
      MergedBaseStep(b, parent, loaded).deps == b.deps - {parent.name} + Names(LoadedLeaves(loaded))
    ensures b.deps - {parent.name} <= MergedBaseStep(b, parent, loaded).deps
    ensures parent.name !in MergedBaseStep(b, parent, loaded).deps
    ensures MergedBaseStep(b, parent, loaded).(deps := b.deps) == b
  {
    assert Names(LoadedLeaves(loaded)) <= Names(loaded);
  }

  /** Every base step other than the parent is found in the merged set under
      its name, rewired as `MergedBaseStepWiring` describes. */
  lemma MergeKeepsBaseStep(base: set<Step>, parent: Step, loaded: set<Step>, b: Step)
    requires MergeReady(base, parent, loaded)
    requires b in base && b.name != parent.name
    ensures MergeLoadedSteps(base, parent, loaded).Success?
    ensures UniqueNames(MergeLoadedSteps(base, parent, loaded).value)
    ensures GetStepForName(b.name, MergeLoadedSteps(base, parent, loaded).value)
            == Some(MergedBaseStep(b, parent, loaded))
  {
    MergeLoadedStepsShape(base, parent, loaded);
    assert MergedBaseStep(b, parent, loaded) in MergeLoadedSteps(base, parent, loaded).value;
  }

  /** Every loaded step is added under its name: an entry point of the
      sub-pipeline also waits on the parent's dependencies, the others are
      added unchanged. */
  lemma MergeAddsLoadedStep(base: set<Step>, parent: Step, loaded: set<Step>, l: Step)
    requires MergeReady(base, parent, loaded)
    requires l in loaded
    ensures MergeLoadedSteps(base, parent, loaded).Success?
    ensures UniqueNames(MergeLoadedSteps(base, parent, loaded).value)
    ensures GetStepForName(l.name, MergeLoadedSteps(base, parent, loaded).value)
            == Some(MergedLoadedStep(l, parent, loaded))
    ensures l in LoadedRoots(loaded) ==> MergedLoadedStep(l, parent, loaded).deps == l.deps + parent.deps
    ensures l !in LoadedRoots(loaded) ==> MergedLoadedStep(l, parent, loaded) == l
  {
    MergeLoadedStepsShape(base, parent, loaded);
    assert MergedLoadedStep(l, parent, loaded) in MergeLoadedSteps(base, parent, loaded).value;
  }
}
