# Envelope step-dependency graph engine, in Dafny

This project models the pure graph logic under `StepUtils` in Envelope, a
pipeline orchestrator. A pipeline is a set of named steps. Each step is a
batch, streaming or loop step. It declares the names of the steps it depends
on and carries a lifecycle state (WAITING, SUBMITTED, FINISHED). The engine
answers these questions about such a set:

- have all steps been submitted;
- which steps a step depends on, and which depend on it, directly or transitively;
- which steps are streaming steps, and which are data steps;
- which steps can run once, ahead of every streaming step;
- which step has a given name;
- how to copy or reset a whole set;
- how to render the names;
- how to splice a loaded sub-pipeline in place of a step.

The implementation of `StepUtils` is not part of this model. Its behaviour is
taken from the unit tests in `TestStepUtils.java`. Apart from the splice, each
query's fixture and expected result come from those tests. The splice test
reads its steps and expected result from configuration files that are not part
of this model, so the splice rule below is the model's own choice.

Modules:

- `Wrappers` (wrappers.dfy): `Option` and `Result`.
- `Steps` (steps.dfy): the `Step` value (name, kind, dependency names, state,
  data flag, generation), its setters, `Names` and `UniqueNames`.
- `StepUtils` (step_utils.dfy): the queries and the lemmas that characterise them.
- `StepMerge` (step_merge.dfy): `mergeLoadedSteps` as a pure graph rewrite.
- `StepUtilsScenarios` (step_utils_scenarios.dfy): each query test's fixture,
  with the exact sets the test expects proved about the model.
- `StepMergeScenarios` (step_merge_scenarios.dfy): constructed instances of the
  model's splice rule. They are not fixtures of the splice test.

Steps are values. The class a step is constructed as fixes its kind, and
configuration never changes it. Line 266 configures `StreamingStep("step4")`
with an empty configuration, and it still counts as streaming at line 278.
The model assumes names are unique within a step set, an invariant that
callers keep. It states this as `UniqueNames`. The `generation` field
stands for object identity. `copySteps` must return objects that are not
identical to any original (line 367). The model therefore takes a generation
that no original carries as a parameter, standing for the allocator's
guarantee that `new` returns a fresh object.

`getIndependentNonStreamingSteps` uses the transitive reading. It leaves out
every streaming step and every step that depends on one through any chain of
dependencies. `IndependentNonStreamingStepsSound` and
`IndependentNonStreamingStepsGreatest` prove the result is exactly the largest
subset of the steps that holds no streaming step and is closed under
dependencies. The fixture at lines 248-278 cannot tell the transitive reading
from the direct one, because every excluded batch step there names a
streaming step directly.

The dependent closure is a fixpoint. Each round adds the immediate dependents
of the steps found so far, and the closure stops when a round adds nothing.
It terminates on any graph because every round that continues adds a step of
a finite set. It is characterised in three ways:

- the least set that holds the immediate dependents and is closed under dependents;
- the recursive reading (immediate dependents plus all their dependents);
- in an acyclic graph (one with a rank on steps that every edge increases), a
  step is never among its own dependents.

## Model

| member | source | states |
|---|---|---|
| `Steps.NewStep` | core/src/test/java/com/cloudera/labs/envelope/utils/TestStepUtils.java:326-329 | `new BatchStep(name)`, `new StreamingStep(name)`, `new LoopStep(name)`: the step has that name and variant, no dependencies, WAITING and no data |
| `Steps.Configure` | core/src/test/java/com/cloudera/labs/envelope/utils/TestStepUtils.java:260-274 | `configure`: the dependency names become the configured ones and the state WAITING; name, variant, identity and data are kept |
| `StepUtils.AllStepsSubmitted` | core/src/test/java/com/cloudera/labs/envelope/utils/TestStepUtils.java:43-102 | `allStepsSubmitted`: false exactly when some step is still WAITING |
| `StepUtils.AllStepsSubmittedIff` | core/src/test/java/com/cloudera/labs/envelope/utils/TestStepUtils.java:43-102 | the round is complete exactly when every step is SUBMITTED or FINISHED, and incomplete exactly when some step is still WAITING |
| `StepUtilsScenarios.AllStepsSubmittedScenarios` | core/src/test/java/com/cloudera/labs/envelope/utils/TestStepUtils.java:43-102 | the four two-step fixtures: both SUBMITTED or both FINISHED is complete; one left WAITING is not |
| `StepUtils.ResetStepsNotSubmitted` | core/src/test/java/com/cloudera/labs/envelope/utils/TestStepUtils.java:318-322 | after a reset, a non-empty set is no longer fully submitted |
| `StepUtils.Dependencies` | core/src/test/java/com/cloudera/labs/envelope/utils/TestStepUtils.java:117-130 | `getDependencies`: only steps of the set, and their names are exactly the declared names that resolve in the set |
| `StepUtils.DependenciesCount` | core/src/test/java/com/cloudera/labs/envelope/utils/TestStepUtils.java:117-130 | the dependencies found are one step per declared name that resolves in the set; none when the step declares none; exactly as many as declared when all resolve |
| `StepUtils.ImmediateDependentSteps` | core/src/test/java/com/cloudera/labs/envelope/utils/TestStepUtils.java:234-244 | `getImmediateDependentSteps`: only steps of the set; which ones is stated by `DependencyEdgeDuality` |
| `StepUtils.DependencyEdgeDuality` | core/src/test/java/com/cloudera/labs/envelope/utils/TestStepUtils.java:234-244 | b is an immediate dependent of a exactly when a is a dependency of b |
| `StepUtilsScenarios.GetDependenciesScenario` | core/src/test/java/com/cloudera/labs/envelope/utils/TestStepUtils.java:105-130 | step1, step2, step3 have dependencies {}, {step1}, {step1, step2}, of sizes 0, 1, 2 |
| `StepUtilsScenarios.GetImmediateDependentStepsScenario` | core/src/test/java/com/cloudera/labs/envelope/utils/TestStepUtils.java:222-244 | on the chain step1 <- step2 <- step3 the immediate dependents are {step2}, {step3}, {} |
| `StepUtils.DependentClosure` | core/src/test/java/com/cloudera/labs/envelope/utils/TestStepUtils.java:199-218 | the fixpoint contains its start, stays inside the step set and is closed under dependents, on any graph |
| `StepUtils.DependentClosureLeast` | core/src/test/java/com/cloudera/labs/envelope/utils/TestStepUtils.java:199-218 | the fixpoint lies inside every set that contains its start and is closed under dependents |
| `StepUtils.AllDependentSteps` | core/src/test/java/com/cloudera/labs/envelope/utils/TestStepUtils.java:199-218 | all dependents are steps of the set, include the immediate dependents and are closed under dependents |
| `StepUtils.AllDependentStepsLeast` | core/src/test/java/com/cloudera/labs/envelope/utils/TestStepUtils.java:199-218 | all dependents form the least such set, that is, the transitive closure of immediate dependents |
| `StepUtils.AllDependentStepsUnfold` | core/src/test/java/com/cloudera/labs/envelope/utils/TestStepUtils.java:199-218 | the dependents of a step are its immediate dependents together with all dependents of each of them |
| `StepUtils.AllDependentStepsOfSink` | core/src/test/java/com/cloudera/labs/envelope/utils/TestStepUtils.java:209-218 | a step nothing depends on has no dependents |
| `StepUtils.AllDependentStepsExcludeSelf` | core/src/test/java/com/cloudera/labs/envelope/utils/TestStepUtils.java:199-218 | in an acyclic graph the queried step is never among its own dependents |
| `StepUtils.AllDependentStepsStayInComponent` | core/src/test/java/com/cloudera/labs/envelope/utils/TestStepUtils.java:184-217 | adding steps that depend on nothing in a component leaves the dependents of its steps unchanged and inside the component |
| `StepUtilsScenarios.GetAllDependentStepsScenario` | core/src/test/java/com/cloudera/labs/envelope/utils/TestStepUtils.java:176-218 | on the chain 1 <- 2 <- 3 <- 4 beside the pair 5 <- 6 the dependents are {2,3,4}, {3,4}, {4}, {}, {6}, {} |
| `StepUtilsScenarios.GetAllDependentStepsSizes` | core/src/test/java/com/cloudera/labs/envelope/utils/TestStepUtils.java:206-211 | the sizes of those dependent sets are 3, 2, 1 and 1 |
| `StepUtils.HasStreamingStep` | core/src/test/java/com/cloudera/labs/envelope/utils/TestStepUtils.java:134-157 | `hasStreamingStep`: true exactly when the set of streaming steps is non-empty |
| `StepUtils.StreamingSteps` | core/src/test/java/com/cloudera/labs/envelope/utils/TestStepUtils.java:161-173 | `getStreamingSteps`: only steps of the set, and every step left out is a batch or loop step; `DataStepsPartition` adds that they are data steps |
| `StepUtils.HasStreamingStepIff` | core/src/test/java/com/cloudera/labs/envelope/utils/TestStepUtils.java:134-158 | there is a streaming step exactly when the set of streaming steps is non-empty |
| `StepUtils.StreamingStepsIgnoreBatch` | core/src/test/java/com/cloudera/labs/envelope/utils/TestStepUtils.java:160-174 | adding batch steps changes neither the streaming steps nor whether there is one |
| `StepUtilsScenarios.StreamingScenarios` | core/src/test/java/com/cloudera/labs/envelope/utils/TestStepUtils.java:133-174 | a batch step with a streaming step has a streaming step and two batch steps do not; the streaming steps are {} and then {step2} |
| `StepUtils.DataSteps` | core/src/test/java/com/cloudera/labs/envelope/utils/TestStepUtils.java:326-335 | `getDataSteps`: a step of the set is kept exactly when it is a batch or streaming step |
| `StepUtils.DataStepsPartition` | core/src/test/java/com/cloudera/labs/envelope/utils/TestStepUtils.java:326-336 | data steps and loop steps split the set; streaming steps are data steps; the non-streaming data steps are the batch steps |
| `StepUtilsScenarios.GetDataStepsScenario` | core/src/test/java/com/cloudera/labs/envelope/utils/TestStepUtils.java:325-336 | of a batch, a streaming and a loop step, the data steps are the batch and the streaming one |
| `StepUtils.StreamingTaintSpreads` | core/src/test/java/com/cloudera/labs/envelope/utils/TestStepUtils.java:266-275 | a step that names a streaming step, or a step depending on one, itself depends on a streaming step |
| `StepUtils.IndependentNonStreamingSteps` | core/src/test/java/com/cloudera/labs/envelope/utils/TestStepUtils.java:248-278 | `getIndependentNonStreamingSteps`: a subset of the steps with no streaming step in it; `IndependentNonStreamingStepsSound` and `IndependentNonStreamingStepsGreatest` fix which subset |
| `StepUtils.IndependentNonStreamingStepsSound` | core/src/test/java/com/cloudera/labs/envelope/utils/TestStepUtils.java:248-278 | the independent steps hold no streaming step, every dependency of one is independent, and no step naming a streaming step is independent |
| `StepUtils.IndependentNonStreamingStepsGreatest` | core/src/test/java/com/cloudera/labs/envelope/utils/TestStepUtils.java:248-278 | every streaming-free subset closed under dependencies lies inside the independent steps |
| `StepUtilsScenarios.EightStreamingDependents` | core/src/test/java/com/cloudera/labs/envelope/utils/TestStepUtils.java:253-274 | in the eight-step fixture, the dependents of streaming step4 are {step5} and of streaming step6 are {step7, step8} |
| `StepUtilsScenarios.GetIndependentNonStreamingStepsScenario` | core/src/test/java/com/cloudera/labs/envelope/utils/TestStepUtils.java:247-279 | the independent non-streaming steps of the eight-step fixture are exactly {step1, step2, step3} |
| `StepUtilsScenarios.ConfigureKeepsKind` | core/src/test/java/com/cloudera/labs/envelope/utils/TestStepUtils.java:253-270 | configuring sets the dependencies and WAITING but keeps name and kind, so step4 configured empty is still streaming |
| `StepUtils.StepNamesAsString` | core/src/test/java/com/cloudera/labs/envelope/utils/TestStepUtils.java:282-297 | the result is the names of some enumeration of the steps, each exactly once, joined with ", " |
| `StepUtilsScenarios.StepNamesAsStringScenario` | core/src/test/java/com/cloudera/labs/envelope/utils/TestStepUtils.java:289-296 | for step1, step2, step3 that join is one of the six orders the test accepts |
| `StepUtils.ResetSteps` | core/src/test/java/com/cloudera/labs/envelope/utils/TestStepUtils.java:318-322 | after a reset every step is WAITING and holds no data, and the names are the same |
| `StepUtils.ResetStepsKeepsShape` | core/src/test/java/com/cloudera/labs/envelope/utils/TestStepUtils.java:300-322 | every step, whatever its prior state, is found under its name as itself made WAITING without data; kind, dependencies, identity and size are kept |
| `StepUtils.ResetStepsIdempotent` | core/src/test/java/com/cloudera/labs/envelope/utils/TestStepUtils.java:318-322 | resetting twice is resetting once |
| `StepUtilsScenarios.ResetStepsScenario` | core/src/test/java/com/cloudera/labs/envelope/utils/TestStepUtils.java:300-322 | three data steps in WAITING, SUBMITTED and FINISHED with data all end WAITING |
| `StepUtils.GetStepForName` | core/src/test/java/com/cloudera/labs/envelope/utils/TestStepUtils.java:348-350 | a step is returned exactly when the name is present, and it is the step of the set with that name |
| `StepUtilsScenarios.GetStepForNameScenario` | core/src/test/java/com/cloudera/labs/envelope/utils/TestStepUtils.java:339-351 | step1, step2, step3 are each found as the batch, streaming and loop step constructed with that name |
| `StepUtils.CopySteps` | core/src/test/java/com/cloudera/labs/envelope/utils/TestStepUtils.java:363-373 | no copy is identical to any original, and the copies carry exactly the original names |
| `StepUtils.CopyStepsLookup` | core/src/test/java/com/cloudera/labs/envelope/utils/TestStepUtils.java:363-373 | every original name is found in the copy, on a step with the same kind and dependencies, and the copy has as many steps |
| `StepUtilsScenarios.CopyStepsScenario` | core/src/test/java/com/cloudera/labs/envelope/utils/TestStepUtils.java:354-374 | copies of a batch, a streaming and a loop step are all distinct from the originals and are all found by name |
| `StepMerge.MergeLoadedSteps` | core/src/test/java/com/cloudera/labs/envelope/utils/TestStepUtils.java:382-392 | a loaded name already in the base is an error carrying the colliding names; otherwise the merged names are the base names without the parent plus the loaded names |
| `StepMerge.MergeLoadedStepsShape` | core/src/test/java/com/cloudera/labs/envelope/utils/TestStepUtils.java:387-389 | the merged set has unique names, no step named like the parent, and one step fewer than base and loaded together |
| `StepMerge.MergedBaseStepWiring` | core/src/test/java/com/cloudera/labs/envelope/utils/TestStepUtils.java:388-392 | a base step is unchanged if it did not depend on the parent; otherwise it waits on the loaded leaves instead of the parent; every other dependency and field is kept and the parent is no longer named |
| `StepMerge.MergeKeepsBaseStep` | core/src/test/java/com/cloudera/labs/envelope/utils/TestStepUtils.java:388-392 | every base step other than the parent is found in the merged set under its name, as its rewired form |
| `StepMerge.MergeAddsLoadedStep` | core/src/test/java/com/cloudera/labs/envelope/utils/TestStepUtils.java:388-392 | each loaded step is found under its name; entry points also wait on the parent's dependencies, other loaded steps are unchanged |
| `StepMergeScenarios.MergeLoadedStepsScenario` | core/src/test/java/com/cloudera/labs/envelope/utils/TestStepUtils.java:380-382 | on a constructed instance, splicing A <- B in place of a parent between upstream and downstream gives {upstream, A on upstream, B, downstream on B} |
| `StepMergeScenarios.MergeCollisionScenario` | core/src/test/java/com/cloudera/labs/envelope/utils/TestStepUtils.java:380-382 | on a constructed instance, a loaded step named like a base step makes the merge fail |

## Left out

- Dataset handles: the Spark `emptyDataFrame` of lines 308-310 is an engine object. A step's data is modelled only as the flag `hasData`.
- Configuration parsing: `ConfigFactory` and `ConfigValueFactory` are the Typesafe Config library. StepUtils' own `extractSteps` (line 379) builds steps from such documents, and `input.translator` (lines 140, 331) is a step setting. None of them is modelled, because the model has no configuration documents. `configure` is modelled as "set the dependency names and go back to WAITING" (`Configure`).
- Config loader: `TestingConfigLoader` (lines 395-403) and the resource files base.conf, merged.conf and loaded.conf are not part of this model. `MergeLoadedSteps` takes the loaded steps as a parameter.
- StepMerge.MergeLoadedSteps: the test compares the result with configuration files that are not part of this model, so the cited lines back only the shape (size and names). The rewiring is the model's own rule: loaded entry points also wait on the parent's dependencies, the parent's dependents wait on the loaded leaves instead of the parent, and a loaded name equal to any base name, the parent's included, is an error. Two edge cases of this rule: with an empty loaded set the parent's dependents lose the parent and gain nothing, so they no longer wait on what the parent waited on; and a loaded entry point that names the parent keeps that dependency name after the parent is removed.
- StepMerge.MergedBaseStepWiring: states the model's own rewiring rule for the parent's dependents; the cited test cannot confirm it.
- StepMerge.MergeKeepsBaseStep: the lookup by name matches line 389; the rewired form found is the model's own rule.
- StepMerge.MergeAddsLoadedStep: the lookup by name matches line 389; the extra dependencies of entry points are the model's own rule.
- StepMergeScenarios.MergeLoadedStepsScenario: a constructed instance of the splice rule; the test's own fixture and expected result are in configuration files that are not part of this model.
- StepMergeScenarios.MergeCollisionScenario: a constructed instance; the splice test has no collision case.
- StepUtils.CopySteps: the model's copies start WAITING without data. The test checks only identity and names. Object identity is modelled by the `generation` field, and the fresh identity is a parameter.
- StepUtils.ResetSteps: the model's reset also discards the data flag; the test checks only the states. The test observes the reset as an in-place change, through its own references to the steps at lines 320-322. The model returns a new set instead, so a step set obtained earlier (from `getDependencies` or `getDataSteps`, say) still holds the unreset steps.
- StepUtils.GetStepForName: requires unique names. The model picks the step with a let-such-that, and Dafny accepts that in a compiled function only when the value picked is unique, which `UniqueNames` guarantees. The model does not describe a set with two steps of one name.
- StepUtils.ImmediateDependentSteps: its own contract says only that the result lies in the set. The one-edge duality with `Dependencies` is the lemma `DependencyEdgeDuality`, kept out of the function's contract because there it makes the fixture proofs too expensive.
- StepUtils.AllDependentStepsExcludeSelf: requires an acyclic graph. The model's closure still terminates on a cyclic graph; how the source behaves there is not visible.
- StepUtils.IndependentNonStreamingSteps: the transitive reading. The only fixture does not separate it from the direct reading. `IndependentNonStreamingStepsSound` proves the direct exclusion as a consequence.
- `setData` is called only through `DataStep` references (lines 301-310), and the model never gives a loop step data, so `SetData` requires a data step.
- Execution order, the driver that submits ready steps, and concurrency between rounds are outside this engine.
