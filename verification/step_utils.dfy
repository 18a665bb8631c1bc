/** Pure graph queries over a set of steps: state checks, one-edge lookups in
    both directions, the transitive dependent closure, variant filters,
    streaming isolation, name lookup, copying and resetting. */
module StepUtils {
  import opened Wrappers
  import opened Steps

  // ---------------------------------------------------------------------
  // State checks
  // ---------------------------------------------------------------------

  /** Every step has at least been submitted (SUBMITTED or FINISHED). */
  function AllStepsSubmitted(steps: set<Step>): (r: bool)
    ensures !r <==> exists s | s in steps :: s.state == Waiting
  {
    forall s | s in steps :: s.state != Waiting
  }

  /** A single WAITING step is enough to make the round incomplete, and a
      round with no WAITING step is complete. */
  lemma AllStepsSubmittedIff(steps: set<Step>)
    ensures AllStepsSubmitted(steps) <==>
      forall s | s in steps :: s.state == Submitted || s.state == Finished
    ensures !AllStepsSubmitted(steps) <==> exists s | s in steps :: s.state == Waiting
  {
  }

  // ---------------------------------------------------------------------
  // One-edge lookups
  // ---------------------------------------------------------------------

  /** The steps of `steps` that `step` names as dependencies. */
  function Dependencies(step: Step, steps: set<Step>): (r: set<Step>)
    ensures r <= steps
    ensures Names(r) == step.deps * Names(steps)
  {
    var r := set t | t in steps && t.name in step.deps;
    assert step.deps * Names(steps) <= Names(r) by {
      forall n | n in step.deps * Names(steps)
        ensures n in Names(r)
      {
        var t :| t in steps && t.name == n;
        assert t in r;
      }
    }
    r
  }

  /** The steps of `steps` that name `step` as a dependency. */
  function ImmediateDependentSteps(step: Step, steps: set<Step>): (r: set<Step>)
    ensures r <= steps
  {
    set t | t in steps && step.name in t.deps
  }

  /** The two lookups follow the same edge in opposite directions. */
  lemma DependencyEdgeDuality(a: Step, b: Step, steps: set<Step>)
    requires a in steps && b in steps
    ensures b in ImmediateDependentSteps(a, steps) <==> a in Dependencies(b, steps)
  {
  }

  /** The dependencies found are exactly the declared names that resolve in
      the set: one step per resolved name, none when nothing is declared. */
  lemma DependenciesCount(step: Step, steps: set<Step>)
    requires UniqueNames(steps)
    ensures Names(Dependencies(step, steps)) == step.deps * Names(steps)
    ensures |Dependencies(step, steps)| == |step.deps * Names(steps)|
    ensures step.deps == {} ==> Dependencies(step, steps) == {}
    ensures step.deps <= Names(steps) ==> |Dependencies(step, steps)| == |step.deps|
  {
    var d := Dependencies(step, steps);
    assert Names(d) == step.deps * Names(steps);
    UniqueNamesSubset(steps, d);
    UniqueNamesCard(d);
    if step.deps <= Names(steps) {
      assert step.deps * Names(steps) == step.deps;
    }
  }

  // ---------------------------------------------------------------------
  // Transitive dependent closure
  // ---------------------------------------------------------------------

  /** The steps of `steps` that name some step of `found` as a dependency. */
  function DependentsOf(found: set<Step>, steps: set<Step>): set<Step>
  {
    set t | t in steps && exists f | f in found :: f.name in t.deps
  }

  /** No step of `steps` depends on a step of `c` without itself being in `c`. */
  ghost predicate ClosedUnderDependents(c: set<Step>, steps: set<Step>)
  {
    forall t, u | t in c && u in steps && t.name in u.deps :: u in c
  }

  /** A proper subset is strictly smaller. */
  lemma ProperSubsetCard<T>(a: set<T>, b: set<T>)
    requires a < b
    ensures |a| < |b|
  {
    assert !(b <= a);
    var x :| x in b && x !in a;
    var c := b - {x};
    assert a + (c - a) == c;
    assert |a + (c - a)| == |a| + |c - a|;
  }

  /** Repeatedly adds the immediate dependents of the steps found so far until
      nothing new is found. Terminates on any graph, cyclic or not, because
      every round that does not stop adds a step of the finite set. */
  function DependentClosure(found: set<Step>, steps: set<Step>): (r: set<Step>)
    requires found <= steps
    ensures found <= r <= steps
    ensures ClosedUnderDependents(r, steps)
    decreases |steps - found|
  {
    var next := found + DependentsOf(found, steps);
    if next == found then
      assert ClosedUnderDependents(found, steps) by {
        forall t, u | t in found && u in steps && t.name in u.deps
          ensures u in found
        {
          assert u in DependentsOf(found, steps);
        }
      }
      found
    else
      ProperSubsetCard(steps - next, steps - found);
      DependentClosure(next, steps)
  }

  /** The closure adds nothing that is not forced: it lies inside every set
      that contains the start and is closed under dependents. */
  lemma {:induction false} DependentClosureLeast(found: set<Step>, steps: set<Step>, c: set<Step>)
    requires found <= steps && found <= c
    requires ClosedUnderDependents(c, steps)
    ensures DependentClosure(found, steps) <= c
    decreases |steps - found|
  {
    var next := found + DependentsOf(found, steps);
    if next != found {
      assert DependentsOf(found, steps) <= c;
      ProperSubsetCard(steps - next, steps - found);
      DependentClosureLeast(next, steps, c);
    }
  }

  /** Every step that depends on `step`, directly or through other steps. */
  function AllDependentSteps(step: Step, steps: set<Step>): (r: set<Step>)
    ensures r <= steps
    ensures ImmediateDependentSteps(step, steps) <= r
    ensures ClosedUnderDependents(r, steps)
  {
    DependentClosure(ImmediateDependentSteps(step, steps), steps)
  }

  /** The dependents found are the least set that holds the immediate
      dependents and is closed under dependents: the transitive closure. */
  lemma AllDependentStepsLeast(step: Step, steps: set<Step>, c: set<Step>)
    requires ImmediateDependentSteps(step, steps) <= c
    requires ClosedUnderDependents(c, steps)
    ensures AllDependentSteps(step, steps) <= c
  {
    DependentClosureLeast(ImmediateDependentSteps(step, steps), steps, c);
  }

  /** The recursive reading: the dependents of a step are its immediate
      dependents together with all dependents of each of them. */
  lemma AllDependentStepsUnfold(step: Step, steps: set<Step>)
    ensures AllDependentSteps(step, steps) ==
      ImmediateDependentSteps(step, steps) +
      (set t, u | t in ImmediateDependentSteps(step, steps) && u in AllDependentSteps(t, steps) :: u)
  {
    var imm := ImmediateDependentSteps(step, steps);
    var all := AllDependentSteps(step, steps);
    var u := imm + (set t, v | t in imm && v in AllDependentSteps(t, steps) :: v);
    assert ClosedUnderDependents(u, steps) by {
      forall x, w | x in u && w in steps && x.name in w.deps
        ensures w in u
      {
        if x in imm {
          assert w in ImmediateDependentSteps(x, steps);
          assert w in AllDependentSteps(x, steps);
        } else {
          var t :| t in imm && x in AllDependentSteps(t, steps);
          assert w in AllDependentSteps(t, steps);
        }
      }
    }
    AllDependentStepsLeast(step, steps, u);
    forall t | t in imm
      ensures AllDependentSteps(t, steps) <= all
    {
      assert ImmediateDependentSteps(t, steps) <= all;
      AllDependentStepsLeast(t, steps, all);
    }
  }

  /** A step with no immediate dependents has no dependents at all. */
  lemma AllDependentStepsOfSink(step: Step, steps: set<Step>)
    requires ImmediateDependentSteps(step, steps) == {}
    ensures AllDependentSteps(step, steps) == {}
  {
  }

  /** `rank` orders the steps so that every dependency edge goes from a lower
      to a higher rank: a witness that the graph has no cycle. */
  ghost predicate RankedBy(steps: set<Step>, rank: map<string, nat>)
  {
    && (forall t | t in steps :: t.name in rank)
    && (forall t, u | t in steps && u in steps && t.name in u.deps :: rank[t.name] < rank[u.name])
  }

  ghost predicate Acyclic(steps: set<Step>)
  {
    exists rank :: RankedBy(steps, rank)
  }

  /** In an acyclic graph no step is among its own dependents. */
  lemma AllDependentStepsExcludeSelf(step: Step, steps: set<Step>)
    requires Acyclic(steps)
    ensures step !in AllDependentSteps(step, steps)
  {
    if step in steps {
      var rank :| RankedBy(steps, rank);
      var above := set t | t in steps && rank[t.name] > rank[step.name];
      AllDependentStepsLeast(step, steps, above);
    }
  }

  /** Adding a component that depends on nothing in `a` changes no dependent
      set computed from a step of `a`, and nothing from it is ever found. */
  lemma AllDependentStepsStayInComponent(step: Step, a: set<Step>, b: set<Step>)
    requires step in a
    requires forall x, y | x in a && y in b :: x.name !in y.deps
    ensures AllDependentSteps(step, a + b) == AllDependentSteps(step, a)
    ensures AllDependentSteps(step, a + b) <= a
  {
    var ra := AllDependentSteps(step, a);
    var rab := AllDependentSteps(step, a + b);
    assert ClosedUnderDependents(ra, a + b) by {
      forall x, y | x in ra && y in a + b && x.name in y.deps
        ensures y in ra
      {
        assert y !in b;
      }
    }
    AllDependentStepsLeast(step, a + b, ra);
    AllDependentStepsLeast(step, a, rab);
  }

  // ---------------------------------------------------------------------
  // Variant filters
  // ---------------------------------------------------------------------

  function HasStreamingStep(steps: set<Step>): (r: bool)
    ensures r <==> StreamingSteps(steps) != {}
  {
    exists s | s in steps :: s.IsStreaming()
  }

  function StreamingSteps(steps: set<Step>): (r: set<Step>)
    ensures r <= steps
    ensures forall s | s in steps && s !in r :: s.kind == Batch || s.kind == Loop
  {
    set s | s in steps && s.IsStreaming()
  }

  /** The steps that produce a dataset: batch and streaming, not loop. */
  function DataSteps(steps: set<Step>): (r: set<Step>)
    ensures r <= steps
    ensures forall s | s in steps :: s in r <==> s.kind == Batch || s.kind == Streaming
  {
    set s | s in steps && s.IsDataStep()
  }

  /** The predicate and the filter agree: there is a streaming step exactly
      when the set of streaming steps is non-empty. */
  lemma HasStreamingStepIff(steps: set<Step>)
    ensures HasStreamingStep(steps) <==> StreamingSteps(steps) != {}
  {
    if HasStreamingStep(steps) {
      var s :| s in steps && s.IsStreaming();
      assert s in StreamingSteps(steps);
    }
  }

  /** Adding batch steps leaves the streaming steps unchanged. */
  lemma StreamingStepsIgnoreBatch(steps: set<Step>, batch: set<Step>)
    requires forall b | b in batch :: b.kind == Batch
    ensures StreamingSteps(steps + batch) == StreamingSteps(steps)
    ensures HasStreamingStep(steps + batch) == HasStreamingStep(steps)
  {
  }

  /** The data steps and the loop steps split the set; the streaming steps are
      data steps, and the data steps that are not streaming are the batch ones. */
  lemma DataStepsPartition(steps: set<Step>)
    ensures DataSteps(steps) + (set s | s in steps && s.kind == Loop) == steps
    ensures DataSteps(steps) !! (set s | s in steps && s.kind == Loop)
    ensures StreamingSteps(steps) <= DataSteps(steps)
    ensures DataSteps(steps) - StreamingSteps(steps) == set s | s in steps && s.kind == Batch
  {
  }

  // ---------------------------------------------------------------------
  // Streaming isolation
  // ---------------------------------------------------------------------

  /** The steps that depend, directly or transitively, on a streaming step. */
  function StreamingDependentSteps(steps: set<Step>): set<Step>
  {
    set t, u | u in steps && u.IsStreaming() && t in AllDependentSteps(u, steps) :: t
  }

  /** The steps that can run once, ahead of any streaming step: the streaming
      steps and every step that depends on one, however indirectly, are left
      out. */
  function IndependentNonStreamingSteps(steps: set<Step>): (r: set<Step>)
    ensures r <= steps
    ensures !HasStreamingStep(r)
  {
    steps - StreamingSteps(steps) - StreamingDependentSteps(steps)
  }

  /** No step of `c` depends on a step of `steps` outside `c`. */
  ghost predicate ClosedUnderDependencies(c: set<Step>, steps: set<Step>)
  {
    forall t, d | t in c && d in steps && d.name in t.deps :: d in c
  }

  /** A step that depends on a streaming step, or on a step that depends on
      one, depends on a streaming step itself. */
  lemma StreamingTaintSpreads(steps: set<Step>, d: Step, t: Step)
    requires d in steps && t in steps && d.name in t.deps
    requires d.IsStreaming() || d in StreamingDependentSteps(steps)
    ensures t in StreamingDependentSteps(steps)
  {
    if d.IsStreaming() {
      assert t in ImmediateDependentSteps(d, steps);
      assert t in AllDependentSteps(d, steps);
    } else {
      var u :| u in steps && u.IsStreaming() && d in AllDependentSteps(u, steps);
      assert t in AllDependentSteps(u, steps);
    }
  }

  /** The independent steps hold no streaming step, and every dependency of
      an independent step is itself independent, so they can all run before
      the first streaming step. A step that names a streaming step directly
      is never independent. */
  lemma IndependentNonStreamingStepsSound(steps: set<Step>)
    ensures IndependentNonStreamingSteps(steps) <= steps
    ensures forall t | t in IndependentNonStreamingSteps(steps) :: !t.IsStreaming()
    ensures ClosedUnderDependencies(IndependentNonStreamingSteps(steps), steps)
    ensures forall t, u | t in steps && u in steps && u.IsStreaming() && u.name in t.deps ::
      t !in IndependentNonStreamingSteps(steps)
  {
    var ind := IndependentNonStreamingSteps(steps);
    forall t, d | t in ind && d in steps && d.name in t.deps
      ensures d in ind
    {
      if d !in ind {
        StreamingTaintSpreads(steps, d, t);
        assert false;
      }
    }
    forall t, u | t in steps && u in steps && u.IsStreaming() && u.name in t.deps
      ensures t !in ind
    {
      assert t in AllDependentSteps(u, steps);
    }
  }

  /** The independent steps are the largest such portion: any subset without
      a streaming step that is closed under dependencies lies inside them. */
  lemma IndependentNonStreamingStepsGreatest(steps: set<Step>, c: set<Step>)
    requires c <= steps
    requires forall t | t in c :: !t.IsStreaming()
    requires ClosedUnderDependencies(c, steps)
    ensures c <= IndependentNonStreamingSteps(steps)
  {
    forall t | t in c
      ensures t in IndependentNonStreamingSteps(steps)
    {
      if t in StreamingDependentSteps(steps) {
        var u :| u in steps && u.IsStreaming() && t in AllDependentSteps(u, steps);
        var outside := steps - c;
        assert ImmediateDependentSteps(u, steps) <= outside;
        assert ClosedUnderDependents(outside, steps);
        AllDependentStepsLeast(u, steps, outside);
        assert false;
      }
    }
  }

  // ---------------------------------------------------------------------
  // Name lookup, copying, reset
  // ---------------------------------------------------------------------

  /** The step with the given name, absent when there is none. */
  function GetStepForName(name: string, steps: set<Step>): (r: Option<Step>)
    requires UniqueNames(steps)
    ensures r.Some? <==> name in Names(steps)
    ensures r.Some? ==> r.value in steps && r.value.name == name
  {
    if exists s | s in steps :: s.name == name then
      var s :| s in steps && s.name == name;
      Some(s)
    else
      None
  }

  /** A fresh object built from `s`: same name, variant and dependencies,
      WAITING, no data, and the new object identity `generation`. */
  function CopyStep(s: Step, generation: nat): Step
  {
    Step(s.name, s.kind, s.deps, Waiting, false, generation)
  }

  /** Fresh copies of every step. `generation` is an identity no original
      carries, which is what allocating new objects guarantees. */
  function CopySteps(steps: set<Step>, generation: nat): (r: set<Step>)
    requires forall s | s in steps :: s.generation < generation
    ensures forall c, s | c in r && s in steps :: c != s
    ensures Names(r) == Names(steps)
  {
    var r := set s | s in steps :: CopyStep(s, generation);
    assert Names(r) == Names(steps) by {
      forall n | n in Names(steps)
        ensures n in Names(r)
      {
        var s :| s in steps && s.name == n;
        assert CopyStep(s, generation) in r;
      }
    }
    r
  }

  /** Every original name is found in the copy, on a copy with the same
      variant and dependencies, and the copy has as many steps as the original. */
  lemma CopyStepsLookup(steps: set<Step>, generation: nat, s: Step)
    requires forall t | t in steps :: t.generation < generation
    requires UniqueNames(steps) && s in steps
    ensures UniqueNames(CopySteps(steps, generation))
    ensures GetStepForName(s.name, CopySteps(steps, generation)) == Some(CopyStep(s, generation))
    ensures |CopySteps(steps, generation)| == |steps|
  {
    var r := CopySteps(steps, generation);
    assert UniqueNames(r);
    assert CopyStep(s, generation) in r;
    UniqueNamesCard(steps);
    UniqueNamesCard(r);
  }

  /** A step made ready to run again: WAITING and without data. */
  function ResetStep(s: Step): Step
  {
    s.(state := Waiting, hasData := false)
  }

  /** Every step back to WAITING with its dataset discarded. */
  function ResetSteps(steps: set<Step>): (r: set<Step>)
    ensures forall t | t in r :: t.state == Waiting && !t.hasData
    ensures Names(r) == Names(steps)
  {
    var r := set s | s in steps :: ResetStep(s);
    assert Names(r) == Names(steps) by {
      forall n | n in Names(steps)
        ensures n in Names(r)
      {
        var s :| s in steps && s.name == n;
        assert ResetStep(s) in r;
      }
    }
    r
  }

  /** Reset keeps the shape: each step keeps its name, variant, dependencies
      and identity, whatever state it was in, and the set keeps its size. */
  lemma ResetStepsKeepsShape(steps: set<Step>, s: Step)
    requires UniqueNames(steps) && s in steps
    ensures UniqueNames(ResetSteps(steps))
    ensures GetStepForName(s.name, ResetSteps(steps)) == Some(ResetStep(s))
    ensures ResetStep(s).kind == s.kind && ResetStep(s).deps == s.deps
    ensures ResetStep(s).generation == s.generation
    ensures |ResetSteps(steps)| == |steps|
  {
    var r := ResetSteps(steps);
    assert UniqueNames(r);
    assert ResetStep(s) in r;
    UniqueNamesCard(steps);
    UniqueNamesCard(r);
  }

  /** Resetting twice is resetting once. */
  lemma ResetStepsIdempotent(steps: set<Step>)
    ensures ResetSteps(ResetSteps(steps)) == ResetSteps(steps)
  {
  }

  /** After a reset a non-empty pipeline is no longer fully submitted. */
  lemma ResetStepsNotSubmitted(steps: set<Step>)
    requires steps != {}
    ensures !AllStepsSubmitted(ResetSteps(steps))
  {
  }

  // ---------------------------------------------------------------------
  // Rendering names
  // ---------------------------------------------------------------------

  /** `order` lists every step of `steps` exactly once. */
  ghost predicate Enumerates(order: seq<Step>, steps: set<Step>)
  {
    && |order| == |steps|
    && (forall i, j | 0 <= i < j < |order| :: order[i] != order[j])
    && (forall s :: s in steps <==> s in order)
  }

  /** The names of `order` joined with ", ". */
  function JoinNames(order: seq<Step>): string
  {
    if |order| == 0 then ""
    else if |order| == 1 then order[0].name
    else JoinNames(order[..|order| - 1]) + ", " + order[|order| - 1].name
  }

  /** Appending a step appends its name, after a separator unless it is the
      first. */
  lemma JoinNamesSnoc(order: seq<Step>, s: Step)
    ensures JoinNames(order + [s]) == if order == [] then s.name else JoinNames(order) + ", " + s.name
  {
    assert (order + [s])[..|order|] == order;
  }

  /** The names of all steps joined with ", ", in an order the caller cannot
      rely on. */
  method StepNamesAsString(steps: set<Step>) returns (r: string)
    ensures exists order :: Enumerates(order, steps) && r == JoinNames(order)
  {
    var rest := steps;
    ghost var order: seq<Step> := [];
    var first := true;
    r := "";
    while rest != {}
      invariant rest <= steps
      invariant |order| + |rest| == |steps|
      invariant forall i, j | 0 <= i < j < |order| :: order[i] != order[j]
      invariant forall s :: s in steps <==> s in order || s in rest
      invariant forall s | s in order :: s !in rest
      invariant first <==> order == []
      invariant r == JoinNames(order)
      decreases |rest|
    {
      var s :| s in rest;
      JoinNamesSnoc(order, s);
      r := if first then s.name else r + ", " + s.name;
      first := false;
      order := order + [s];
      rest := rest - {s};
    }
    assert Enumerates(order, steps);
  }
}
