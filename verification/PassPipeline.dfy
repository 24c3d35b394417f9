/** All passes together: up to eight rounds, then dead-code elimination. */
module PassPipeline {
  import opened TransitionSystem
  import opened Refinement
  import opened Extension
  import opened PassSupport
  import opened Replacement
  import Algebra = AlgebraicSimplification
  import Branch = BranchSimplification
  import Peephole = PeepholeOptimization
  import Copies = CopyPropagation
  import Cse = CommonSubexpressionElimination
  import Folding = ConstantFolding
  import Strength = StrengthReduction
  import Dead = DeadCodeElimination
  import Normal = NormalForm

  // ----- progress -----

  /** Operations that are neither leaves nor constants, among the first `n`. */
  function Foldables(ops: seq<Operation>, n: nat): nat
    requires n <= |ops|
  {
    if n == 0 then 0
    else Foldables(ops, n - 1) + if IsLeaf(ops[n - 1].opcode) || ops[n - 1].opcode.Const? then 0 else 1
  }

  /** Lexicographic: operations, then foldable operations, then multiplications and divisions. */
  predicate Smaller(a: seq<Operation>, b: seq<Operation>) {
    || |a| < |b|
    || (|a| == |b| && Foldables(a, |a|) < Foldables(b, |b|))
    || (|a| == |b| && Foldables(a, |a|) == Foldables(b, |b|) && Strength.Scalings(a, |a|) < Strength.Scalings(b, |b|))
  }

  /** A pass that reports a change makes the module smaller; otherwise it leaves the module alone. */
  predicate Progress(sys: Sys, sys': Sys, changed: bool) {
    if changed then Smaller(sys'.operations, sys.operations) else sys' == sys
  }

  lemma ProgressTransitive(a: Sys, b: Sys, c: Sys, first: bool, second: bool)
    requires Progress(a, b, first) && Progress(b, c, second)
    ensures Progress(a, c, first || second)
  {
  }

  lemma ReplacedProgress(sys: Sys, vector: seq<NodeId>)
    requires |vector| == |sys.operations| + 1 && Descending(vector)
    ensures Progress(sys, Replaced(sys, vector), !ReplacesNothing(vector))
  {
    if !ReplacesNothing(vector) {
      ReplacedShrinks(sys, vector);
    }
  }

  lemma {:induction false} FoldablesSame(ops: seq<Operation>, ops': seq<Operation>, n: nat)
    requires n <= |ops| == |ops'|
    requires forall k :: 0 <= k < n ==>
               (IsLeaf(ops[k].opcode) || ops[k].opcode.Const? <==> IsLeaf(ops'[k].opcode) || ops'[k].opcode.Const?)
    ensures Foldables(ops', n) == Foldables(ops, n)
  {
    if n != 0 {
      FoldablesSame(ops, ops', n - 1);
    }
  }

  lemma {:induction false} FoldStepCount(ops: seq<Operation>, ops': seq<Operation>, id: NodeId, m: nat)
    requires |ops| == |ops'| && InRange(ops, id) && m <= |ops|
    requires ops' == ops[id - 1 := ops'[id - 1]]
    requires ops'[id - 1].opcode.Const? || ops'[id - 1] == ops[id - 1]
    ensures Foldables(ops', m) <= Foldables(ops, m)
    ensures ops'[id - 1] != ops[id - 1] && !ops[id - 1].opcode.Const? && !IsLeaf(ops[id - 1].opcode) && id <= m ==>
              Foldables(ops', m) < Foldables(ops, m)
  {
    if m != 0 {
      FoldStepCount(ops, ops', id, m - 1);
      assert m - 1 != id - 1 ==> ops'[m - 1] == ops[m - 1];
    }
  }

  lemma {:induction false} FoldedProgress(ops: seq<Operation>, n: nat)
    requires TypedOperations(ops) && n <= |ops|
    ensures var r := Folding.FoldedUpTo(ops, n);
            r == ops || Foldables(r, |r|) < Foldables(ops, |ops|)
  {
    if n != 0 {
      FoldedProgress(ops, n - 1);
      FoldStepCount(Folding.FoldedUpTo(ops, n - 1), Folding.FoldedUpTo(ops, n), n, |ops|);
    }
  }

  lemma RewrittenFoldables(ops: seq<Operation>, r: seq<Operation>, id: NodeId, value: NodeId, c: NodeId)
    requires Strength.Rewritten(ops, r, id, value, c)
    ensures Foldables(r, |r|) == Foldables(ops, |ops|)
  {
    forall k | 0 <= k < |ops|
      ensures IsLeaf(ops[k].opcode) || ops[k].opcode.Const? <==> IsLeaf(r[k].opcode) || r[k].opcode.Const?
    {
    }
    FoldablesSame(ops, r, |ops|);
  }

  lemma {:induction false} StrengthKeepsFoldables(ops: seq<Operation>, uses: seq<nat>, n: nat)
    requires TypedOperations(ops) && n <= |ops| && |uses| == |ops| + 1
    ensures var r := Strength.ReducedUpTo(ops, uses, n);
            Foldables(r, |r|) == Foldables(ops, |ops|)
    ensures var r := Strength.ReducedUpTo(ops, uses, n);
            r == ops || Strength.Scalings(r, |r|) < Strength.Scalings(ops, |ops|)
  {
    if n != 0 {
      StrengthKeepsFoldables(ops, uses, n - 1);
      var before := Strength.ReducedUpTo(ops, uses, n - 1);
      Strength.ReducedProgress(before, uses, n);
      if Strength.Reducible(before, uses, n) {
        var value, c := Strength.ReducedIsRewritten(before, uses, n);
        RewrittenFoldables(before, Strength.Reduced(before, uses, n), n, value, c);
      }
    }
  }

  // ----- one round -----

  ghost function Simplified(sys: Sys): (r: Sys)
    requires WellTyped(sys)
    ensures WellTyped(r)
  {
    Algebra.SimplifiedRefines(sys);
    Algebra.Simplified(sys)
  }

  ghost function Branched(sys: Sys): (r: Sys)
    requires WellTyped(sys)
    ensures WellTyped(r)
  {
    Branch.BranchedRefines(sys);
    Branch.Branched(sys)
  }

  ghost function Peepholed(sys: Sys): (r: Sys)
    requires WellTyped(sys)
    ensures WellTyped(r)
  {
    Peephole.PeepholedRefines(sys);
    Peephole.Peepholed(sys)
  }

  ghost function Combined(sys: Sys): (r: Sys)
    requires WellTyped(sys)
    ensures WellTyped(r)
  {
    Peepholed(Branched(Simplified(sys)))
  }

  lemma CombinedBehaves(sys: Sys)
    requires WellTyped(sys)
    ensures Behaves(sys, Combined(sys))
  {
    hide WellTyped, Refines;
    var a := Simplified(sys);
    var b := Branched(a);
    Algebra.SimplifiedRefines(sys);
    Branch.BranchedRefines(a);
    Peephole.PeepholedRefines(b);
    BehavesTransitive(sys, a, b);
    BehavesTransitive(sys, b, Combined(sys));
  }

  /** `sys'` is a refinement of `sys` under some renaming. */
  ghost predicate Behaves(sys: Sys, sys': Sys)
    requires WellTyped(sys) && WellTyped(sys')
  {
    exists back :: Refines(sys, sys', back)
  }

  lemma BehavesTransitive(a: Sys, b: Sys, c: Sys)
    requires WellTyped(a) && WellTyped(b) && WellTyped(c) && Behaves(a, b) && Behaves(b, c)
    ensures Behaves(a, c)
  {
    var f :| Refines(a, b, f);
    var g :| Refines(b, c, g);
    RefinesTransitive(a, b, c, f, g);
  }

  method CombineInstructions(m: Module) returns (changed: bool)
    requires WellTyped(m.View())
    modifies m
    ensures m.View() == Combined(old(m.View())) && Progress(old(m.View()), m.View(), changed)
    ensures m.View() == Peepholed(Branched(Simplified(old(m.View()))))
  {
    hide Progress, Replaced, ReplacesNothing, Refines, TypedOperations, TypedState, TypedProperty, DistinctStates;
    ghost var s0 := m.View();
    Algebra.SimplifiedRefines(s0);
    var c1 := Algebra.SimplifyAlgebra(m);
    ReplacedProgress(s0, Algebra.Vector(s0.operations, |s0.operations|));
    ghost var s1 := m.View();
    Branch.BranchedRefines(s1);
    var c2 := Branch.SimplifyBranches(m);
    ReplacedProgress(s1, Branch.Vector(s1.operations, |s1.operations|));
    ghost var s2 := m.View();
    ProgressTransitive(s0, s1, s2, c1, c2);
    Peephole.PeepholedRefines(s2);
    var c3 := Peephole.OptimizePeepholes(m);
    ReplacedProgress(s2, Peephole.Vector(s2.operations, |s2.operations|));
    ProgressTransitive(s0, s2, m.View(), c1 || c2, c3);
    changed := c1 || c2 || c3;
  }

  ghost function Folded(sys: Sys): (r: Sys)
    requires WellTyped(sys)
    ensures WellTyped(r)
  {
    Folding.FoldedSysRefines(sys);
    Folding.FoldedSys(sys)
  }

  ghost function Copied(sys: Sys): (r: Sys)
    requires WellTyped(sys)
    ensures WellTyped(r)
  {
    Copies.PropagatedRefines(sys);
    Copies.Propagated(sys)
  }

  ghost function Strengthened(sys: Sys): (r: Sys)
    requires WellTyped(sys)
    ensures WellTyped(r)
  {
    Strength.StrengthenedRefines(sys);
    Strength.Strengthened(sys)
  }

  ghost function Numbered(sys: Sys): (r: Sys)
    requires WellTyped(sys)
    ensures WellTyped(r)
  {
    Cse.NumberedRefines(sys);
    Cse.Numbered(sys)
  }

  /** One round of the loop. */
  ghost function Round(sys: Sys): (r: Sys)
    requires WellTyped(sys)
    ensures WellTyped(r)
  {
    Numbered(Folded(Strengthened(Copied(Combined(Folded(sys))))))
  }

  lemma SinglePassesBehave(sys: Sys)
    requires WellTyped(sys)
    ensures Behaves(sys, Folded(sys)) && Behaves(sys, Copied(sys))
    ensures Behaves(sys, Strengthened(sys)) && Behaves(sys, Numbered(sys))
  {
    Folding.FoldedSysRefines(sys);
    Copies.PropagatedRefines(sys);
    Strength.StrengthenedRefines(sys);
    Cse.NumberedRefines(sys);
  }

  lemma RoundBehaves(sys: Sys)
    requires WellTyped(sys)
    ensures Behaves(sys, Round(sys))
  {
    hide Folded, Combined, Copied, Strengthened, Numbered;
    var s1 := Folded(sys);
    var s2 := Combined(s1);
    var s3 := Copied(s2);
    var s4 := Strengthened(s3);
    var s5 := Folded(s4);
    SinglePassesBehave(sys);
    CombinedBehaves(s1);
    BehavesTransitive(sys, s1, s2);
    SinglePassesBehave(s2);
    BehavesTransitive(sys, s2, s3);
    SinglePassesBehave(s3);
    BehavesTransitive(sys, s3, s4);
    SinglePassesBehave(s4);
    BehavesTransitive(sys, s4, s5);
    SinglePassesBehave(s5);
    BehavesTransitive(sys, s5, Round(sys));
  }

  method FoldPass(m: Module) returns (changed: bool)
    requires WellTyped(m.View())
    modifies m
    ensures m.View() == Folded(old(m.View())) && Progress(old(m.View()), m.View(), changed)
  {
    ghost var before := m.View();
    changed := Folding.FoldConstants(m);
    FoldedProgress(before.operations, |before.operations|);
  }

  method CopyPass(m: Module) returns (changed: bool)
    requires WellTyped(m.View())
    modifies m
    ensures m.View() == Copied(old(m.View())) && Progress(old(m.View()), m.View(), changed)
  {
    ghost var before := m.View();
    changed := Copies.PropagateCopies(m);
    ReplacedProgress(before, Copies.Vector(before.operations, |before.operations|));
  }

  method StrengthPass(m: Module) returns (changed: bool)
    requires WellTyped(m.View())
    modifies m
    ensures m.View() == Strengthened(old(m.View())) && Progress(old(m.View()), m.View(), changed)
  {
    ghost var before := m.View();
    changed := Strength.ReduceStrength(m);
    StrengthKeepsFoldables(before.operations, Strength.UseCounts(before), |before.operations|);
  }

  method CsePass(m: Module) returns (changed: bool)
    requires WellTyped(m.View())
    modifies m
    ensures m.View() == Numbered(old(m.View())) && Progress(old(m.View()), m.View(), changed)
  {
    ghost var before := m.View();
    changed := Cse.EliminateCommonSubexpressions(m);
    ReplacedProgress(before, Cse.Vector(before.operations, |before.operations|));
  }

  method RunRound(m: Module) returns (local: bool)
    requires WellTyped(m.View())
    modifies m
    ensures m.View() == Round(old(m.View())) && Progress(old(m.View()), m.View(), local)
    ensures m.View() == Numbered(Folded(Strengthened(Copied(Combined(Folded(old(m.View())))))))
  {
    ghost var s0 := m.View();
    local := FoldPass(m);
    ghost var s1 := m.View();
    var changed := CombineInstructions(m);
    ProgressTransitive(s0, s1, m.View(), local, changed);
    local := local || changed;
    ghost var s2 := m.View();
    changed := CopyPass(m);
    ProgressTransitive(s0, s2, m.View(), local, changed);
    local := local || changed;
    ghost var s3 := m.View();
    changed := StrengthPass(m);
    ProgressTransitive(s0, s3, m.View(), local, changed);
    local := local || changed;
    ghost var s4 := m.View();
    changed := FoldPass(m);
    ProgressTransitive(s0, s4, m.View(), local, changed);
    local := local || changed;
    ghost var s5 := m.View();
    changed := CsePass(m);
    ProgressTransitive(s0, s5, m.View(), local, changed);
    local := local || changed;
  }

  // ----- fixpoints of all passes -----

  ghost predicate NoLarger(sys: Sys, sys': Sys) {
    sys' == sys || Smaller(sys'.operations, sys.operations)
  }

  lemma NoLargerTransitive(a: Sys, b: Sys, c: Sys)
    requires NoLarger(a, b) && NoLarger(b, c)
    ensures NoLarger(a, c)
  {
  }

  lemma CombiningNoLarger(sys: Sys)
    requires WellTyped(sys)
    ensures NoLarger(sys, Simplified(sys)) && NoLarger(sys, Branched(sys)) && NoLarger(sys, Peepholed(sys))
  {
    hide Smaller, Refines, Replaced, ReplacesNothing;
    Algebra.SimplifiedRefines(sys);
    Branch.BranchedRefines(sys);
    Peephole.PeepholedRefines(sys);
    ReplacedProgress(sys, Algebra.Vector(sys.operations, |sys.operations|));
    ReplacedProgress(sys, Branch.Vector(sys.operations, |sys.operations|));
    ReplacedProgress(sys, Peephole.Vector(sys.operations, |sys.operations|));
  }

  lemma CombinedNoLarger(sys: Sys)
    requires WellTyped(sys)
    ensures NoLarger(sys, Combined(sys))
  {
    hide Simplified, Branched, Peepholed, NoLarger;
    var a := Simplified(sys);
    var b := Branched(a);
    CombiningNoLarger(sys);
    CombiningNoLarger(a);
    CombiningNoLarger(b);
    NoLargerTransitive(sys, a, b);
    NoLargerTransitive(sys, b, Combined(sys));
  }

  lemma SinglePassesNoLarger(sys: Sys)
    requires WellTyped(sys)
    ensures NoLarger(sys, Folded(sys)) && NoLarger(sys, Copied(sys))
    ensures NoLarger(sys, Strengthened(sys)) && NoLarger(sys, Numbered(sys))
  {
    FoldedProgress(sys.operations, |sys.operations|);
    Copies.PropagatedRefines(sys);
    ReplacedProgress(sys, Copies.Vector(sys.operations, |sys.operations|));
    StrengthKeepsFoldables(sys.operations, Strength.UseCounts(sys), |sys.operations|);
    ReplacedProgress(sys, Cse.Vector(sys.operations, |sys.operations|));
  }

  lemma RoundNoLarger(sys: Sys)
    requires WellTyped(sys)
    ensures NoLarger(sys, Round(sys))
  {
    hide Folded, Combined, Copied, Strengthened, Numbered;
    var s1 := Folded(sys);
    var s2 := Combined(s1);
    var s3 := Copied(s2);
    var s4 := Strengthened(s3);
    var s5 := Folded(s4);
    SinglePassesNoLarger(sys);
    CombinedNoLarger(s1);
    SinglePassesNoLarger(s2);
    SinglePassesNoLarger(s3);
    SinglePassesNoLarger(s4);
    SinglePassesNoLarger(s5);
    NoLargerTransitive(sys, s1, s2);
    NoLargerTransitive(sys, s2, s3);
    NoLargerTransitive(sys, s3, s4);
    NoLargerTransitive(sys, s4, s5);
    NoLargerTransitive(sys, s5, Round(sys));
  }

  lemma NoLargerAntisymmetric(a: Sys, b: Sys)
    requires NoLarger(a, b) && NoLarger(b, a)
    ensures a == b
  {
  }

  /** Every pass leaves the module as it is. */
  ghost predicate AllPassesFix(sys: Sys)
    requires WellTyped(sys)
  {
    && Folded(sys) == sys && Simplified(sys) == sys && Branched(sys) == sys && Peepholed(sys) == sys
    && Copied(sys) == sys && Strengthened(sys) == sys && Numbered(sys) == sys
  }

  lemma CombinedFixes(sys: Sys)
    requires WellTyped(sys)
    ensures Combined(sys) == sys <==> Simplified(sys) == sys && Branched(sys) == sys && Peepholed(sys) == sys
  {
    hide Simplified, Branched, Peepholed, Smaller;
    if Combined(sys) == sys {
      var a := Simplified(sys);
      var b := Branched(a);
      CombiningNoLarger(sys);
      CombiningNoLarger(a);
      CombiningNoLarger(b);
      NoLargerTransitive(a, b, sys);
      NoLargerAntisymmetric(sys, a);
      NoLargerAntisymmetric(sys, b);
    }
  }

  /** No pass changes a module exactly when its text is in normal form. */
  lemma FixesAreNormal(sys: Sys)
    requires WellTyped(sys)
    ensures AllPassesFix(sys) <==> Normal.IsNormal(sys)
  {
    hide Normal.AlgebraDone, Normal.BranchDone, Normal.PeepholeDone, Normal.CopiesDone, Normal.FoldingDone, Normal.StrengthDone,
         Normal.NoTwins, TypedAt;
    Normal.ReplacingPasses(sys);
    Normal.OverwritingPasses(sys);
    AllTyped(sys);
  }

  lemma AllTyped(sys: Sys)
    requires WellTyped(sys)
    ensures forall id: NodeId :: InRange(sys.operations, id) ==> TypedAt(sys.operations, id)
  {
  }

  /** A round ends with value numbering. */
  lemma RoundHasNoTwins(sys: Sys)
    requires WellTyped(sys)
    ensures Normal.NoTwins(Round(sys).operations)
  {
    hide Folded, Combined, Copied, Strengthened, Normal.NoTwins;
    Normal.NumberedHasNoTwins(Folded(Strengthened(Copied(Combined(Folded(sys))))));
  }

  /** A round changes nothing exactly when none of its passes would. */
  lemma RoundFixes(sys: Sys)
    requires WellTyped(sys)
    ensures Round(sys) == sys <==> AllPassesFix(sys)
  {
    hide Folded, Combined, Copied, Strengthened, Numbered, Smaller;
    CombinedFixes(sys);
    if Round(sys) == sys {
      var s1 := Folded(sys);
      var s2 := Combined(s1);
      var s3 := Copied(s2);
      var s4 := Strengthened(s3);
      var s5 := Folded(s4);
      SinglePassesNoLarger(sys);
      CombinedNoLarger(s1);
      SinglePassesNoLarger(s2);
      SinglePassesNoLarger(s3);
      SinglePassesNoLarger(s4);
      SinglePassesNoLarger(s5);
      NoLargerTransitive(s4, s5, sys);
      NoLargerTransitive(s3, s4, sys);
      NoLargerTransitive(s2, s3, sys);
      NoLargerTransitive(s1, s2, sys);
      NoLargerAntisymmetric(sys, s1);
      NoLargerAntisymmetric(sys, s2);
      NoLargerAntisymmetric(sys, s3);
      NoLargerAntisymmetric(sys, s4);
      NoLargerAntisymmetric(sys, s5);
    }
  }

  // ----- the loop -----

  /** The result of `n` rounds. */
  ghost function Rounds(sys: Sys, n: nat): (r: Sys)
    requires WellTyped(sys)
    ensures WellTyped(r)
  {
    if n == 0 then sys else Round(Rounds(sys, n - 1))
  }

  ghost function Optimized(sys: Sys): Sys
    requires WellTyped(sys)
  {
    Dead.Retained(Rounds(sys, 8))
  }

  /** Once a round changes nothing, no pass does, and no later round. */
  lemma {:induction false} RoundsStable(sys: Sys, k: nat, n: nat)
    requires WellTyped(sys) && k <= n && Round(Rounds(sys, k)) == Rounds(sys, k)
    ensures Rounds(sys, n) == Rounds(sys, k) && AllPassesFix(Rounds(sys, n))
    decreases n
  {
    hide Round, AllPassesFix;
    if k < n {
      RoundsStable(sys, k, n - 1);
    } else {
      RoundFixes(Rounds(sys, k));
    }
  }

  lemma {:induction false} AllKept(keep: seq<bool>, n: nat)
    requires n < |keep| && Count(keep, n) == n
    ensures forall i :: 1 <= i <= n ==> keep[i] && Count(keep, i) == i
  {
    if n != 0 {
      AllKept(keep, n - 1);
    }
  }

  /** A rebuild under the identity numbering is the same system. */
  lemma RebuiltIdentity(sys: Sys, live: seq<bool>)
    requires WellTyped(sys) && |live| == |sys.operations| + 1
    requires forall i :: 1 <= i <= |sys.operations| ==> live[i]
    ensures Rebuilt(sys, live, Identity(|sys.operations|)) == sys
  {
    var n := |sys.operations|;
    var keep := Survivors(live, Identity(n));
    var ids := NewIds(keep, Identity(n));
    CountFull(keep, n);
    forall i | 1 <= i <= n
      ensures live[i] && ids[i] == i
    {
      CountFull(keep, i);
    }
    KeptIdentity(sys, keep, ids, n);
    StatesIdentity(sys, live, ids, |sys.states|);
    assert sys.states[..|sys.states|] == sys.states;
    assert sys.operations[..n] == sys.operations;
    RootsIdentity(sys, ids);
  }

  lemma RootsIdentity(sys: Sys, ids: seq<NodeId>)
    requires WellTyped(sys) && |ids| == |sys.operations| + 1
    requires forall i :: 1 <= i <= |sys.operations| ==> ids[i] == i
    ensures RenumberOutputs(ids, sys.outputs) == sys.outputs
    ensures RenumberProperties(ids, sys.properties) == sys.properties
  {
    forall k | 0 <= k < |sys.properties|
      ensures RenumberProperty(ids, sys.properties[k]) == sys.properties[k]
    {
      assert TypedProperty(sys.operations, sys.properties[k]);
      assert Renumber(ids, sys.properties[k].conditions) == sys.properties[k].conditions;
    }
  }

  lemma {:induction false} CountFull(keep: seq<bool>, n: nat)
    requires n < |keep| && forall i :: 1 <= i <= n ==> keep[i]
    ensures Count(keep, n) == n
  {
    if n != 0 {
      CountFull(keep, n - 1);
    }
  }

  /** Dead-code elimination that removes no operation changes nothing. */
  lemma RetainedProgress(sys: Sys)
    requires WellTyped(sys)
    ensures Progress(sys, Dead.Retained(sys), |Dead.Retained(sys).operations| != |sys.operations|)
  {
    var n := |sys.operations|;
    var live := Dead.LiveOperations(sys);
    var keep := Survivors(live, Identity(n));
    assert |Dead.Retained(sys).operations| == Count(keep, n);
    if Count(keep, n) == n {
      AllKept(keep, n);
      assert forall i :: 1 <= i <= n ==> keep[i] ==> live[i];
      RebuiltIdentity(sys, live);
    }
  }

  lemma {:induction false} KeptIdentity(sys: Sys, keep: seq<bool>, ids: seq<NodeId>, n: nat)
    requires WellTyped(sys) && n <= |sys.operations| && |keep| == |ids| == |sys.operations| + 1
    requires forall i :: 1 <= i <= |sys.operations| ==> keep[i] && ids[i] == i
    ensures KeptOperations(sys.operations, keep, ids, n) == sys.operations[..n]
  {
    if n != 0 {
      KeptIdentity(sys, keep, ids, n - 1);
      assert TypedAt(sys.operations, n);
      assert Renumber(ids, sys.operations[n - 1].operands) == sys.operations[n - 1].operands;
    }
  }

  lemma StateIdentity(sys: Sys, ids: seq<NodeId>, k: nat)
    requires WellTyped(sys) && k < |sys.states| && |ids| == |sys.operations| + 1
    requires forall i :: 1 <= i <= |sys.operations| ==> ids[i] == i
    ensures InRange(sys.operations, sys.states[k].value) && RenumberState(ids, sys.states[k]) == sys.states[k]
  {
    assert TypedState(sys.operations, sys.states[k]);
  }

  lemma {:induction false} StatesIdentity(sys: Sys, live: seq<bool>, ids: seq<NodeId>, n: nat)
    requires WellTyped(sys) && n <= |sys.states| && |live| == |ids| == |sys.operations| + 1
    requires forall i :: 1 <= i <= |sys.operations| ==> live[i] && ids[i] == i
    ensures KeptStates(sys.states[..n], live, ids) == sys.states[..n]
  {
    hide WellTyped, RenumberState;
    if n != 0 {
      StatesIdentity(sys, live, ids, n - 1);
      StateIdentity(sys, ids, n - 1);
      assert sys.states[..n][..n - 1] == sys.states[..n - 1];
    }
  }

  /** `rounds` counts the rounds before the loop stopped; stopping early leaves nothing for any pass to do. */
  method Optimize(m: Module) returns (changed: bool, ghost rounds: nat)
    requires WellTyped(m.View())
    modifies m
    ensures m.View() == Optimized(old(m.View()))
    ensures rounds <= 8 && Optimized(old(m.View())) == Dead.Retained(Rounds(old(m.View()), rounds))
    ensures rounds < 8 ==> AllPassesFix(Rounds(old(m.View()), rounds)) && Normal.IsNormal(Rounds(old(m.View()), rounds))
    ensures Normal.NoTwins(m.operations)
    ensures changed <==> m.View() != old(m.View())
  {
    hide Round, Dead.Retained, AllPassesFix, Normal.IsNormal, Normal.NoTwins;
    ghost var sys := m.View();
    changed, rounds := false, 8;
    for iteration := 0 to 8
      invariant m.View() == Rounds(sys, iteration)
      invariant Progress(sys, m.View(), changed) && rounds == 8
    {
      ghost var before := m.View();
      var local := RunRound(m);
      ProgressTransitive(sys, before, m.View(), changed, local);
      changed := changed || local;
      if !local {
        RoundsStable(sys, iteration, 8);
        FixesAreNormal(Rounds(sys, iteration));
        rounds := iteration;
        break;
      }
    }
    ghost var before := m.View();
    assert before == Rounds(sys, 8);
    RetainedProgress(before);
    RoundHasNoTwins(Rounds(sys, 7));
    Normal.RetainedHasNoTwins(before);
    var dead := Dead.EliminateDeadCode(m);
    ProgressTransitive(sys, before, m.View(), changed, dead);
    changed := changed || dead;
  }

  // ----- main results -----

  lemma {:induction false} RoundsBehave(sys: Sys, n: nat)
    requires WellTyped(sys)
    ensures Behaves(sys, Rounds(sys, n))
  {
    hide Round;
    if n == 0 {
      RefinesSelf(sys);
    } else {
      RoundsBehave(sys, n - 1);
      RoundBehaves(Rounds(sys, n - 1));
      BehavesTransitive(sys, Rounds(sys, n - 1), Rounds(sys, n));
    }
  }

  lemma OptimizedBehaves(sys: Sys)
    requires WellTyped(sys)
    ensures WellTyped(Optimized(sys)) && Behaves(sys, Optimized(sys))
  {
    RoundsBehave(sys, 8);
    Dead.RetainedRefines(Rounds(sys, 8));
    BehavesTransitive(sys, Rounds(sys, 8), Optimized(sys));
  }

  /** `run'` shows, at every step, what `run` shows: all outputs and all property conditions. */
  ghost predicate SameTrace(sys: Sys, run: Run, sys': Sys, run': Run)
    requires WellTyped(sys) && WellTyped(sys')
  {
    forall t: nat :: SameObservation(sys, run(t), sys', run'(t))
  }

  /** Every run of the optimized system has the trace of a run of the original. */
  ghost predicate GainsNoTrace(sys: Sys, sys': Sys)
    requires WellTyped(sys) && WellTyped(sys')
  {
    forall run': Run :: IsRun(sys', run') ==> exists run: Run :: IsRun(sys, run) && SameTrace(sys, run, sys', run')
  }

  lemma ExtensionsGainNoTrace(sys: Sys, sys': Sys, back: seq<NodeId>)
    requires WellTyped(sys) && WellTyped(sys') && Refines(sys, sys', back) && AllRunsExtend(sys, sys', back)
    ensures GainsNoTrace(sys, sys')
  {
    hide WellTyped, AgreeAt, IsRun, SameObservation, SameLeaves;
    forall run': Run | IsRun(sys', run')
      ensures exists run: Run :: IsRun(sys, run) && SameTrace(sys, run, sys', run')
    {
      var run: Run :| Extends(sys, run, sys', back, run');
      forall t: nat
        ensures SameObservation(sys, run(t), sys', run'(t))
      {
        ExtensionObserves(sys, run, sys', back, run', t);
      }
      assert SameTrace(sys, run, sys', run');
    }
  }

  /**
   * The optimizer preserves behaviour: every trace of the original is one of the optimized system, and every run of the
   * optimized system extends to one of the original with the same trace exactly when its starts can be completed.
   */
  lemma OptimizePreservesTraces(sys: Sys)
    requires WellTyped(sys)
    ensures WellTyped(Optimized(sys)) && Behaves(sys, Optimized(sys))
    ensures forall run: Run :: IsRun(sys, run) ==>
              exists run': Run :: IsRun(Optimized(sys), run') && SameTrace(sys, run, Optimized(sys), run')
    ensures forall back: seq<NodeId> :: Refines(sys, Optimized(sys), back) ==>
              && (AllRunsExtend(sys, Optimized(sys), back) <==> StartsCompletable(sys, Optimized(sys), back))
              && (AllRunsExtend(sys, Optimized(sys), back) ==> GainsNoTrace(sys, Optimized(sys)))
  {
    hide WellTyped, AgreeAt, IsRun, SameObservation, AllRunsExtend, StartsCompletable, GainsNoTrace, Optimized;
    OptimizedBehaves(sys);
    var sys' := Optimized(sys);
    forall back: seq<NodeId> | Refines(sys, sys', back)
      ensures AllRunsExtend(sys, sys', back) <==> StartsCompletable(sys, sys', back)
      ensures AllRunsExtend(sys, sys', back) ==> GainsNoTrace(sys, sys')
    {
      RunsExtend(sys, sys', back);
      if AllRunsExtend(sys, sys', back) {
        ExtensionsGainNoTrace(sys, sys', back);
      }
    }
    var back :| Refines(sys, sys', back);
    forall run: Run | IsRun(sys, run)
      ensures exists run': Run :: IsRun(sys', run') && SameTrace(sys, run, sys', run')
    {
      RunsProject(sys, sys', back, run);
      assert SameTrace(sys, run, sys', Project(back, run));
    }
  }

  /** When initial values depend on each other without a cycle, and so when they are constants, traces are the same. */
  lemma OptimizeGainsNoTrace(sys: Sys, rank: Rank)
    requires WellTyped(sys) && (InitsRanked(sys, [], [], rank) || InitsConstant(sys))
    ensures WellTyped(Optimized(sys)) && GainsNoTrace(sys, Optimized(sys))
  {
    hide WellTyped, Refines, IsRun, InitsConstant, InitsRanked, AllRunsExtend, GainsNoTrace, Optimized;
    OptimizedBehaves(sys);
    var sys' := Optimized(sys);
    var back :| Refines(sys, sys', back);
    if InitsConstant(sys) {
      ConstantRunsExtend(sys, sys', back);
    } else {
      InitsRankedFewer(sys, sys'.operations, back, rank);
      RankedRunsExtend(sys, sys', back, rank);
    }
    ExtensionsGainNoTrace(sys, sys', back);
  }

  // ----- without the cap of eight -----

  /** Repeating rounds always reaches a system that no pass changes. */
  lemma {:induction false} RoundsConverge(sys: Sys, k: nat) returns (n: nat)
    requires WellTyped(sys)
    ensures n >= k && AllPassesFix(Rounds(sys, n)) && Normal.IsNormal(Rounds(sys, n))
    decreases |Rounds(sys, k).operations|, Foldables(Rounds(sys, k).operations, |Rounds(sys, k).operations|),
              Strength.Scalings(Rounds(sys, k).operations, |Rounds(sys, k).operations|)
  {
    hide Round, AllPassesFix, Normal.IsNormal;
    RoundNoLarger(Rounds(sys, k));
    if Round(Rounds(sys, k)) == Rounds(sys, k) {
      n := k;
      RoundFixes(Rounds(sys, k));
      FixesAreNormal(Rounds(sys, k));
    } else {
      n := RoundsConverge(sys, k + 1);
    }
  }
}
