/**
 Tenant provisioning as a saga over external resources. Each activity is attempted up to three
 times; an attempt may take effect and still be reported as failed. The closed form below says
 what any run, with any outcomes, leaves behind.
 */
module Saga {
  import opened Wrappers

  const MaximumAttempts := 3

  /**
   What happens to one activity under the retry policy: for every attempt reported as failed,
   whether it took effect all the same; then whether a last attempt was reported as done.
   */
  datatype Attempts = Attempts(missed: seq<bool>, ok: bool)

  type Outcome = o: Attempts | if o.ok then |o.missed| < MaximumAttempts else |o.missed| == MaximumAttempts
    witness Attempts([], true)

  /** Attempt by attempt, whether it took effect. */
  function Effects(o: Outcome): seq<bool> { o.missed + if o.ok then [true] else [] }

  predicate Succeeded(o: Outcome) { o.ok }

  predicate Applied(o: Outcome) { true in Effects(o) }

  lemma {:induction false} ReportedMeansApplied(o: Outcome)
    ensures Succeeded(o) ==> Applied(o)
  {
    if o.ok {
      assert Effects(o)[|o.missed|];
    }
  }

  /** Resources by kind and tenant slug, with the value they were set to. */
  datatype Resources = Resources(held: map<(nat, string), int>)

  datatype Op = Put(kind: nat, slug: string, value: int) | Delete(kind: nat, slug: string)

  function ApplyOp(r: Resources, op: Op): Resources {
    match op
    case Put(kind, slug, value) => Resources(r.held[(kind, slug) := value])
    case Delete(kind, slug) => Resources(r.held - {(kind, slug)})
  }

  /** Operations in the order they are performed. */
  datatype Ops = Idle | Then(before: Ops, last: Op)

  function ApplyOps(r: Resources, ops: Ops): Resources {
    match ops
    case Idle => r
    case Then(before, last) => ApplyOp(ApplyOps(r, before), last)
  }

  function Join(a: Ops, b: Ops): Ops {
    match b
    case Idle => a
    case Then(before, last) => Then(Join(a, before), last)
  }

  function At(r: Resources, kind: nat, slug: string): Option<int> {
    if (kind, slug) in r.held then Some(r.held[(kind, slug)]) else None
  }

  /** A saga step: it provisions one resource, or, like Finalize, none. */
  datatype Step = Provision(kind: nat, value: int) | Nothing

  /** Every resource kind is provisioned by at most one step. */
  predicate DistinctKinds(steps: seq<Step>) {
    forall i, j | 0 <= i < j < |steps| && steps[i].Provision? && steps[j].Provision? :: steps[i].kind != steps[j].kind
  }

  /** The operations one activity performs: the same one, once per attempt that took effect. */
  function AttemptOps(op: Op, effects: seq<bool>): Ops {
    if effects == [] then Idle
    else
      var before := AttemptOps(op, effects[..|effects| - 1]);
      if effects[|effects| - 1] then Then(before, op) else before
  }

  function ForwardOps(slug: string, s: Step, o: Outcome): Ops {
    if s.Nothing? then Idle else AttemptOps(Put(s.kind, slug, s.value), Effects(o))
  }

  function UndoOps(slug: string, s: Step, o: Outcome): Ops {
    if s.Nothing? then Idle else AttemptOps(Delete(s.kind, slug), Effects(o))
  }

  /** Steps 0 to n-1, in order. */
  function Forward(slug: string, steps: seq<Step>, fw: nat -> Outcome, n: nat): Ops
    requires n <= |steps|
  {
    if n == 0 then Idle else Join(Forward(slug, steps, fw, n - 1), ForwardOps(slug, steps[n - 1], fw(n - 1)))
  }

  /** The compensations of steps n-1 down to 0. */
  function Backward(slug: string, steps: seq<Step>, cp: nat -> Outcome, n: nat): Ops
    requires n <= |steps|
  {
    if n == 0 then Idle else Join(UndoOps(slug, steps[n - 1], cp(n - 1)), Backward(slug, steps, cp, n - 1))
  }

  /** The first step at or after i whose activity is reported as failed. */
  function FailsAt(steps: seq<Step>, fw: nat -> Outcome, i: nat): (k: Option<nat>)
    requires i <= |steps|
    ensures k.None? <==> forall j | i <= j < |steps| :: Succeeded(fw(j))
    ensures k.Some? ==> i <= k.value < |steps| && !Succeeded(fw(k.value)) && forall j | i <= j < k.value :: Succeeded(fw(j))
    decreases |steps| - i
  {
    if i == |steps| then None else if !Succeeded(fw(i)) then Some(i) else FailsAt(steps, fw, i + 1)
  }

  /** Everything a run does to the resources. */
  function SagaOps(slug: string, steps: seq<Step>, fw: nat -> Outcome, cp: nat -> Outcome): Ops {
    match FailsAt(steps, fw, 0)
    case None => Forward(slug, steps, fw, |steps|)
    case Some(k) => Join(Forward(slug, steps, fw, k + 1), Backward(slug, steps, cp, k))
  }

  // --- Effects ---

  lemma {:induction false} ApplyJoin(r: Resources, a: Ops, b: Ops)
    ensures ApplyOps(r, Join(a, b)) == ApplyOps(ApplyOps(r, a), b)
  {
    if b.Then? {
      ApplyJoin(r, a, b.before);
    }
  }

  lemma {:induction false} ApplyTwice(r: Resources, op: Op)
    ensures ApplyOp(ApplyOp(r, op), op) == ApplyOp(r, op)
  {
  }

  /** Repeating an attempt changes nothing: an activity that took effect did so once. */
  lemma {:induction false} AttemptsEffect(r: Resources, op: Op, effects: seq<bool>)
    ensures ApplyOps(r, AttemptOps(op, effects)) == if true in effects then ApplyOp(r, op) else r
  {
    if effects != [] {
      AttemptsEffect(r, op, effects[..|effects| - 1]);
      ApplyTwice(r, op);
    }
  }

  lemma {:induction false} ForwardEffect(r: Resources, slug: string, s: Step, o: Outcome)
    ensures ApplyOps(r, ForwardOps(slug, s, o))
         == if s.Provision? && Applied(o) then ApplyOp(r, Put(s.kind, slug, s.value)) else r
  {
    if s.Provision? {
      AttemptsEffect(r, Put(s.kind, slug, s.value), Effects(o));
    }
  }

  lemma {:induction false} UndoEffect(r: Resources, slug: string, s: Step, o: Outcome)
    ensures ApplyOps(r, UndoOps(slug, s, o))
         == if s.Provision? && Applied(o) then ApplyOp(r, Delete(s.kind, slug)) else r
  {
    if s.Provision? {
      AttemptsEffect(r, Delete(s.kind, slug), Effects(o));
    }
  }

  // --- The same in terms of states ---

  function Set(r: Resources, slug: string, s: Step, o: Outcome): Resources {
    if s.Provision? && Applied(o) then ApplyOp(r, Put(s.kind, slug, s.value)) else r
  }

  function Unset(r: Resources, slug: string, s: Step, o: Outcome): Resources {
    if s.Provision? && Applied(o) then ApplyOp(r, Delete(s.kind, slug)) else r
  }

  /** After steps 0 to n-1, and after the compensations n-1 down to 0. */
  function After(r: Resources, slug: string, steps: seq<Step>, fw: nat -> Outcome, n: nat): Resources
    requires n <= |steps|
  {
    if n == 0 then r else Set(After(r, slug, steps, fw, n - 1), slug, steps[n - 1], fw(n - 1))
  }

  function Undone(r: Resources, slug: string, steps: seq<Step>, cp: nat -> Outcome, n: nat): Resources
    requires n <= |steps|
    decreases n
  {
    if n == 0 then r else Undone(Unset(r, slug, steps[n - 1], cp(n - 1)), slug, steps, cp, n - 1)
  }

  /** What a run leaves. */
  function Final(r: Resources, slug: string, steps: seq<Step>, fw: nat -> Outcome, cp: nat -> Outcome): Resources {
    match FailsAt(steps, fw, 0)
    case None => After(r, slug, steps, fw, |steps|)
    case Some(k) => Undone(After(r, slug, steps, fw, k + 1), slug, steps, cp, k)
  }

  lemma {:induction false} ForwardIs(r: Resources, slug: string, steps: seq<Step>, fw: nat -> Outcome, n: nat)
    requires n <= |steps|
    ensures ApplyOps(r, Forward(slug, steps, fw, n)) == After(r, slug, steps, fw, n)
    decreases n
  {
    if n > 0 {
      ForwardIs(r, slug, steps, fw, n - 1);
      ApplyJoin(r, Forward(slug, steps, fw, n - 1), ForwardOps(slug, steps[n - 1], fw(n - 1)));
      ForwardEffect(After(r, slug, steps, fw, n - 1), slug, steps[n - 1], fw(n - 1));
    }
  }

  /** The last step's compensation, then the rest. */
  lemma {:induction false} BackwardFirst(r: Resources, slug: string, steps: seq<Step>, cp: nat -> Outcome, n: nat)
    requires 0 < n <= |steps|
    ensures ApplyOps(r, Backward(slug, steps, cp, n))
         == ApplyOps(Unset(r, slug, steps[n - 1], cp(n - 1)), Backward(slug, steps, cp, n - 1))
  {
    ApplyJoin(r, UndoOps(slug, steps[n - 1], cp(n - 1)), Backward(slug, steps, cp, n - 1));
    UndoEffect(r, slug, steps[n - 1], cp(n - 1));
  }

  lemma {:induction false} BackwardIs(r: Resources, slug: string, steps: seq<Step>, cp: nat -> Outcome, n: nat)
    requires n <= |steps|
    ensures ApplyOps(r, Backward(slug, steps, cp, n)) == Undone(r, slug, steps, cp, n)
    decreases n
  {
    if n > 0 {
      BackwardFirst(r, slug, steps, cp, n);
      BackwardIs(Unset(r, slug, steps[n - 1], cp(n - 1)), slug, steps, cp, n - 1);
    }
  }

  /** However often attempts repeat their operation, a run leaves its steps' effects once each. */
  lemma {:induction false} SagaIs(r: Resources, slug: string, steps: seq<Step>, fw: nat -> Outcome, cp: nat -> Outcome)
    ensures ApplyOps(r, SagaOps(slug, steps, fw, cp)) == Final(r, slug, steps, fw, cp)
  {
    match FailsAt(steps, fw, 0)
    case None => ForwardIs(r, slug, steps, fw, |steps|);
    case Some(k) =>
      ApplyJoin(r, Forward(slug, steps, fw, k + 1), Backward(slug, steps, cp, k));
      ForwardIs(r, slug, steps, fw, k + 1);
      BackwardIs(After(r, slug, steps, fw, k + 1), slug, steps, cp, k);
  }

  predicate Provides(s: Step, kind: nat) { s.Provision? && s.kind == kind }

  /** No step before n concerns that kind. */
  ghost predicate Untouched(steps: seq<Step>, n: nat, kind: nat)
    requires n <= |steps|
  {
    forall j | 0 <= j < n :: !Provides(steps[j], kind)
  }

  lemma {:induction false} AfterElsewhere(r: Resources, slug: string, steps: seq<Step>, fw: nat -> Outcome, n: nat, kind: nat, who: string)
    requires n <= |steps| && (who != slug || Untouched(steps, n, kind))
    ensures At(After(r, slug, steps, fw, n), kind, who) == At(r, kind, who)
    decreases n
  {
    if n > 0 {
      AfterElsewhere(r, slug, steps, fw, n - 1, kind, who);
      assert who == slug ==> !Provides(steps[n - 1], kind);
    }
  }

  lemma {:induction false} AfterAt(r: Resources, slug: string, steps: seq<Step>, fw: nat -> Outcome, n: nat, j: nat)
    requires j < n <= |steps| && DistinctKinds(steps) && steps[j].Provision?
    ensures At(After(r, slug, steps, fw, n), steps[j].kind, slug)
         == if Applied(fw(j)) then Some(steps[j].value) else At(r, steps[j].kind, slug)
    decreases n
  {
    if j < n - 1 {
      AfterAt(r, slug, steps, fw, n - 1, j);
    } else {
      AfterElsewhere(r, slug, steps, fw, j, steps[j].kind, slug);
    }
  }

  lemma {:induction false} UndoneElsewhere(r: Resources, slug: string, steps: seq<Step>, cp: nat -> Outcome, n: nat, kind: nat, who: string)
    requires n <= |steps| && (who != slug || Untouched(steps, n, kind))
    ensures At(Undone(r, slug, steps, cp, n), kind, who) == At(r, kind, who)
    decreases n
  {
    if n > 0 {
      assert who == slug ==> !Provides(steps[n - 1], kind);
      UndoneElsewhere(Unset(r, slug, steps[n - 1], cp(n - 1)), slug, steps, cp, n - 1, kind, who);
    }
  }

  lemma {:induction false} UndoneAt(r: Resources, slug: string, steps: seq<Step>, cp: nat -> Outcome, n: nat, j: nat)
    requires j < n <= |steps| && DistinctKinds(steps) && steps[j].Provision?
    ensures At(Undone(r, slug, steps, cp, n), steps[j].kind, slug)
         == if Applied(cp(j)) then None else At(r, steps[j].kind, slug)
    decreases n
  {
    var r' := Unset(r, slug, steps[n - 1], cp(n - 1));
    if j < n - 1 {
      UndoneAt(r', slug, steps, cp, n - 1, j);
    } else {
      UndoneElsewhere(r', slug, steps, cp, j, steps[j].kind, slug);
    }
  }

  // --- What a run leaves ---

  /** The state a failed run leaves of one of the tenant's resources, from any state before it. */
  function Left(r: Resources, slug: string, steps: seq<Step>, fw: nat -> Outcome, cp: nat -> Outcome, k: nat, j: nat): Option<int>
    requires k < |steps| && j < |steps| && steps[j].Provision?
  {
    if j > k then At(r, steps[j].kind, slug)
    else if j == k then if Applied(fw(k)) then Some(steps[k].value) else At(r, steps[k].kind, slug)
    else if Applied(cp(j)) then None else Some(steps[j].value)
  }

  /** A run whose steps are all reported as done leaves exactly its resources. */
  lemma {:induction false} CompletedRun(r: Resources, slug: string, steps: seq<Step>, fw: nat -> Outcome, cp: nat -> Outcome, j: nat)
    requires DistinctKinds(steps) && FailsAt(steps, fw, 0).None? && j < |steps| && steps[j].Provision?
    ensures At(ApplyOps(r, SagaOps(slug, steps, fw, cp)), steps[j].kind, slug) == Some(steps[j].value)
  {
    SagaIs(r, slug, steps, fw, cp);
    AfterAt(r, slug, steps, fw, |steps|, j);
    ReportedMeansApplied(fw(j));
  }

  lemma {:induction false} CompensatedStep(r: Resources, slug: string, steps: seq<Step>, fw: nat -> Outcome, cp: nat -> Outcome, k: nat, j: nat)
    requires DistinctKinds(steps) && j < k < |steps| && steps[j].Provision? && Succeeded(fw(j))
    ensures At(Undone(After(r, slug, steps, fw, k + 1), slug, steps, cp, k), steps[j].kind, slug)
         == if Applied(cp(j)) then None else Some(steps[j].value)
  {
    ReportedMeansApplied(fw(j));
    AfterAt(r, slug, steps, fw, k + 1, j);
    UndoneAt(After(r, slug, steps, fw, k + 1), slug, steps, cp, k, j);
  }

  lemma {:induction false} UncompensatedStep(r: Resources, slug: string, steps: seq<Step>, fw: nat -> Outcome, cp: nat -> Outcome, k: nat, j: nat)
    requires DistinctKinds(steps) && k <= j < |steps| && steps[j].Provision?
    ensures At(Undone(After(r, slug, steps, fw, k + 1), slug, steps, cp, k), steps[j].kind, slug)
         == if j == k && Applied(fw(k)) then Some(steps[j].value) else At(r, steps[j].kind, slug)
  {
    assert Untouched(steps, k, steps[j].kind);
    UndoneElsewhere(After(r, slug, steps, fw, k + 1), slug, steps, cp, k, steps[j].kind, slug);
    if j == k {
      AfterAt(r, slug, steps, fw, k + 1, j);
    } else {
      AfterElsewhere(r, slug, steps, fw, k + 1, steps[j].kind, slug);
    }
  }

  /** Exactly what a failed run leaves, for step lists of any length and any outcomes. */
  lemma {:induction false} FailedRun(r: Resources, slug: string, steps: seq<Step>, fw: nat -> Outcome, cp: nat -> Outcome, j: nat)
    requires DistinctKinds(steps) && FailsAt(steps, fw, 0).Some? && j < |steps| && steps[j].Provision?
    ensures At(ApplyOps(r, SagaOps(slug, steps, fw, cp)), steps[j].kind, slug)
         == Left(r, slug, steps, fw, cp, FailsAt(steps, fw, 0).value, j)
  {
    SagaIs(r, slug, steps, fw, cp);
    var k := FailsAt(steps, fw, 0).value;
    if j < k {
      CompensatedStep(r, slug, steps, fw, cp, k, j);
    } else {
      UncompensatedStep(r, slug, steps, fw, cp, k, j);
    }
  }

  /** A run touches nothing of other tenants, nor kinds it does not provision. */
  lemma {:induction false} OthersUntouched(r: Resources, slug: string, steps: seq<Step>, fw: nat -> Outcome, cp: nat -> Outcome, kind: nat, who: string)
    requires who != slug || Untouched(steps, |steps|, kind)
    ensures At(ApplyOps(r, SagaOps(slug, steps, fw, cp)), kind, who) == At(r, kind, who)
  {
    SagaIs(r, slug, steps, fw, cp);
    match FailsAt(steps, fw, 0)
    case None => AfterElsewhere(r, slug, steps, fw, |steps|, kind, who);
    case Some(k) =>
      AfterElsewhere(r, slug, steps, fw, k + 1, kind, who);
      UndoneElsewhere(After(r, slug, steps, fw, k + 1), slug, steps, cp, k, kind, who);
  }

  /**
   Leftovers are exactly bounded. For a tenant without prior resources, a failed run leaves a
   resource if and only if its compensation never took effect, and was then reported as
   failed, or it belongs to the failing step itself, whose attempts took effect unreported.
   */
  lemma {:induction false} LeftoversExactly(r: Resources, slug: string, steps: seq<Step>, fw: nat -> Outcome, cp: nat -> Outcome, j: nat)
    requires DistinctKinds(steps) && FailsAt(steps, fw, 0).Some? && j < |steps| && steps[j].Provision?
    requires At(r, steps[j].kind, slug) == None
    ensures var k := FailsAt(steps, fw, 0).value;
            At(ApplyOps(r, SagaOps(slug, steps, fw, cp)), steps[j].kind, slug).Some?
            <==> (j < k && !Applied(cp(j))) || (j == k && Applied(fw(k)))
    ensures !Applied(cp(j)) ==> !Succeeded(cp(j))
  {
    FailedRun(r, slug, steps, fw, cp, j);
    ReportedMeansApplied(cp(j));
  }

  /**
   Rolled back means restored only for what was not there before: a resource the tenant already
   had comes back to its old state if and only if its compensation did not delete it and the
   step had set it to the value it had.
   */
  lemma {:induction false} RestoredExactly(r: Resources, slug: string, steps: seq<Step>, fw: nat -> Outcome, cp: nat -> Outcome, j: nat)
    requires DistinctKinds(steps) && FailsAt(steps, fw, 0).Some? && j < |steps| && steps[j].Provision?
    ensures var k, was := FailsAt(steps, fw, 0).value, At(r, steps[j].kind, slug);
            At(ApplyOps(r, SagaOps(slug, steps, fw, cp)), steps[j].kind, slug) == was
            <==> (|| j > k
                  || (j == k && (!Applied(fw(k)) || was == Some(steps[k].value)))
                  || (j < k && if was.None? then Applied(cp(j)) else !Applied(cp(j)) && was.value == steps[j].value))
  {
    FailedRun(r, slug, steps, fw, cp, j);
  }

  const TookEffectUnreported: Outcome := Attempts([true, false, false], false)

  /** A step whose first attempt took effect unreported fails, and its resource stays. */
  lemma {:induction false} FailingStepLeavesResource(fw: nat -> Outcome, cp: nat -> Outcome)
    requires fw(0) == TookEffectUnreported
    ensures FailsAt([Provision(0, 1)], fw, 0) == Some(0)
    ensures At(ApplyOps(Resources(map[]), SagaOps("a", [Provision(0, 1)], fw, cp)), 0, "a") == Some(1)
  {
    assert Effects(fw(0))[0];
    FailedRun(Resources(map[]), "a", [Provision(0, 1)], fw, cp, 0);
  }

  /** A tenant that already had the resource loses it when a later step fails and the rollback succeeds. */
  lemma {:induction false} RollbackDeletesWhatWasThere(fw: nat -> Outcome, cp: nat -> Outcome)
    requires Succeeded(fw(0)) && !Succeeded(fw(1)) && Succeeded(cp(0))
    ensures var before := Resources(map[(0, "a") := 1]);
            && At(before, 0, "a") == Some(1)
            && At(ApplyOps(before, SagaOps("a", [Provision(0, 1), Nothing], fw, cp)), 0, "a") == None
  {
    var before := Resources(map[(0, "a") := 1]);
    ReportedMeansApplied(cp(0));
    FailedRun(before, "a", [Provision(0, 1), Nothing], fw, cp, 0);
  }

  // --- Interleaved runs ---

  /** The operations of one tenant's run, in order. */
  function Project(ops: Ops, slug: string): Ops {
    match ops
    case Idle => Idle
    case Then(before, last) =>
      if last.slug == slug then Then(Project(before, slug), last) else Project(before, slug)
  }

  lemma {:induction false} Projection(r: Resources, ops: Ops, slug: string, kind: nat)
    ensures At(ApplyOps(r, ops), kind, slug) == At(ApplyOps(r, Project(ops, slug)), kind, slug)
  {
    if ops.Then? {
      Projection(r, ops.before, slug, kind);
    }
  }

  /**
   Runs do not interfere. Whatever the scheduler interleaves, a tenant whose operations are
   those of its own saga ends up with exactly the resources that saga alone would leave.
   */
  lemma {:induction false} RunsDoNotInterfere(r: Resources, all: Ops, slug: string, steps: seq<Step>, fw: nat -> Outcome, cp: nat -> Outcome, kind: nat)
    requires Project(all, slug) == SagaOps(slug, steps, fw, cp)
    ensures At(ApplyOps(r, all), kind, slug) == At(ApplyOps(r, SagaOps(slug, steps, fw, cp)), kind, slug)
  {
    Projection(r, all, slug, kind);
  }
}
