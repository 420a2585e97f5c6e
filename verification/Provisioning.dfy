/** The tenant workflow over the provisioner's four maps, step by step as the saga runs it. */
module Provisioning {
  import opened Wrappers
  import opened Saga

  /** Activities as the workflow calls them: forward steps and compensations, by position. */
  datatype Call = Do(step: nat) | Undo(step: nat)

  datatype Result = Provisioned(namespace: string, endpoint: string) | Failed(cause: nat)

  /** Namespace, quota, DNS, secret path, finalize. */
  function TenantSteps(maxServices: int): seq<Step> {
    [Provision(0, 1), Provision(1, maxServices), Provision(2, 1), Provision(3, 1), Nothing]
  }

  /** The steps of a tenant, one by one; each resource has a step of its own. */
  lemma {:induction false} StepsOfTenant(maxServices: int)
    ensures var steps := TenantSteps(maxServices);
            && |steps| == 5 && DistinctKinds(steps)
            && steps[0] == Provision(0, 1) && steps[1] == Provision(1, maxServices)
            && steps[2] == Provision(2, 1) && steps[3] == Provision(3, 1) && steps[4] == Nothing
  {
  }

  predicate IsTenantStep(s: Step) {
    s.Nothing? || s.kind == 1 || (s.kind in {0, 2, 3} && s.value == 1)
  }

  /** One of the maps holds exactly the resources of its kind; flags are only ever set to true. */
  ghost predicate Holds(r: Resources, kind: nat, m: map<string, int>) {
    forall s: string :: (s in m <==> (kind, s) in r.held) && (s in m ==> r.held[(kind, s)] == m[s])
  }

  ghost predicate Flags(r: Resources, kind: nat, m: map<string, bool>) {
    forall s: string :: (s in m <==> (kind, s) in r.held) && (s in m ==> r.held[(kind, s)] == 1)
  }

  /** The four maps of the provisioner. */
  datatype Maps = Maps(namespaces: map<string, bool>, quotas: map<string, int>, dns: map<string, bool>, secrets: map<string, bool>)

  ghost predicate Shown(r: Resources, m: Maps) {
    Flags(r, 0, m.namespaces) && Holds(r, 1, m.quotas) && Flags(r, 2, m.dns) && Flags(r, 3, m.secrets)
  }

  /** Everything the tenant was promised is there. */
  predicate Complete(m: Maps, slug: string, maxServices: int) {
    slug in m.namespaces && slug in m.quotas && m.quotas[slug] == maxServices && slug in m.dns && slug in m.secrets
  }

  /** Nothing of the tenant is there. */
  predicate Absent(m: Maps, slug: string) {
    slug !in m.namespaces && slug !in m.quotas && slug !in m.dns && slug !in m.secrets
  }

  /** What step k's failure leaves of step j: a compensation that never took effect, or k's own unreported effect. */
  predicate Remains(fw: nat -> Outcome, cp: nat -> Outcome, k: nat, j: nat) {
    (j < k && !Applied(cp(j))) || (j == k && Applied(fw(k)))
  }

  /** Of a tenant that had nothing, exactly the leftovers of a run that failed at step k. */
  predicate LeftOver(m: Maps, slug: string, fw: nat -> Outcome, cp: nat -> Outcome, k: nat) {
    && (slug in m.namespaces <==> Remains(fw, cp, k, 0)) && (slug in m.quotas <==> Remains(fw, cp, k, 1))
    && (slug in m.dns <==> Remains(fw, cp, k, 2)) && (slug in m.secrets <==> Remains(fw, cp, k, 3))
  }

  /** What one tenant has is the same in both. */
  predicate SameFor(m: Maps, m': Maps, who: string) {
    && (who in m.namespaces <==> who in m'.namespaces) && (who in m.dns <==> who in m'.dns)
    && (who in m.secrets <==> who in m'.secrets)
    && (who in m.quotas <==> who in m'.quotas) && (who in m.quotas ==> m'.quotas[who] == m.quotas[who])
  }

  lemma {:induction false} MapsCompleted(r: Resources, m': Maps, slug: string, maxServices: int, fw: nat -> Outcome, cp: nat -> Outcome)
    requires FailsAt(TenantSteps(maxServices), fw, 0).None?
    requires Shown(ApplyOps(r, SagaOps(slug, TenantSteps(maxServices), fw, cp)), m')
    ensures Complete(m', slug, maxServices)
  {
    StepsOfTenant(maxServices);
    forall j: nat | j < 4
      ensures At(ApplyOps(r, SagaOps(slug, TenantSteps(maxServices), fw, cp)), j, slug) == Some(TenantSteps(maxServices)[j].value)
    {
      CompletedRun(r, slug, TenantSteps(maxServices), fw, cp, j);
    }
    assert At(ApplyOps(r, SagaOps(slug, TenantSteps(maxServices), fw, cp)), 1, slug) == Some(maxServices);
  }

  lemma {:induction false} MapsFailed(r: Resources, m: Maps, m': Maps, slug: string, maxServices: int, fw: nat -> Outcome, cp: nat -> Outcome)
    requires FailsAt(TenantSteps(maxServices), fw, 0).Some? && Shown(r, m) && Absent(m, slug)
    requires Shown(ApplyOps(r, SagaOps(slug, TenantSteps(maxServices), fw, cp)), m')
    ensures LeftOver(m', slug, fw, cp, FailsAt(TenantSteps(maxServices), fw, 0).value)
  {
    StepsOfTenant(maxServices);
    var k := FailsAt(TenantSteps(maxServices), fw, 0).value;
    forall j: nat | j < 4
      ensures At(ApplyOps(r, SagaOps(slug, TenantSteps(maxServices), fw, cp)), j, slug).Some? <==> Remains(fw, cp, k, j)
    {
      assert At(r, j, slug) == None;
      LeftoversExactly(r, slug, TenantSteps(maxServices), fw, cp, j);
    }
  }

  lemma {:induction false} MapsOfOthers(r: Resources, m: Maps, m': Maps, slug: string, maxServices: int, fw: nat -> Outcome, cp: nat -> Outcome, who: string)
    requires Shown(r, m) && Shown(ApplyOps(r, SagaOps(slug, TenantSteps(maxServices), fw, cp)), m') && who != slug
    ensures SameFor(m, m', who)
  {
    forall kind: nat
      ensures At(ApplyOps(r, SagaOps(slug, TenantSteps(maxServices), fw, cp)), kind, who) == At(r, kind, who)
    {
      OthersUntouched(r, slug, TenantSteps(maxServices), fw, cp, kind, who);
    }
    var r' := ApplyOps(r, SagaOps(slug, TenantSteps(maxServices), fw, cp));
    assert At(r', 0, who) == At(r, 0, who) && At(r', 1, who) == At(r, 1, who);
    assert At(r', 2, who) == At(r, 2, who) && At(r', 3, who) == At(r, 3, who);
  }

  class SimulatedProvisioner {
    var namespaces: map<string, bool>
    var quotas: map<string, int>
    var dns: map<string, bool>
    var secrets: map<string, bool>
    /** The four maps as one, by resource kind. */
    ghost var view: Resources

    constructor ()
      ensures Valid() && view == Resources(map[])
    {
      namespaces, quotas, dns, secrets := map[], map[], map[], map[];
      view := Resources(map[]);
    }

    ghost predicate Valid()
      reads this
    {
      && Flags(view, 0, namespaces) && Holds(view, 1, quotas) && Flags(view, 2, dns) && Flags(view, 3, secrets)
    }

    function Snapshot(): Maps
      reads this
    {
      Maps(namespaces, quotas, dns, secrets)
    }

    method CreateNamespace(slug: string) returns (name: string)
      requires Valid()
      modifies this
      ensures Valid() && view == ApplyOp(old(view), Put(0, slug, 1))
      ensures name == "tenant-" + slug
    {
      namespaces := namespaces[slug := true];
      name := "tenant-" + slug;
      view := ApplyOp(view, Put(0, slug, 1));
    }

    method DeleteNamespace(slug: string)
      requires Valid()
      modifies this
      ensures Valid() && view == ApplyOp(old(view), Delete(0, slug))
    {
      namespaces := namespaces - {slug};
      view := ApplyOp(view, Delete(0, slug));
    }

    method ApplyQuota(slug: string, maxServices: int)
      requires Valid()
      modifies this
      ensures Valid() && view == ApplyOp(old(view), Put(1, slug, maxServices))
    {
      quotas := quotas[slug := maxServices];
      view := ApplyOp(view, Put(1, slug, maxServices));
    }

    method RemoveQuota(slug: string)
      requires Valid()
      modifies this
      ensures Valid() && view == ApplyOp(old(view), Delete(1, slug))
    {
      quotas := quotas - {slug};
      view := ApplyOp(view, Delete(1, slug));
    }

    method RegisterDNS(slug: string) returns (fqdn: string)
      requires Valid()
      modifies this
      ensures Valid() && view == ApplyOp(old(view), Put(2, slug, 1))
      ensures fqdn == slug + "." + "forge.example.com"
    {
      dns := dns[slug := true];
      fqdn := slug + "." + "forge.example.com";
      view := ApplyOp(view, Put(2, slug, 1));
    }

    method DeregisterDNS(slug: string)
      requires Valid()
      modifies this
      ensures Valid() && view == ApplyOp(old(view), Delete(2, slug))
    {
      dns := dns - {slug};
      view := ApplyOp(view, Delete(2, slug));
    }

    method CreateSecretPath(slug: string)
      requires Valid()
      modifies this
      ensures Valid() && view == ApplyOp(old(view), Put(3, slug, 1))
    {
      secrets := secrets[slug := true];
      view := ApplyOp(view, Put(3, slug, 1));
    }

    method DeleteSecretPath(slug: string)
      requires Valid()
      modifies this
      ensures Valid() && view == ApplyOp(old(view), Delete(3, slug))
    {
      secrets := secrets - {slug};
      view := ApplyOp(view, Delete(3, slug));
    }

    /** The provisioner call behind a forward step, with the name it answers, if any. */
    method Create(step: Step, slug: string) returns (name: string)
      requires Valid() && IsTenantStep(step)
      modifies this
      ensures Valid() && view == if step.Provision? then ApplyOp(old(view), Put(step.kind, slug, step.value)) else old(view)
      ensures name == Answer(step, slug)
    {
      name := "";
      if step.Nothing? {
      } else if step.kind == 0 {
        name := CreateNamespace(slug);
      } else if step.kind == 1 {
        ApplyQuota(slug, step.value);
      } else if step.kind == 2 {
        name := RegisterDNS(slug);
      } else {
        CreateSecretPath(slug);
      }
    }

    /** The provisioner call behind a compensation. */
    method Remove(step: Step, slug: string)
      requires Valid() && IsTenantStep(step) && step.Provision?
      modifies this
      ensures Valid() && view == ApplyOp(old(view), Delete(step.kind, slug))
    {
      if step.kind == 0 {
        DeleteNamespace(slug);
      } else if step.kind == 1 {
        RemoveQuota(slug);
      } else if step.kind == 2 {
        DeregisterDNS(slug);
      } else {
        DeleteSecretPath(slug);
      }
    }
  }

  /** The name an activity answers with. */
  function Answer(step: Step, slug: string): string {
    if step.Provision? && step.kind == 0 then "tenant-" + slug
    else if step.Provision? && step.kind == 2 then slug + "." + "forge.example.com"
    else ""
  }

  /** Forward calls 0 to n-1; compensations n-1 down to 0. */
  function Dones(n: nat): seq<Call> {
    if n == 0 then [] else Dones(n - 1) + [Do(n - 1)]
  }

  function Undos(n: nat): seq<Call> {
    if n == 0 then [] else [Undo(n - 1)] + Undos(n - 1)
  }

  /** Every compensation of n completed steps is called once, latest step first. */
  lemma {:induction false} UndosAt(n: nat, i: nat)
    requires i < n
    ensures |Undos(n)| == n && Undos(n)[i] == Undo(n - 1 - i)
  {
    if n > 1 {
      UndosAt(n - 1, if i > 0 then i - 1 else 0);
    }
  }

  lemma {:induction false} DonesAt(n: nat, i: nat)
    requires i < n
    ensures |Dones(n)| == n && Dones(n)[i] == Do(i)
  {
    if n > 1 {
      DonesAt(n - 1, if i < n - 1 then i else 0);
    }
  }

  /** Compensations registered in the order of their steps. */
  function Indices(n: nat): (s: seq<nat>)
    ensures |s| == n && forall i: nat {:trigger s[i]} | i < n :: s[i] == i
  {
    if n == 0 then [] else Indices(n - 1) + [n - 1]
  }

  /** The first n steps each provision something. */
  predicate Compensable(steps: seq<Step>, n: nat) {
    n <= |steps| && forall i | 0 <= i < n :: IsTenantStep(steps[i]) && steps[i].Provision?
  }

  /** Four steps to compensate and a last one, with the namespace first and the endpoint third. */
  predicate IsWorkflow(steps: seq<Step>) {
    |steps| == 5 && Compensable(steps, 4) && IsTenantStep(steps[4]) && steps[0].kind == 0 && steps[2].kind == 2
  }

  predicate SucceededBefore(fw: nat -> Outcome, k: nat) {
    forall i: nat | i < k :: Succeeded(fw(i))
  }

  lemma {:induction false} FailsFirst(steps: seq<Step>, fw: nat -> Outcome, k: nat)
    requires k < |steps| && !Succeeded(fw(k)) && SucceededBefore(fw, k)
    ensures FailsAt(steps, fw, 0) == Some(k)
  {
    assert FailsAt(steps, fw, 0) != None;
    assert FailsAt(steps, fw, 0).value >= k;
  }

  /** Steps 0 to n-1 are done: called once each and, but for the last step, registered for rollback. */
  predicate Reached(n: nat, compensations: seq<nat>, calls: seq<Call>) {
    compensations == Indices(if n < 4 then n else 4) && calls == Dones(n)
  }

  /** The same, but step n was reported as failed. */
  predicate Halted(n: nat, compensations: seq<nat>, calls: seq<Call>) {
    compensations == Indices(n) && calls == Dones(n + 1)
  }

  /** A run whose first n steps are done. */
  predicate Underway(n: nat, fw: nat -> Outcome, compensations: seq<nat>, calls: seq<Call>) {
    SucceededBefore(fw, n) && Reached(n, compensations, calls)
  }

  /**
   How a run ends: the activities were called once each, in order, and after a failure the
   completed ones were compensated once each, latest first; the answer carries the names, or the
   cause of the original failure.
   */
  predicate Ended(slug: string, steps: seq<Step>, fw: nat -> Outcome, calls: seq<Call>, result: Result) {
    match FailsAt(steps, fw, 0)
    case None => result == Provisioned("tenant-" + slug, slug + "." + "forge.example.com") && calls == Dones(|steps|)
    case Some(k) => result == Failed(k) && calls == Dones(k + 1) + Undos(k)
  }

  lemma {:induction false} AllDone(slug: string, steps: seq<Step>, fw: nat -> Outcome, compensations: seq<nat>, calls: seq<Call>)
    requires IsWorkflow(steps) && Underway(5, fw, compensations, calls)
    ensures Ended(slug, steps, fw, calls, Provisioned(Answer(steps[0], slug), Answer(steps[2], slug)))
    ensures FailsAt(steps, fw, 0) == None
  {
    assert FailsAt(steps, fw, 0) == None;
  }

  /** Whether one of the first n attempts took effect. */
  predicate HitBy(o: Outcome, n: nat)
    requires n <= |Effects(o)|
  {
    n > 0 && (HitBy(o, n - 1) || Effects(o)[n - 1])
  }

  lemma {:induction false} HitBySome(o: Outcome, n: nat)
    requires n <= |Effects(o)|
    ensures HitBy(o, n) <==> exists i :: 0 <= i < n && Effects(o)[i]
  {
    if n > 0 {
      HitBySome(o, n - 1);
    }
  }

  lemma {:induction false} HitByAll(o: Outcome)
    ensures HitBy(o, |Effects(o)|) == Applied(o)
  {
    HitBySome(o, |Effects(o)|);
  }

  /** A step's effect or its compensation's, once. */
  function Put1(r: Resources, slug: string, s: Step, hit: bool): Resources {
    if s.Provision? && hit then ApplyOp(r, Put(s.kind, slug, s.value)) else r
  }

  function Delete1(r: Resources, slug: string, s: Step, hit: bool): Resources {
    if s.Provision? && hit then ApplyOp(r, Delete(s.kind, slug)) else r
  }

  /** One workflow run: what it registered for rollback and which activities it called. */
  class Workflow {
    const provisioner: SimulatedProvisioner
    const slug: string
    const maxServices: int
    var compensations: seq<nat>
    var calls: seq<Call>

    constructor (provisioner: SimulatedProvisioner, slug: string, maxServices: int)
      ensures this.provisioner == provisioner && this.slug == slug && this.maxServices == maxServices
      ensures compensations == [] && calls == []
    {
      this.provisioner, this.slug, this.maxServices := provisioner, slug, maxServices;
      compensations, calls := [], [];
    }

    /** An activity under the retry policy: attempted until one attempt is reported as done. */
    method Execute(i: nat, step: Step, o: Outcome) returns (ok: bool, name: string)
      requires provisioner.Valid() && IsTenantStep(step)
      modifies this`calls, provisioner
      ensures provisioner.Valid() && provisioner.view == Set(old(provisioner.view), slug, step, o)
      ensures ok == Succeeded(o) && (ok ==> name == Answer(step, slug))
      ensures calls == old(calls) + [Do(i)]
    {
      ok, name, calls := false, "", calls + [Do(i)];
      ghost var hit := false;
      var tries := 0;
      while !ok && tries < MaximumAttempts
        invariant if ok then o.ok && tries == |o.missed| + 1 else tries <= |o.missed|
        invariant calls == old(calls) + [Do(i)] && (ok ==> name == Answer(step, slug))
        invariant hit == HitBy(o, tries)
        invariant provisioner.Valid() && provisioner.view == Put1(old(provisioner.view), slug, step, hit)
      {
        ok := tries == |o.missed|;
        if ok || o.missed[tries] {
          name := provisioner.Create(step, slug);
          hit := true;
        }
        tries := tries + 1;
      }
      HitByAll(o);
    }

    method ExecuteCompensation(i: nat, step: Step, o: Outcome) returns (ok: bool)
      requires provisioner.Valid() && IsTenantStep(step) && step.Provision?
      modifies this`calls, provisioner
      ensures provisioner.Valid() && provisioner.view == Unset(old(provisioner.view), slug, step, o)
      ensures ok == Succeeded(o) && calls == old(calls) + [Undo(i)]
    {
      ok, calls := false, calls + [Undo(i)];
      ghost var hit := false;
      var tries := 0;
      while !ok && tries < MaximumAttempts
        invariant if ok then o.ok && tries == |o.missed| + 1 else tries <= |o.missed|
        invariant calls == old(calls) + [Undo(i)]
        invariant hit == HitBy(o, tries)
        invariant provisioner.Valid() && provisioner.view == Delete1(old(provisioner.view), slug, step, hit)
      {
        ok := tries == |o.missed|;
        if ok || o.missed[tries] {
          provisioner.Remove(step, slug);
          hit := true;
        }
        tries := tries + 1;
      }
      HitByAll(o);
    }

    method AddCompensation(i: nat)
      modifies this`compensations
      ensures compensations == old(compensations) + [i]
    {
      compensations := compensations + [i];
    }

    /** The registered compensations, latest first; one that fails does not stop the rest. */
    method Compensate(steps: seq<Step>, k: nat, cp: nat -> Outcome)
      requires provisioner.Valid() && compensations == Indices(k) && Compensable(steps, k)
      modifies this`calls, provisioner
      ensures provisioner.Valid() && provisioner.view == Undone(old(provisioner.view), slug, steps, cp, k)
      ensures calls == old(calls) + Undos(k)
    {
      var n: nat := |compensations|;
      while n > 0
        invariant n <= k && provisioner.Valid()
        invariant Undone(provisioner.view, slug, steps, cp, n) == Undone(old(provisioner.view), slug, steps, cp, k)
        invariant calls + Undos(n) == old(calls) + Undos(k)
      {
        n := n - 1;
        ghost var soFar := calls;
        var done := ExecuteCompensation(compensations[n], steps[n], cp(n));
        Regroup(soFar, n);
      }
    }

    /** One forward step, and its registration once it is done; the last one, finalize, has nothing to undo. */
    method Advance(i: nat, steps: seq<Step>, fw: nat -> Outcome, ghost r: Resources) returns (ok: bool, name: string)
      requires i < |steps| && i < 5 && IsTenantStep(steps[i]) && Reached(i, compensations, calls)
      requires provisioner.Valid() && provisioner.view == After(r, slug, steps, fw, i)
      modifies this, provisioner
      ensures provisioner.Valid() && provisioner.view == After(r, slug, steps, fw, i + 1)
      ensures ok == Succeeded(fw(i)) && (ok ==> name == Answer(steps[i], slug))
      ensures if ok then Reached(i + 1, compensations, calls) else Halted(i, compensations, calls)
    {
      ok, name := Execute(i, steps[i], fw(i));
      if ok && i < 4 {
        AddCompensation(i);
      }
    }

    /** A run that stops at step k: everything completed before it is compensated. */
    method RollBack(k: nat, steps: seq<Step>, fw: nat -> Outcome, cp: nat -> Outcome, ghost r: Resources)
      returns (result: Result)
      requires k < |steps| && Compensable(steps, k) && Halted(k, compensations, calls)
      requires !Succeeded(fw(k)) && SucceededBefore(fw, k)
      requires provisioner.Valid() && provisioner.view == After(r, slug, steps, fw, k + 1)
      modifies this`calls, provisioner
      ensures provisioner.Valid() && provisioner.view == Final(r, slug, steps, fw, cp)
      ensures Ended(slug, steps, fw, calls, result)
    {
      FailsFirst(steps, fw, k);
      Compensate(steps, k, cp);
      result := Failed(k);
    }

    /** One step of the workflow: done, or the end of a run that failed there. */
    method DoStep(i: nat, steps: seq<Step>, fw: nat -> Outcome, cp: nat -> Outcome, ghost r: Resources)
      returns (ok: bool, name: string, result: Result)
      requires IsWorkflow(steps) && i < 5 && Underway(i, fw, compensations, calls)
      requires provisioner.Valid() && provisioner.view == After(r, slug, steps, fw, i)
      modifies this, provisioner
      ensures provisioner.Valid() && (ok ==> name == Answer(steps[i], slug))
      ensures ok ==> provisioner.view == After(r, slug, steps, fw, i + 1) && Underway(i + 1, fw, compensations, calls)
      ensures !ok ==> provisioner.view == Final(r, slug, steps, fw, cp) && Ended(slug, steps, fw, calls, result)
    {
      result := Failed(i);
      ok, name := Advance(i, steps, fw, r);
      if !ok {
        result := RollBack(i, steps, fw, cp, r);
      }
    }

    /** The activities in the order of the workflow, up to the first one that fails. */
    method RunSteps(steps: seq<Step>, fw: nat -> Outcome, cp: nat -> Outcome) returns (result: Result)
      requires compensations == [] && calls == [] && provisioner.Valid() && IsWorkflow(steps)
      modifies this, provisioner
      ensures provisioner.Valid() && provisioner.view == Final(old(provisioner.view), slug, steps, fw, cp)
      ensures Ended(slug, steps, fw, calls, result)
    {
      ghost var r := provisioner.view;
      var i, ok, namespace, endpoint, none := 0, false, "", "", "";
      ok, namespace, result := DoStep(i, steps, fw, cp, r);
      if !ok {
        return;
      }
      i := i + 1;
      ok, none, result := DoStep(i, steps, fw, cp, r);
      if !ok {
        return;
      }
      i := i + 1;
      ok, endpoint, result := DoStep(i, steps, fw, cp, r);
      if !ok {
        return;
      }
      i := i + 1;
      ok, none, result := DoStep(i, steps, fw, cp, r);
      if !ok {
        return;
      }
      i := i + 1;
      ok, none, result := DoStep(i, steps, fw, cp, r);
      if !ok {
        return;
      }
      result := Provisioned(namespace, endpoint);
      AllDone(slug, steps, fw, compensations, calls);
    }

    /**
     The whole workflow. It succeeds exactly when all five activities are reported as done, and then
     the tenant has namespace, quota, DNS record and secret path. Otherwise it names the first that
     was not, and a tenant that had nothing has exactly the leftovers. Other tenants keep what they
     have.
     */
    method ProvisionTenant(fw: nat -> Outcome, cp: nat -> Outcome) returns (result: Result)
      requires compensations == [] && calls == [] && provisioner.Valid()
      modifies this, provisioner
      ensures provisioner.Valid()
      ensures result.Provisioned? <==> SucceededBefore(fw, 5)
      ensures result.Provisioned? ==>
                && result == Provisioned("tenant-" + slug, slug + "." + "forge.example.com")
                && Complete(provisioner.Snapshot(), slug, maxServices)
      ensures result.Failed? ==>
                && result.cause < 5 && !Succeeded(fw(result.cause)) && SucceededBefore(fw, result.cause)
                && (Absent(old(provisioner.Snapshot()), slug) ==> LeftOver(provisioner.Snapshot(), slug, fw, cp, result.cause))
      ensures forall who | who != slug :: SameFor(old(provisioner.Snapshot()), provisioner.Snapshot(), who)
      ensures provisioner.view == ApplyOps(old(provisioner.view), SagaOps(slug, TenantSteps(maxServices), fw, cp))
      ensures Ended(slug, TenantSteps(maxServices), fw, calls, result)
    {
      ghost var r, m := provisioner.view, provisioner.Snapshot();
      SagaIs(r, slug, TenantSteps(maxServices), fw, cp);
      result := RunSteps(TenantSteps(maxServices), fw, cp);
      StepsOfTenant(maxServices);
      if result.Provisioned? {
        MapsCompleted(r, provisioner.Snapshot(), slug, maxServices, fw, cp);
      } else if Absent(m, slug) {
        MapsFailed(r, m, provisioner.Snapshot(), slug, maxServices, fw, cp);
      }
      forall who | who != slug ensures SameFor(m, provisioner.Snapshot(), who) {
        MapsOfOthers(r, m, provisioner.Snapshot(), slug, maxServices, fw, cp, who);
      }
    }
  }

  lemma {:induction false} Regroup(calls: seq<Call>, n: nat)
    ensures calls + Undos(n + 1) == calls + [Undo(n)] + Undos(n)
  {
  }
}
