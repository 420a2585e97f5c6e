/**
 The controller's status writer: any number of reconcilers compute the status of an Application
 from a copy they read and from a Deployment they observed, and write it back unless the object
 has changed since they read it.
 */
module StatusWriter {
  import opened Wrappers
  import opened Events

  datatype Phase = Unset | Progressing | Ready

  /** `transition` is None until the condition is set; the message is the pair it prints. */
  datatype Condition = Condition(kind: string, status: bool, observed: nat, reason: Phase, message: (int, int), transition: Option<Time>)

  datatype Status = Status(phase: Phase, replicas: int, ready: int, observed: nat, conditions: seq<Condition>)

  datatype App = App(replicas: int, generation: nat, version: nat, status: Status)

  /** What a reconciler saw of the Deployment. */
  datatype Deployment = Deployment(replicas: int, ready: int)

  function Desired(replicas: int): int { if replicas == 0 then 1 else replicas }

  function PhaseFor(ready: int, desired: int): Phase {
    if ready >= desired && desired > 0 then Ready else Progressing
  }

  /** Enough ready replicas for what the spec asks, where none asked for means one, and negative never. */
  predicate Enough(ready: int, replicas: int) { replicas >= 0 && ready >= 1 && ready >= replicas }

  lemma {:induction false} PhaseExactly(ready: int, replicas: int)
    ensures PhaseFor(ready, Desired(replicas)) == if Enough(ready, replicas) then Ready else Progressing
    ensures Desired(replicas) == if replicas == 0 then 1 else replicas
  {
  }

  // --- Conditions ---

  /** The first condition of a kind at or after i, or the length. */
  function Find(cs: seq<Condition>, kind: string, i: nat): (k: nat)
    requires i <= |cs|
    ensures i <= k <= |cs| && (k < |cs| ==> cs[k].kind == kind) && forall j | i <= j < k :: cs[j].kind != kind
    decreases |cs| - i
  {
    if i == |cs| || cs[i].kind == kind then i else Find(cs, kind, i + 1)
  }

  /** Sets a condition: in place when there is one of its kind, keeping its time unless it flips. */
  function Upsert(cs: seq<Condition>, c: Condition, now: Time): seq<Condition> {
    var k := Find(cs, c.kind, 0);
    var at := if c.transition.None? then Some(now) else c.transition;
    if k == |cs| then cs + [c.(transition := at)]
    else cs[k := c.(transition := if cs[k].status == c.status then cs[k].transition else at)]
  }

  method SetCondition(conditions: seq<Condition>, condition: Condition, now: Time) returns (cs: seq<Condition>)
    ensures cs == Upsert(conditions, condition, now)
  {
    var c := condition;
    if c.transition.None? {
      c := c.(transition := Some(now));
    }
    for i := 0 to |conditions|
      invariant c == condition.(transition := if condition.transition.None? then Some(now) else condition.transition)
      invariant Find(conditions, c.kind, 0) >= i
    {
      if conditions[i].kind == c.kind {
        if conditions[i].status == c.status {
          c := c.(transition := conditions[i].transition);
        }
        return conditions[i := c];
      }
    }
    cs := conditions + [c];
  }

  function CountKind(cs: seq<Condition>, kind: string): nat {
    if cs == [] then 0
    else CountKind(cs[..|cs| - 1], kind) + if cs[|cs| - 1].kind == kind then 1 else 0
  }

  lemma {:induction false} CountReplaced(cs: seq<Condition>, k: nat, c: Condition, kind: string)
    requires k < |cs| && cs[k].kind == c.kind
    ensures CountKind(cs[k := c], kind) == CountKind(cs, kind)
  {
    var front := cs[..|cs| - 1];
    if k < |cs| - 1 {
      CountReplaced(front, k, c, kind);
      assert cs[k := c][..|cs| - 1] == front[k := c];
    } else {
      assert cs[k := c][..|cs| - 1] == front;
    }
  }

  lemma {:induction false} CountNone(cs: seq<Condition>, kind: string)
    requires forall j | 0 <= j < |cs| :: cs[j].kind != kind
    ensures CountKind(cs, kind) == 0
  {
    if cs != [] {
      CountNone(cs[..|cs| - 1], kind);
    }
  }

  /** Setting a condition adds one of its kind only when there was none, and no other kind's. */
  lemma {:induction false} UpsertCounts(cs: seq<Condition>, c: Condition, now: Time, kind: string)
    ensures CountKind(Upsert(cs, c, now), kind)
         == if kind == c.kind && CountKind(cs, kind) == 0 then 1 else CountKind(cs, kind)
  {
    var k, up := Find(cs, c.kind, 0), Upsert(cs, c, now);
    if k == |cs| {
      assert up[..|cs|] == cs;
      CountNone(cs, c.kind);
    } else {
      CountReplaced(cs, k, up[k], kind);
      CountSome(cs, k, c.kind);
    }
  }

  lemma {:induction false} CountSome(cs: seq<Condition>, k: nat, kind: string)
    requires k < |cs| && cs[k].kind == kind
    ensures CountKind(cs, kind) >= 1
  {
    if k < |cs| - 1 {
      CountSome(cs[..|cs| - 1], k, kind);
    }
  }

  /** Conditions of other kinds keep their place and content. */
  lemma {:induction false} UpsertKeepsOthers(cs: seq<Condition>, c: Condition, now: Time, j: nat)
    requires j < |cs| && cs[j].kind != c.kind
    ensures Upsert(cs, c, now)[j] == cs[j]
  {
  }

  // --- One attempt ---

  function Unchanged(app: App, dep: Deployment): bool {
    && app.status.phase == PhaseFor(dep.ready, Desired(app.replicas)) && app.status.ready == dep.ready
    && app.status.replicas == dep.replicas && app.status.observed == app.generation
  }

  /** The status says of the Deployment, the spec and the generation what there is to say. */
  predicate UpToDate(app: App, dep: Deployment) {
    && app.status.phase == (if Enough(dep.ready, app.replicas) then Ready else Progressing)
    && app.status.ready == dep.ready && app.status.replicas == dep.replicas && app.status.observed == app.generation
  }

  /** Nothing is written exactly when the status is up to date. */
  lemma {:induction false} UnchangedExactly(app: App, dep: Deployment)
    ensures Unchanged(app, dep) <==> UpToDate(app, dep)
  {
    PhaseExactly(dep.ready, app.replicas);
  }

  const AvailableKind := "Available"

  function NewCondition(app: App, dep: Deployment): Condition {
    var phase := PhaseFor(dep.ready, Desired(app.replicas));
    Condition(AvailableKind, phase.Ready?, app.generation, phase, (dep.ready, Desired(app.replicas)), None)
  }

  /** The status computed from the copy that was read. */
  function Recomputed(app: App, dep: Deployment, now: Time): Status {
    Status(PhaseFor(dep.ready, Desired(app.replicas)), dep.replicas, dep.ready, app.generation,
           Upsert(app.status.conditions, NewCondition(app, dep), now))
  }

  // --- The object over time ---

  /** A write of the status: by whom, with which phase, at which clock reading. */
  datatype Written = Written(who: int, phase: Phase, now: Time)

  /** `specs` records the replicas asked for at each generation, `log` the status writes so far. */
  datatype World = World(app: App, clock: Time, copies: map<int, App>, specs: map<nat, int>, log: seq<Written>)

  datatype Step =
    | Tick(to: Time)
    | EditSpec(replicas: int)
    | EditMeta
    | Read(who: int)
    | Write(who: int, dep: Deployment, now: Time)

  function Created(replicas: int): World {
    World(App(replicas, 1, 1, Status(Unset, 0, 0, 0, [])), 0, map[], map[1 := replicas], [])
  }

  /** A status update is accepted only on the version that was read; clock readings may be anything. */
  predicate Enabled(w: World, s: Step) {
    match s
    case Tick(_) => true
    case EditSpec(_) => true
    case EditMeta => true
    case Read(_) => true
    case Write(who, dep, now) =>
      who in w.copies && w.copies[who].version == w.app.version && !Unchanged(w.copies[who], dep)
  }

  /** Spec edits bump the generation; every change of the object bumps its resource version. */
  function Exec(w: World, s: Step): World
    requires s.Write? ==> s.who in w.copies
  {
    match s
    case Tick(to) => w.(clock := to)
    case EditSpec(n) =>
      var g := w.app.generation + 1;
      w.(app := w.app.(replicas := n, generation := g, version := w.app.version + 1), specs := w.specs[g := n])
    case EditMeta => w.(app := w.app.(version := w.app.version + 1))
    case Read(who) => w.(copies := w.copies[who := w.app])
    case Write(who, dep, now) =>
      var status := Recomputed(w.copies[who], dep, now);
      w.(app := w.copies[who].(status := status, version := w.app.version + 1),
         log := w.log + [Written(who, status.phase, now)])
  }

  predicate IsRun(w: World, steps: seq<Step>)
    decreases |steps|
  {
    steps == [] || (Enabled(w, steps[0]) && IsRun(Exec(w, steps[0]), steps[1..]))
  }

  function Run(w: World, steps: seq<Step>): World
    requires IsRun(w, steps)
    decreases |steps|
  {
    if steps == [] then w else Run(Exec(w, steps[0]), steps[1..])
  }

  /** When the phase last changed, over the writes so far. */
  function FlipTime(log: seq<Written>): Option<Time> {
    if log == [] then None
    else if |log| == 1 || log[|log| - 1].phase != log[|log| - 2].phase then Some(log[|log| - 1].now)
    else FlipTime(log[..|log| - 1])
  }

  /**
   The status is empty, or it has exactly one Available condition, which says True exactly when
   the phase is Ready, gives the phase as its reason, and carries the counts and generation of the
   status; the phase is right for the replicas asked for at that generation; and the condition's
   time is that of the latest change of phase.
   */
  ghost predicate Coherent(status: Status, specs: map<nat, int>, log: seq<Written>) {
    if log == [] then status.observed == 0 && status.conditions == [] && status.phase == Unset
    else
      && status.observed in specs
      && status.phase == (if Enough(status.ready, specs[status.observed]) then Ready else Progressing)
      && status.phase == log[|log| - 1].phase
      && |status.conditions| == 1
      && var wanted := if specs[status.observed] == 0 then 1 else specs[status.observed];
         status.conditions[0] == Condition("Available", status.phase == Ready, status.observed, status.phase,
                                           (status.ready, wanted), FlipTime(log))
  }

  /** A copy is an earlier state of the object, and its current one if the versions agree. */
  ghost predicate CopyOk(w: World, copy: App) {
    copy.version <= w.app.version && (copy.version == w.app.version ==> copy == w.app)
  }

  ghost predicate Inv(w: World) {
    && Coherent(w.app.status, w.specs, w.log)
    && w.app.generation >= 1 && w.app.generation in w.specs && w.specs[w.app.generation] == w.app.replicas
    && (forall g | g in w.specs :: g <= w.app.generation)
    && (forall c | c in w.copies :: CopyOk(w, w.copies[c]))
  }

  lemma {:induction false} FlipAppend(log: seq<Written>, e: Written)
    ensures FlipTime(log + [e])
         == if log == [] || e.phase != log[|log| - 1].phase then Some(e.now) else FlipTime(log)
  {
    assert (log + [e])[..|log|] == log;
  }

  lemma {:induction false} WriteCoherent(app: App, dep: Deployment, who: int, now: Time, specs: map<nat, int>, log: seq<Written>)
    requires Coherent(app.status, specs, log) && app.generation in specs && specs[app.generation] == app.replicas
    ensures var status := Recomputed(app, dep, now);
            Coherent(status, specs, log + [Written(who, status.phase, now)])
  {
    var status := Recomputed(app, dep, now);
    PhaseExactly(dep.ready, app.replicas);
    FlipAppend(log, Written(who, status.phase, now));
    if log != [] {
      assert Find(app.status.conditions, AvailableKind, 0) == 0;
    }
  }

  lemma {:induction false} StepKeepsInv(w: World, s: Step)
    requires Inv(w) && Enabled(w, s)
    ensures Inv(Exec(w, s))
  {
    var w' := Exec(w, s);
    if s.Write? {
      assert CopyOk(w, w.copies[s.who]);
      WriteCoherent(w.app, s.dep, s.who, s.now, w.specs, w.log);
    }
    forall c | c in w'.copies ensures CopyOk(w', w'.copies[c]) {
      assert c in w.copies ==> CopyOk(w, w.copies[c]);
    }
  }

  lemma {:induction false} RunKeepsInv(w: World, steps: seq<Step>)
    requires Inv(w) && IsRun(w, steps)
    ensures Inv(Run(w, steps))
    decreases |steps|
  {
    if steps != [] {
      StepKeepsInv(w, steps[0]);
      RunKeepsInv(Exec(w, steps[0]), steps[1..]);
    }
  }

  /** The status is coherent after every run, whatever edits and reconcilers interleave. */
  lemma {:induction false} AlwaysCoherent(replicas: int, steps: seq<Step>)
    requires IsRun(Created(replicas), steps)
    ensures var w := Run(Created(replicas), steps); Coherent(w.app.status, w.specs, w.log)
  {
    RunKeepsInv(Created(replicas), steps);
  }

  /** After a write, the same inputs have nothing to write, whoever reads next and at any time. */
  lemma {:induction false} RepeatWritesNothing(w: World, who: int, dep: Deployment, now: Time, other: int)
    requires Inv(w) && Enabled(w, Write(who, dep, now))
    ensures var w' := Exec(Exec(w, Write(who, dep, now)), Read(other));
            forall at :: !Enabled(w', Write(other, dep, at))
  {
    assert CopyOk(w, w.copies[who]);
  }

  // --- The retry loop ---

  /** Writes by one reconciler from position n of the log on. */
  function WritesBy(log: seq<Written>, n: nat, who: int): nat
    requires n <= |log|
    decreases |log|
  {
    if |log| == n then 0
    else WritesBy(log[..|log| - 1], n, who) + if log[|log| - 1].who == who then 1 else 0
  }

  lemma {:induction false} WritesAppend(log: seq<Written>, n: nat, e: Written, who: int)
    requires n <= |log|
    ensures WritesBy(log + [e], n, who) == WritesBy(log, n, who) + if e.who == who then 1 else 0
  {
    assert (log + [e])[..|log|] == log;
  }

  const Attempts := 5

  /** What comes back from an update: an answer, or an error before or after it took effect. */
  datatype Reply = Answered | LostBefore | LostAfter

  datatype Outcome = Done(wrote: bool) | Conflict | Missing | Lost(landed: bool)

  predicate Landed(r: Outcome) { r == Done(true) || r == Lost(true) }

  class Reconciler {
    var world: World

    constructor (replicas: int)
      ensures world == Created(replicas) && Inv(world)
    {
      world := Created(replicas);
    }

    /** Everybody else takes those of the offered steps that are possible. */
    method Interfere(offers: seq<Step>, me: int, ghost n: nat)
      requires Inv(world) && n <= |world.log|
      modifies this
      ensures Inv(world) && n <= |world.log| && WritesBy(world.log, n, me) == old(WritesBy(world.log, n, me))
      ensures (me in world.copies <==> me in old(world.copies)) && (me in world.copies ==> world.copies[me] == old(world.copies[me]))
    {
      for i := 0 to |offers|
        invariant Inv(world) && n <= |world.log| && WritesBy(world.log, n, me) == old(WritesBy(world.log, n, me))
        invariant (me in world.copies <==> me in old(world.copies)) && (me in world.copies ==> world.copies[me] == old(world.copies[me]))
      {
        var s := offers[i];
        if Enabled(world, s) && (s.Read? || s.Write? ==> s.who != me) {
          StepKeepsInv(world, s);
          if s.Write? {
            WritesAppend(world.log, n, Written(s.who, Recomputed(world.copies[s.who], s.dep, s.now).phase, s.now), me);
          }
          world := Exec(world, s);
        }
      }
    }

    /** One attempt of the retried function: read, compare, write if something changed. */
    method Attempt(me: int, dep: Deployment, offers: seq<Step>, found: bool, reply: Reply, ghost n: nat) returns (r: Outcome)
      requires Inv(world) && n <= |world.log|
      modifies this
      ensures Inv(world) && n <= |world.log|
      ensures WritesBy(world.log, n, me) == old(WritesBy(world.log, n, me)) + if Landed(r) then 1 else 0
      ensures r.Done? ==> me in world.copies && (r.wrote <==> !UpToDate(world.copies[me], dep))
      ensures Landed(r) ==> UpToDate(world.app, dep)
      ensures (r.Missing? <==> !found) && (r == Lost(true) ==> reply.LostAfter?) && (r == Done(true) ==> reply.Answered?)
    {
      if !found {
        return Missing;
      }
      StepKeepsInv(world, Read(me));
      world := Exec(world, Read(me));
      Interfere(offers, me, n);
      UnchangedExactly(world.copies[me], dep);
      if Unchanged(world.copies[me], dep) {
        return Done(false);
      }
      if reply.LostBefore? {
        return Lost(false);
      }
      if world.copies[me].version != world.app.version {
        return Conflict;
      }
      WriteStatus(me, dep, n);
      r := if reply.Answered? then Done(true) else Lost(true);
    }

    /** Recomputes the status on the copy and writes it back. */
    method WriteStatus(me: int, dep: Deployment, ghost n: nat)
      requires Inv(world) && n <= |world.log| && Enabled(world, Write(me, dep, world.clock))
      modifies this
      ensures Inv(world) && world == Exec(old(world), Write(me, dep, old(world.clock)))
      ensures n <= |world.log| && WritesBy(world.log, n, me) == old(WritesBy(world.log, n, me)) + 1
      ensures UpToDate(world.app, dep)
    {
      PhaseExactly(dep.ready, world.copies[me].replicas);
      var copy := world.copies[me];
      var conditions := SetCondition(copy.status.conditions, NewCondition(copy, dep), world.clock);
      var phase := PhaseFor(dep.ready, Desired(copy.replicas));
      StepKeepsInv(world, Write(me, dep, world.clock));
      WritesAppend(world.log, n, Written(me, phase, world.clock), me);
      world := world.(app := copy.(status := Status(phase, dep.replicas, dep.ready, copy.generation, conditions), version := world.app.version + 1),
                      log := world.log + [Written(me, phase, world.clock)]);
    }

    /**
     Retried on conflict, at most five times. Without an error the flag says exactly whether this
     call wrote, and the status it wrote, or found, is the one its inputs call for. It never writes
     twice, and writes on an error only if the answer to its update was lost.
     */
    method UpdateStatus(me: int, dep: Deployment, offers: nat -> seq<Step>, found: nat -> bool, replies: nat -> Reply)
      returns (wrote: bool, err: Option<Error>, ghost tries: nat)
      requires Inv(world)
      modifies this
      ensures 1 <= tries <= 5 && (err == Some(VersionConflict) ==> tries == 5)
      ensures (err == Some(NotFound) ==> !found(tries - 1)) && (err.None? ==> found(tries - 1))
      ensures err.None? && wrote ==> replies(tries - 1).Answered?
      ensures Inv(world) && |old(world.log)| <= |world.log|
      ensures err.None? ==> WritesBy(world.log, |old(world.log)|, me) == if wrote then 1 else 0
      ensures err.None? ==> if wrote then UpToDate(world.app, dep) else me in world.copies && UpToDate(world.copies[me], dep)
      ensures err.Some? ==> WritesBy(world.log, |old(world.log)|, me) <= 1
      ensures err.Some? && (forall i :: !replies(i).LostAfter?) ==> WritesBy(world.log, |old(world.log)|, me) == 0
    {
      ghost var n := |world.log|;
      wrote, err, tries := false, Some(VersionConflict), 0;
      for i := 0 to Attempts
        invariant Inv(world) && n <= |world.log| && WritesBy(world.log, n, me) == 0 && err == Some(VersionConflict) && tries == i
      {
        tries := tries + 1;
        var r := Attempt(me, dep, offers(i), found(i), replies(i), n);
        match r {
          case Missing => return wrote, Some(NotFound), tries;
          case Done(w) => return w, None, tries;
          case Conflict => wrote := true;
          case Lost(landed) => return true, Some(Unavailable), tries;
        }
      }
    }
  }
}
