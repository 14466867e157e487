/** What a new highlight does in either mode, which timers stay alive, and what is lit while
    registered highlights do not overlap (src/gruvax/mqtt/lifecycle.py:131-342). */
module HighlightRetention {
  import opened Sequences
  import opened Highlights
  import opened HighlightInvariant

  // ── A new highlight shows ──────────────────────────────────────────────────

  ghost predicate LightDelivered(step: Step) {
    match step
    case LightOne(d) => d
    case _ => true
  }

  /** All of `cubes` show their payload of a request. */
  ghost predicate Showing(s: State, cubes: seq<Cube>, id: nat, req: Request) {
    forall c :: c in cubes ==> Shown(s.retained, c) == Some(Lit(id, TierOf(req, c)))
  }

  /** While a highlight is being lit, its cubes light up one after the other. */
  ghost predicate LitSoFar(s: State) {
    s.holder.Lighting? ==>
      var all := Affected(s.holder.req);
      && |s.holder.unlit| <= |all| && s.holder.unlit == all[|all| - |s.holder.unlit|..]
      && Showing(s, all[..|all| - |s.holder.unlit|], s.nextId, s.holder.req)
  }

  lemma LightKeepsLitSoFar(s: State)
    requires LitSoFar(s) && Enabled(s, LightOne(true))
    ensures var lit := LitSoFar(Next(s, LightOne(true))); lit
  {
    var all := Affected(s.holder.req);
    var k := |all| - |s.holder.unlit|;
    assert all[..k + 1] == all[..k] + [all[k]];
    assert s.holder.unlit[0] == all[k] && s.holder.unlit[1..] == all[k + 1..];
  }

  lemma StepKeepsLitSoFar(s: State, step: Step)
    requires LitSoFar(s) && Enabled(s, step) && LightDelivered(step)
    ensures var lit := LitSoFar(Next(s, step)); lit
  {
    if step.LightOne? {
      LightKeepsLitSoFar(s);
    } else if step.StartLighting? {
      var all := Affected(s.holder.req);
      assert all[..0] == [];
    }
  }

  lemma {:induction false} RunKeepsLitSoFar(s: State, steps: seq<Step>, t: State)
    requires LitSoFar(s) && Run(s, steps, t) && forall step :: step in steps ==> LightDelivered(step)
    ensures LitSoFar(t)
    decreases |steps|
  {
    if steps != [] {
      assert steps[0] in steps;
      StepKeepsLitSoFar(s, steps[0]);
      RunKeepsLitSoFar(Next(s, steps[0]), steps[1..], t);
    }
  }

  /** In either mode, whatever is registered already and whatever the timers do meanwhile: the moment
      a highlight is registered, the primary cube of its request shows its position payload and
      every other cube of the span its span payload, if its publishes were delivered. */
  lemma NewHighlightShows(steps: seq<Step>, s: State)
    requires Run(INITIAL, steps, s) && Enabled(s, Register) && forall step :: step in steps ==> LightDelivered(step)
    ensures var (t, req) := (Next(s, Register), s.holder.req);
            && |t.entries| == |s.entries| + 1 && t.entries[|s.entries|].id == s.nextId
            && (forall c :: c in t.entries[|s.entries|].cubes <==> req.primary == Some(c) || c in req.span)
            && (forall c :: req.primary == Some(c) || c in req.span ==>
                  Shown(t.retained, c) == Some(Lit(s.nextId, if req.primary == Some(c) then Position else Span)))
  {
    RunKeepsLitSoFar(INITIAL, steps, s);
    DedupeMeans(Touched(s.holder.req));
    var all := Affected(s.holder.req);
    assert all[..|all|] == all;
  }

  // ── Retain mode leaves the other cubes alone ───────────────────────────────

  /** Between Begin and Register of a retain-mode illuminate below the cap. */
  ghost predicate Adding(s: State, before: map<Cube, Retained>, req: Request) {
    match s.holder
    case Clearing(r, retain, _, dark) =>
      r == req && retain && dark == [] && |s.entries| < MAX_HIGHLIGHTS && forall c :: Shown(s.retained, c) == Shown(before, c)
    case Lighting(r, unlit) =>
      && r == req && (forall c :: c in unlit ==> c in Affected(req))
      && forall c :: c !in Affected(req) ==> Shown(s.retained, c) == Shown(before, c)
    case _ => false
  }

  lemma StepKeepsAdding(s: State, step: Step, before: map<Cube, Retained>, req: Request)
    requires Adding(s, before, req) && Enabled(s, step) && step != Register
    ensures var adding := Adding(Next(s, step), before, req); adding
  {
    if step.TimerDies? {
      WithoutShrinks(s.entries, step.id);
    }
  }

  lemma {:induction false} RunKeepsAdding(s: State, steps: seq<Step>, t: State, before: map<Cube, Retained>, req: Request)
    requires Adding(s, before, req) && Run(s, steps, t) && Register !in steps
    ensures Adding(t, before, req)
    decreases |steps|
  {
    if steps != [] {
      StepKeepsAdding(s, steps[0], before, req);
      RunKeepsAdding(Next(s, steps[0]), steps[1..], t, before, req);
    }
  }

  /** A retain-mode illuminate below the cap changes no cube outside its request, delivered or not,
      and the registry only gains its entry, apart from highlights whose tasks die meanwhile. */
  lemma RetainLeavesOthers(s: State, req: Request, steps: seq<Step>, t: State)
    requires Enabled(s, Begin(req, true)) && |s.entries| < 64
    requires Run(Next(s, Begin(req, true)), steps, t) && Register !in steps && Enabled(t, Register)
    ensures forall c :: req.primary != Some(c) && c !in req.span ==> Shown(Next(t, Register).retained, c) == Shown(s.retained, c)
  {
    RunKeepsAdding(Next(s, Begin(req, true)), steps, t, s.retained, req);
    DedupeMeans(Touched(req));
  }

  // ── Live tasks ─────────────────────────────────────────────────────────────

  /** A task that is not cancelled belongs to a registered highlight; the highlight a shutdown works
      on is cancelled already. */
  ghost predicate OnlyRegisteredLive(s: State) {
    && (forall id :: id in s.timers && !s.timers[id].cancelled ==> Registered(s.entries, id))
    && (s.holder.ShuttingDown? && s.holder.current.Some? && s.holder.current.value in s.timers ==>
          s.timers[s.holder.current.value].cancelled)
  }

  lemma WithoutKeeps(entries: seq<Entry>, id: nat, other: nat)
    requires id != other
    ensures Registered(Without(entries, id), other) <==> Registered(entries, other)
  {
    FilterMembers(entries, OtherThan(id));
    RegisteredMeans(entries, other);
    RegisteredMeans(Without(entries, id), other);
  }

  lemma StepKeepsLive(s: State, step: Step)
    requires OnlyRegisteredLive(s) && Enabled(s, step)
    ensures var live := OnlyRegisteredLive(Next(s, step)); live
  {
    var t := Next(s, step);
    forall id | id in t.timers && !t.timers[id].cancelled ensures Registered(t.entries, id) {
      match step {
        case TimerDies(x) => WithoutKeeps(s.entries, x, id);
        case TimerLocks(x) => if x != id { WithoutKeeps(s.entries, x, id); }
        case RevertDone => WithoutKeeps(s.entries, s.holder.id, id);
        case CancelNext => if id != Victim(s).id { WithoutKeeps(s.entries, Victim(s).id, id); }
        case ShutPop => if id != s.holder.current.value { WithoutKeeps(s.entries, s.holder.current.value, id); }
        case Register =>
          if id == s.nextId {
            assert t.entries[|s.entries|].id == id;
          } else {
            var i :| 0 <= i < |s.entries| && s.entries[i].id == id;
            assert t.entries[i] == s.entries[i];
          }
        case _ =>
      }
    }
  }

  lemma {:induction false} RunKeepsLive(s: State, steps: seq<Step>, t: State)
    requires OnlyRegisteredLive(s) && Run(s, steps, t)
    ensures OnlyRegisteredLive(t)
    decreases |steps|
  {
    if steps != [] {
      StepKeepsLive(s, steps[0]);
      RunKeepsLive(Next(s, steps[0]), steps[1..], t);
    }
  }

  /** Clearing or evicting a highlight cancels its task: in every reachable state every task that is
      not cancelled belongs to a registered highlight. */
  lemma LiveTasksAreRegistered(steps: seq<Step>, s: State, id: nat)
    requires Run(INITIAL, steps, s) && id in s.timers && !s.timers[id].cancelled
    ensures exists e :: e in s.entries && e.id == id
  {
    RunKeepsLive(INITIAL, steps, s);
    RegisteredMeans(s.entries, id);
  }

  // ── Highlights that do not overlap ─────────────────────────────────────────

  ghost predicate Apart(entries: seq<Entry>, cubes: seq<Cube>) {
    forall e, c :: e in entries && c in e.cubes ==> c !in cubes
  }

  /** A run in which a highlight starts to light only where no registered one is. */
  ghost predicate SpacedRun(s: State, steps: seq<Step>, t: State)
    decreases |steps|
  {
    if steps == [] then s == t
    else
      && Enabled(s, steps[0])
      && (steps[0].StartLighting? ==> Apart(s.entries, Affected(s.holder.req)))
      && SpacedRun(Next(s, steps[0]), steps[1..], t)
  }

  ghost predicate Delivered(step: Step) { AmbientDelivered(step) && LightDelivered(step) }

  ghost predicate NoOverlap(entries: seq<Entry>) {
    forall e, f, c :: e in entries && f in entries && e.id != f.id && c in e.cubes ==> c !in f.cubes
  }

  /** An entry shows what was asked for. */
  ghost predicate Shows(s: State, e: Entry) {
    && e.id in s.asked && e.cubes == Affected(s.asked[e.id])
    && Showing(s, e.cubes, e.id, s.asked[e.id])
  }

  ghost predicate Truthful(s: State) {
    && Inv(s) && s.lost == {} && LitSoFar(s)
    && NoOverlap(s.entries)
    && Apart(Staying(s), Pending(s.holder))
    && forall e :: e in Staying(s) ==> Shows(s, e)
  }

  /** A step that leaves the broker and the requests alone and only drops entries. */
  lemma DroppingKeepsShows(s: State, t: State)
    requires (forall e :: e in Staying(s) ==> Shows(s, e)) && t.retained == s.retained && t.asked == s.asked
    requires forall e :: e in Staying(t) ==> e in Staying(s)
    ensures forall e :: e in Staying(t) ==> Shows(t, e)
  {
    forall e | e in Staying(t) ensures Shows(t, e) {
      assert Shows(s, e);
    }
  }

  lemma StayingIsRegistered(s: State)
    ensures forall e :: e in Staying(s) ==> e in s.entries
    ensures forall e :: e in Staying(s) <==> e in s.entries && Leaving(s.holder) != Some(e.id)
  {
    match Leaving(s.holder) {
      case Some(id) => WithoutMeans(s.entries, id);
      case None =>
    }
  }

  lemma TimersKeepTruth(s: State, step: Step)
    requires Truthful(s) && Enabled(s, step) && (step.TimerWakes? || step.TimerDies? || step.TimerLocks?)
    ensures var truth := Truthful(Next(s, step)); truth
  {
    var t := Next(s, step);
    StepKeepsInv(s, step);
    StepKeepsLitSoFar(s, step);
    WithoutMeans(s.entries, step.id);
    StayingIsRegistered(s);
    StayingIsRegistered(t);
    DroppingKeepsShows(s, t);
    if step.TimerLocks? && Registered(s.entries, step.id) {
      RegisteredMeans(s.entries, step.id);
      var e :| e in s.entries && e.id == step.id;
      assert s.timers[e.id].cubes == e.cubes;
    }
  }

  lemma DarkeningKeepsTruth(s: State, step: Step)
    requires Truthful(s) && Enabled(s, step) && Delivered(step) && (step.RevertOne? || step.DarkenOne? || step.ShutDarken?)
    ensures var truth := Truthful(Next(s, step)); truth
  {
    var t := Next(s, step);
    StepKeepsInv(s, step);
    var queue := Pending(s.holder);
    assert Staying(t) == Staying(s) && t.entries == s.entries && t.asked == s.asked;
    assert Pending(t.holder) == queue[1..] && forall c :: c in queue[1..] ==> c in queue;
    assert Shown(t.retained, queue[0]) == Some(Ambient) && queue[0] in queue;
    forall e | e in Staying(t) ensures Shows(t, e) {
      assert Shows(s, e);
    }
  }

  lemma LeavingKeepsTruth(s: State, step: Step)
    requires Truthful(s) && Enabled(s, step)
    requires step.RevertDone? || step.CancelNext? || step.ShutCancel? || step.ShutPop? || step.ShutDone? || step.Begin? || step.BeginShutdown?
    ensures var truth := Truthful(Next(s, step)); truth
  {
    var t := Next(s, step);
    StepKeepsInv(s, step);
    StayingIsRegistered(s);
    StayingIsRegistered(t);
    match step {
      case RevertDone => WithoutMeans(s.entries, s.holder.id);
      case CancelNext => WithoutMeans(s.entries, Victim(s).id);
      case ShutPop => WithoutMeans(s.entries, s.holder.current.value);
      case _ =>
    }
    DroppingKeepsShows(s, t);
  }

  lemma LightingKeepsTruth(s: State, step: Step)
    requires Truthful(s) && Enabled(s, step) && Delivered(step) && (step.StartLighting? || step.LightOne?)
    requires step.StartLighting? ==> Apart(s.entries, Affected(s.holder.req))
    ensures var truth := Truthful(Next(s, step)); truth
  {
    var t := Next(s, step);
    StepKeepsInv(s, step);
    StepKeepsLitSoFar(s, step);
    forall e | e in Staying(t) ensures Shows(t, e) {
      assert Shows(s, e);
      if step.LightOne? { assert s.holder.unlit[0] in Affected(s.holder.req); }
    }
  }

  lemma RegisterKeepsTruth(s: State)
    requires Truthful(s) && Enabled(s, Register)
    ensures var truth := Truthful(Next(s, Register)); truth
  {
    var t, all := Next(s, Register), Affected(s.holder.req);
    StepKeepsInv(s, Register);
    assert all[..|all|] == all;
    forall e | e in t.entries ensures e in s.entries || e == Entry(s.nextId, all) { }
    forall e | e in Staying(t) ensures Shows(t, e) {
      if e in s.entries {
        assert Shows(s, e);
        assert e.id in s.timers && e.id < s.nextId;
      }
    }
  }

  lemma StepKeepsTruth(s: State, step: Step)
    requires Truthful(s) && Enabled(s, step) && Delivered(step)
    requires step.StartLighting? ==> Apart(s.entries, Affected(s.holder.req))
    ensures Truthful(Next(s, step))
  {
    match step {
      case TimerWakes(_) => TimersKeepTruth(s, step);
      case TimerDies(_) => TimersKeepTruth(s, step);
      case TimerLocks(_) => TimersKeepTruth(s, step);
      case RevertOne(_) => DarkeningKeepsTruth(s, step);
      case DarkenOne(_) => DarkeningKeepsTruth(s, step);
      case ShutDarken(_) => DarkeningKeepsTruth(s, step);
      case StartLighting => LightingKeepsTruth(s, step);
      case LightOne(_) => LightingKeepsTruth(s, step);
      case Register => RegisterKeepsTruth(s);
      case _ => LeavingKeepsTruth(s, step);
    }
  }

  lemma {:induction false} SpacedRunKeepsTruth(s: State, steps: seq<Step>, t: State)
    requires Truthful(s) && SpacedRun(s, steps, t) && forall step :: step in steps ==> Delivered(step)
    ensures Truthful(t)
    decreases |steps|
  {
    if steps != [] {
      assert steps[0] in steps;
      StepKeepsTruth(s, steps[0]);
      SpacedRunKeepsTruth(Next(s, steps[0]), steps[1..], t);
    }
  }

  /** While highlights are lit only where none is registered, in either mode or a mix of both, and all
      publishes are delivered: in every lock-free state the lit cubes are exactly those of the
      registered highlights, and each shows the payload of its highlight's request. */
  lemma SpacedHighlightsAreExact(steps: seq<Step>, t: State)
    requires SpacedRun(INITIAL, steps, t) && t.holder.Free? && forall step :: step in steps ==> Delivered(step)
    ensures forall c :: IsLit(t, c) <==> exists e :: e in t.entries && c in e.cubes
    ensures forall e, c :: e in t.entries && c in e.cubes ==>
              e.id in t.asked && Shown(t.retained, c) == Some(Lit(e.id, if t.asked[e.id].primary == Some(c) then Position else Span))
    ensures forall e, c :: e in t.entries ==> e.id in t.asked && (c in e.cubes <==> c in Touched(t.asked[e.id]))
  {
    SpacedRunKeepsTruth(INITIAL, steps, t);
    forall c ensures IsLit(t, c) <==> exists e :: e in t.entries && c in e.cubes {
      HeldMeans(t.entries, c);
      if e :| e in t.entries && c in e.cubes { assert Shows(t, e); }
    }
    forall e, c | e in t.entries ensures e.id in t.asked && (c in e.cubes <==> c in Touched(t.asked[e.id])) {
      assert Shows(t, e);
      DedupeMeans(Touched(t.asked[e.id]));
    }
  }
}
