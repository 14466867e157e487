/** Runs that stay in default mode with every publish delivered: the lit cubes are exactly those
    of the sole registered highlight, with the right payload each. */
module HighlightExactness {
  import opened Sequences
  import opened Highlights
  import opened HighlightInvariant

  /** Default mode, every publish delivered. */
  ghost predicate Strict(step: Step) {
    match step
    case Begin(_, retain) => !retain
    case LightOne(d) => d
    case _ => AmbientDelivered(step)
  }

  ghost predicate OnlyLit(s: State, cubes: seq<Cube>) {
    forall c :: IsLit(s, c) <==> c in cubes
  }

  /** Exactly `cubes` are lit, each with the payload of request `req` under highlight `id`. */
  ghost predicate LitAs(s: State, cubes: seq<Cube>, id: nat, req: Request) {
    OnlyLit(s, cubes) && forall c :: c in cubes ==> s.retained[c] == Lit(id, TierOf(req, c))
  }

  ghost predicate Sole(s: State) {
    && |s.entries| <= 1
    && (s.entries == [] ==> OnlyLit(s, []))
    && (s.entries != [] ==>
          var e := s.entries[0];
          && e.id in s.asked && e.cubes == Affected(s.asked[e.id])
          && LitAs(s, e.cubes, e.id, s.asked[e.id]))
  }

  ghost predicate Exact(s: State) {
    match s.holder
    case Free => Sole(s)
    case Reverting(id, todo) =>
      |s.entries| == 1 && s.entries[0].id == id && Distinct(todo) && OnlyLit(s, todo)
    case Clearing(_, retain, victims, dark) =>
      && !retain
      && (victims != [] ==> dark == [] && Sole(s))
      && (victims == [] ==> s.entries == [] && Distinct(dark) && OnlyLit(s, dark))
    case Lighting(req, unlit) =>
      && s.entries == []
      && |unlit| <= |Affected(req)| && unlit == Affected(req)[|Affected(req)| - |unlit|..]
      && LitAs(s, Affected(req)[..|Affected(req)| - |unlit|], s.nextId, req)
    case ShuttingDown(rest, current, fading) =>
      if current.None? then Sole(s) else rest == [] && Distinct(fading) && OnlyLit(s, fading)
  }

  /** Darkening the first of the remaining lit cubes leaves the rest lit. */
  lemma DarkenFirst(s: State, cubes: seq<Cube>)
    requires cubes != [] && Distinct(cubes) && OnlyLit(s, cubes)
    ensures OnlyLit(Darken(s, cubes[0], true), cubes[1..]) && Distinct(cubes[1..])
  {
    forall c ensures IsLit(Darken(s, cubes[0], true), c) <==> c in cubes[1..] {
      assert c in cubes <==> c == cubes[0] || c in cubes[1..];
    }
  }

  lemma SoleCubesAreDistinct(s: State)
    requires Sole(s) && s.entries != []
    ensures Distinct(s.entries[0].cubes) && OnlyLit(s, s.entries[0].cubes)
  {
    DedupeMeans(Touched(s.asked[s.entries[0].id]));
  }

  /** What exactness reads of a state. */
  ghost predicate SameLights(s: State, t: State) {
    t.entries == s.entries && t.retained == s.retained && t.asked == s.asked && t.nextId == s.nextId && t.holder == s.holder
  }

  lemma SameLightsKeepExact(s: State, t: State)
    requires Exact(s) && SameLights(s, t)
    ensures var exact := Exact(t); exact
  {
    forall c ensures IsLit(t, c) == IsLit(s, c) { }
  }

  lemma WakeKeepsExact(s: State, step: Step)
    requires Exact(s) && Enabled(s, step) && step.TimerWakes?
    ensures var exact := Exact(Next(s, step)); exact
  {
    SameLightsKeepExact(s, Next(s, step));
  }

  /** A timer that dies takes its entry along only during a shutdown. */
  lemma DeathKeepsExact(s: State, step: Step)
    requires Inv(s) && Exact(s) && Enabled(s, step) && step.TimerDies?
    ensures var exact := Exact(Next(s, step)); exact
  {
    var id, t := step.id, Next(s, step);
    RegisteredMeans(s.entries, id);
    WithoutMeans(s.entries, id);
    if Registered(s.entries, id) {
      assert s.holder.ShuttingDown? && s.holder.current == Some(id);
      forall c ensures IsLit(t, c) == IsLit(s, c) { }
    } else {
      SameLightsKeepExact(s, t);
    }
  }

  lemma LockKeepsExact(s: State, step: Step)
    requires Inv(s) && Exact(s) && Enabled(s, step) && step.TimerLocks?
    ensures var exact := Exact(Next(s, step)); exact
  {
    var id, t := step.id, Next(s, step);
    RegisteredMeans(s.entries, id);
    WithoutMeans(s.entries, id);
    if Registered(s.entries, id) {
      var i :| 0 <= i < |s.entries| && s.entries[i].id == id;
      assert s.entries[0] in s.entries;
      SoleCubesAreDistinct(s);
      forall c ensures IsLit(t, c) == IsLit(s, c) { }
    } else {
      SameLightsKeepExact(s, t);
    }
  }

  lemma HolderKeepsExact(s: State, step: Step)
    requires Inv(s) && Exact(s) && Enabled(s, step) && Strict(step)
    requires step.RevertOne? || step.RevertDone? || step.Begin? || step.DarkenOne? || step.BeginShutdown? || step.ShutDarken? || step.ShutDone?
    ensures var exact := Exact(Next(s, step)); exact
  {
    match step {
      case RevertOne(_) => DarkenFirst(s, s.holder.todo);
      case DarkenOne(_) => DarkenFirst(s, s.holder.dark);
      case ShutDarken(_) => DarkenFirst(s, s.holder.fading);
      case RevertDone => WithoutFirst(s.entries);
      case _ =>
    }
  }

  lemma CancelKeepsExact(s: State, step: Step)
    requires Inv(s) && Exact(s) && Enabled(s, step) && (step.CancelNext? || step.ShutCancel? || step.ShutPop?)
    ensures Exact(Next(s, step))
  {
    if step.ShutPop? {
      assert Next(s, step).entries == [];
    } else {
      SoleCubesAreDistinct(s);
      WithoutFirst(s.entries);
    }
  }

  lemma LightOneKeepsExact(s: State)
    requires Exact(s) && Enabled(s, LightOne(true))
    ensures var exact := Exact(Next(s, LightOne(true))); exact
  {
    var req, t := s.holder.req, Next(s, LightOne(true));
    var all := Affected(req);
    var k := |all| - |s.holder.unlit|;
    assert s.holder.unlit[0] == all[k] && s.holder.unlit[1..] == all[k + 1..];
    assert all[..k + 1] == all[..k] + [all[k]];
    forall c ensures IsLit(t, c) <==> c in all[..k + 1] {
      assert IsLit(s, c) <==> c in all[..k];
    }
  }

  lemma LightingKeepsExact(s: State, step: Step)
    requires Inv(s) && Exact(s) && Enabled(s, step) && Strict(step)
    requires step.StartLighting? || step.LightOne? || step.Register?
    ensures var exact := Exact(Next(s, step)); exact
  {
    var all := Affected(s.holder.req);
    match step {
      case StartLighting =>
        assert all[..0] == [];
      case LightOne(_) =>
        LightOneKeepsExact(s);
      case Register =>
        assert all[..|all|] == all;
    }
  }

  lemma {:induction false} StrictRunIsExact(s: State, steps: seq<Step>, t: State)
    requires Inv(s) && Exact(s) && Run(s, steps, t) && forall step :: step in steps ==> Strict(step)
    ensures Exact(t)
    decreases |steps|
  {
    if steps != [] {
      var step := steps[0];
      assert step in steps;
      if step.TimerWakes? {
        WakeKeepsExact(s, step);
      } else if step.TimerDies? {
        DeathKeepsExact(s, step);
      } else if step.TimerLocks? {
        LockKeepsExact(s, step);
      } else if step.CancelNext? || step.ShutCancel? || step.ShutPop? {
        CancelKeepsExact(s, step);
      } else if step.StartLighting? || step.LightOne? || step.Register? {
        LightingKeepsExact(s, step);
      } else {
        HolderKeepsExact(s, step);
      }
      StepKeepsInv(s, step);
      StrictRunIsExact(Next(s, step), steps[1..], t);
    }
  }

  /** In default mode with all publishes delivered, in every lock-free state at most one
      highlight is registered, the lit cubes are exactly the cubes its request touches, the
      primary cube shows the position payload and the others the span payload, all written by
      that highlight; with none registered nothing is lit. */
  lemma DefaultModeIsExact(steps: seq<Step>, t: State)
    requires Run(INITIAL, steps, t) && t.holder.Free? && forall step :: step in steps ==> Strict(step)
    ensures t.entries == [] ==> forall c :: !IsLit(t, c)
    ensures t.entries != [] ==>
              && |t.entries| == 1 && t.entries[0].id in t.asked
              && var id, req := t.entries[0].id, t.asked[t.entries[0].id];
                 forall c :: (IsLit(t, c) <==> c in Touched(req))
                          && (IsLit(t, c) ==> t.retained[c] == Lit(id, if req.primary == Some(c) then Position else Span))
  {
    StrictRunIsExact(INITIAL, steps, t);
    if t.entries != [] {
      DedupeMeans(Touched(t.asked[t.entries[0].id]));
    }
  }
}
