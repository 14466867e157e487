/** The critical sections of lifecycle.py as code over mutable fields, proved to be runs of the
    protocol: `illuminate_with_lifecycle`, the locked part of `schedule_revert`,
    `cancel_and_revert_all` and the payload tables of `fan_out_illuminate` (src/gruvax/mqtt/publishers.py:204-275). */
module HighlightServices {
  import opened Sequences
  import opened Highlights
  import opened HighlightInvariant

  lemma AffectedMeans(req: Request)
    ensures Distinct(Affected(req))
    ensures forall c :: c in Affected(req) <==> req.primary == Some(c) || c in req.span
  {
    DedupeMeans(Touched(req));
  }

  /** The `seen`/`affected` loop. */
  method CollectAffected(req: Request) returns (affected: seq<Cube>)
    ensures affected == Affected(req)
    ensures Distinct(affected) && forall c :: c in affected <==> req.primary == Some(c) || c in req.span
  {
    var touched := Touched(req);
    var seen: set<Cube> := {};
    affected := [];
    for i := 0 to |touched|
      invariant affected == Dedupe(touched[..i])
      invariant forall c :: c in seen <==> c in affected
    {
      assert touched[..i + 1][..i] == touched[..i];
      if touched[i] !in seen {
        seen := seen + {touched[i]};
        affected := affected + [touched[i]];
      }
    }
    assert touched[..|touched|] == touched;
    AffectedMeans(req);
  }

  /** The retained-state dictionary of fan_out_illuminate: the primary cube is assigned, span
      cubes only fill gaps. Each affected cube gets exactly one payload. */
  method StatePublishes(req: Request) returns (payloads: map<Cube, Tier>)
    ensures forall c :: c in payloads <==> c in Affected(req)
    ensures forall c :: c in payloads ==> payloads[c] == TierOf(req, c)
  {
    payloads := map[];
    if req.primary.Some? {
      payloads := payloads[req.primary.value := Position];
    }
    for i := 0 to |req.span|
      invariant forall c :: c in payloads <==> req.primary == Some(c) || c in req.span[..i]
      invariant forall c :: c in payloads ==> payloads[c] == TierOf(req, c)
    {
      if req.span[i] !in payloads {
        payloads := payloads[req.span[i] := Span];
      }
      assert req.span[..i + 1] == req.span[..i] + [req.span[i]];
    }
    assert req.span[..|req.span|] == req.span;
    AffectedMeans(req);
  }

  // ── What a critical section does to the broker ─────────────────────────────

  function Cubes(list: seq<Cube>): (r: set<Cube>) { set c | c in list }

  /** The cubes of some highlights. */
  function CubesOf(entries: seq<Entry>): (r: set<Cube>) { set e, c | e in entries && c in e.cubes :: c }

  /** The delivered ones of some cubes went back to ambient, nothing else changed. */
  ghost predicate Darkened(before: map<Cube, Retained>, after: map<Cube, Retained>, cubes: set<Cube>, deliver: Cube -> bool) {
    forall c :: Shown(after, c) == if c in cubes && deliver(c) then Some(Ambient) else Shown(before, c)
  }

  /** The delivered ones of some cubes show their tier of a highlight, nothing else changed. */
  ghost predicate LitUp(before: map<Cube, Retained>, after: map<Cube, Retained>, cubes: set<Cube>, req: Request, id: nat, deliver: Cube -> bool) {
    forall c :: Shown(after, c) == if c in cubes && deliver(c) then Some(Lit(id, TierOf(req, c))) else Shown(before, c)
  }

  lemma DarkenedNext(before: map<Cube, Retained>, after: map<Cube, Retained>, cubes: seq<Cube>, k: nat, deliver: Cube -> bool)
    requires k < |cubes| && Darkened(before, after, Cubes(cubes[..k]), deliver)
    ensures Darkened(before, if deliver(cubes[k]) then after[cubes[k] := Ambient] else after, Cubes(cubes[..k + 1]), deliver)
  {
    assert cubes[..k + 1] == cubes[..k] + [cubes[k]];
  }

  lemma LitUpNext(before: map<Cube, Retained>, after: map<Cube, Retained>, cubes: seq<Cube>, k: nat, req: Request, id: nat, deliver: Cube -> bool)
    requires k < |cubes| && LitUp(before, after, Cubes(cubes[..k]), req, id, deliver)
    ensures LitUp(before, if deliver(cubes[k]) then after[cubes[k] := Lit(id, TierOf(req, cubes[k]))] else after,
                  Cubes(cubes[..k + 1]), req, id, deliver)
  {
    assert cubes[..k + 1] == cubes[..k] + [cubes[k]];
  }

  lemma DarkenedTwice(a: map<Cube, Retained>, b: map<Cube, Retained>, c: map<Cube, Retained>, entries: seq<Entry>, i: nat, deliver: Cube -> bool)
    requires i < |entries| && Darkened(a, b, CubesOf(entries[..i]), deliver) && Darkened(b, c, Cubes(entries[i].cubes), deliver)
    ensures Darkened(a, c, CubesOf(entries[..i + 1]), deliver)
  {
    assert entries[..i + 1] == entries[..i] + [entries[i]];
    assert CubesOf(entries[..i + 1]) == CubesOf(entries[..i]) + Cubes(entries[i].cubes);
  }

  class HighlightService {
    var entries: seq<Entry>
    var timers: map<nat, Timer>
    var retained: map<Cube, Retained>
    var nextId: nat
    var holder: Holder
    ghost var asked: map<nat, Request>
    ghost var lost: set<Cube>

    ghost function View(): State reads this {
      State(entries, timers, retained, nextId, holder, asked, lost)
    }

    constructor ()
      ensures View() == INITIAL
    {
      entries, timers, retained, nextId, holder := [], map[], map[], 0, Free;
      asked, lost := map[], {};
    }

    /** One ambient publish of publish_ambient. */
    method PublishAmbient(c: Cube, delivered: bool)
      modifies this`retained, this`lost
      ensures View() == Darken(old(View()), c, delivered)
    {
      if delivered { retained := retained[c := Ambient]; } else { lost := lost + {c}; }
    }

    /** Cancels one highlight, pops it and reverts its cubes. */
    method ClearOne(deliver: Cube -> bool, ghost before: State, ghost steps: seq<Step>) returns (ghost more: seq<Step>)
      requires holder.Clearing? && holder.dark == [] && MoreToClear(View()) && Inv(View())
      requires Run(before, steps, View())
      modifies this
      ensures Run(before, more, View())
      ensures holder.Clearing? && holder.dark == [] && Inv(View())
      ensures holder.req == old(holder.req) && holder.retain == old(holder.retain)
      ensures nextId == old(nextId) && entries == old(entries)[1..]
      ensures var dark := old(entries) != [] && Darkened(old(retained), retained, Cubes(old(entries)[0].cubes), deliver); dark
    {
      var e := if holder.retain then entries[0] else holder.victims[0];
      ghost var s := View();
      WithoutFirst(entries);
      assert Victim(s) == e && e == entries[0];
      CancelNextKeepsInv(s);
      RunSnoc(before, steps, s, CancelNext);
      if e.id in timers { timers := timers[e.id := timers[e.id].(cancelled := true)]; }
      entries := Without(entries, e.id);
      holder := holder.(dark := e.cubes, victims := if holder.retain then [] else holder.victims[1..]);
      assert View() == Next(s, CancelNext);
      more := DarkenAll(e.cubes, deliver, before, steps + [CancelNext]);
    }

    /** The ambient publishes for the cubes of a cleared highlight. */
    method DarkenAll(cubes: seq<Cube>, deliver: Cube -> bool, ghost before: State, ghost steps: seq<Step>) returns (ghost more: seq<Step>)
      requires holder.Clearing? && holder.dark == cubes && Inv(View())
      requires Run(before, steps, View())
      modifies this`retained, this`holder, this`lost
      ensures Run(before, more, View())
      ensures holder == old(holder).(dark := []) && Inv(View())
      ensures Darkened(old(retained), retained, Cubes(cubes), deliver)
    {
      more := steps;
      for k := 0 to |cubes|
        invariant holder == old(holder).(dark := cubes[k..]) && Inv(View()) && Run(before, more, View())
        invariant var dark := Darkened(old(retained), retained, Cubes(cubes[..k]), deliver); dark
      {
        ghost var u := View();
        var c := holder.dark[0];
        ghost var step := DarkenOne(deliver(c));
        DarkenKeepsInv(u, step);
        RunSnoc(before, more, u, step);
        DarkenedNext(old(retained), retained, cubes, k, deliver);
        PublishAmbient(c, deliver(c));
        holder := holder.(dark := holder.dark[1..]);
        assert View() == Next(u, step);
        more := more + [step];
      }
      assert cubes[..|cubes|] == cubes;
    }

    /** Default mode: cancels and reverts every registered highlight, oldest first. */
    method ClearAll(deliver: Cube -> bool, ghost before: State, ghost steps: seq<Step>) returns (ghost more: seq<Step>)
      requires holder.Clearing? && holder.dark == [] && !holder.retain && Inv(View())
      requires Run(before, steps, View())
      modifies this
      ensures Run(before, more, View()) && Inv(View())
      ensures holder.Clearing? && holder.dark == [] && !holder.retain && holder.req == old(holder.req)
      ensures nextId == old(nextId) && entries == []
      ensures Darkened(old(retained), retained, CubesOf(old(entries)), deliver)
    {
      var prior := entries;
      more := steps;
      for i := 0 to |prior|
        invariant holder.Clearing? && holder.dark == [] && !holder.retain && holder.req == old(holder.req)
        invariant Inv(View()) && Run(before, more, View())
        invariant nextId == old(nextId) && entries == prior[i..]
        invariant var dark := Darkened(old(retained), retained, CubesOf(prior[..i]), deliver); dark
      {
        ghost var was := retained;
        more := ClearOne(deliver, before, more);
        DarkenedTwice(old(retained), was, retained, prior, i, deliver);
      }
      assert prior[..|prior|] == prior;
    }

    /** Retain mode: evicts the oldest highlights while the registry is at its cap. */
    method EvictOldest(deliver: Cube -> bool, ghost before: State, ghost steps: seq<Step>) returns (ghost more: seq<Step>)
      requires holder.Clearing? && holder.dark == [] && holder.retain && Inv(View())
      requires Run(before, steps, View())
      modifies this
      ensures Run(before, more, View()) && Inv(View())
      ensures holder.Clearing? && holder.dark == [] && holder.retain && holder.req == old(holder.req)
      ensures nextId == old(nextId) && |entries| < MAX_HIGHLIGHTS
      ensures var n := if |old(entries)| == 64 then 1 else 0;
              entries == old(entries)[n..] && Darkened(old(retained), retained, CubesOf(old(entries)[..n]), deliver)
    {
      more := steps;
      ghost var n := 0;
      while |entries| >= MAX_HIGHLIGHTS
        invariant holder.Clearing? && holder.dark == [] && holder.retain && holder.req == old(holder.req)
        invariant Inv(View()) && Run(before, more, View())
        invariant nextId == old(nextId)
        invariant n == 0 || (n == 1 && |old(entries)| == 64)
        invariant entries == old(entries)[n..]
        invariant var dark := Darkened(old(retained), retained, CubesOf(old(entries)[..n]), deliver); dark
        decreases |entries|
      {
        ghost var was := retained;
        more := ClearOne(deliver, before, more);
        DarkenedTwice(old(retained), was, retained, old(entries), n, deliver);
        n := n + 1;
      }
    }

    /** illuminate_with_lifecycle under the lock: default mode clears every prior highlight,
        retain mode only evicts the oldest one at the cap of 64; then the new highlight is published
        and registered. The whole section is a run of the protocol, and afterwards every cube of
        the request whose publish was delivered shows its payload, every cube of a cleared highlight
        whose publish was delivered is ambient, and every other cube is as it was. */
    method Illuminate(req: Request, retainMode: bool, deliver: Cube -> bool) returns (ghost steps: seq<Step>)
      requires holder.Free? && Inv(View())
      modifies this
      ensures Run(old(View()), steps, View()) && holder.Free? && Inv(View())
      ensures nextId == old(nextId) + 1
      ensures !retainMode ==> entries == [Entry(old(nextId), Affected(req))]
      ensures retainMode ==>
                entries == old(entries)[if |old(entries)| == 64 then 1 else 0..] + [Entry(old(nextId), Affected(req))]
      ensures forall c :: (req.primary == Some(c) || c in req.span) && deliver(c) ==>
                Shown(retained, c) == Some(Lit(old(nextId), if req.primary == Some(c) then Position else Span))
      ensures forall c :: !((req.primary == Some(c) || c in req.span) && deliver(c)) ==>
                var cleared := if !retainMode then old(entries) else if |old(entries)| == 64 then old(entries)[..1] else [];
                Shown(retained, c) == if c in CubesOf(cleared) && deliver(c) then Some(Ambient) else Shown(old(retained), c)
    {
      ghost var before := View();
      steps := [];
      ghost var begin := Begin(req, retainMode);
      RunSnoc(before, steps, before, begin);
      BeginKeepsInv(before, begin);
      holder := Clearing(req, retainMode, if retainMode then [] else entries, []);
      steps := steps + [begin];
      if !retainMode {
        steps := ClearAll(deliver, before, steps);
      } else {
        steps := EvictOldest(deliver, before, steps);
      }
      steps := PublishAndRegister(req, deliver, before, steps);
      AffectedMeans(req);
    }

    /** One retained publish of the new highlight. */
    method LightOneCube(tier: Tier, delivered: bool, ghost before: State, ghost steps: seq<Step>) returns (ghost more: seq<Step>)
      requires holder.Lighting? && holder.unlit != [] && tier == TierOf(holder.req, holder.unlit[0]) && Inv(View())
      requires Run(before, steps, View())
      modifies this`retained, this`holder
      ensures Run(before, more, View()) && Inv(View())
      ensures holder == old(holder.(unlit := holder.unlit[1..]))
      ensures retained == if delivered then old(retained)[old(holder.unlit)[0] := Lit(nextId, tier)] else old(retained)
    {
      ghost var u, step := View(), LightOne(delivered);
      LightKeepsInv(u, step);
      RunSnoc(before, steps, u, step);
      if delivered { retained := retained[holder.unlit[0] := Lit(nextId, tier)]; }
      holder := holder.(unlit := holder.unlit[1..]);
      assert View() == Next(u, step);
      more := steps + [step];
    }

    /** Registration of the new highlight and its revert task. */
    method RegisterHighlight(affected: seq<Cube>, ghost before: State, ghost steps: seq<Step>) returns (ghost more: seq<Step>)
      requires holder.Lighting? && holder.unlit == [] && affected == Affected(holder.req) && Inv(View())
      requires Run(before, steps, View())
      modifies this`entries, this`timers, this`asked, this`nextId, this`holder
      ensures Run(before, more, View()) && holder.Free? && Inv(View())
      ensures nextId == old(nextId) + 1 && entries == old(entries) + [Entry(old(nextId), affected)]
    {
      ghost var u := View();
      LightKeepsInv(u, Register);
      RunSnoc(before, steps, u, Register);
      entries := entries + [Entry(nextId, affected)];
      timers := timers[nextId := Timer(affected, Sleeping, false)];
      asked := asked[nextId := holder.req];
      nextId := nextId + 1;
      holder := Free;
      assert View() == Next(u, Register);
      more := steps + [Register];
    }

    /** The retained publishes of fan_out_illuminate. */
    method LightAll(req: Request, affected: seq<Cube>, payloads: map<Cube, Tier>, deliver: Cube -> bool,
                    ghost before: State, ghost steps: seq<Step>)
      returns (ghost more: seq<Step>)
      requires holder == Lighting(req, affected) && Inv(View()) && Run(before, steps, View())
      requires forall c :: c in affected ==> c in payloads && payloads[c] == TierOf(req, c)
      modifies this`retained, this`holder
      ensures Run(before, more, View()) && Inv(View()) && holder == Lighting(req, [])
      ensures LitUp(old(retained), retained, Cubes(affected), req, nextId, deliver)
    {
      more := steps;
      for i := 0 to |affected|
        invariant holder == Lighting(req, affected[i..])
        invariant Inv(View()) && Run(before, more, View())
        invariant var lit := LitUp(old(retained), retained, Cubes(affected[..i]), req, nextId, deliver); lit
      {
        assert affected[i..][0] == affected[i] && affected[i..][1..] == affected[i + 1..];
        LitUpNext(old(retained), retained, affected, i, req, nextId, deliver);
        more := LightOneCube(payloads[affected[i]], deliver(affected[i]), before, more);
      }
      assert affected[..|affected|] == affected;
    }

    /** The fan-out and the registration of the revert task. */
    method PublishAndRegister(req: Request, deliver: Cube -> bool, ghost before: State, ghost steps: seq<Step>)
      returns (ghost more: seq<Step>)
      requires holder.Clearing? && holder.dark == [] && holder.req == req && !MoreToClear(View()) && Inv(View())
      requires Run(before, steps, View())
      modifies this
      ensures Run(before, more, View()) && holder.Free? && Inv(View())
      ensures nextId == old(nextId) + 1 && entries == old(entries) + [Entry(old(nextId), Affected(req))]
      ensures LitUp(old(retained), retained, Cubes(Affected(req)), req, old(nextId), deliver)
    {
      ghost var s := View();
      BeginKeepsInv(s, StartLighting);
      RunSnoc(before, steps, s, StartLighting);
      var affected := CollectAffected(req);
      var payloads := StatePublishes(req);
      holder := Lighting(req, affected);
      assert View() == Next(s, StartLighting);
      more := LightAll(req, affected, payloads, deliver, before, steps + [StartLighting]);
      more := RegisterHighlight(affected, before, more);
    }

    /** The ambient publishes of one revert. */
    method RevertAll(id: nat, cubes: seq<Cube>, deliver: Cube -> bool, ghost before: State, ghost steps: seq<Step>)
      returns (ghost more: seq<Step>)
      requires holder == Reverting(id, cubes) && Inv(View()) && Run(before, steps, View())
      modifies this`retained, this`holder, this`lost
      ensures Run(before, more, View()) && Inv(View()) && holder == Reverting(id, [])
      ensures Darkened(old(retained), retained, Cubes(cubes), deliver)
    {
      more := steps;
      for k := 0 to |cubes|
        invariant holder == Reverting(id, cubes[k..]) && Inv(View()) && Run(before, more, View())
        invariant var dark := Darkened(old(retained), retained, Cubes(cubes[..k]), deliver); dark
      {
        ghost var u := View();
        var c := holder.todo[0];
        ghost var step := RevertOne(deliver(c));
        RevertKeepsInv(u, step);
        RunSnoc(before, more, u, step);
        DarkenedNext(old(retained), retained, cubes, k, deliver);
        PublishAmbient(c, deliver(c));
        holder := holder.(todo := holder.todo[1..]);
        assert View() == Next(u, step);
        more := more + [step];
      }
      assert cubes[..|cubes|] == cubes;
    }

    /** The `finally` of a revert. */
    method FinishRevert(id: nat, ghost before: State, ghost steps: seq<Step>) returns (ghost more: seq<Step>)
      requires holder == Reverting(id, []) && Inv(View()) && Run(before, steps, View())
      modifies this`timers, this`entries, this`holder
      ensures Run(before, more, View()) && Inv(View()) && holder.Free?
      ensures timers == (map k | k in old(timers) && k != id :: old(timers)[k]) && entries == Without(old(entries), id)
    {
      ghost var u := View();
      RevertKeepsInv(u, RevertDone);
      RunSnoc(before, steps, u, RevertDone);
      timers := map k | k in timers && k != id :: timers[k];
      entries := Without(entries, id);
      holder := Free;
      assert View() == Next(u, RevertDone);
      more := steps + [RevertDone];
    }

    /** schedule_revert once its timer has got the lock: only a registered highlight reverts, and
        it darkens its own cubes only. */
    method RevertTimer(id: nat, deliver: Cube -> bool) returns (ghost steps: seq<Step>)
      requires Inv(View()) && Enabled(View(), TimerLocks(id))
      modifies this
      ensures Run(old(View()), steps, View()) && holder.Free? && Inv(View())
      ensures timers == (map k | k in old(timers) && k != id :: old(timers)[k]) && entries == Without(old(entries), id)
      ensures Darkened(old(retained), retained, if Registered(old(entries), id) then Cubes(old(timers)[id].cubes) else {}, deliver)
    {
      ghost var before := View();
      TimerLocksKeepsInv(before, TimerLocks(id));
      RunSnoc(before, [], before, TimerLocks(id));
      steps := [] + [TimerLocks(id)];
      if Registered(entries, id) {
        holder := Reverting(id, timers[id].cubes);
        assert View() == Next(before, TimerLocks(id));
        steps := RevertAll(id, timers[id].cubes, deliver, before, steps);
        steps := FinishRevert(id, before, steps);
      } else {
        timers := map k | k in timers && k != id :: timers[k];
        entries := Without(entries, id);
      }
    }

    /** The ambient publishes of one highlight of the shutdown loop. */
    method FadeAll(id: nat, cubes: seq<Cube>, deliver: Cube -> bool, ghost before: State, ghost steps: seq<Step>)
      returns (ghost more: seq<Step>)
      requires holder.ShuttingDown? && holder.current == Some(id) && holder.fading == cubes && Inv(View()) && Run(before, steps, View())
      modifies this`retained, this`holder, this`lost
      ensures Run(before, more, View()) && Inv(View()) && holder == old(holder).(fading := [])
      ensures Darkened(old(retained), retained, Cubes(cubes), deliver)
    {
      more := steps;
      for k := 0 to |cubes|
        invariant holder == old(holder).(fading := cubes[k..]) && Inv(View()) && Run(before, more, View())
        invariant var dark := Darkened(old(retained), retained, Cubes(cubes[..k]), deliver); dark
      {
        ghost var u := View();
        var c := holder.fading[0];
        ghost var step := ShutDarken(deliver(c));
        DarkenKeepsInv(u, step);
        RunSnoc(before, more, u, step);
        DarkenedNext(old(retained), retained, cubes, k, deliver);
        PublishAmbient(c, deliver(c));
        holder := holder.(fading := holder.fading[1..]);
        assert View() == Next(u, step);
        more := more + [step];
      }
      assert cubes[..|cubes|] == cubes;
    }

    /** One highlight of the shutdown loop: cancel, revert, pop. */
    method ShutOne(deliver: Cube -> bool, ghost before: State, ghost steps: seq<Step>) returns (ghost more: seq<Step>)
      requires holder.ShuttingDown? && holder.current.None? && holder.rest != [] && Inv(View())
      requires Run(before, steps, View())
      modifies this
      ensures Run(before, more, View()) && Inv(View())
      ensures holder == ShuttingDown(old(holder.rest)[1..], None, []) && entries == holder.rest
      ensures var dark := Darkened(old(retained), retained, Cubes(old(holder.rest)[0].cubes), deliver); dark
    {
      ghost var s := View();
      var e := holder.rest[0];
      ShutStepsKeepInv(s, ShutCancel);
      RunSnoc(before, steps, s, ShutCancel);
      if e.id in timers { timers := timers[e.id := timers[e.id].(cancelled := true)]; }
      holder := ShuttingDown(holder.rest[1..], Some(e.id), e.cubes);
      assert View() == Next(s, ShutCancel);
      more := FadeAll(e.id, e.cubes, deliver, before, steps + [ShutCancel]);
      ghost var u := View();
      ShutStepsKeepInv(u, ShutPop);
      RunSnoc(before, more, u, ShutPop);
      entries := Without(entries, e.id);
      holder := holder.(current := None);
      assert View() == Next(u, ShutPop);
      more := more + [ShutPop];
    }

    /** cancel_and_revert_all: the registry is empty afterwards, every cube of a highlight is
        ambient as far as its publish was delivered, and no other cube has changed. */
    method CancelAndRevertAll(deliver: Cube -> bool) returns (ghost steps: seq<Step>)
      requires holder.Free? && Inv(View())
      modifies this
      ensures Run(old(View()), steps, View()) && holder.Free? && Inv(View()) && entries == []
      ensures Darkened(old(retained), retained, CubesOf(old(entries)), deliver)
    {
      ghost var before := View();
      BeginKeepsInv(before, BeginShutdown);
      RunSnoc(before, [], before, BeginShutdown);
      var all := entries;
      holder := ShuttingDown(all, None, []);
      assert View() == Next(before, BeginShutdown);
      steps := [] + [BeginShutdown];
      for i := 0 to |all|
        invariant holder == ShuttingDown(all[i..], None, []) && Inv(View()) && Run(before, steps, View())
        invariant var dark := Darkened(old(retained), retained, CubesOf(all[..i]), deliver); dark
      {
        ghost var was := retained;
        steps := ShutOne(deliver, before, steps);
        DarkenedTwice(old(retained), was, retained, all, i, deliver);
      }
      assert all[..|all|] == all;
      RunSnoc(before, steps, View(), ShutDone);
      BeginKeepsInv(View(), ShutDone);
      holder := Free;
      steps := steps + [ShutDone];
    }
  }
}
