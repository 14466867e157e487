/** What every reachable state of the highlight lifecycle keeps. */
module HighlightInvariant {
  import opened Sequences
  import opened Highlights

  ghost predicate IsLit(s: State, c: Cube) { c in s.retained && s.retained[c].Lit? }

  ghost predicate Held(entries: seq<Entry>, c: Cube) {
    exists i :: 0 <= i < |entries| && c in entries[i].cubes
  }

  /** The highlight whose entry no longer accounts for its cubes, if any. */
  function Leaving(h: Holder): (id: Option<nat>) {
    match h
    case Reverting(id, _) => Some(id)
    case ShuttingDown(_, current, _) => current
    case _ => None
  }

  /** Entries that account for lit cubes. */
  function Staying(s: State): (r: seq<Entry>) {
    match Leaving(s.holder)
    case Some(id) => Without(s.entries, id)
    case None => s.entries
  }

  /** Cubes the lock holder is about to darken or has begun to light. */
  function Pending(h: Holder): (r: seq<Cube>) {
    match h
    case Free => []
    case Reverting(_, todo) => todo
    case Clearing(_, _, _, dark) => dark
    case Lighting(req, _) => Affected(req)
    case ShuttingDown(_, _, fading) => fading
  }

  ghost predicate DistinctIds(entries: seq<Entry>) {
    forall i, j :: 0 <= i < j < |entries| ==> entries[i].id != entries[j].id
  }

  /** No lit cube is forgotten. */
  ghost predicate Accounted(s: State) {
    forall c :: IsLit(s, c) ==> c in s.lost || c in Pending(s.holder) || Held(Staying(s), c)
  }

  /** Every entry has a live revert task for its cubes; only the highlight a shutdown is
      working on may already be cancelled. */
  ghost predicate Timed(s: State) {
    && (forall id :: id in s.timers ==> id < s.nextId)
    && (forall e :: e in s.entries ==>
          && e.id in s.timers && s.timers[e.id].cubes == e.cubes
          && (s.timers[e.id].cancelled ==> s.holder.ShuttingDown? && s.holder.current == Some(e.id)))
  }

  ghost predicate HolderOk(s: State) {
    match s.holder
    case Free => true
    case Reverting(id, _) => Registered(s.entries, id)
    case Clearing(_, retain, victims, _) => if retain then victims == [] else s.entries == victims
    case Lighting(req, unlit) => |s.entries| < MAX_HIGHLIGHTS && forall c :: c in unlit ==> c in Affected(req)
    case ShuttingDown(rest, current, fading) =>
      && (current.None? ==> s.entries == rest && fading == [])
      && (current.Some? ==> Without(s.entries, current.value) == rest)
  }

  ghost predicate Inv(s: State) {
    && DistinctIds(s.entries)
    && |s.entries| <= MAX_HIGHLIGHTS
    && Timed(s)
    && HolderOk(s)
    && Accounted(s)
  }

  // ── Popping entries ────────────────────────────────────────────────────────

  lemma WithoutMeans(entries: seq<Entry>, id: nat)
    ensures forall e :: e in Without(entries, id) <==> e in entries && e.id != id
    ensures |Without(entries, id)| <= |entries|
    ensures DistinctIds(entries) ==> DistinctIds(Without(entries, id))
    ensures !Registered(entries, id) ==> Without(entries, id) == entries
  {
    FilterMembers(entries, OtherThan(id));
    WithoutShrinks(entries, id);
    RegisteredMeans(entries, id);
    if !Registered(entries, id) {
      FilterAll(entries, OtherThan(id));
    }
  }

  lemma {:induction false} WithoutShrinks(entries: seq<Entry>, id: nat)
    ensures |Without(entries, id)| <= |entries|
    ensures DistinctIds(entries) ==> DistinctIds(Without(entries, id))
  {
    if entries != [] {
      WithoutShrinks(entries[1..], id);
      FilterMembers(entries[1..], OtherThan(id));
      var kept := Without(entries[1..], id);
      if DistinctIds(entries) {
        forall i | 0 <= i < |kept| ensures kept[i].id != entries[0].id {
          assert kept[i] in entries[1..];
        }
      }
    }
  }

  /** Popping the oldest entry leaves the others. */
  lemma WithoutFirst(entries: seq<Entry>)
    requires entries != [] && DistinctIds(entries)
    ensures Without(entries, entries[0].id) == entries[1..]
  {
    FilterAll(entries[1..], OtherThan(entries[0].id));
  }

  lemma HeldMeans(entries: seq<Entry>, c: Cube)
    ensures Held(entries, c) <==> exists e :: e in entries && c in e.cubes
  {
    if e :| e in entries && c in e.cubes {
      var i :| 0 <= i < |entries| && entries[i] == e;
    }
    if Held(entries, c) {
      var i :| 0 <= i < |entries| && c in entries[i].cubes;
      assert entries[i] in entries;
    }
  }

  lemma RegisteredMeans(entries: seq<Entry>, id: nat)
    ensures Registered(entries, id) <==> exists e :: e in entries && e.id == id
  {
    if e :| e in entries && e.id == id {
      var i :| 0 <= i < |entries| && entries[i] == e;
    }
    if Registered(entries, id) {
      var i :| 0 <= i < |entries| && entries[i].id == id;
      assert entries[i] in entries;
    }
  }

  lemma SameId(entries: seq<Entry>, e: Entry, f: Entry)
    requires DistinctIds(entries) && e in entries && f in entries && e.id == f.id
    ensures e == f
  {
    var i :| 0 <= i < |entries| && entries[i] == e;
    var j :| 0 <= j < |entries| && entries[j] == f;
  }

  /** Removing one entry uncovers at most its own cubes. */
  lemma PopUncovers(entries: seq<Entry>, id: nat, c: Cube)
    requires DistinctIds(entries) && Held(entries, c)
    ensures Held(Without(entries, id), c) || exists e :: e in entries && e.id == id && c in e.cubes
  {
    HeldMeans(entries, c);
    WithoutMeans(entries, id);
    HeldMeans(Without(entries, id), c);
  }

  // ── Preservation, step by step ─────────────────────────────────────────────

  lemma TimerStepsKeepInv(s: State, step: Step)
    requires Inv(s) && Enabled(s, step) && (step.TimerWakes? || step.TimerDies?)
    ensures Inv(Next(s, step))
  {
    var t := Next(s, step);
    if step.TimerDies? {
      var id := step.id;
      WithoutMeans(s.entries, id);
      RegisteredMeans(s.entries, id);
      if Registered(s.entries, id) {
        // Only the highlight being shut down is cancelled and still registered.
        assert s.holder.ShuttingDown? && s.holder.current == Some(id);
        var kept := Without(s.entries, id);
        WithoutMeans(kept, id);
        FilterAll(kept, OtherThan(id));
      } else {
        assert t.entries == s.entries;
      }
    }
  }

  lemma TimerLocksKeepsInv(s: State, step: Step)
    requires Inv(s) && Enabled(s, step) && step.TimerLocks?
    ensures Inv(Next(s, step))
  {
    var t, id := Next(s, step), step.id;
    WithoutMeans(s.entries, id);
    RegisteredMeans(s.entries, id);
    if Registered(s.entries, id) {
      forall c | IsLit(t, c) ensures c in t.lost || c in Pending(t.holder) || Held(Staying(t), c) {
        if c !in s.lost {
          PopUncovers(s.entries, id, c);
        }
      }
    } else {
      assert t.entries == s.entries;
    }
  }

  lemma RevertKeepsInv(s: State, step: Step)
    requires Inv(s) && Enabled(s, step) && (step.RevertOne? || step.RevertDone?)
    ensures Inv(Next(s, step))
  {
    var t := Next(s, step);
    if step.RevertOne? {
      var c := s.holder.todo[0];
      forall x | IsLit(t, x) ensures x in t.lost || x in Pending(t.holder) || Held(Staying(t), x) {
        assert IsLit(s, x);
        assert x in s.holder.todo <==> x == c || x in s.holder.todo[1..];
      }
    } else {
      WithoutMeans(s.entries, s.holder.id);
    }
  }

  lemma BeginKeepsInv(s: State, step: Step)
    requires Inv(s) && Enabled(s, step) && (step.Begin? || step.BeginShutdown? || step.StartLighting? || step.ShutDone?)
    ensures Inv(Next(s, step))
  {
  }

  lemma CancelStaysAccounted(s: State)
    requires Inv(s) && Enabled(s, CancelNext)
    ensures Accounted(Next(s, CancelNext))
  {
    var t, e := Next(s, CancelNext), Victim(s);
    assert e == s.entries[0];
    assert e in s.entries;
    forall c | IsLit(t, c) ensures c in t.lost || c in Pending(t.holder) || Held(Staying(t), c) {
      if c !in s.lost {
        PopUncovers(s.entries, e.id, c);
        if f :| f in s.entries && f.id == e.id && c in f.cubes { SameId(s.entries, e, f); }
      }
    }
  }

  lemma CancelStaysTimed(s: State)
    requires Inv(s) && Enabled(s, CancelNext)
    ensures Timed(Next(s, CancelNext))
  {
    var t, e := Next(s, CancelNext), Victim(s);
    WithoutMeans(s.entries, e.id);
    forall f | f in t.entries ensures f.id in t.timers && t.timers[f.id] == s.timers[f.id] {
      assert f in s.entries && f.id != e.id;
    }
  }

  lemma CancelNextKeepsInv(s: State)
    requires Inv(s) && Enabled(s, CancelNext)
    ensures var inv := Inv(Next(s, CancelNext)); inv
  {
    CancelStaysAccounted(s);
    CancelStaysTimed(s);
    WithoutMeans(s.entries, Victim(s).id);
    WithoutFirst(s.entries);
  }

  lemma DarkenKeepsInv(s: State, step: Step)
    requires Inv(s) && Enabled(s, step) && (step.DarkenOne? || step.ShutDarken?)
    ensures var inv := Inv(Next(s, step)); inv
  {
    var t := Next(s, step);
    var queue := if step.DarkenOne? then s.holder.dark else s.holder.fading;
    forall x | IsLit(t, x) ensures x in t.lost || x in Pending(t.holder) || Held(Staying(t), x) {
      assert IsLit(s, x);
      assert x in queue <==> x == queue[0] || x in queue[1..];
    }
  }

  lemma LightKeepsInv(s: State, step: Step)
    requires Inv(s) && Enabled(s, step) && (step.LightOne? || step.Register?)
    ensures Inv(Next(s, step))
  {
    var t := Next(s, step);
    if step.LightOne? {
      forall x | IsLit(t, x) ensures x in t.lost || x in Pending(t.holder) || Held(Staying(t), x) {
        assert x == s.holder.unlit[0] || IsLit(s, x);
      }
    } else {
      var added := Entry(s.nextId, Affected(s.holder.req));
      assert t.entries[|s.entries|] == added;
      forall i | 0 <= i < |s.entries| ensures t.entries[i].id < s.nextId {
        assert t.entries[i] == s.entries[i] && s.entries[i] in s.entries;
      }
      forall x | IsLit(t, x) ensures x in t.lost || Held(t.entries, x) {
        if Held(s.entries, x) {
          var i :| 0 <= i < |s.entries| && x in s.entries[i].cubes;
          assert t.entries[i] == s.entries[i];
        }
      }
    }
  }

  lemma ShutStepsKeepInv(s: State, step: Step)
    requires Inv(s) && Enabled(s, step) && (step.ShutCancel? || step.ShutPop?)
    ensures Inv(Next(s, step))
  {
    var t := Next(s, step);
    if step.ShutCancel? {
      var e := s.holder.rest[0];
      assert e in s.entries;
      WithoutFirst(s.entries);
      forall f | f in t.entries ensures f.id in t.timers && t.timers[f.id].cubes == f.cubes &&
          (t.timers[f.id].cancelled ==> t.holder.current == Some(f.id)) {
      }
      forall c | IsLit(t, c) ensures c in t.lost || c in Pending(t.holder) || Held(Staying(t), c) {
        if c !in s.lost {
          PopUncovers(s.entries, e.id, c);
          if f :| f in s.entries && f.id == e.id && c in f.cubes { SameId(s.entries, e, f); }
        }
      }
    } else {
      WithoutMeans(s.entries, s.holder.current.value);
    }
  }

  // ── Runs ───────────────────────────────────────────────────────────────────

  /** Every step, by whichever task, keeps the invariant. */
  lemma StepKeepsInv(s: State, step: Step)
    requires Inv(s) && Enabled(s, step)
    ensures Inv(Next(s, step))
  {
    match step {
      case TimerWakes(_) => TimerStepsKeepInv(s, step);
      case TimerDies(_) => TimerStepsKeepInv(s, step);
      case TimerLocks(_) => TimerLocksKeepsInv(s, step);
      case RevertOne(_) => RevertKeepsInv(s, step);
      case RevertDone => RevertKeepsInv(s, step);
      case Begin(_, _) => BeginKeepsInv(s, step);
      case CancelNext => CancelNextKeepsInv(s);
      case DarkenOne(_) => DarkenKeepsInv(s, step);
      case StartLighting => BeginKeepsInv(s, step);
      case LightOne(_) => LightKeepsInv(s, step);
      case Register => LightKeepsInv(s, step);
      case BeginShutdown => BeginKeepsInv(s, step);
      case ShutCancel => ShutStepsKeepInv(s, step);
      case ShutDarken(_) => DarkenKeepsInv(s, step);
      case ShutPop => ShutStepsKeepInv(s, step);
      case ShutDone => BeginKeepsInv(s, step);
    }
  }

  lemma {:induction false} RunKeepsInv(s: State, steps: seq<Step>, t: State)
    requires Inv(s) && Run(s, steps, t)
    ensures Inv(t)
    decreases |steps|
  {
    if steps != [] {
      StepKeepsInv(s, steps[0]);
      RunKeepsInv(Next(s, steps[0]), steps[1..], t);
    }
  }

  ghost predicate AmbientDelivered(step: Step) {
    match step
    case RevertOne(d) => d
    case DarkenOne(d) => d
    case ShutDarken(d) => d
    case _ => true
  }

  lemma {:induction false} NothingLost(s: State, steps: seq<Step>, t: State)
    requires Run(s, steps, t) && s.lost == {} && forall step :: step in steps ==> AmbientDelivered(step)
    ensures t.lost == {}
    decreases |steps|
  {
    if steps != [] {
      assert steps[0] in steps;
      NothingLost(Next(s, steps[0]), steps[1..], t);
    }
  }

  /** Safety in every reachable lock-free state, over any interleaving of illuminate calls in
      either mode, timers and shutdowns, with highlight publishes failing arbitrarily: a lit cube
      belongs to a registered highlight unless an ambient publish for it was lost, every
      registered highlight has a live revert task for its cubes, and at most 64 are registered. */
  lemma LockFreeSafety(steps: seq<Step>, t: State)
    requires Run(INITIAL, steps, t) && t.holder.Free?
    ensures forall c :: IsLit(t, c) ==> c in t.lost || exists e :: e in t.entries && c in e.cubes
    ensures (forall step :: step in steps ==> AmbientDelivered(step)) ==> t.lost == {}
    ensures forall e :: e in t.entries ==>
              e.id in t.timers && !t.timers[e.id].cancelled && t.timers[e.id].cubes == e.cubes
    ensures DistinctIds(t.entries) && |t.entries| <= 64
  {
    RunKeepsInv(INITIAL, steps, t);
    forall c | IsLit(t, c) && c !in t.lost ensures exists e :: e in t.entries && c in e.cubes {
      HeldMeans(t.entries, c);
    }
    if forall step :: step in steps ==> AmbientDelivered(step) {
      NothingLost(INITIAL, steps, t);
    }
  }

  /** A cancelled highlight's timer never darkens anything: whenever a timer is reverting, its
      highlight is registered and not cancelled, and a timer that gets the lock after its
      highlight was removed changes neither the registry nor the broker state. */
  lemma CancelledTimersAreHarmless(steps: seq<Step>, s: State, id: nat)
    requires Run(INITIAL, steps, s)
    ensures s.holder.Reverting? ==>
              && Registered(s.entries, s.holder.id)
              && s.holder.id in s.timers && !s.timers[s.holder.id].cancelled
    ensures Enabled(s, TimerLocks(id)) && s.timers[id].cancelled ==>
              && Next(s, TimerLocks(id)).entries == s.entries
              && Next(s, TimerLocks(id)).retained == s.retained
              && Next(s, TimerLocks(id)).holder == Free
  {
    RunKeepsInv(INITIAL, steps, s);
    if s.holder.Reverting? {
      RegisteredMeans(s.entries, s.holder.id);
    }
    if Enabled(s, TimerLocks(id)) && s.timers[id].cancelled {
      RegisteredMeans(s.entries, id);
      WithoutMeans(s.entries, id);
    }
  }

  /** Shutdown empties the registry. */
  lemma ShutdownEmpties(steps: seq<Step>, s: State)
    requires Run(INITIAL, steps, s) && Enabled(s, ShutDone)
    ensures Next(s, ShutDone).entries == []
    ensures forall c :: IsLit(Next(s, ShutDone), c) ==> c in s.lost
  {
    RunKeepsInv(INITIAL, steps, s);
  }
}
