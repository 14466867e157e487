/** The LED highlight lifecycle (src/gruvax/mqtt/lifecycle.py) as a transition system: the
    registry, its revert timers, the asyncio lock and the retained per-cube broker state
    (a retained publish replaces the previous one: section 3.3.1.3 of MQTT Version 5.0).

    Between any two steps of the lock holder every other task may take its own steps. */
module Highlights {
  import opened Sequences

  datatype Cube = Cube(unitId: int, row: int, col: int)

  datatype Tier = Position | Span

  /** The retained state of a cube: the ambient baseline, or a tier of some highlight. */
  datatype Retained = Ambient | Lit(highlight: nat, tier: Tier)

  /** The body of one illuminate call. */
  datatype Request = Request(primary: Option<Cube>, span: seq<Cube>)

  function Dedupe(cubes: seq<Cube>): (r: seq<Cube>) {
    if cubes == [] then [] else
      var n := |cubes| - 1;
      var before := Dedupe(cubes[..n]);
      if cubes[n] in before then before else before + [cubes[n]]
  }

  lemma {:induction false} DedupeMeans(cubes: seq<Cube>)
    ensures Distinct(Dedupe(cubes))
    ensures forall c :: c in Dedupe(cubes) <==> c in cubes
  {
    if cubes != [] {
      var n := |cubes| - 1;
      DedupeMeans(cubes[..n]);
      assert forall c :: c in cubes <==> c in cubes[..n] || c == cubes[n];
    }
  }

  function Touched(req: Request): (r: seq<Cube>) {
    (if req.primary.Some? then [req.primary.value] else []) + req.span
  }

  /** The distinct cubes a highlight touches, primary first. */
  function Affected(req: Request): (r: seq<Cube>) { Dedupe(Touched(req)) }

  /** Primary wins over membership in the span. */
  function TierOf(req: Request, c: Cube): (t: Tier) {
    if req.primary == Some(c) then Position else Span
  }

  // ── State ──────────────────────────────────────────────────────────────────

  const MAX_HIGHLIGHTS := 64

  datatype Entry = Entry(id: nat, cubes: seq<Cube>)

  datatype Phase = Sleeping | Waiting

  /** A revert task that has not finished. A cancelled task may linger in any phase. */
  datatype Timer = Timer(cubes: seq<Cube>, phase: Phase, cancelled: bool)

  /** Who holds the lock and how far its critical section is. */
  datatype Holder =
    | Free
    | Reverting(id: nat, todo: seq<Cube>)
    | Clearing(req: Request, retain: bool, victims: seq<Entry>, dark: seq<Cube>)
    | Lighting(req: Request, unlit: seq<Cube>)
    | ShuttingDown(rest: seq<Entry>, current: Option<nat>, fading: seq<Cube>)

  /** `asked` remembers the request behind each highlight and `lost` the cubes for which an
      ambient publish was not delivered; neither is read by any step. */
  datatype State = State(
    entries: seq<Entry>,
    timers: map<nat, Timer>,
    retained: map<Cube, Retained>,
    nextId: nat,
    holder: Holder,
    asked: map<nat, Request>,
    lost: set<Cube>)

  const INITIAL := State([], map[], map[], 0, Free, map[], {})

  /** The retained payload of a cube, if it ever had one. */
  function Shown(retained: map<Cube, Retained>, c: Cube): (r: Option<Retained>) {
    if c in retained then Some(retained[c]) else None
  }

  function OtherThan(id: nat): Entry -> bool { (e: Entry) => e.id != id }

  /** The registry after pop(id). */
  function Without(entries: seq<Entry>, id: nat): (r: seq<Entry>) { Filter(entries, OtherThan(id)) }

  predicate Registered(entries: seq<Entry>, id: nat) {
    exists i :: 0 <= i < |entries| && entries[i].id == id
  }

  // ── Steps ──────────────────────────────────────────────────────────────────

  datatype Step =
    | TimerWakes(id: nat)
    | TimerDies(id: nat)
    | TimerLocks(id: nat)
    | RevertOne(delivered: bool)
    | RevertDone
    | Begin(req: Request, retain: bool)
    | CancelNext
    | DarkenOne(delivered: bool)
    | StartLighting
    | LightOne(delivered: bool)
    | Register
    | BeginShutdown
    | ShutCancel
    | ShutDarken(delivered: bool)
    | ShutPop
    | ShutDone

  predicate MoreToClear(s: State)
    requires s.holder.Clearing?
  {
    if s.holder.retain then |s.entries| >= MAX_HIGHLIGHTS else s.holder.victims != []
  }

  predicate Enabled(s: State, step: Step) {
    match step
    case TimerWakes(id) => id in s.timers && s.timers[id].phase.Sleeping?
    case TimerDies(id) => id in s.timers && s.timers[id].cancelled
    case TimerLocks(id) => s.holder.Free? && id in s.timers && s.timers[id].phase.Waiting?
    case RevertOne(_) => s.holder.Reverting? && s.holder.todo != []
    case RevertDone => s.holder.Reverting? && s.holder.todo == []
    case Begin(_, _) => s.holder.Free?
    case CancelNext => s.holder.Clearing? && s.holder.dark == [] && MoreToClear(s)
    case DarkenOne(_) => s.holder.Clearing? && s.holder.dark != []
    case StartLighting => s.holder.Clearing? && s.holder.dark == [] && !MoreToClear(s)
    case LightOne(_) => s.holder.Lighting? && s.holder.unlit != []
    case Register => s.holder.Lighting? && s.holder.unlit == []
    case BeginShutdown => s.holder.Free?
    case ShutCancel => s.holder.ShuttingDown? && s.holder.current.None? && s.holder.rest != []
    case ShutDarken(_) => s.holder.ShuttingDown? && s.holder.current.Some? && s.holder.fading != []
    case ShutPop => s.holder.ShuttingDown? && s.holder.current.Some? && s.holder.fading == []
    case ShutDone => s.holder.ShuttingDown? && s.holder.current.None? && s.holder.rest == []
  }

  /** One ambient publish; an undelivered one leaves the old retained state behind. */
  function Darken(s: State, c: Cube, delivered: bool): (t: State) {
    if delivered then s.(retained := s.retained[c := Ambient]) else s.(lost := s.lost + {c})
  }

  function Cancel(s: State, id: nat): (t: State) {
    if id in s.timers then s.(timers := s.timers[id := s.timers[id].(cancelled := true)]) else s
  }

  function Drop(s: State, id: nat): (t: State) {
    s.(timers := map k | k in s.timers && k != id :: s.timers[k])
  }

  function Victim(s: State): (e: Entry)
    requires s.holder.Clearing? && MoreToClear(s)
  {
    if s.holder.retain then s.entries[0] else s.holder.victims[0]
  }

  function Next(s: State, step: Step): (t: State)
    requires Enabled(s, step)
  {
    match step
    case TimerWakes(id) => s.(timers := s.timers[id := s.timers[id].(phase := Waiting)])
    case TimerDies(id) => Drop(s, id).(entries := Without(s.entries, id))
    case TimerLocks(id) =>
      if Registered(s.entries, id) then s.(holder := Reverting(id, s.timers[id].cubes))
      else Drop(s, id).(entries := Without(s.entries, id))
    case RevertOne(delivered) =>
      Darken(s, s.holder.todo[0], delivered).(holder := s.holder.(todo := s.holder.todo[1..]))
    case RevertDone =>
      Drop(s, s.holder.id).(entries := Without(s.entries, s.holder.id), holder := Free)
    case Begin(req, retain) => s.(holder := Clearing(req, retain, if retain then [] else s.entries, []))
    case CancelNext =>
      var e := Victim(s);
      Cancel(s, e.id).(
        entries := Without(s.entries, e.id),
        holder := s.holder.(dark := e.cubes, victims := if s.holder.retain then [] else s.holder.victims[1..]))
    case DarkenOne(delivered) =>
      Darken(s, s.holder.dark[0], delivered).(holder := s.holder.(dark := s.holder.dark[1..]))
    case StartLighting => s.(holder := Lighting(s.holder.req, Affected(s.holder.req)))
    case LightOne(delivered) =>
      var c := s.holder.unlit[0];
      var lit := if delivered then s.retained[c := Lit(s.nextId, TierOf(s.holder.req, c))] else s.retained;
      s.(retained := lit, holder := s.holder.(unlit := s.holder.unlit[1..]))
    case Register =>
      var cubes := Affected(s.holder.req);
      s.(entries := s.entries + [Entry(s.nextId, cubes)],
         timers := s.timers[s.nextId := Timer(cubes, Sleeping, false)],
         asked := s.asked[s.nextId := s.holder.req],
         nextId := s.nextId + 1,
         holder := Free)
    case BeginShutdown => s.(holder := ShuttingDown(s.entries, None, []))
    case ShutCancel =>
      var e := s.holder.rest[0];
      Cancel(s, e.id).(holder := ShuttingDown(s.holder.rest[1..], Some(e.id), e.cubes))
    case ShutDarken(delivered) =>
      Darken(s, s.holder.fading[0], delivered).(holder := s.holder.(fading := s.holder.fading[1..]))
    case ShutPop =>
      s.(entries := Without(s.entries, s.holder.current.value), holder := s.holder.(current := None))
    case ShutDone => s.(holder := Free)
  }

  /** A run of the system: each step enabled where it is taken. */
  ghost predicate Run(s: State, steps: seq<Step>, t: State)
    decreases |steps|
  {
    if steps == [] then s == t
    else Enabled(s, steps[0]) && Run(Next(s, steps[0]), steps[1..], t)
  }

  lemma {:induction false} RunSnoc(s: State, steps: seq<Step>, t: State, last: Step)
    requires Run(s, steps, t) && Enabled(t, last)
    ensures Run(s, steps + [last], Next(t, last))
    decreases |steps|
  {
    if steps == [] {
      assert [last][1..] == [];
      assert steps + [last] == [last];
    } else {
      RunSnoc(Next(s, steps[0]), steps[1..], t, last);
      assert (steps + [last])[1..] == steps[1..] + [last];
    }
  }
}
