/**
 The gated clock of carbon_sctlmtypes.h: a four-state machine that stops its clock after a spell of
 idle clock cycles and starts it again on a wakeup. The SystemC kernel is modelled by the trigger that
 clockMethod waits on, by the rising edge that activityTimer is sensitive to, and by the current time.
 A run is a sequence of events in any order the kernel allows.
 */
module GatedClock {

  /** The constructor's arguments, in time units; `half` is half the clock period. */
  datatype Config = Config(timeout: int, startPhase: nat, half: nat)

  datatype State = Idle | Active | Startup | Shutdown

  /** What clockMethod waits on: a time, or the wakeup event. */
  datatype Trigger = At(time: nat) | OnWakeup

  datatype Machine = Machine(
    state: State, timer: int, clock: bool, count: nat, trigger: Trigger, rising: bool, now: nat, edges: seq<nat>)

  /** A call of a public method, a run of one of the two processes, or the passing of time. */
  datatype Event = Wakeup | Start | End | Clock | Activity(modelIdle: bool) | Pass(units: nat)

  function Initial(c: Config): Machine {
    Machine(Startup, c.timeout, false, 0, At(0), false, 0, [])
  }

  function Woken(c: Config, m: Machine): Machine {
    if m.state.Active? || m.state.Startup? then m.(timer := c.timeout)
    else m.(timer := c.timeout, state := Startup, trigger := if m.trigger.OnWakeup? then At(m.now) else m.trigger)
  }

  /** The output toggles, and clockMethod comes back half a period later. */
  function Toggled(c: Config, m: Machine): Machine {
    m.(clock := !m.clock, rising := !m.clock, edges := m.edges + [m.now], trigger := At(m.now + c.half))
  }

  function Clocked(c: Config, m: Machine): Machine {
    match m.state
    case Startup => m.(state := Active, trigger := At(m.now + c.startPhase))
    case Active => Toggled(c, m)
    case Shutdown => if m.clock then Toggled(c, m) else m.(state := Idle, trigger := OnWakeup)
    case Idle => m.(trigger := OnWakeup)
  }

  function Timed(m: Machine, modelIdle: bool): Machine {
    if m.count > 0 then m.(rising := false)
    else
      var timer := if m.timer != 0 then m.timer - 1 else 0;
      m.(rising := false, timer := timer, state := if timer == 0 && modelIdle then Shutdown else m.state)
  }

  function Step(c: Config, m: Machine, e: Event): Machine {
    match e
    case Wakeup => Woken(c, m)
    case Start => Woken(c, m).(count := m.count + 1)
    case End => if m.count > 0 then m.(count := m.count - 1) else m
    case Clock => Clocked(c, m)
    case Activity(idle) => Timed(m, idle)
    case Pass(units) => m.(now := m.now + units)
  }

  /** When an event may happen: time does not pass a due process, and transactionEnd is paired with a start. */
  predicate Allowed(m: Machine, e: Event) {
    match e
    case Wakeup => true
    case Start => true
    case End => m.count > 0
    case Clock => m.trigger == At(m.now)
    case Activity(_) => m.rising
    case Pass(units) => !m.rising && (m.trigger.At? ==> m.now + units <= m.trigger.time)
  }

  /** The machine after the first `n` events of a run. */
  function Reached(c: Config, events: seq<Event>, n: nat): Machine
    requires n <= |events|
  {
    if n == 0 then Initial(c) else Step(c, Reached(c, events, n - 1), events[n - 1])
  }

  /** Each of the first `n` events is allowed where it happens. */
  predicate IsRun(c: Config, events: seq<Event>, n: nat)
    requires n <= |events|
  {
    c.half > 0 && (n > 0 ==> IsRun(c, events, n - 1) && Allowed(Reached(c, events, n - 1), events[n - 1]))
  }

  /** The earliest time of the next edge. */
  function Next(m: Machine): nat {
    if m.trigger.At? then m.trigger.time else m.now
  }

  ghost predicate Spaced(edges: seq<nat>, gap: nat) {
    forall i :: 0 < i < |edges| ==> edges[i - 1] + gap <= edges[i]
  }

  /** What every event keeps. */
  ghost predicate Safe(c: Config, m: Machine) {
    && (m.count > 0 ==> m.state.Startup? || m.state.Active?)
    && (m.trigger.OnWakeup? <==> m.state.Idle?)
    && (m.state.Idle? ==> !m.clock)
    && (m.rising ==> m.state.Active? && m.clock && m.trigger == At(m.now + c.half)
                     && m.edges != [] && m.edges[|m.edges| - 1] == m.now)
    && m.now <= Next(m) <= m.now + c.half + c.startPhase
    && (m.state.Startup? || m.state.Shutdown? ==> Next(m) <= m.now + c.half)
    && (m.edges != [] ==> m.edges[|m.edges| - 1] + c.half <= Next(m))
    && (m.state.Shutdown? ==> m.edges != [] && m.trigger == At(m.edges[|m.edges| - 1] + c.half))
    && Spaced(m.edges, c.half)
    && (m.clock <==> |m.edges| % 2 == 1)
  }

  lemma StepSafe(c: Config, m: Machine, e: Event)
    requires c.half > 0 && Safe(c, m) && Allowed(m, e)
    ensures Safe(c, Step(c, m, e))
  {
  }

  /**
   In every run a positive transaction count means starting up or active, with clockMethod due at some
   time; idle means the clock is low and waits on the wakeup event; edges are at least half a period apart.
   */
  lemma {:induction false} RunSafe(c: Config, events: seq<Event>, n: nat)
    requires n <= |events| && IsRun(c, events, n)
    ensures Safe(c, Reached(c, events, n))
    decreases n
  {
    if n > 0 {
      RunSafe(c, events, n - 1);
      StepSafe(c, Reached(c, events, n - 1), events[n - 1]);
    }
  }

  /** Transactions started and not ended in the first `n` events. */
  function Open(events: seq<Event>, n: nat): int
    requires n <= |events|
  {
    if n == 0 then 0
    else Open(events, n - 1) + if events[n - 1].Start? then 1 else if events[n - 1].End? then -1 else 0
  }

  /** Rising edges that found no transaction open, since the last wakeup. */
  function Quiet(events: seq<Event>, n: nat): nat
    requires n <= |events|
  {
    if n == 0 || events[n - 1].Wakeup? || events[n - 1].Start? then 0
    else if events[n - 1].Activity? && Open(events, n - 1) <= 0 then Quiet(events, n - 1) + 1
    else Quiet(events, n - 1)
  }

  function Max(a: int, b: int): int {
    if a < b then b else a
  }

  /** The transaction count and the timer agree with a count of open transactions and of quiet edges. */
  predicate Agree(c: Config, m: Machine, open: int, quiet: nat) {
    m.count == open && m.timer == if c.timeout < 0 then c.timeout - quiet else Max(0, c.timeout - quiet)
  }

  lemma {:induction false} Counters(c: Config, events: seq<Event>, n: nat)
    requires n <= |events| && IsRun(c, events, n)
    ensures Agree(c, Reached(c, events, n), Open(events, n), Quiet(events, n))
    decreases n
  {
    if n > 0 {
      Counters(c, events, n - 1);
    }
  }

  /**
   An event moves a running clock to shutdown if and only if it is a rising edge that finds the model idle,
   no transaction open, and at least max(1, timeout) such edges, itself included, since the last wakeup.
   With a negative timeout the clock never shuts down.
   */
  lemma ShutdownIff(c: Config, events: seq<Event>, n: nat)
    requires n < |events| && IsRun(c, events, n + 1)
    ensures !Reached(c, events, n).state.Shutdown? && Reached(c, events, n + 1).state.Shutdown?
       <==> c.timeout >= 0 && events[n] == Activity(true) && Open(events, n) == 0
            && Quiet(events, n + 1) >= Max(1, c.timeout)
  {
    RunSafe(c, events, n);
    Counters(c, events, n);
  }

  /** Woken, and not deciding on a rising edge just now. */
  predicate Awake(m: Machine) {
    (m.state.Startup? || m.state.Active?) && !m.rising
  }

  /** When an awake clock next rises. */
  function NextRise(c: Config, m: Machine): nat {
    Next(m) + (if m.state.Startup? then c.startPhase else 0) + if m.clock then c.half else 0
  }

  /** The index among the edges of the next rising one. */
  function RiseIndex(m: Machine): nat {
    |m.edges| + if m.clock then 1 else 0
  }

  /** The next rising edge is still to come, at `time`, or it came then. */
  ghost predicate RisesAt(c: Config, m: Machine, index: nat, time: nat) {
    if |m.edges| <= index then Awake(m) && RiseIndex(m) == index && NextRise(c, m) == time
    else m.edges[index] == time
  }

  lemma StepRises(c: Config, m: Machine, e: Event, index: nat, time: nat)
    requires c.half > 0 && Safe(c, m) && Allowed(m, e) && RisesAt(c, m, index, time)
    ensures RisesAt(c, Step(c, m, e), index, time)
  {
  }

  /**
   No wakeup is lost: from the moment the clock is awake its next rising edge is fixed, whatever calls
   follow, within a start phase and a full period; time does not pass that moment without the edge.
   */
  lemma {:induction false} WakeupAnswered(c: Config, events: seq<Event>, k: nat, n: nat)
    requires k <= n <= |events| && IsRun(c, events, n)
    requires Awake(Reached(c, events, k))
    ensures var m := Reached(c, events, k);
      && NextRise(c, m) <= m.now + c.startPhase + 2 * c.half
      && RisesAt(c, Reached(c, events, n), RiseIndex(m), NextRise(c, m))
      && (Reached(c, events, n).now > NextRise(c, m) ==> |Reached(c, events, n).edges| > RiseIndex(m))
    decreases n
  {
    RunSafe(c, events, n);
    if n > k {
      WakeupAnswered(c, events, k, n - 1);
      RunSafe(c, events, n - 1);
      var m := Reached(c, events, k);
      StepRises(c, Reached(c, events, n - 1), events[n - 1], RiseIndex(m), NextRise(c, m));
    }
  }

  // ----- When edges come, as an observer sees it

  /** Edge `index` comes at `time`: it came then, or that is still to be. */
  ghost predicate ComesAt(m: Machine, index: nat, time: nat) {
    if index < |m.edges| then m.edges[index] == time else m.now <= time
  }

  predicate Wakes(e: Event) {
    e.Wakeup? || e.Start?
  }

  /** When an awake clock next changes. */
  function NextEdge(c: Config, m: Machine): nat {
    Next(m) + if m.state.Startup? then c.startPhase else 0
  }

  ghost predicate EdgeAt(c: Config, m: Machine, index: nat, time: nat) {
    if |m.edges| <= index then Awake(m) && |m.edges| == index && NextEdge(c, m) == time
    else m.edges[index] == time
  }

  lemma StepEdge(c: Config, m: Machine, e: Event, index: nat, time: nat)
    requires c.half > 0 && Safe(c, m) && Allowed(m, e) && EdgeAt(c, m, index, time)
    ensures EdgeAt(c, Step(c, m, e), index, time)
  {
  }

  /** An awake clock changes next, and rises next, when it is due to. */
  lemma {:induction false} AwakeEdges(c: Config, events: seq<Event>, k: nat, n: nat)
    requires k <= n <= |events| && IsRun(c, events, n) && Awake(Reached(c, events, k))
    ensures var m, w := Reached(c, events, k), Reached(c, events, n);
      ComesAt(w, |m.edges|, NextEdge(c, m)) && ComesAt(w, RiseIndex(m), NextRise(c, m))
    ensures EdgeAt(c, Reached(c, events, n), |Reached(c, events, k).edges|, NextEdge(c, Reached(c, events, k)))
    decreases n
  {
    RunSafe(c, events, n);
    WakeupAnswered(c, events, k, n);
    if n > k {
      AwakeEdges(c, events, k, n - 1);
      RunSafe(c, events, n - 1);
      var m := Reached(c, events, k);
      StepEdge(c, Reached(c, events, n - 1), events[n - 1], |m.edges|, NextEdge(c, m));
    }
  }

  /** A new clock first rises one start phase after the beginning. */
  lemma FirstRise(c: Config, events: seq<Event>, n: nat)
    requires n <= |events| && IsRun(c, events, n)
    ensures ComesAt(Reached(c, events, n), 0, c.startPhase)
  {
    AwakeEdges(c, events, 0, n);
  }

  lemma WokenIdle(c: Config, m: Machine, e: Event)
    requires Safe(c, m) && m.state.Idle? && Wakes(e)
    ensures var w := Step(c, m, e);
      Awake(w) && w.edges == m.edges && RiseIndex(w) == |m.edges| && NextRise(c, w) == m.now + c.startPhase
  {
  }

  /** An idle clock that is woken rises exactly one start phase later. */
  lemma IdleWakes(c: Config, events: seq<Event>, k: nat, n: nat)
    requires k < n <= |events| && IsRun(c, events, n) && Reached(c, events, k).state.Idle? && Wakes(events[k])
    ensures var m := Reached(c, events, k); ComesAt(Reached(c, events, n), |m.edges|, m.now + c.startPhase)
  {
    hide IsRun, ComesAt, Safe, Step, NextRise, RiseIndex, Awake;
    RunBefore(c, events, k, n);
    RunSafe(c, events, k);
    WokenIdle(c, Reached(c, events, k), events[k]);
    AwakeEdges(c, events, k + 1, n);
  }

  lemma WokenShutdown(c: Config, m: Machine, e: Event)
    requires Safe(c, m) && m.state.Shutdown? && Wakes(e)
    ensures m.edges != []
    ensures var w, start := Step(c, m, e), m.edges[|m.edges| - 1] + c.half + c.startPhase;
      && Awake(w) && w.edges == m.edges && NextEdge(c, w) == start
      && (m.clock ==> RiseIndex(w) == |m.edges| + 1 && NextRise(c, w) == start + c.half)
  {
  }

  /** A clock that is woken on its way to shutdown makes a start phase of what is left of its half period and the
      start phase; if it was high then, it falls at the end of that, and rises another half period later. */
  lemma ShutdownCaught(c: Config, events: seq<Event>, k: nat, n: nat)
    requires k < n <= |events| && IsRun(c, events, n) && Reached(c, events, k).state.Shutdown? && Wakes(events[k])
    ensures Reached(c, events, k).edges != []
    ensures var m := Reached(c, events, k);
      var start := m.edges[|m.edges| - 1] + c.half + c.startPhase;
      && ComesAt(Reached(c, events, n), |m.edges|, start)
      && (m.clock ==> ComesAt(Reached(c, events, n), |m.edges| + 1, start + c.half))
  {
    hide IsRun, ComesAt, Safe, Step, NextEdge, NextRise, RiseIndex, Awake;
    RunBefore(c, events, k, n);
    RunSafe(c, events, k);
    WokenShutdown(c, Reached(c, events, k), events[k]);
    AwakeEdges(c, events, k + 1, n);
  }

  lemma {:induction false} RunBefore(c: Config, events: seq<Event>, k: nat, n: nat)
    requires k <= n <= |events| && IsRun(c, events, n)
    ensures IsRun(c, events, k) && (k < n ==> IsRun(c, events, k + 1))
    decreases n
  {
    if k < n {
      RunBefore(c, events, k, n - 1);
    }
  }

  /** Event `i` wakes the clock from idle or shutdown. */
  predicate Rouses(c: Config, events: seq<Event>, i: nat)
    requires i < |events|
  {
    Wakes(events[i]) && (Reached(c, events, i).state.Idle? || Reached(c, events, i).state.Shutdown?)
  }

  /** What holds from an edge on, the last of `edges`, until the clock is woken again: it changes after half a period,
      unless it is low and has shut down by then. */
  ghost predicate Steady(c: Config, m: Machine, edges: seq<nat>)
    requires edges != []
  {
    var due := edges[|edges| - 1] + c.half;
    if |m.edges| > |edges| then edges + [due] <= m.edges
    else m.edges == edges && !m.state.Startup? && (if m.state.Idle? then |edges| % 2 == 0 else m.trigger == At(due))
  }

  lemma StepSteady(c: Config, m: Machine, e: Event, edges: seq<nat>)
    requires c.half > 0 && edges != [] && Safe(c, m) && Allowed(m, e) && Steady(c, m, edges)
    requires Wakes(e) ==> !m.state.Idle? && !m.state.Shutdown?
    ensures Steady(c, Step(c, m, e), edges)
  {
  }

  lemma EdgeMade(c: Config, m: Machine, e: Event)
    requires c.half > 0 && Safe(c, m) && Step(c, m, e).edges != m.edges
    ensures Step(c, m, e).edges == m.edges + [m.now] && Steady(c, Step(c, m, e), m.edges + [m.now])
  {
  }

  lemma SteadyComes(c: Config, m: Machine, edges: seq<nat>)
    requires edges != [] && Safe(c, m) && Steady(c, m, edges)
    ensures m.state.Idle? || ComesAt(m, |edges|, edges[|edges| - 1] + c.half)
  {
  }

  /** As long as it is not woken again, the clock changes half a period after an edge, unless it has shut down low. */
  lemma {:induction false} KeepsPeriod(c: Config, events: seq<Event>, k: nat, n: nat)
    requires k < n <= |events| && IsRun(c, events, n) && forall i :: k <= i < n ==> !Rouses(c, events, i)
    requires Reached(c, events, k + 1).edges != Reached(c, events, k).edges
    ensures var edges, w := Reached(c, events, k).edges + [Reached(c, events, k).now], Reached(c, events, n);
      && Reached(c, events, k + 1).edges == edges && Steady(c, w, edges)
      && (w.state.Idle? || ComesAt(w, |edges|, edges[|edges| - 1] + c.half))
    decreases n
  {
    hide Safe, Steady, ComesAt, Step, Allowed;
    var edges := Reached(c, events, k).edges + [Reached(c, events, k).now];
    RunSafe(c, events, n - 1);
    RunSafe(c, events, n);
    if n > k + 1 {
      KeepsPeriod(c, events, k, n - 1);
      assert !Rouses(c, events, n - 1);
      StepSteady(c, Reached(c, events, n - 1), events[n - 1], edges);
    } else {
      EdgeMade(c, Reached(c, events, k), events[k]);
    }
    SteadyComes(c, Reached(c, events, n), edges);
  }

  /** A clock on its way to shutdown, with `edges` behind it, falls if it is high, and then stops. */
  ghost predicate Stopping(c: Config, m: Machine, edges: seq<nat>)
    requires edges != []
  {
    var due := edges[|edges| - 1] + c.half;
    if |edges| % 2 == 0 then
      m.edges == edges && (m.state.Idle? || (m.state.Shutdown? && m.trigger == At(due)))
    else
      || (m.edges == edges && m.state.Shutdown? && m.trigger == At(due))
      || (m.edges == edges + [due] && (m.state.Idle? || (m.state.Shutdown? && m.trigger == At(due + c.half))))
  }

  lemma StepStopping(c: Config, m: Machine, e: Event, edges: seq<nat>)
    requires c.half > 0 && edges != [] && Safe(c, m) && Allowed(m, e) && Stopping(c, m, edges) && !Wakes(e)
    ensures Stopping(c, Step(c, m, e), edges)
  {
  }

  /** Unless it is woken, a clock on its way to shutdown is idle within a period of its last edge, after falling half a
      period behind that edge if it was a rising one; and it makes no other edge. */
  lemma {:induction false} ShutdownCompletes(c: Config, events: seq<Event>, k: nat, n: nat)
    requires k <= n <= |events| && IsRun(c, events, n) && Reached(c, events, k).state.Shutdown?
    requires forall i :: k <= i < n ==> !Wakes(events[i])
    ensures var edges, w := Reached(c, events, k).edges, Reached(c, events, n);
      edges != [] && Stopping(c, w, edges) &&
      var last := edges[|edges| - 1];
      w.now > last + 2 * c.half ==>
        w.state.Idle? && w.edges == if |edges| % 2 == 1 then edges + [last + c.half] else edges
    decreases n
  {
    RunSafe(c, events, n);
    if n > k {
      RunSafe(c, events, n - 1);
      ShutdownCompletes(c, events, k, n - 1);
      StepStopping(c, Reached(c, events, n - 1), events[n - 1], Reached(c, events, k).edges);
    }
  }

  /** The last wakeup that changed the state found the clock still high on its way to shutdown. */
  function CaughtHigh(c: Config, events: seq<Event>, n: nat): bool
    requires n <= |events|
  {
    if n == 0 then false
    else
      var m := Reached(c, events, n - 1);
      if (events[n - 1].Wakeup? || events[n - 1].Start?) && (m.state.Idle? || m.state.Shutdown?)
      then m.state.Shutdown? && m.clock
      else CaughtHigh(c, events, n - 1)
  }

  /** Startup begins with the clock low, as its comment says, unless the wakeup caught a shutdown with the clock
      high. */
  lemma {:induction false} StartupLowIff(c: Config, events: seq<Event>, n: nat)
    requires n <= |events| && IsRun(c, events, n) && Reached(c, events, n).state.Startup?
    ensures Reached(c, events, n).clock <==> CaughtHigh(c, events, n)
    decreases n
  {
    if n > 0 {
      RunSafe(c, events, n - 1);
      if Reached(c, events, n - 1).state.Startup? {
        StartupLowIff(c, events, n - 1);
      }
    }
  }

  /** A run in which clockMethod starts up with the clock high, and so drives it low first. */
  lemma StartupCanBeHigh()
    ensures exists c: Config, events: seq<Event> ::
      IsRun(c, events, |events|) && Reached(c, events, |events|).state.Startup? && Reached(c, events, |events|).clock
  {
    var c := Config(1, 0, 5);
    var events := [Clock, Clock, Activity(true), Wakeup];
    assert Reached(c, events, 1) == Machine(Active, 1, false, 0, At(0), false, 0, []);
    assert Reached(c, events, 2) == Machine(Active, 1, true, 0, At(5), true, 0, [0]);
    assert Reached(c, events, 3) == Machine(Shutdown, 0, true, 0, At(5), false, 0, [0]);
    assert Reached(c, events, 4) == Machine(Startup, 1, true, 0, At(5), false, 0, [0]);
    assert IsRun(c, events, 4);
  }

  lemma {:induction false} RunExtends(c: Config, events: seq<Event>, e: Event, n: nat)
    requires n <= |events|
    ensures Reached(c, events + [e], n) == Reached(c, events, n) && IsRun(c, events + [e], n) == IsRun(c, events, n)
  {
    if n > 0 {
      RunExtends(c, events, e, n - 1);
    }
  }

  /** One more event that is allowed makes a longer run. */
  lemma RunGoesOn(c: Config, events: seq<Event>, e: Event)
    requires IsRun(c, events, |events|) && Allowed(Reached(c, events, |events|), e)
    ensures IsRun(c, events + [e], |events| + 1)
    ensures Reached(c, events + [e], |events| + 1) == Step(c, Reached(c, events, |events|), e)
    ensures Safe(c, Reached(c, events + [e], |events| + 1))
  {
    RunExtends(c, events, e, |events|);
    RunSafe(c, events + [e], |events| + 1);
  }

  class GatedClock {
    const config: Config
    var state: State
    var timer: int
    var clock: bool
    var count: nat
    var trigger: Trigger
    ghost var rising: bool
    var now: nat
    ghost var edges: seq<nat>
    ghost var events: seq<Event>    // so far

    ghost function View(): Machine
      reads this
    {
      Machine(state, timer, clock, count, trigger, rising, now, edges)
    }

    /** The object is where a run has led, and so all that holds of runs holds of it. */
    ghost predicate Valid()
      reads this
    {
      IsRun(config, events, |events|) && View() == Reached(config, events, |events|) && Safe(config, View())
    }

    constructor (config: Config)
      requires config.half > 0
      ensures this.config == config && Valid() && events == [] && View() == Initial(config)
    {
      this.config := config;
      state, timer, clock, count := Startup, config.timeout, false, 0;
      trigger, rising, now, edges, events := At(0), false, 0, [], [];
    }

    /** The history goes on with `e`, which has just led from `before` to here. */
    ghost method Record(e: Event, before: Machine)
      requires IsRun(config, events, |events|) && before == Reached(config, events, |events|)
      requires Allowed(before, e) && View() == Step(config, before, e)
      modifies `events
      ensures Valid() && events == old(events) + [e]
    {
      RunGoesOn(config, events, e);
      events := events + [e];
    }

    method Rouse()
      modifies `state, `trigger, `timer
      ensures View() == Woken(config, old(View()))
    {
      if state != Active && state != Startup {
        state := Startup;
        if trigger == OnWakeup {
          trigger := At(now);
        }
      }
      timer := config.timeout;
    }

    method Wake()
      requires Valid()
      modifies this
      ensures Valid() && events == old(events) + [Wakeup] && View() == Step(config, old(View()), Wakeup)
    {
      Rouse();
      Record(Wakeup, old(View()));
    }

    method TransactionStart()
      requires Valid()
      modifies this
      ensures Valid() && events == old(events) + [Start] && View() == Step(config, old(View()), Start)
    {
      Rouse();
      count := count + 1;
      Record(Start, old(View()));
    }

    method TransactionEnd()
      requires Valid() && count > 0
      modifies this
      ensures Valid() && events == old(events) + [End] && View() == Step(config, old(View()), End)
    {
      count := count - 1;
      Record(End, old(View()));
    }

    method Toggle()
      modifies `clock, `rising, `edges, `trigger
      ensures View() == Toggled(config, old(View()))
    {
      clock := !clock;
      rising := clock;
      edges := edges + [now];
      trigger := At(now + config.half);
    }

    /** The switch of clockMethod. In a run it does not come to the idle case. */
    method Switch()
      modifies `state, `clock, `rising, `edges, `trigger
      ensures View() == Clocked(config, old(View()))
    {
      match state {
        case Startup =>
          state := Active;
          trigger := At(now + config.startPhase);
        case Active =>
          Toggle();
        case Shutdown =>
          if clock {
            Toggle();
          } else {
            state := Idle;
            trigger := OnWakeup;
          }
        case Idle =>
          trigger := OnWakeup;
      }
    }

    method ClockMethod()
      requires Valid() && trigger == At(now)
      modifies this
      ensures Valid() && events == old(events) + [Clock] && View() == Step(config, old(View()), Clock)
      ensures old(state) != Idle
    {
      Switch();
      Record(Clock, old(View()));
    }

    method ActivityTimer(modelIdle: bool)
      requires Valid() && rising
      modifies this
      ensures Valid() && events == old(events) + [Activity(modelIdle)]
      ensures View() == Step(config, old(View()), Activity(modelIdle))
    {
      rising := false;
      if count == 0 {
        if timer != 0 {
          timer := timer - 1;
        }
        if timer == 0 && modelIdle {
          state := Shutdown;
        }
      }
      Record(Activity(modelIdle), old(View()));
    }

    /** The kernel lets time pass, but not past a process that is due. */
    method Elapse(units: nat)
      requires Valid() && Allowed(View(), Pass(units))
      modifies this
      ensures Valid() && events == old(events) + [Pass(units)] && View() == Step(config, old(View()), Pass(units))
    {
      now := now + units;
      Record(Pass(units), old(View()));
    }
  }
}
