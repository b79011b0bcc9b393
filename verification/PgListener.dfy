/**
 One LISTEN connection that survives its backend dying.

 Clients are numbered as they are created.  Methods are the stretches of code between awaits and the
 callbacks of client events and timers.  There is one `start`.
 */
module PgListener {
  import opened Wrappers

  type Client = nat

  datatype Options = Options(baseBackoffMs: nat, maxBackoffMs: nat)

  /**
   `pending`: connects not settled yet.  `wired`: clients whose handlers are attached, which relay
   every notification they see.  `adopted`: clients that were ever adopted.
   */
  datatype State = State(
    listenClient: Option<Client>,
    timerArmed: bool,
    heartbeat: Option<Client>,
    disposed: set<Client>,
    stopping: bool,
    backoff: nat,
    started: bool,
    created: nat,
    pending: set<Client>,
    wired: set<Client>,
    adopted: set<Client>)

  function Initial(o: Options): State {
    State(None, false, None, {}, false, o.baseBackoffMs, false, 0, {}, {}, {})
  }

  function Connecting(s: State): State {
    if s.stopping then s
    else s.(created := s.created + 1, pending := s.pending + {s.created}, wired := s.wired + {s.created})
  }

  function Disposed(s: State, c: Client): State {
    if c in s.disposed then s
    else
      s.(disposed := s.disposed + {c}, wired := s.wired - {c},
         listenClient := if s.listenClient == Some(c) then None else s.listenClient,
         heartbeat := if s.listenClient == Some(c) then None else s.heartbeat)
  }

  function Doubled(backoff: nat, o: Options): nat {
    if backoff * 2 < o.maxBackoffMs then backoff * 2 else o.maxBackoffMs
  }

  function Scheduled(s: State, o: Options): State {
    if s.stopping || s.timerArmed then s
    else s.(timerArmed := true, backoff := Doubled(s.backoff, o))
  }

  datatype Step =
    | Start
    | Stop
    | TimerFires
    | ConnectResolves(c: Client)
    | ConnectRejects(c: Client)
    | ClientErrors(c: Client)
    | ClientEnds(c: Client)
    | HeartbeatFails(c: Client)

  predicate Enabled(s: State, step: Step) {
    match step
    case Start => !s.started
    case Stop => s.started
    case TimerFires => s.timerArmed
    case ConnectResolves(c) => c in s.pending
    case ConnectRejects(c) => c in s.pending
    case ClientErrors(c) => c in s.wired
    case ClientEnds(c) => c in s.wired
    case HeartbeatFails(c) => c in s.adopted
  }

  function Apply(o: Options, s: State, step: Step): State
    requires Enabled(s, step)
  {
    match step
    case Start => Connecting(s.(started := true, stopping := false))
    case Stop =>
      s.(stopping := true, timerArmed := false, heartbeat := None, listenClient := None,
         wired := if s.listenClient.Some? then s.wired - {s.listenClient.value} else s.wired)
    case TimerFires => Connecting(s.(timerArmed := false))
    case ConnectResolves(c) =>
      var settled := s.(pending := s.pending - {c});
      if c in s.disposed || s.stopping then Disposed(settled, c)
      else settled.(listenClient := Some(c), backoff := o.baseBackoffMs, heartbeat := Some(c), adopted := s.adopted + {c})
    case ConnectRejects(c) => Scheduled(Disposed(s.(pending := s.pending - {c}), c), o)
    case ClientErrors(c) => Scheduled(Disposed(s, c), o)
    case ClientEnds(c) => if s.stopping then s else Scheduled(Disposed(s, c), o)
    case HeartbeatFails(c) => if c in s.disposed then s else Scheduled(Disposed(s, c), o)
  }

  class PgListener {
    const options: Options
    var listenClient: Option<Client>
    var timerArmed: bool
    var heartbeat: Option<Client>
    var disposed: set<Client>
    var stopping: bool
    var backoff: nat
    ghost var started: bool
    var created: nat
    ghost var pending: set<Client>
    ghost var wired: set<Client>
    ghost var adopted: set<Client>

    ghost function View(): State
      reads this
    {
      State(listenClient, timerArmed, heartbeat, disposed, stopping, backoff, started, created, pending, wired, adopted)
    }

    constructor (options: Options)
      ensures this.options == options && View() == Initial(options)
    {
      this.options := options;
      listenClient, timerArmed, heartbeat, disposed := None, false, None, {};
      stopping, backoff, started, created := false, options.baseBackoffMs, false, 0;
      pending, wired, adopted := {}, {}, {};
    }

    method DoStart()
      requires Enabled(View(), Start)
      modifies this
      ensures View() == Apply(options, old(View()), Start)
      ensures !stopping && created == old(created) + 1 && old(created) in pending && old(created) in wired
    {
      started, stopping := true, false;
      Connect();
    }

    /** `connect` up to its first await. */
    method Connect()
      modifies this`created, this`pending, this`wired
      ensures View() == Connecting(old(View()))
    {
      if stopping { return; }
      pending, wired := pending + {created}, wired + {created};
      created := created + 1;
    }

    /** `connect` after the LISTEN query came back. */
    method Connected(c: Client)
      requires Enabled(View(), ConnectResolves(c))
      modifies this
      ensures View() == Apply(options, old(View()), ConnectResolves(c))
      ensures c !in pending
      ensures c !in old(disposed) && !old(stopping) ==>
                listenClient == Some(c) && heartbeat == Some(c) && backoff == options.baseBackoffMs && c in adopted
      ensures c in old(disposed) || old(stopping) ==>
                c in disposed && adopted == old(adopted) && backoff == old(backoff) && timerArmed == old(timerArmed)
    {
      pending := pending - {c};
      if c in disposed || stopping {
        Dispose(c);
        return;
      }
      listenClient := Some(c);
      backoff := options.baseBackoffMs;
      heartbeat := Some(c);
      adopted := adopted + {c};
    }

    /** `connect` after either await threw. */
    method ConnectFailed(c: Client)
      requires Enabled(View(), ConnectRejects(c))
      modifies this
      ensures View() == Apply(options, old(View()), ConnectRejects(c))
      ensures c !in pending && c in disposed && (!stopping ==> timerArmed)
    {
      pending := pending - {c};
      Dispose(c);
      ScheduleReconnect();
    }

    method OnError(c: Client)
      requires Enabled(View(), ClientErrors(c))
      modifies this
      ensures View() == Apply(options, old(View()), ClientErrors(c))
      ensures c in disposed && (!stopping ==> timerArmed)
    {
      Dispose(c);
      ScheduleReconnect();
    }

    method OnEnd(c: Client)
      requires Enabled(View(), ClientEnds(c))
      modifies this
      ensures View() == Apply(options, old(View()), ClientEnds(c))
      ensures if old(stopping) then View() == old(View()) else c in disposed && timerArmed
    {
      if stopping { return; }
      Dispose(c);
      ScheduleReconnect();
    }

    method OnHeartbeatFailed(c: Client)
      requires Enabled(View(), HeartbeatFails(c))
      modifies this
      ensures View() == Apply(options, old(View()), HeartbeatFails(c))
      ensures c in disposed && (c !in old(disposed) && !stopping ==> timerArmed)
    {
      if c in disposed { return; }
      Dispose(c);
      ScheduleReconnect();
    }

    method OnReconnectTimer()
      requires Enabled(View(), TimerFires)
      modifies this
      ensures View() == Apply(options, old(View()), TimerFires)
      ensures !timerArmed && (!stopping ==> created == old(created) + 1 && old(created) in pending && old(created) in wired)
    {
      timerArmed := false;
      Connect();
    }

    /** Unwires a dying client exactly once. */
    method Dispose(c: Client)
      modifies this`disposed, this`wired, this`listenClient, this`heartbeat
      ensures View() == Disposed(old(View()), c)
      ensures c in disposed && (c !in old(disposed) ==> c !in wired && listenClient != Some(c))
    {
      if c in disposed { return; }
      disposed, wired := disposed + {c}, wired - {c};
      if listenClient == Some(c) {
        listenClient, heartbeat := None, None;
      }
    }

    method ScheduleReconnect()
      modifies this`timerArmed, this`backoff
      ensures View() == Scheduled(old(View()), options)
      ensures !stopping ==> timerArmed
      ensures if stopping || old(timerArmed) then backoff == old(backoff)
              else backoff <= options.maxBackoffMs && (backoff == 2 * old(backoff) || backoff == options.maxBackoffMs < 2 * old(backoff))
    {
      if stopping || timerArmed { return; }
      backoff := Doubled(backoff, options);
      timerArmed := true;
    }

    method DoStop()
      requires Enabled(View(), Stop)
      modifies this
      ensures View() == Apply(options, old(View()), Stop)
      ensures stopping && !timerArmed && listenClient.None? && heartbeat.None? && created == old(created)
      ensures old(listenClient).Some? ==> old(listenClient).value !in wired
    {
      stopping, timerArmed, heartbeat := true, false, None;
      if listenClient.Some? { wired := wired - {listenClient.value}; }
      listenClient := None;
    }
  }

  // ---------- one connection, exactly ----------

  /** What stands for the connection: a client still connecting, the adopted client, or the armed timer. */
  function Dialling(s: State): set<Client> { s.pending - s.disposed }

  function Standing(s: State): nat {
    |Dialling(s)| + (if s.listenClient.Some? then 1 else 0) + (if s.timerArmed then 1 else 0)
  }

  function Current(s: State): set<Client> {
    Dialling(s) + (if s.listenClient.Some? then {s.listenClient.value} else {})
  }

  /** Bookkeeping that holds whatever the clients do. */
  predicate Tidy(o: Options, s: State) {
    && (forall c <- s.pending :: c < s.created) && (forall c <- s.disposed :: c < s.created)
    && (forall c <- s.wired :: c < s.created) && (forall c <- s.adopted :: c < s.created)
    && s.pending !! s.adopted
    && (s.listenClient.Some? ==> s.listenClient.value in s.adopted && s.listenClient.value !in s.disposed)
    && s.wired !! s.disposed
    && o.baseBackoffMs <= s.backoff <= o.maxBackoffMs
    && (!s.started ==> s == Initial(o))
    && (s.stopping ==> !s.timerArmed && s.listenClient.None? && s.heartbeat.None?)
  }

  /** While it runs, exactly one thing stands for the connection, and only that client relays. */
  predicate Unique(s: State) {
    s.started && !s.stopping ==>
      && Standing(s) == 1
      && s.wired == Current(s)
      && s.adopted - s.disposed <= Current(s)
      && s.heartbeat == s.listenClient
  }

  /** A client that already failed rejects its connect after the timer it armed has fired. */
  predicate LateRejection(s: State, step: Step) {
    step.ConnectRejects? && step.c in s.disposed && !s.timerArmed && !s.stopping
  }

  lemma StepTidy(o: Options, s: State, step: Step)
    requires o.baseBackoffMs <= o.maxBackoffMs && Tidy(o, s) && Enabled(s, step)
    ensures Tidy(o, Apply(o, s, step))
  {
  }

  lemma OneElement(a: set<Client>, c: Client)
    requires c in a && |a| == 1
    ensures a == {c}
  {
    assert |a - {c}| == 0;
    assert a == {c} + (a - {c});
  }

  predicate Running(s: State) { s.started && !s.stopping }

  /** What stands is either the timer alone or one client alone. */
  lemma OneStands(s: State)
    requires Running(s) && Unique(s)
    ensures s.timerArmed ==> Dialling(s) == {} && s.listenClient.None?
    ensures forall c :: c in Current(s) ==> !s.timerArmed && Current(s) == {c} && Dialling(s) <= {c}
  {
    forall c | c in Current(s)
      ensures !s.timerArmed && Current(s) == {c} && Dialling(s) <= {c}
    {
      if c in Dialling(s) { OneElement(Dialling(s), c); }
    }
  }

  /** Losing the current client arms the timer in its place. */
  lemma Replaced(o: Options, s: State, pending: set<Client>, c: Client)
    requires Tidy(o, s) && Running(s) && Unique(s) && c in Current(s)
    requires pending == s.pending || pending == s.pending - {c}
    ensures Unique(Scheduled(Disposed(s.(pending := pending), c), o))
  {
    OneStands(s);
    var t := Scheduled(Disposed(s.(pending := pending), c), o);
    assert Dialling(t) == {};
  }

  lemma RejectionUnique(o: Options, s: State, c: Client)
    requires Tidy(o, s) && Running(s) && Unique(s) && c in s.pending
    ensures Unique(Apply(o, s, ConnectRejects(c))) <==> !LateRejection(s, ConnectRejects(c))
  {
    if c in s.disposed {
      assert Dialling(Apply(o, s, ConnectRejects(c))) == Dialling(s);
    } else {
      Replaced(o, s, s.pending - {c}, c);
    }
  }

  lemma TimerUnique(o: Options, s: State)
    requires Tidy(o, s) && Running(s) && Unique(s) && s.timerArmed
    ensures Unique(Apply(o, s, TimerFires))
  {
    OneStands(s);
    assert Dialling(Apply(o, s, TimerFires)) == {s.created};
  }

  lemma AdoptionUnique(o: Options, s: State, c: Client)
    requires Tidy(o, s) && Running(s) && Unique(s) && c in s.pending
    ensures Unique(Apply(o, s, ConnectResolves(c)))
  {
    OneStands(s);
    var t := Apply(o, s, ConnectResolves(c));
    if c in s.disposed {
      assert Dialling(t) == Dialling(s);
    } else {
      assert c in Current(s);
      assert Dialling(t) == {};
    }
  }

  /** The client a step takes the connection from: the current one, or one whose connect just failed. */
  predicate Loses(s: State, step: Step, c: Client) {
    match step
    case ClientErrors(d) => c == d && c in Current(s)
    case ClientEnds(d) => c == d && c in Current(s)
    case HeartbeatFails(d) => c == d && c in Current(s)
    case ConnectRejects(d) => c == d && c !in s.disposed
    case _ => false
  }

  lemma LostClient(o: Options, s: State, step: Step, c: Client)
    requires Tidy(o, s) && Running(s) && Unique(s) && Enabled(s, step) && Loses(s, step, c)
    ensures var t := Apply(o, s, step);
      && Running(t) && c in t.disposed && t.wired == {} && t.listenClient.None? && t.heartbeat.None?
      && t.timerArmed && t.created == s.created
  {
    OneStands(s);
    assert c in Current(s);
    assert s.wired == {c};
  }

  /**
   A step keeps the connection unique exactly when it is not a late rejection, and when it loses the client
   that stood, that client is torn down and the timer stands in its place.
   */
  lemma StepUnique(o: Options, s: State, step: Step)
    requires Tidy(o, s) && Unique(s) && Enabled(s, step)
    ensures Unique(Apply(o, s, step)) <==> !LateRejection(s, step)
    ensures var t := Apply(o, s, step);
            forall c :: Running(s) && Loses(s, step, c) ==> c in t.disposed && t.wired == {} && t.listenClient.None? && t.timerArmed
  {
    forall c | Running(s) && Loses(s, step, c)
      ensures var t := Apply(o, s, step); c in t.disposed && t.wired == {} && t.listenClient.None? && t.timerArmed
    {
      LostClient(o, s, step, c);
    }
    if Running(s) {
      match step
      case ConnectRejects(c) => RejectionUnique(o, s, c);
      case ConnectResolves(c) => AdoptionUnique(o, s, c);
      case TimerFires => TimerUnique(o, s);
      case ClientErrors(c) => Replaced(o, s, s.pending, c);
      case ClientEnds(c) => Replaced(o, s, s.pending, c);
      case HeartbeatFails(c) => if c !in s.disposed { Replaced(o, s, s.pending, c); }
      case Stop =>
      case Start =>
    } else if step.Start? {
      assert Dialling(Apply(o, s, step)) == {s.created};
    }
  }

  /** A client no step has seen. */
  predicate Unseen(s: State, c: Client) {
    c !in s.pending && c !in s.wired && c !in s.disposed && c !in s.adopted
  }

  /** In any tidy running state the timer starts a client never seen before. */
  lemma TimerStartsUnseen(o: Options, s: State)
    requires Tidy(o, s) && Running(s) && s.timerArmed
    ensures var t := Apply(o, s, TimerFires);
      Unseen(s, s.created) && t.created == s.created + 1 && !t.timerArmed
      && t.pending == s.pending + {s.created} && t.wired == s.wired + {s.created}
  {
  }

  /**
   A lost connection is replaced: its client is torn down and unwired, nothing is listened on, the timer is
   armed, and when it fires a client never seen before connects with its handlers attached.
   */
  lemma LostConnectionIsReplaced(o: Options, s: State, step: Step, c: Client)
    requires Tidy(o, s) && Running(s) && Unique(s) && Enabled(s, step) && Loses(s, step, c)
    ensures var t := Apply(o, s, step);
      && Running(t) && c in t.disposed && t.wired == {} && t.listenClient.None? && t.heartbeat.None?
      && t.timerArmed && t.created == s.created
      && var u := Apply(o, t, TimerFires);
         Unseen(t, s.created) && s.created in u.pending && u.wired == {s.created} && !u.timerArmed
  {
    LostClient(o, s, step, c);
    StepTidy(o, s, step);
    TimerStartsUnseen(o, Apply(o, s, step));
  }

  /** A connect that comes back is adopted exactly when its client was not torn down meanwhile and no stop came. */
  lemma AdoptedExactly(o: Options, s: State, c: Client)
    requires Tidy(o, s) && c in s.pending
    ensures var t := Apply(o, s, ConnectResolves(c));
      && (c in t.adopted <==> c !in s.disposed && !s.stopping)
      && (t.listenClient == Some(c) <==> c in t.adopted)
      && (c in t.adopted ==> t.heartbeat == Some(c) && t.backoff == o.baseBackoffMs && t.wired == s.wired)
      && (c !in t.adopted ==> c in t.disposed && c !in t.wired && t.listenClient == s.listenClient && !(t.timerArmed && !s.timerArmed))
  {
  }

  ghost predicate ValidRun(o: Options, s: State, steps: seq<Step>)
    decreases |steps|
  {
    steps == [] || (Enabled(s, steps[0]) && ValidRun(o, Apply(o, s, steps[0]), steps[1..]))
  }

  ghost function Run(o: Options, s: State, steps: seq<Step>): State
    requires ValidRun(o, s, steps)
    decreases |steps|
  {
    if steps == [] then s else Run(o, Apply(o, s, steps[0]), steps[1..])
  }

  /** No client settles a failed connect only after its replacement was started. */
  ghost predicate NoLateRejection(o: Options, s: State, steps: seq<Step>)
    requires ValidRun(o, s, steps)
    decreases |steps|
  {
    steps == [] || (!LateRejection(s, steps[0]) && NoLateRejection(o, Apply(o, s, steps[0]), steps[1..]))
  }

  lemma {:induction false} RunUnique(o: Options, s: State, steps: seq<Step>)
    requires o.baseBackoffMs <= o.maxBackoffMs && Tidy(o, s) && Unique(s)
    requires ValidRun(o, s, steps) && NoLateRejection(o, s, steps)
    ensures Tidy(o, Run(o, s, steps)) && Unique(Run(o, s, steps))
    decreases |steps|
  {
    if steps != [] {
      StepTidy(o, s, steps[0]);
      StepUnique(o, s, steps[0]);
      RunUnique(o, Apply(o, s, steps[0]), steps[1..]);
    }
  }

  /** Over every run without a late rejection: one connection, one relaying client, backoff in bounds. */
  lemma OneConnection(o: Options, steps: seq<Step>)
    requires o.baseBackoffMs <= o.maxBackoffMs
    requires ValidRun(o, Initial(o), steps) && NoLateRejection(o, Initial(o), steps)
    ensures var s := Run(o, Initial(o), steps);
      && (s.started && !s.stopping ==> Standing(s) == 1 && |s.wired| <= 1)
      && (s.listenClient.Some? ==> s.listenClient.value !in s.disposed)
      && o.baseBackoffMs <= s.backoff <= o.maxBackoffMs
  {
    RunUnique(o, Initial(o), steps);
    var s := Run(o, Initial(o), steps);
    if s.started && !s.stopping {
      assert |Current(s)| <= |Dialling(s)| + (if s.listenClient.Some? then 1 else 0);
    }
  }

  function LateRun(): seq<Step> {
    [Start, ClientErrors(0), TimerFires, ConnectResolves(1), ConnectRejects(0), TimerFires, ConnectResolves(2)]
  }

  /** One late rejection is enough to leave two adopted clients relaying every notification. */
  lemma LateRejectionLeavesTwoClients(o: Options)
    ensures ValidRun(o, Initial(o), LateRun())
    ensures var s := Run(o, Initial(o), LateRun());
            s.wired == {1, 2} && s.adopted == {1, 2} && s.disposed == {0} && s.listenClient == Some(2)
  {
    var run := LateRun();
    var s1 := Apply(o, Initial(o), run[0]);
    var s2 := Apply(o, s1, run[1]);
    var s3 := Apply(o, s2, run[2]);
    var s4 := Apply(o, s3, run[3]);
    var s5 := Apply(o, s4, run[4]);
    var s6 := Apply(o, s5, run[5]);
    var s7 := Apply(o, s6, run[6]);
    Unroll(o, s6, [run[6]], s7, []);
    Unroll(o, s5, run[5..], s6, [run[6]]);
    Unroll(o, s4, run[4..], s5, run[5..]);
    Unroll(o, s3, run[3..], s4, run[4..]);
    Unroll(o, s2, run[2..], s3, run[3..]);
    Unroll(o, s1, run[1..], s2, run[2..]);
    Unroll(o, Initial(o), run, s1, run[1..]);
  }

  lemma Unroll(o: Options, s: State, steps: seq<Step>, t: State, rest: seq<Step>)
    requires steps != [] && Enabled(s, steps[0]) && Apply(o, s, steps[0]) == t && rest == steps[1..] && ValidRun(o, t, rest)
    ensures ValidRun(o, s, steps) && Run(o, s, steps) == Run(o, t, rest)
  {
  }

  /** After a stop nothing connects again: no client is created, adopted or scheduled. */
  lemma {:induction false} StopIsFinal(o: Options, s: State, steps: seq<Step>)
    requires o.baseBackoffMs <= o.maxBackoffMs && Tidy(o, s) && s.started && s.stopping && ValidRun(o, s, steps)
    ensures var t := Run(o, s, steps);
      && t.stopping && t.created == s.created && t.adopted == s.adopted
      && !t.timerArmed && t.listenClient.None? && t.heartbeat.None?
      && (s.wired <= s.pending - s.disposed ==> t.wired <= t.pending - t.disposed)
    decreases |steps|
  {
    if steps != [] {
      StepTidy(o, s, steps[0]);
      StopIsFinal(o, Apply(o, s, steps[0]), steps[1..]);
    }
  }

  // ---------- clients and backoff ----------

  /** A disposed client stays disposed, is never adopted and relays nothing, over every run. */
  lemma {:induction false} DisposedForGood(o: Options, s: State, steps: seq<Step>, c: Client)
    requires o.baseBackoffMs <= o.maxBackoffMs && Tidy(o, s) && ValidRun(o, s, steps) && c in s.disposed
    ensures var t := Run(o, s, steps);
      && c in t.disposed && c !in t.wired && t.listenClient != Some(c)
      && (c !in s.adopted ==> c !in t.adopted)
    decreases |steps|
  {
    if steps != [] {
      StepTidy(o, s, steps[0]);
      DisposedForGood(o, Apply(o, s, steps[0]), steps[1..], c);
    }
  }

  function PowerOfTwo(n: nat): nat {
    if n == 0 then 1 else 2 * PowerOfTwo(n - 1)
  }

  function AtMost(n: nat, limit: nat): nat {
    if n < limit then n else limit
  }

  /** The steps of a run that arm the reconnect timer. */
  ghost function Reconnects(o: Options, s: State, steps: seq<Step>): nat
    requires ValidRun(o, s, steps)
    decreases |steps|
  {
    if steps == [] then 0
    else
      var t := Apply(o, s, steps[0]);
      (if t.timerArmed && !s.timerArmed then 1 else 0) + Reconnects(o, t, steps[1..])
  }

  lemma {:induction false} AdoptedForGood(o: Options, s: State, steps: seq<Step>)
    requires ValidRun(o, s, steps)
    ensures s.adopted <= Run(o, s, steps).adopted
    decreases |steps|
  {
    if steps != [] { AdoptedForGood(o, Apply(o, s, steps[0]), steps[1..]); }
  }

  lemma DoubledPower(backoff: nat, o: Options, power: nat)
    requires backoff <= o.maxBackoffMs && power >= 1
    ensures AtMost(Doubled(backoff, o) * power, o.maxBackoffMs) == AtMost(backoff * (2 * power), o.maxBackoffMs)
  {
    assert backoff * (2 * power) == (backoff * 2) * power;
    if Doubled(backoff, o) == o.maxBackoffMs {
      assert o.maxBackoffMs * power >= o.maxBackoffMs;
      assert (backoff * 2 - o.maxBackoffMs) * power >= 0;
    }
  }

  lemma {:induction false} PowerIsPositive(n: nat)
    ensures PowerOfTwo(n) >= 1
  {
    if n > 0 { PowerIsPositive(n - 1); }
  }

  /** A step that adopts nobody doubles the backoff exactly if it arms the timer. */
  lemma StepBackoff(o: Options, s: State, step: Step)
    requires Tidy(o, s) && Enabled(s, step) && Apply(o, s, step).adopted <= s.adopted
    ensures var t := Apply(o, s, step); t.backoff == if t.timerArmed && !s.timerArmed then Doubled(s.backoff, o) else s.backoff
  {
  }

  /** Over a run without an adoption the backoff doubles with every reconnect, up to the maximum. */
  lemma {:induction false} BackoffDoubles(o: Options, s: State, steps: seq<Step>)
    requires o.baseBackoffMs <= o.maxBackoffMs && Tidy(o, s) && ValidRun(o, s, steps)
    requires Run(o, s, steps).adopted == s.adopted
    ensures Run(o, s, steps).backoff == AtMost(s.backoff * PowerOfTwo(Reconnects(o, s, steps)), o.maxBackoffMs)
    decreases |steps|
  {
    if steps != [] {
      var t := Apply(o, s, steps[0]);
      StepTidy(o, s, steps[0]);
      AdoptedForGood(o, t, steps[1..]);
      assert s.adopted <= t.adopted;
      StepBackoff(o, s, steps[0]);
      BackoffDoubles(o, t, steps[1..]);
      PowerIsPositive(Reconnects(o, t, steps[1..]));
      DoubledPower(s.backoff, o, PowerOfTwo(Reconnects(o, t, steps[1..])));
    }
  }

  /** So since the last adoption it is the base, doubled with every reconnect. */
  lemma BackoffSinceAdoption(o: Options, s: State, adoption: Step, after: seq<Step>)
    requires o.baseBackoffMs <= o.maxBackoffMs && Tidy(o, s)
    requires Enabled(s, adoption) && Apply(o, s, adoption).adopted != s.adopted
    requires ValidRun(o, Apply(o, s, adoption), after)
    requires Run(o, Apply(o, s, adoption), after).adopted == Apply(o, s, adoption).adopted
    ensures var t := Apply(o, s, adoption);
            Run(o, t, after).backoff == AtMost(o.baseBackoffMs * PowerOfTwo(Reconnects(o, t, after)), o.maxBackoffMs)
  {
    StepTidy(o, s, adoption);
    BackoffDoubles(o, Apply(o, s, adoption), after);
  }
}
