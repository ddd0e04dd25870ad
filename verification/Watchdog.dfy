/** The states of the server, the countdowns that watch the link, and the loop that drives both. */
module Watchdog {
  import opened Memory

  const PING_TICKS: Word := 5
  const MAX_MISSED_PINGS: Word := 5
  const RETRIES: nat := 5

  datatype ServerState =
    | Starting | OpeningRemote | OpeningClient | Connecting | WaitForConnect | Connected | ConnectionLost
    | ConnectFailed | Disconnecting | WaitForDisconnect | Disconnected | Stopping | ClosingClient
    | ClosingRemote | Stopped

  /** The state, the ticks to the next ping, the ticks left for its answer, and the pings missed. */
  datatype Watch = Watch(state: ServerState, sendTicks: Word, timeoutTicks: Word, missed: Word)
  {
    predicate NeverBothArmed() {
      && (sendTicks == 0 || timeoutTicks == 0)
      && sendTicks <= PING_TICKS && timeoutTicks <= PING_TICKS
    }
  }

  /** The packets on the control connection that matter here. */
  datatype Control = Hello | Goodbye | Pong | Other

  function SendPing(w: Watch): Watch {
    w.(timeoutTicks := PING_TICKS, sendTicks := 0)
  }

  /** What a packet on the control connection does. */
  function React(w: Watch, c: Control): Watch {
    match c
    case Hello => SendPing(w.(state := Connected))
    case Goodbye => w.(state := Disconnected)
    case Pong => w.(missed := 0)
    case Other => w
  }

  /** Any packet shows that the peer is alive, whatever it does besides. */
  function Hear(w: Watch, c: Control): Watch {
    React(w.(sendTicks := PING_TICKS, timeoutTicks := 0), c)
  }

  /** The ping sent last has not been answered in time. */
  predicate Lapses(w: Watch) {
    w.state == Connected && w.timeoutTicks == 1
  }

  function CountTimeout(w: Watch): Watch {
    if w.timeoutTicks == 1 then
      var missed := (w.missed + 1) % 0x1_0000;
      w.(timeoutTicks := 0, missed := missed,
         state := if missed > MAX_MISSED_PINGS then ConnectionLost else w.state)
    else if w.timeoutTicks > 1 then w.(timeoutTicks := w.timeoutTicks - 1)
    else w
  }

  function CountSend(w: Watch): Watch {
    if w.sendTicks == 1 then SendPing(w)
    else if w.sendTicks > 1 then w.(sendTicks := w.sendTicks - 1)
    else w
  }

  /** One tick of the timer. */
  function Tick(w: Watch): Watch {
    match w.state
    case WaitForConnect => w.(state := ConnectFailed)
    case Connected => CountSend(CountTimeout(w))
    case Disconnecting => w.(state := Disconnected)
    case _ => w
  }

  /** What may happen while the server waits; a quit request and a break signal end the session. */
  datatype Event = Quit | Timer | Heard(control: Control)

  /** The server with its retries left, and a tally of the pings that lapsed since the last PONG, of those
      when the link was last declared lost, and of the visits to CONNECT_FAILED. */
  datatype Machine = Machine(watch: Watch, retries: nat, lapsed: nat, lapsedWhenLost: nat, failures: nat)

  function Observe(m: Machine, e: Event): Machine {
    match e
    case Quit => m.(watch := m.watch.(state := Disconnected))
    case Heard(c) => m.(watch := Hear(m.watch, c), lapsed := if c.Pong? then 0 else m.lapsed)
    case Timer =>
      var lapsed := if Lapses(m.watch) then m.lapsed + 1 else m.lapsed;
      var w := Tick(m.watch);
      m.(watch := w, lapsed := lapsed,
         lapsedWhenLost := if w.state == ConnectionLost && m.watch.state != ConnectionLost then lapsed
                           else m.lapsedWhenLost)
  }

  function ObserveAll(m: Machine, events: seq<Event>): Machine
    decreases |events|
  {
    if events == [] then m else ObserveAll(Observe(m, events[0]), events[1..])
  }

  /** What the surroundings contribute to one turn of the run loop: whether the operation it tries succeeds,
      and what happens if it waits. */
  datatype Input = Input(ok: bool, events: seq<Event>)

  function GoTo(m: Machine, state: ServerState): Machine {
    m.(watch := m.watch.(state := state))
  }

  /** One turn of the loop in APB_Run. */
  function Turn(m: Machine, i: Input): Machine {
    match m.watch.state
    case Starting => GoTo(m.(retries := RETRIES), OpeningRemote)
    case OpeningRemote => GoTo(m, if i.ok then OpeningClient else Stopping)
    case OpeningClient => GoTo(m, if i.ok then Connecting else Stopping)
    case Connecting => if i.ok then ObserveAll(GoTo(m, WaitForConnect), i.events) else GoTo(m, Stopping)
    case WaitForConnect => ObserveAll(m, i.events)
    case ConnectFailed =>
      var retries: nat := if m.retries == 0 then 0xFFFF else m.retries - 1;
      GoTo(m.(retries := retries, failures := m.failures + 1), if retries == 0 then Stopping else Connecting)
    case Connected => ObserveAll(m, i.events)
    case ConnectionLost => GoTo(m, Connecting)
    case Disconnecting => if i.ok then ObserveAll(m, i.events) else GoTo(m, Stopping)
    case WaitForDisconnect => m
    case Disconnected => GoTo(m, Stopping)
    case Stopping => GoTo(m, ClosingClient)
    case ClosingClient => GoTo(m, ClosingRemote)
    case ClosingRemote => GoTo(m, Stopped)
    case Stopped => m
  }

  /** The turns of a run; the loop ends when the server has stopped, and a stopped server stays so. */
  function Run(m: Machine, inputs: seq<Input>): Machine
    decreases |inputs|
  {
    if inputs == [] then m else Run(Turn(m, inputs[0]), inputs[1..])
  }

  /** The server as APB_SrvInitServer leaves it. */
  const CREATED := Machine(Watch(Starting, MAX_MISSED_PINGS, 0, 0), 0, 0, 0, 0)

  /** After the last visit to CONNECT_FAILED the server only shuts down. */
  predicate Ending(s: ServerState) {
    s == Stopping || s == ClosingClient || s == ClosingRemote || s == Stopped
  }

  /** What every run keeps. */
  predicate Sound(m: Machine) {
    && m.watch.NeverBothArmed() && m.watch.missed <= m.lapsed
    && (m.watch.state == ConnectionLost ==> m.lapsedWhenLost > MAX_MISSED_PINGS)
    && (m.watch.state == Starting ==> m.failures == 0)
    && (m.watch.state != Starting ==>
          m.retries + m.failures == RETRIES && (m.retries == 0 ==> Ending(m.watch.state)))
  }

  lemma ObserveKeepsSound(m: Machine, e: Event)
    requires Sound(m) && m.watch.state != Starting && !Ending(m.watch.state)
    ensures Sound(Observe(m, e)) && Observe(m, e).watch.state != Starting && !Ending(Observe(m, e).watch.state)
  {
  }

  lemma {:induction false} ObserveAllKeepsSound(m: Machine, events: seq<Event>)
    requires Sound(m) && m.watch.state != Starting && !Ending(m.watch.state)
    ensures Sound(ObserveAll(m, events))
    decreases |events|
  {
    hide Sound, Observe;
    if events != [] {
      ObserveKeepsSound(m, events[0]);
      ObserveAllKeepsSound(Observe(m, events[0]), events[1..]);
    }
  }

  lemma TurnKeepsSound(m: Machine, i: Input)
    requires Sound(m)
    ensures Sound(Turn(m, i))
  {
    match m.watch.state
    case Connecting =>
      ObserveAllKeepsSound(GoTo(m, WaitForConnect), i.events);
      hide ObserveAll;
    case Connected =>
      ObserveAllKeepsSound(m, i.events);
      hide ObserveAll;
    case WaitForConnect =>
      ObserveAllKeepsSound(m, i.events);
      hide ObserveAll;
    case Disconnecting =>
      ObserveAllKeepsSound(m, i.events);
      hide ObserveAll;
    case _ =>
  }

  /** Over every run of the server: the two countdowns are never both armed, the link is declared lost only
      after at least six pings lapsed with no PONG between, and CONNECT_FAILED is visited at most five times. */
  lemma {:induction false} RunIsSound(m: Machine, inputs: seq<Input>)
    requires Sound(m)
    ensures Sound(Run(m, inputs)) && Run(m, inputs).failures <= RETRIES
    decreases |inputs|
  {
    if inputs != [] {
      TurnKeepsSound(m, inputs[0]);
      RunIsSound(Turn(m, inputs[0]), inputs[1..]);
    }
  }

  lemma CreatedRunIsSound(inputs: seq<Input>)
    ensures var m := Run(CREATED, inputs);
            && m.failures <= 5 && (m.watch.sendTicks == 0 || m.watch.timeoutTicks == 0)
            && (m.watch.state == ConnectionLost ==> m.lapsedWhenLost >= 6)
  {
    RunIsSound(CREATED, inputs);
    hide Run;
  }

  lemma {:induction false} StoppedStays(m: Machine, inputs: seq<Input>)
    requires m.watch.state == Stopped
    ensures Run(m, inputs) == m
    decreases |inputs|
  {
    if inputs != [] {
      StoppedStays(m, inputs[1..]);
    }
  }

  /** The loop of APB_Run, for as long as its surroundings last: it goes on until the server has stopped. */
  method RunServer(start: Machine, inputs: seq<Input>) returns (m: Machine, turns: nat)
    requires start == CREATED
    ensures m == Run(start, inputs) && m.failures <= RETRIES
    ensures turns <= |inputs| && (turns < |inputs| ==> m.watch.state == Stopped)
    ensures m.watch.sendTicks == 0 || m.watch.timeoutTicks == 0
    ensures Undisturbed(inputs) ==>
              (m.watch.state in {Stopping, ClosingClient, ClosingRemote, Stopped} <==> m.failures == 5)
    ensures Unanswered(inputs) ==> (m.watch.state == Stopped <==> |inputs| >= 16)
  {
    m, turns := start, 0;
    RunIsSound(start, inputs);
    if Undisturbed(inputs) {
      GivesUp(inputs);
    }
    if Unanswered(inputs) {
      NeverAnswered(inputs);
    }
    assert inputs[0..] == inputs;
    while turns < |inputs| && m.watch.state != Stopped
      invariant turns <= |inputs| && Run(m, inputs[turns..]) == Run(start, inputs)
      decreases |inputs| - turns
    {
      assert inputs[turns..][1..] == inputs[turns + 1..];
      m := Turn(m, inputs[turns]);
      turns := turns + 1;
    }
    if turns < |inputs| {
      StoppedStays(m, inputs[turns..]);
    }
  }

  /** The timer ticks `n` times and nothing is heard. */
  function Silence(w: Watch, n: nat): Watch
    decreases n
  {
    if n == 0 then w else Silence(Tick(w), n - 1)
  }

  /** The ticks until a ping lapses if nothing is heard, or 0 when no countdown is armed. */
  function Remaining(w: Watch): nat {
    if w.timeoutTicks > 0 then w.timeoutTicks
    else if w.sendTicks > 0 then w.sendTicks + PING_TICKS
    else 0
  }

  /** A silent link is found lost exactly when five pings had been missed before and a countdown was armed,
      and then by the time that countdown ends. Otherwise it is never found. */
  lemma {:induction false} SilentLink(w: Watch, n: nat)
    requires w.state == Connected && w.NeverBothArmed()
    ensures Silence(w, n).state == ConnectionLost <==>
            MAX_MISSED_PINGS <= w.missed < 0xFFFF && 0 < Remaining(w) <= n
    decreases n
  {
    if n > 0 {
      var next := Tick(w);
      if next.state == Connected {
        SilentLink(next, n - 1);
      } else {
        StaysLost(next, n - 1);
      }
    }
  }

  lemma RunFirst(m: Machine, i: Input, inputs: seq<Input>)
    ensures Run(m, [i] + inputs) == Run(Turn(m, i), inputs)
  {
    assert ([i] + inputs)[1..] == inputs;
  }

  /** A run in which a silent link is never found: a new server opens its ports, sends INIT and gets a HELLO.
      If the peer falls silent then, no number of ticks finds it lost. */
  lemma SilentFromTheStart() returns (inputs: seq<Input>)
    ensures var w := Run(CREATED, inputs).watch;
            && w == Watch(Connected, 0, PING_TICKS, 0)
            && forall n: nat :: Silence(w, n).state != ConnectionLost
  {
    var go, hello := Input(true, []), Input(true, [Heard(Hello)]);
    inputs := [go] + ([go] + ([go] + ([hello] + [])));
    RunFirst(CREATED, go, [go] + ([go] + ([hello] + [])));
    var starting := Turn(CREATED, go);
    RunFirst(starting, go, [go] + ([hello] + []));
    var opening := Turn(starting, go);
    RunFirst(opening, go, [hello] + []);
    var connecting := Turn(opening, go);
    RunFirst(connecting, hello, []);
    assert [Heard(Hello)][1..] == [];
    assert Turn(connecting, hello).watch == Watch(Connected, 0, PING_TICKS, 0);
    forall n: nat ensures Silence(Watch(Connected, 0, PING_TICKS, 0), n).state != ConnectionLost {
      SilentLink(Watch(Connected, 0, PING_TICKS, 0), n);
    }
  }

  lemma {:induction false} StaysLost(w: Watch, n: nat)
    requires w.state == ConnectionLost
    ensures Silence(w, n) == w
    decreases n
  {
    if n > 0 {
      StaysLost(w, n - 1);
    }
  }

  lemma {:induction false} RunConcat(m: Machine, a: seq<Input>, b: seq<Input>)
    ensures Run(m, a + b) == Run(Run(m, a), b)
    decreases |a|
  {
    if a == [] {
      assert a + b == b;
    } else {
      assert (a + b)[0] == a[0] && (a + b)[1..] == a[1..] + b;
      RunConcat(Turn(m, a[0]), a[1..], b);
    }
  }

  lemma {:induction false} ObserveAllConcat(m: Machine, a: seq<Event>, b: seq<Event>)
    ensures ObserveAll(m, a + b) == ObserveAll(ObserveAll(m, a), b)
    decreases |a|
  {
    if a == [] {
      assert a + b == b;
    } else {
      assert (a + b)[0] == a[0] && (a + b)[1..] == a[1..] + b;
      ObserveAllConcat(Observe(m, a[0]), a[1..], b);
    }
  }

  /** Whatever has happened before: after a HELLO the server is connected, after a GOODBYE or a quit request it
      is disconnected, and after a PONG no ping is missed. */
  lemma LastEvent(m: Machine, events: seq<Event>, e: Event)
    ensures var now := ObserveAll(m, events + [e]).watch;
            && (e == Heard(Hello) ==> now.state == Connected && now.sendTicks == 0 && now.timeoutTicks == 5)
            && (e == Quit || e == Heard(Goodbye) ==> now.state == Disconnected)
            && (e == Heard(Pong) ==> now.missed == 0)
  {
    ObserveAllConcat(m, events, [e]);
    assert [e][1..] == [];
  }

  /** Everything the server tries succeeds, and nobody ends the session. */
  ghost predicate Undisturbed(inputs: seq<Input>) {
    forall k | 0 <= k < |inputs| :: inputs[k].ok && GoesOn(inputs[k].events)
  }

  ghost predicate GoesOn(events: seq<Event>) {
    forall j | 0 <= j < |events| :: events[j] != Quit && events[j] != Heard(Goodbye)
  }

  /** Nothing but its retries can stop the server. */
  predicate Trying(m: Machine) {
    && m.watch.state != Disconnecting && m.watch.state != WaitForDisconnect && m.watch.state != Disconnected
    && (Ending(m.watch.state) <==> m.failures == RETRIES)
  }

  lemma {:induction false} GoesOnTrying(m: Machine, events: seq<Event>)
    requires Trying(m) && GoesOn(events) && (Ending(m.watch.state) ==> events == [])
    ensures Trying(ObserveAll(m, events)) && ObserveAll(m, events).failures == m.failures
    decreases |events|
  {
    if events != [] {
      assert events[0] != Quit && events[0] != Heard(Goodbye);
      assert forall j | 0 <= j < |events| - 1 :: events[1..][j] == events[j + 1];
      GoesOnTrying(Observe(m, events[0]), events[1..]);
    }
  }

  lemma TurnKeepsTrying(m: Machine, i: Input)
    requires Sound(m) && Trying(m) && i.ok && GoesOn(i.events)
    ensures Trying(Turn(m, i))
  {
    hide GoesOn;
    match m.watch.state
    case Connecting =>
      GoesOnTrying(GoTo(m, WaitForConnect), i.events);
      hide ObserveAll;
    case Connected =>
      GoesOnTrying(m, i.events);
      hide ObserveAll;
    case WaitForConnect =>
      GoesOnTrying(m, i.events);
      hide ObserveAll;
    case _ =>
  }

  lemma {:induction false} KeepsTrying(m: Machine, inputs: seq<Input>)
    requires Sound(m) && Trying(m) && Undisturbed(inputs)
    ensures Trying(Run(m, inputs))
    decreases |inputs|
  {
    if inputs != [] {
      TurnKeepsSound(m, inputs[0]);
      TurnKeepsTrying(m, inputs[0]);
      assert forall k | 0 <= k < |inputs| - 1 :: inputs[1..][k] == inputs[k + 1];
      hide Trying, Sound, Turn;
      KeepsTrying(Turn(m, inputs[0]), inputs[1..]);
    }
  }

  /** When a new server gives up: if all it tries succeeds and nobody ends the session, it stops if and only if
      it has failed to connect five times. */
  lemma GivesUp(inputs: seq<Input>)
    requires Undisturbed(inputs)
    ensures var m := Run(CREATED, inputs);
            m.watch.state in {Stopping, ClosingClient, ClosingRemote, Stopped} <==> m.failures == 5
  {
    KeepsTrying(CREATED, inputs);
    hide Run;
  }

  /** In every run a lost link is followed by another attempt to connect, with all retries left as they were. */
  lemma LostIsRetried(inputs: seq<Input>, next: Input)
    requires Run(CREATED, inputs).watch.state == ConnectionLost
    ensures var m, m' := Run(CREATED, inputs), Run(CREATED, inputs + [next]);
            m'.watch.state == Connecting && m'.retries == m.retries && m'.failures == m.failures <= 4
  {
    RunIsSound(CREATED, inputs);
    RunConcat(CREATED, inputs, [next]);
    assert [next][1..] == [];
    hide Run;
  }

  /** In every run, a server that cannot open its ports or send INIT, or has been disconnected, stops. */
  lemma FailureStops(inputs: seq<Input>, next: Input, rest: seq<Input>)
    requires var s := Run(CREATED, inputs).watch.state;
             || (s in {OpeningRemote, OpeningClient, Connecting} && !next.ok)
             || s == Disconnected
    ensures Run(CREATED, inputs + [next]).watch.state == Stopping
    ensures |rest| >= 3 ==> Run(CREATED, inputs + [next] + rest).watch.state == Stopped
  {
    RunConcat(CREATED, inputs, [next]);
    RunConcat(CREATED, inputs + [next], rest);
    assert [next][1..] == [];
    var m := Run(CREATED, inputs + [next]);
    assert m.watch.state == Stopping;
    if |rest| >= 3 {
      ClosesDown(m, rest);
    }
  }

  lemma ClosesDown(m: Machine, rest: seq<Input>)
    requires m.watch.state == Stopping && |rest| >= 3
    ensures Run(m, rest).watch.state == Stopped
  {
    var m1 := Turn(m, rest[0]);
    var m2 := Turn(m1, rest[1]);
    var m3 := Turn(m2, rest[2]);
    assert Run(m, rest) == Run(m1, rest[1..]);
    assert rest[1..][0] == rest[1] && rest[1..][1..] == rest[2..];
    assert rest[2..][0] == rest[2] && rest[2..][1..] == rest[3..];
    StoppedStays(m3, rest[3..]);
  }

  /** The turns that begin in state `s`. */
  function Visits(m: Machine, inputs: seq<Input>, s: ServerState): nat
    decreases |inputs|
  {
    if inputs == [] then 0
    else Visits(Turn(m, inputs[0]), inputs[1..], s) + if m.watch.state == s then 1 else 0
  }

  /** Nothing is heard: there are only ticks, and at least one in each turn. */
  predicate OnlyTicks(events: seq<Event>) {
    events != [] && forall j | 0 <= j < |events| :: events[j] == Timer
  }

  ghost predicate Unanswered(inputs: seq<Input>) {
    forall k | 0 <= k < |inputs| :: inputs[k].ok && OnlyTicks(inputs[k].events)
  }

  /** The turns left to a server that nobody answers. */
  function TurnsLeft(m: Machine): nat {
    match m.watch.state
    case Starting => 2 * RETRIES + 6
    case OpeningRemote => 2 * m.retries + 5
    case OpeningClient => 2 * m.retries + 4
    case Connecting => 2 * m.retries + 3
    case ConnectFailed => 2 * m.retries + 2
    case Stopping => 3
    case ClosingClient => 2
    case ClosingRemote => 1
    case _ => 0
  }

  /** The attempts to connect that are left to it. */
  function AttemptsLeft(m: Machine): nat {
    match m.watch.state
    case Starting => RETRIES
    case OpeningRemote => m.retries
    case OpeningClient => m.retries
    case Connecting => m.retries
    case ConnectFailed => if m.retries == 0 then 0 else m.retries - 1
    case _ => 0
  }

  /** A server that nobody answers is in none of the other states. */
  predicate Alone(m: Machine) {
    && m.watch.state != Connected && m.watch.state != ConnectionLost && m.watch.state != WaitForConnect
    && m.watch.state != Disconnecting && m.watch.state != WaitForDisconnect && m.watch.state != Disconnected
  }

  lemma {:induction false} TicksFail(m: Machine, events: seq<Event>)
    requires m.watch.state == ConnectFailed || (m.watch.state == WaitForConnect && events != [])
    requires forall j | 0 <= j < |events| :: events[j] == Timer
    ensures var m' := ObserveAll(m, events);
            m'.watch.state == ConnectFailed && m'.retries == m.retries && m'.failures == m.failures
    decreases |events|
  {
    if events != [] {
      assert events[0] == Timer;
      assert forall j | 0 <= j < |events| - 1 :: events[1..][j] == events[j + 1];
      TicksFail(Observe(m, events[0]), events[1..]);
    }
  }

  lemma TurnAlone(m: Machine, i: Input)
    requires Sound(m) && Alone(m) && i.ok && OnlyTicks(i.events)
    ensures var m' := Turn(m, i);
            && Alone(m')
            && TurnsLeft(m') == (if m.watch.state == Stopped then 0 else TurnsLeft(m) - 1)
            && AttemptsLeft(m) == AttemptsLeft(m') + if m.watch.state == Connecting then 1 else 0
  {
    if m.watch.state == Connecting {
      TicksFail(GoTo(m, WaitForConnect), i.events);
      hide ObserveAll;
    }
  }

  lemma {:induction false} RunAlone(m: Machine, inputs: seq<Input>)
    requires Sound(m) && Alone(m) && Unanswered(inputs)
    ensures Alone(Run(m, inputs))
    ensures TurnsLeft(Run(m, inputs)) == if |inputs| < TurnsLeft(m) then TurnsLeft(m) - |inputs| else 0
    ensures AttemptsLeft(m) == AttemptsLeft(Run(m, inputs)) + Visits(m, inputs, Connecting)
    decreases |inputs|
  {
    if inputs != [] {
      assert inputs[0].ok && OnlyTicks(inputs[0].events);
      TurnKeepsSound(m, inputs[0]);
      TurnAlone(m, inputs[0]);
      LeftIfGoing(m);
      assert forall k | 0 <= k < |inputs| - 1 :: inputs[1..][k] == inputs[k + 1];
      hide Alone, Sound, Turn, TurnsLeft, AttemptsLeft, OnlyTicks;
      RunAlone(Turn(m, inputs[0]), inputs[1..]);
    }
  }

  lemma LeftIfGoing(m: Machine)
    requires Alone(m)
    ensures TurnsLeft(m) == 0 <==> m.watch.state == Stopped
  {
  }

  /** A peer that never answers: a new server never is connected, and it stops in exactly sixteen turns, after
      exactly five attempts to connect. */
  lemma NeverAnswered(inputs: seq<Input>)
    requires Unanswered(inputs)
    ensures var m := Run(CREATED, inputs);
            && m.watch.state != Connected
            && (m.watch.state == Stopped <==> |inputs| >= 16)
            && (m.watch.state == Stopped ==> Visits(CREATED, inputs, Connecting) == 5)
            && Visits(CREATED, inputs, Connecting) <= 5
  {
    RunAlone(CREATED, inputs);
    LeftIfGoing(Run(CREATED, inputs));
    hide Run, Visits;
  }
}
