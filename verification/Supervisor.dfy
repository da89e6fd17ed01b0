/** The gopls restart loop (internal/lsp/supervisor.go).

    What the environment decides in one turn of the loop (does the server start, why
    does its session end, was it stable, was the wait cut short) is a `Turn`; a run
    is a list of turns. */
module Supervisor {
  import opened Texts

  datatype ServerState = Stopped | Starting | Ready | Restarting | Failed

  datatype StateEvent = StateEvent(state: ServerState, attempt: nat)

  datatype Policy = Policy(maxRestarts: nat, base: nat, cap: nat)

  datatype Ending = StopRequested | Exited(intentional: bool, stable: bool, slept: bool)

  datatype Turn =
    | Cancelled
    | NoStart(cancelled: bool, permanent: bool, slept: bool)
    | Served(session: nat, ending: Ending)

  datatype Head = Looping(attempt: nat, backoff: nat) | Finished(state: ServerState)

  /** Where the loop is, what it published and the delays it waited. */
  datatype Progress = Progress(head: Head, events: seq<StateEvent>, waits: seq<nat>)

  function NextBackoff(d: nat, most: nat): nat {
    if d * 2 > most then most else d * 2
  }

  // ----- what one turn does -----

  /** A failed start or an unexpected exit. */
  function Failure(p: Policy, attempt: nat, backoff: nat, slept: bool): Progress {
    if attempt + 1 > p.maxRestarts then Progress(Finished(Failed), [StateEvent(Failed, attempt + 1)], [])
    else if slept then
      Progress(Looping(attempt + 1, NextBackoff(backoff, p.cap)), [StateEvent(Restarting, attempt + 1)], [backoff])
    else Progress(Finished(Stopped), [StateEvent(Restarting, attempt + 1), StateEvent(Stopped, 0)], [backoff])
  }

  function Turned(p: Policy, attempt: nat, backoff: nat, turn: Turn): Progress {
    var stopped := Progress(Finished(Stopped), [StateEvent(Stopped, 0)], []);
    match turn
    case Cancelled => stopped
    case NoStart(cancelled, permanent, slept) =>
      var r :=
        if cancelled then stopped
        else if permanent then Progress(Finished(Failed), [StateEvent(Failed, attempt)], [])
        else Failure(p, attempt, backoff, slept);
      r.(events := [StateEvent(Starting, attempt)] + r.events)
    case Served(_, ending) =>
      var r := match ending
        case StopRequested => stopped
        case Exited(intentional, stable, slept) =>
          if intentional then stopped
          else Failure(p, if stable then 0 else attempt, if stable then p.base else backoff, slept);
      r.(events := [StateEvent(Starting, attempt), StateEvent(Ready, 0)] + r.events)
  }

  function Run(p: Policy, turns: seq<Turn>): Progress {
    if turns == [] then Progress(Looping(0, p.base), [], [])
    else
      var before := Run(p, turns[..|turns| - 1]);
      match before.head
      case Finished(_) => before
      case Looping(attempt, backoff) =>
        var r := Turned(p, attempt, backoff, turns[|turns| - 1]);
        r.(events := before.events + r.events, waits := before.waits + r.waits)
  }

  // ----- backoff -----

  function Pow2(k: nat): (n: nat)
    ensures n >= 1
  {
    if k == 0 then 1 else 2 * Pow2(k - 1)
  }

  /** The delay the policy promises after k consecutive failures. */
  function Promised(p: Policy, k: nat): nat {
    if p.base * Pow2(k) > p.cap then p.cap else p.base * Pow2(k)
  }

  lemma PromisedNext(p: Policy, k: nat)
    ensures Promised(p, k + 1) == NextBackoff(Promised(p, k), p.cap)
  {
    var n := p.base * Pow2(k);
    assert p.base * Pow2(k + 1) == 2 * n by {
      assert p.base * (2 * Pow2(k)) == 2 * (p.base * Pow2(k));
    }
  }

  /** At every loop head the delay is the promised one. */
  ghost predicate KeepsPromise(p: Policy) {
    forall turns: seq<Turn> ::
      match Run(p, turns).head
      case Looping(attempt, backoff) => backoff == Promised(p, attempt)
      case Finished(_) => true
  }

  lemma {:induction false} RunKeepsPromise(p: Policy, turns: seq<Turn>)
    requires p.base <= p.cap
    ensures match Run(p, turns).head
      case Looping(attempt, backoff) => backoff == Promised(p, attempt)
      case Finished(_) => true
  {
    PromisedStart(p);
    if turns != [] {
      RunKeepsPromise(p, turns[..|turns| - 1]);
      match Run(p, turns[..|turns| - 1]).head {
        case Looping(attempt, backoff) =>
          PromisedNext(p, attempt);
          PromisedNext(p, 0);
        case Finished(_) =>
      }
    }
  }

  lemma PromisedStart(p: Policy)
    ensures Promised(p, 0) == if p.base > p.cap then p.cap else p.base
  {
    assert p.base * 1 == p.base;
  }

  /** The delay doubles from the base up to the cap at every loop head of every run if
      and only if the base does not exceed the cap. */
  lemma BackoffExact(p: Policy)
    ensures KeepsPromise(p) <==> p.base <= p.cap
  {
    hide Promised;
    if p.base <= p.cap {
      forall turns: seq<Turn>
        ensures match Run(p, turns).head
                case Looping(attempt, backoff) => backoff == Promised(p, attempt)
                case Finished(_) => true
      {
        RunKeepsPromise(p, turns);
      }
    } else {
      PromisedStart(p);
      assert Run(p, []).head == Looping(0, p.base);
    }
  }

  // ----- attempts -----

  predicate Stable(t: Turn) {
    t.Served? && t.ending.Exited? && t.ending.stable
  }

  /** From any loop head on, while no session is stable, every turn that comes back to
      the loop head is one more attempt; there are never more than maxRestarts. */
  lemma {:induction false} AttemptsCount(p: Policy, before: seq<Turn>, turns: seq<Turn>)
    requires Run(p, before).head.Looping? && Run(p, before + turns).head.Looping?
    requires forall i :: 0 <= i < |turns| ==> !Stable(turns[i])
    ensures Run(p, before + turns).head.attempt == Run(p, before).head.attempt + |turns|
    ensures turns != [] ==> Run(p, before + turns).head.attempt <= p.maxRestarts
  {
    hide Turned;
    if turns == [] {
      assert before + turns == before;
    } else {
      var front, last := turns[..|turns| - 1], turns[|turns| - 1];
      assert (before + turns)[..|before + turns| - 1] == before + front;
      AttemptsCount(p, before, front);
      OneMoreAttempt(p, Run(p, before + front).head.attempt, Run(p, before + front).head.backoff, last);
    }
  }

  lemma OneMoreAttempt(p: Policy, attempt: nat, backoff: nat, turn: Turn)
    requires !Stable(turn)
    ensures var r := Turned(p, attempt, backoff, turn); r.head.Looping? ==> r.head.attempt == attempt + 1 <= p.maxRestarts
  {
  }

  /** A run stops for good at its first finishing turn. */
  lemma {:induction false} FinishedStays(p: Policy, turns: seq<Turn>, more: seq<Turn>)
    requires Run(p, turns).head.Finished?
    ensures Run(p, turns + more) == Run(p, turns)
  {
    if more == [] {
      assert turns + more == turns;
    } else {
      assert (turns + more)[..|turns + more| - 1] == turns + more[..|more| - 1];
      FinishedStays(p, turns, more[..|more| - 1]);
    }
  }

  /** Without a stable session the loop connects at most maxRestarts + 1 times: after
      that many turns it has finished, whatever they were. */
  lemma GivesUp(p: Policy, turns: seq<Turn>)
    requires |turns| >= p.maxRestarts + 1 && forall i :: 0 <= i < |turns| ==> !Stable(turns[i])
    ensures Run(p, turns).head.Finished?
    ensures Run(p, turns) == Run(p, turns[..p.maxRestarts + 1])
  {
    hide Run;
    var first := turns[..p.maxRestarts + 1];
    TooManyTurns(p, first);
    assert first + turns[p.maxRestarts + 1..] == turns;
    FinishedStays(p, first, turns[p.maxRestarts + 1..]);
  }

  lemma TooManyTurns(p: Policy, turns: seq<Turn>)
    requires |turns| > p.maxRestarts && forall i :: 0 <= i < |turns| ==> !Stable(turns[i])
    ensures Run(p, turns).head.Finished?
  {
    NothingRun(p);
    hide Run, Stable;
    assert [] + turns == turns;
    if Run(p, turns).head.Looping? {
      AttemptsCount(p, [], turns);
    }
  }

  lemma NothingRun(p: Policy)
    ensures Run(p, []).head == Looping(0, p.base)
  {
  }

  /** Crashing all the time, it makes exactly maxRestarts + 1 attempts and then fails. */
  lemma {:induction false} CrashLoop(p: Policy, turns: seq<Turn>)
    requires forall i :: 0 <= i < |turns| ==> turns[i] == NoStart(false, false, true)
    ensures Run(p, turns).head.Finished? <==> |turns| > p.maxRestarts
    ensures |turns| > p.maxRestarts ==> Run(p, turns).head == Finished(Failed)
    ensures |turns| <= p.maxRestarts ==> Run(p, turns).head.attempt == |turns|
  {
    if turns != [] {
      CrashLoop(p, turns[..|turns| - 1]);
    }
  }

  // ----- stable sessions, and how a run ends -----

  /** How many turns there have been since the last stable session, that one included. */
  function SinceStable(turns: seq<Turn>): nat {
    if turns == [] then 0
    else if Stable(turns[|turns| - 1]) then 1
    else SinceStable(turns[..|turns| - 1]) + 1
  }

  /** A start that failed, but not for good, or a session that ended by itself. */
  predicate Fails(t: Turn) {
    match t
    case Cancelled => false
    case NoStart(cancelled, permanent, _) => !cancelled && !permanent
    case Served(_, ending) => ending.Exited? && !ending.intentional
  }

  predicate Waited(t: Turn)
    requires Fails(t)
  {
    match t
    case NoStart(_, _, slept) => slept
    case Served(_, ending) => ending.slept
  }

  predicate Permanent(t: Turn) {
    t.NoStart? && !t.cancelled && t.permanent
  }

  /** At turn k the loop comes back to its head. */
  predicate ComesBack(p: Policy, turns: seq<Turn>, k: nat)
    requires k < |turns|
  {
    Fails(turns[k]) && SinceStable(turns[..k + 1]) <= p.maxRestarts && Waited(turns[k])
  }

  /** Turn k gives up: for good, or with no restart left. */
  predicate GivesUpAt(p: Policy, turns: seq<Turn>, k: nat)
    requires k < |turns|
  {
    Permanent(turns[k]) || (Fails(turns[k]) && SinceStable(turns[..k + 1]) > p.maxRestarts)
  }

  ghost predicate AllComeBack(p: Policy, turns: seq<Turn>) {
    forall k :: 0 <= k < |turns| ==> ComesBack(p, turns, k)
  }

  lemma AllSnoc(p: Policy, turns: seq<Turn>)
    requires turns != []
    ensures AllComeBack(p, turns) <==> AllComeBack(p, turns[..|turns| - 1]) && ComesBack(p, turns, |turns| - 1)
  {
    hide SinceStable;
    var front := turns[..|turns| - 1];
    forall k | 0 <= k < |front| ensures ComesBack(p, front, k) == ComesBack(p, turns, k) {
      assert front[..k + 1] == turns[..k + 1] && front[k] == turns[k];
    }
  }

  /** The loop goes on exactly when every turn so far fails, is within the restarts since
      the last stable session and waits its delay; its attempt then is the number of
      turns since that session. */
  lemma {:induction false} LoopsExactly(p: Policy, turns: seq<Turn>)
    ensures Run(p, turns).head.Looping? <==> AllComeBack(p, turns)
    ensures Run(p, turns).head.Looping? ==>
      Run(p, turns).head.attempt == SinceStable(turns) && (turns != [] ==> SinceStable(turns) <= p.maxRestarts)
  {
    hide AllComeBack;
    if turns == [] {
      assert AllComeBack(p, turns) by { NoTurns(p); }
    } else {
      LoopsExactly(p, turns[..|turns| - 1]);
      AllSnoc(p, turns);
      assert turns[..|turns|] == turns;
    }
  }

  lemma NoTurns(p: Policy)
    ensures AllComeBack(p, [])
  {
  }

  /** The run ends at turn k: all before come back, this one does not. */
  ghost predicate EndsAt(p: Policy, turns: seq<Turn>, k: nat)
    requires k < |turns|
  {
    AllComeBack(p, turns[..k]) && !ComesBack(p, turns, k)
  }

  lemma EndOf(p: Policy, turns: seq<Turn>, k: nat)
    requires k < |turns| && EndsAt(p, turns, k)
    ensures Run(p, turns).head == Finished(if GivesUpAt(p, turns, k) then Failed else Stopped)
  {
    var upTo := turns[..k + 1];
    assert upTo[..k] == turns[..k] && upTo + turns[k + 1..] == turns;
    hide AllComeBack;
    LoopsExactly(p, turns[..k]);
    assert upTo[..|upTo| - 1] == turns[..k] && upTo[k] == turns[k];
    FinishedStays(p, upTo, turns[k + 1..]);
  }

  lemma {:induction false} SomeEnd(p: Policy, turns: seq<Turn>) returns (k: nat)
    requires !AllComeBack(p, turns)
    ensures k < |turns| && EndsAt(p, turns, k)
  {
    var front := turns[..|turns| - 1];
    AllSnoc(p, turns);
    if AllComeBack(p, front) {
      k := |turns| - 1;
    } else {
      k := SomeEnd(p, front);
      assert front[..k] == turns[..k] && front[..k + 1] == turns[..k + 1];
    }
  }

  /** A run has failed exactly when its first turn that does not come back is a permanent
      start error, or a failure with no restart left since the last stable session. */
  lemma FailsExactly(p: Policy, turns: seq<Turn>)
    ensures Run(p, turns).head == Finished(Failed) <==>
            exists k: nat :: k < |turns| && EndsAt(p, turns, k) && GivesUpAt(p, turns, k)
  {
    hide EndsAt, GivesUpAt, ComesBack;
    LoopsExactly(p, turns);
    if Run(p, turns).head.Finished? {
      var k := SomeEnd(p, turns);
      EndOf(p, turns, k);
    }
    forall k: nat | k < |turns| && EndsAt(p, turns, k) && GivesUpAt(p, turns, k)
      ensures Run(p, turns).head == Finished(Failed)
    {
      EndOf(p, turns, k);
    }
  }

  /** What stops the loop: cancellation, a stop request, an intentional exit, or a wait
      for a restart that is cut short. */
  predicate StopsAt(p: Policy, turns: seq<Turn>, k: nat)
    requires k < |turns|
  {
    match turns[k]
    case Cancelled => true
    case NoStart(cancelled, permanent, slept) =>
      cancelled || (!permanent && !slept && SinceStable(turns[..k + 1]) <= p.maxRestarts)
    case Served(_, StopRequested) => true
    case Served(_, Exited(intentional, _, slept)) =>
      intentional || (!slept && SinceStable(turns[..k + 1]) <= p.maxRestarts)
  }

  lemma EndsOneWay(p: Policy, turns: seq<Turn>, k: nat)
    requires k < |turns|
    ensures StopsAt(p, turns, k) <==> !ComesBack(p, turns, k) && !GivesUpAt(p, turns, k)
  {
    hide SinceStable;
  }

  /** A run has stopped exactly when the first turn that does not come back is one of these. */
  lemma StopsExactly(p: Policy, turns: seq<Turn>)
    ensures Run(p, turns).head == Finished(Stopped) <==>
            exists k: nat :: k < |turns| && AllComeBack(p, turns[..k]) && StopsAt(p, turns, k)
  {
    hide GivesUpAt, ComesBack, StopsAt, AllComeBack;
    LoopsExactly(p, turns);
    if Run(p, turns).head.Finished? {
      var k := SomeEnd(p, turns);
      EndOf(p, turns, k);
      EndsOneWay(p, turns, k);
    }
    forall k: nat | k < |turns| && AllComeBack(p, turns[..k]) && StopsAt(p, turns, k)
      ensures Run(p, turns).head == Finished(Stopped)
    {
      EndsOneWay(p, turns, k);
      EndOf(p, turns, k);
    }
  }

  /** A stable session that ends by itself starts a new count: attempt 1 after the base
      delay, whatever the count and the delay were; with at least one restart it is
      never the end unless the wait is cut short. */
  lemma StableStartsOver(p: Policy, before: seq<Turn>, turn: Turn)
    requires Run(p, before).head.Looping? && Stable(turn) && !turn.ending.intentional && p.maxRestarts >= 1
    ensures var r := Run(p, before + [turn]);
      && r.waits == Run(p, before).waits + [p.base]
      && r.events == Run(p, before).events
           + [StateEvent(Starting, SinceStable(before)), StateEvent(Ready, 0), StateEvent(Restarting, 1)]
           + (if turn.ending.slept then [] else [StateEvent(Stopped, 0)])
      && r.head == if turn.ending.slept then Looping(1, NextBackoff(p.base, p.cap)) else Finished(Stopped)
  {
    assert (before + [turn])[..|before|] == before;
    LoopsExactly(p, before);
  }

  /** What one turn publishes, the attempts counted from the last stable session. */
  function Told(p: Policy, before: seq<Turn>, turn: Turn): seq<StateEvent> {
    var starting := StateEvent(Starting, SinceStable(before));
    match turn
    case Cancelled => [StateEvent(Stopped, 0)]
    case NoStart(_, _, _) => [starting] + ToldAtEnd(p, before, turn)
    case Served(_, _) => [starting, StateEvent(Ready, 0)] + ToldAtEnd(p, before, turn)
  }

  function ToldAtEnd(p: Policy, before: seq<Turn>, turn: Turn): seq<StateEvent> {
    var now := SinceStable(before + [turn]);
    if Permanent(turn) then [StateEvent(Failed, SinceStable(before))]
    else if !Fails(turn) then [StateEvent(Stopped, 0)]
    else if now > p.maxRestarts then [StateEvent(Failed, now)]
    else if Waited(turn) then [StateEvent(Restarting, now)]
    else [StateEvent(Restarting, now), StateEvent(Stopped, 0)]
  }

  lemma SinceOneMore(before: seq<Turn>, turn: Turn)
    ensures SinceStable(before + [turn]) == if Stable(turn) then 1 else SinceStable(before) + 1
  {
    assert (before + [turn])[..|before|] == before;
  }

  lemma TurnedTells(p: Policy, before: seq<Turn>, turn: Turn, backoff: nat)
    ensures Turned(p, SinceStable(before), backoff, turn).events == Told(p, before, turn)
  {
    hide SinceStable, Failure, ToldAtEnd;
    match turn {
      case Cancelled =>
      case NoStart(_, _, slept) => StartTells(p, before, turn, backoff);
      case Served(_, ending) => SessionTells(p, before, turn, backoff);
    }
  }

  lemma StartTells(p: Policy, before: seq<Turn>, turn: Turn, backoff: nat)
    requires turn.NoStart?
    ensures ToldAtEnd(p, before, turn) ==
      if turn.cancelled then [StateEvent(Stopped, 0)]
      else if turn.permanent then [StateEvent(Failed, SinceStable(before))]
      else Failure(p, SinceStable(before), backoff, turn.slept).events
  {
    hide SinceStable, Failure;
    SinceOneMore(before, turn);
    FailureTells(p, SinceStable(before), backoff, turn.slept);
  }

  lemma SessionTells(p: Policy, before: seq<Turn>, turn: Turn, backoff: nat)
    requires turn.Served?
    ensures ToldAtEnd(p, before, turn) ==
      if turn.ending.StopRequested? || turn.ending.intentional then [StateEvent(Stopped, 0)]
      else
        var stable := turn.ending.stable;
        Failure(p, if stable then 0 else SinceStable(before), if stable then p.base else backoff, turn.ending.slept).events
  {
    hide SinceStable, Failure;
    SinceOneMore(before, turn);
    if turn.ending.Exited? {
      var stable := turn.ending.stable;
      FailureTells(p, if stable then 0 else SinceStable(before), if stable then p.base else backoff, turn.ending.slept);
    }
  }

  lemma FailureTells(p: Policy, attempt: nat, backoff: nat, slept: bool)
    ensures Failure(p, attempt, backoff, slept).events ==
      if attempt + 1 > p.maxRestarts then [StateEvent(Failed, attempt + 1)]
      else if slept then [StateEvent(Restarting, attempt + 1)]
      else [StateEvent(Restarting, attempt + 1), StateEvent(Stopped, 0)]
  {
  }

  lemma TurnTells(p: Policy, before: seq<Turn>, turn: Turn)
    requires Run(p, before).head.Looping?
    ensures Run(p, before + [turn]).events == Run(p, before).events + Told(p, before, turn)
  {
    hide Turned, Told, SinceStable;
    assert (before + [turn])[..|before|] == before;
    LoopsExactly(p, before);
    TurnedTells(p, before, turn, Run(p, before).head.backoff);
  }

  /** The attempts of the announced restarts. */
  function Restarts(es: seq<StateEvent>): seq<nat> {
    if es == [] then []
    else
      var e := es[|es| - 1];
      Restarts(es[..|es| - 1]) + if e.state == Restarting then [e.attempt] else []
  }

  lemma {:induction false} RestartsConcat(a: seq<StateEvent>, b: seq<StateEvent>)
    ensures Restarts(a + b) == Restarts(a) + Restarts(b)
  {
    if b == [] {
      assert a + b == a;
    } else {
      assert (a + b)[..|a + b| - 1] == a + b[..|b| - 1];
      RestartsConcat(a, b[..|b| - 1]);
    }
  }

  /** Each announced restart is waited for once, for the delay its attempt calls for. */
  ghost predicate WaitsFit(p: Policy, r: Progress) {
    && |r.waits| == |Restarts(r.events)|
    && forall i :: 0 <= i < |r.waits| ==> Restarts(r.events)[i] >= 1 && r.waits[i] == Promised(p, Restarts(r.events)[i] - 1)
  }

  lemma {:induction false} WaitsPromised(p: Policy, turns: seq<Turn>)
    requires p.base <= p.cap
    ensures WaitsFit(p, Run(p, turns))
  {
    hide Turned, Promised;
    if turns != [] {
      var before := Run(p, turns[..|turns| - 1]);
      WaitsPromised(p, turns[..|turns| - 1]);
      RunKeepsPromise(p, turns[..|turns| - 1]);
      match before.head {
        case Looping(attempt, backoff) =>
          var r := Turned(p, attempt, backoff, turns[|turns| - 1]);
          TurnWaits(p, attempt, backoff, turns[|turns| - 1]);
          RestartsConcat(before.events, r.events);
        case Finished(_) =>
      }
    }
  }

  lemma RestartsOne(e: StateEvent)
    ensures Restarts([e]) == if e.state == Restarting then [e.attempt] else []
    ensures Restarts([]) == []
  {
    assert [e][..0] == [];
  }

  lemma FailureWaits(p: Policy, attempt: nat, backoff: nat, slept: bool)
    requires backoff == Promised(p, attempt)
    ensures WaitsFit(p, Failure(p, attempt, backoff, slept))
  {
    hide Promised, Restarts;
    var restarting, stopped := StateEvent(Restarting, attempt + 1), StateEvent(Stopped, 0);
    RestartsOne(restarting);
    RestartsOne(stopped);
    RestartsOne(StateEvent(Failed, attempt + 1));
    RestartsConcat([restarting], [stopped]);
    assert [restarting] + [stopped] == [restarting, stopped];
  }

  lemma TurnWaits(p: Policy, attempt: nat, backoff: nat, turn: Turn)
    requires backoff == Promised(p, attempt) && p.base <= p.cap
    ensures WaitsFit(p, Turned(p, attempt, backoff, turn))
  {
    PromisedStart(p);
    hide Promised, Restarts, Failure;
    var r := Turned(p, attempt, backoff, turn);
    var starting, ready := StateEvent(Starting, attempt), StateEvent(Ready, 0);
    RestartsOne(starting);
    RestartsOne(ready);
    RestartsOne(StateEvent(Stopped, 0));
    RestartsOne(StateEvent(Failed, attempt));
    RestartsConcat([starting], [ready]);
    assert [starting] + [ready] == [starting, ready];
    match turn {
      case Cancelled =>
      case NoStart(_, _, slept) =>
        FailureWaits(p, attempt, backoff, slept);
        RestartsConcat([starting], r.events[1..]);
      case Served(_, ending) =>
        if ending.Exited? {
          FailureWaits(p, if ending.stable then 0 else attempt, if ending.stable then p.base else backoff, ending.slept);
        }
        RestartsConcat([starting, ready], r.events[2..]);
    }
  }

  // ----- published states -----

  predicate Follows(a: ServerState, b: ServerState) {
    match a
    case Starting => b != Starting
    case Ready => b == Stopped || b == Restarting || b == Failed
    case Restarting => b == Starting || b == Stopped
    case _ => false
  }

  /** The published states form a path of the life cycle, and it ends in Stopped or
      Failed exactly when the loop has finished. */
  lemma {:induction false} EventsFollow(p: Policy, turns: seq<Turn>)
    ensures var r := Run(p, turns); var es := r.events;
      && (forall i :: 0 <= i < |es| - 1 ==> Follows(es[i].state, es[i + 1].state))
      && (es != [] ==> es[0].state == Starting || es[0].state == Stopped)
      && match r.head
         case Looping(_, _) => es == [] || es[|es| - 1].state == Restarting
         case Finished(state) => es != [] && es[|es| - 1].state == state && (state == Stopped || state == Failed)
  {
    if turns != [] {
      EventsFollow(p, turns[..|turns| - 1]);
      match Run(p, turns[..|turns| - 1]).head {
        case Looping(attempt, backoff) => TurnFollows(p, attempt, backoff, turns[|turns| - 1]);
        case Finished(_) =>
      }
    }
  }

  lemma TurnFollows(p: Policy, attempt: nat, backoff: nat, turn: Turn)
    ensures var r := Turned(p, attempt, backoff, turn); var es := r.events;
      && (forall i :: 0 <= i < |es| - 1 ==> Follows(es[i].state, es[i + 1].state))
      && es != [] && (es[0].state == Starting || es[0].state == Stopped)
      && match r.head
         case Looping(_, _) => es[|es| - 1].state == Restarting
         case Finished(state) => es[|es| - 1].state == state && (state == Stopped || state == Failed)
  {
  }

  // ----- the loop -----

  /** What another goroutine may see at some moment. */
  datatype Snapshot = Snapshot(state: ServerState, bridge: Option<nat>)

  predicate Honest(s: Snapshot) {
    s.bridge.Some? ==> s.state == Ready
  }

  function OrDefault(v: int, def: nat): nat {
    if v <= 0 then def else v
  }

  class Supervisor {
    const policy: Policy
    var state: ServerState
    var bridge: Option<nat>
    var published: seq<StateEvent>
    var waits: seq<nat>

    /** Every value state and bridge ever had together. */
    ghost var history: seq<Snapshot>

    ghost predicate Valid()
      reads this
    {
      && history != [] && history[|history| - 1] == Snapshot(state, bridge)
      && forall i :: 0 <= i < |history| ==> Honest(history[i])
    }

    /** Durations in milliseconds. */
    constructor (maxRestarts: int, base: int, cap: int)
      ensures policy == Policy(OrDefault(maxRestarts, 5), OrDefault(base, 500), OrDefault(cap, 30000))
      ensures Valid() && state == Stopped && bridge == None && published == [] && waits == [] && history == [Snapshot(Stopped, None)]
    {
      policy := Policy(OrDefault(maxRestarts, 5), OrDefault(base, 500), OrDefault(cap, 30000));
      state, bridge, published, waits := Stopped, None, [], [];
      history := [Snapshot(Stopped, None)];
    }

    method SetState(ev: StateEvent)
      requires Valid() && (bridge.Some? ==> ev.state == Ready)
      modifies this`state, this`published, this`history
      ensures Valid() && old(history) <= history
      ensures state == ev.state && published == old(published) + [ev]
    {
      state := ev.state;
      history := history + [Snapshot(state, bridge)];
      published := published + [ev];
    }

    /** The session becomes visible together with its state. */
    method Install(session: nat)
      requires Valid()
      modifies this`state, this`bridge, this`history
      ensures Valid() && old(history) <= history && state == Ready && bridge == Some(session)
    {
      bridge, state := Some(session), Ready;
      history := history + [Snapshot(state, bridge)];
    }

    /** shutdown: the session is cleared before any other state is set. */
    method Shutdown()
      requires Valid()
      modifies this`bridge, this`history
      ensures Valid() && old(history) <= history && bridge == None
    {
      bridge := None;
      history := history + [Snapshot(state, bridge)];
    }

    /** The part of the loop that counts a failure; what is left of the turn. */
    method Fail(attempt0: nat, backoff0: nat, slept: bool) returns (head: Head)
      requires Valid() && bridge == None
      modifies this`state, this`published, this`waits, this`history
      ensures Valid() && old(history) <= history
      ensures var r := Failure(policy, attempt0, backoff0, slept);
        head == r.head && published == old(published) + r.events && waits == old(waits) + r.waits && (head.Finished? ==> state == head.state)
    {
      var attempt := attempt0 + 1;
      if attempt > policy.maxRestarts {
        SetState(StateEvent(Failed, attempt));
        return Finished(Failed);
      }
      SetState(StateEvent(Restarting, attempt));
      waits := waits + [backoff0];
      if !slept {
        SetState(StateEvent(Stopped, 0));
        return Finished(Stopped);
      }
      return Looping(attempt, NextBackoff(backoff0, policy.cap));
    }

    /** One turn from the loop head. */
    method TakeTurn(attempt0: nat, backoff0: nat, turn: Turn) returns (head: Head)
      requires Valid() && bridge == None
      modifies this`state, this`bridge, this`published, this`waits, this`history
      ensures Valid() && bridge == None && old(history) <= history
      ensures var r := Turned(policy, attempt0, backoff0, turn);
        head == r.head && published == old(published) + r.events && waits == old(waits) + r.waits && (head.Finished? ==> state == head.state)
    {
      hide Failure;
      var attempt, backoff := attempt0, backoff0;
      if turn.Cancelled? {
        SetState(StateEvent(Stopped, 0));
        return Finished(Stopped);
      }
      SetState(StateEvent(Starting, attempt));
      if turn.NoStart? {
        if turn.cancelled {
          SetState(StateEvent(Stopped, 0));
          return Finished(Stopped);
        }
        if turn.permanent {
          SetState(StateEvent(Failed, attempt));
          return Finished(Failed);
        }
        head := Fail(attempt, backoff, turn.slept);
        return;
      }
      Install(turn.session);
      SetState(StateEvent(Ready, 0));
      Shutdown();
      if turn.ending.StopRequested? || turn.ending.intentional {
        SetState(StateEvent(Stopped, 0));
        return Finished(Stopped);
      }
      if turn.ending.stable {
        attempt := 0;
        backoff := policy.base;
      }
      head := Fail(attempt, backoff, turn.ending.slept);
    }

    /** run: turn after turn until the loop ends or the list does. */
    method RunLoop(turns: seq<Turn>) returns (head: Head)
      requires Valid() && bridge == None
      modifies this`state, this`bridge, this`published, this`waits, this`history
      ensures Valid() && bridge == None && old(history) <= history
      ensures var r := Run(policy, turns);
        head == r.head && published == old(published) + r.events && waits == old(waits) + r.waits && (head.Finished? ==> state == head.state)
    {
      hide Turned;
      var attempt: nat, backoff: nat := 0, policy.base;
      head := Looping(attempt, backoff);
      assert turns[..0] == [];
      var i := 0;
      while i < |turns|
        invariant 0 <= i <= |turns| && Valid() && bridge == None && old(history) <= history
        invariant head == Looping(attempt, backoff) == Run(policy, turns[..i]).head
        invariant published == old(published) + Run(policy, turns[..i]).events
        invariant waits == old(waits) + Run(policy, turns[..i]).waits
      {
        assert turns[..i + 1][..i] == turns[..i];
        head := TakeTurn(attempt, backoff, turns[i]);
        i := i + 1;
        if head.Finished? {
          FinishedStays(policy, turns[..i], turns[i..]);
          assert turns[..i] + turns[i..] == turns;
          return;
        }
        attempt, backoff := head.attempt, head.backoff;
      }
      assert turns[..i] == turns;
    }
  }
}
