/** Whom the pool serves: the callers that wait for a connection leave the queue in the order in which they
    joined it, and a caller is refused in the cases listed here and in no other. */
module PoolOrder {
  import opened Pools

  // ---------------------------------------------------------------- what a step does, seen from outside

  /** A scheduled callback that this event runs. */
  predicate RunsTask(s: State, e: Event) {
    match e
    case EvTask(i) =>
      i < |s.pending| && !s.pending[i].Connect? && (s.pending[i].Deliver? ==> s.pending[i].conn < |s.links|)
    case EvConnected(i, _) => i < |s.pending| && s.pending[i].Connect?
    case _ => false
  }

  function Kept(s: State, e: Event): seq<Task> {
    if RunsTask(s, e) then RemoveAt(s.pending, e.i) else s.pending
  }

  function Callers(tasks: seq<Task>): seq<Callback> {
    if tasks == [] then [] else Callers(tasks[..|tasks| - 1]) + [tasks[|tasks| - 1].cb]
  }

  /** The caller that asks for a connection in this step, for the first time or again. */
  function Asking(s: State, e: Event): seq<Callback> {
    match e
    case EvGet(cb) => [cb]
    case EvTask(i) => if i < |s.pending| && s.pending[i].Retry? then [s.pending[i].cb] else []
    case _ => []
  }

  function Joining(s: State, e: Event, t: State): seq<Callback> {
    if |t.waiting| > |s.waiting| then Asking(s, e) else []
  }

  /** The callers for whom the step schedules a call, but for one that asks only now. */
  function Serving(s: State, e: Event, t: State): seq<Callback> {
    if Asking(s, e) == [] && |t.pending| >= |Kept(s, e)| then Callers(t.pending[|Kept(s, e)|..]) else []
  }

  /** The queue is a queue: who is served leaves at its front and who begins to wait joins at its end. */
  ghost predicate InOrder(s: State, e: Event, t: State) {
    && Kept(s, e) <= t.pending
    && Serving(s, e, t) + t.waiting == s.waiting + Joining(s, e, t)
  }

  lemma OneCaller(before: seq<Task>, task: Task)
    ensures before <= before + [task] && Callers((before + [task])[|before|..]) == [task.cb]
  {
    assert (before + [task])[|before|..] == [task] && [task][..0] == [];
    assert Callers([]) == [];
  }

  lemma NoCaller(before: seq<Task>)
    ensures Callers(before[|before|..]) == []
  {
  }

  /** What handing on a connection or a place does to the queue. */
  ghost predicate PassedOn(s: State, t: State) {
    && s.pending <= t.pending
    && Callers(t.pending[|s.pending|..]) + t.waiting == s.waiting
  }

  lemma PassedOnNothing(s: State, t: State)
    requires t.pending == s.pending && t.waiting == s.waiting
    ensures PassedOn(s, t)
  {
    NoCaller(s.pending);
  }

  lemma PassedOnFirst(s: State, t: State, task: Task)
    requires s.waiting != [] && t.waiting == s.waiting[1..] && t.pending == s.pending + [task]
    requires task.cb == s.waiting[0]
    ensures PassedOn(s, t)
  {
    hide Callers;
    OneCaller(s.pending, task);
  }

  lemma RetryPassesOn(s: State)
    ensures PassedOn(s, RetryFirst(s))
  {
    hide PassedOn;
    if s.waiting == [] {
      PassedOnNothing(s, s);
    } else {
      PassedOnFirst(s, RetryFirst(s), Retry(s.waiting[0]));
    }
  }

  lemma HandlePassesOn(s: State, c: Conn)
    ensures PassedOn(s, HandleSuccessfulRelease(s, c))
  {
    hide PassedOn;
    if s.waiting == [] {
      PassedOnNothing(s, HandleSuccessfulRelease(s, c));
    } else {
      PassedOnFirst(s, HandleSuccessfulRelease(s, c), Deliver(s.waiting[0], c));
    }
  }

  lemma ReleasePassesOn(cfg: Config, s: State, c: Conn)
    requires c < |s.links|
    ensures PassedOn(s, ReleaseConnection(cfg, s, c))
  {
    hide PassedOn, RetryFirst, HandleSuccessfulRelease;
    RetryPassesOn(s);
    HandlePassesOn(s, c);
    PassedOnNothing(s, s.(resetting := s.resetting + {c}));
  }

  /** Passing on depends on the queue and the scheduled calls only. */
  lemma PassedOnFrom(s: State, s': State, t: State)
    requires PassedOn(s', t) && s'.pending == s.pending && s'.waiting == s.waiting
    ensures PassedOn(s, t)
  {
  }

  lemma RemovePassesOn(cfg: Config, s: State, c: Conn)
    ensures PassedOn(s, RemoveFromPool(cfg, s, c))
  {
    hide PassedOn, ReleaseConnection, Without;
    if c >= |s.links| || !s.links[c].pooled || s.closed {
      PassedOnNothing(s, s);
    } else {
      var s' := SetLink(s, c, s.links[c].(pooled := false)).(
        all := Without<Conn>(s.all, c), free := Without<Conn>(s.free, c));
      ReleasePassesOn(cfg, s', c);
      PassedOnFrom(s, s', RemoveFromPool(cfg, s, c));
    }
  }

  lemma ReleasedPassesOn(cfg: Config, s: State, c: Conn, now: int)
    ensures PassedOn(s, Release(cfg, s, c, now))
  {
    hide PassedOn, ReleaseConnection;
    if c !in s.known || c >= |s.links| || s.links[c].released || !s.links[c].pooled || s.closed {
      PassedOnNothing(s, s);
    } else {
      var s' := SetLink(s, c, Link(true, true, now)).(held := s.held - {c});
      ReleasePassesOn(cfg, s', c);
      PassedOnFrom(s, s', Release(cfg, s, c, now));
    }
  }

  lemma ResetPassesOn(s: State, c: Conn, ok: bool)
    ensures PassedOn(s, ResetDone(s, c, ok))
  {
    hide PassedOn, RetryFirst, HandleSuccessfulRelease, Without;
    if c !in s.resetting || c >= |s.links| {
      PassedOnNothing(s, s);
    } else {
      var s' := s.(resetting := s.resetting - {c});
      if ok {
        HandlePassesOn(s', c);
        PassedOnFrom(s, s', ResetDone(s, c, ok));
      } else {
        var s'' := SetLink(s', c, s.links[c].(pooled := false)).(all := Without<Conn>(s.all, c));
        RetryPassesOn(s'');
        PassedOnFrom(s, s'', ResetDone(s, c, ok));
      }
    }
  }

  lemma {:induction false} FailAllCallers(tasks: seq<Task>, cbs: seq<Callback>)
    ensures Callers(tasks + FailAll(cbs)) == Callers(tasks) + cbs
    decreases |cbs|
  {
    hide Callers;
    if cbs == [] {
      assert tasks + FailAll(cbs) == tasks;
    } else {
      assert tasks + FailAll(cbs) == (tasks + [Fail(cbs[0])]) + FailAll(cbs[1..]);
      FailAllCallers(tasks + [Fail(cbs[0])], cbs[1..]);
      CallersSnoc(tasks, Fail(cbs[0]));
      assert cbs == [cbs[0]] + cbs[1..];
    }
  }

  lemma CallersSnoc(tasks: seq<Task>, task: Task)
    ensures Callers(tasks + [task]) == Callers(tasks) + [task.cb]
  {
    assert (tasks + [task])[..|tasks|] == tasks;
  }

  lemma EndPassesOn(s: State)
    ensures PassedOn(s, End(s))
  {
    hide FailAll;
    FailAllCallers([], s.waiting);
    assert [] + FailAll(s.waiting) == FailAll(s.waiting);
    assert End(s).pending[|s.pending|..] == FailAll(s.waiting);
  }

  /** A caller that asks goes past nobody: it is answered or scheduled, or it joins at the end. */
  lemma GetInOrder(cfg: Config, s: State, cb: Callback, now: int)
    ensures var t := GetConnection(cfg, s, cb, now);
            && s.pending <= t.pending
            && t.waiting == s.waiting + if |t.waiting| > |s.waiting| then [cb] else []
  {
  }

  lemma PassedOnInOrder(s: State, e: Event, t: State)
    requires Asking(s, e) == [] && !RunsTask(s, e) && PassedOn(s, t)
    ensures InOrder(s, e, t)
  {
    hide Callers;
  }

  lemma TaskInOrder(cfg: Config, s: State, i: nat, now: int)
    ensures InOrder(s, EvTask(i), RunTask(cfg, s, i, now))
  {
    hide GetConnection, Callers;
    NoCaller(s.pending);
    if RunsTask(s, EvTask(i)) {
      var t := s.(pending := RemoveAt(s.pending, i));
      NoCaller(t.pending);
      GetInOrder(cfg, t, s.pending[i].cb, now);
    }
  }

  lemma ConnectedInOrder(cfg: Config, s: State, i: nat, ok: bool)
    ensures InOrder(s, EvConnected(i, ok), Connected(cfg, s, i, ok))
  {
    hide RemoveFromPool, Callers;
    NoCaller(s.pending);
    if RunsTask(s, EvConnected(i, ok)) {
      var t := s.(pending := RemoveAt(s.pending, i));
      NoCaller(t.pending);
      RemovePassesOn(cfg, t, s.pending[i].conn);
    }
  }

  /** Every step serves the callers that have waited longest and nobody else of those waiting. */
  lemma StepInOrder(cfg: Config, s: State, e: Event, now: int)
    ensures InOrder(s, e, Step(cfg, s, e, now))
  {
    hide GetConnection, RunTask, Connected, Release, RemoveFromPool, ResetDone, End, PassedOn;
    match e
    case EvGet(cb) =>
      GetInOrder(cfg, s, cb, now);
    case EvTask(i) => TaskInOrder(cfg, s, i, now);
    case EvConnected(i, ok) => ConnectedInOrder(cfg, s, i, ok);
    case EvRelease(c) =>
      ReleasedPassesOn(cfg, s, c, now);
      PassedOnInOrder(s, e, Release(cfg, s, c, now));
    case EvLost(c) =>
      RemovePassesOn(cfg, s, c);
      PassedOnInOrder(s, e, RemoveFromPool(cfg, s, c));
    case EvReset(c, ok) =>
      ResetPassesOn(s, c, ok);
      PassedOnInOrder(s, e, ResetDone(s, c, ok));
    case EvEnd =>
      EndPassesOn(s);
      PassedOnInOrder(s, e, End(s));
  }

  // ---------------------------------------------------------------- runs

  /** The callers that a run has served from the queue, in order. */
  function Served(cfg: Config, events: seq<(Event, int)>): seq<Callback> {
    if events == [] then []
    else
      var before := events[..|events| - 1];
      Served(cfg, before) + Serving(Run(cfg, before), events[|events| - 1].0, Run(cfg, events))
  }

  /** The callers that have begun to wait, in order. */
  function Joined(cfg: Config, events: seq<(Event, int)>): seq<Callback> {
    if events == [] then []
    else
      var before := events[..|events| - 1];
      Joined(cfg, before) + Joining(Run(cfg, before), events[|events| - 1].0, Run(cfg, events))
  }

  /** In every run the callers served, followed by those who wait, are those who have begun to wait: the first
      to wait is the first to be served. */
  lemma {:induction false} FirstComeFirstServed(cfg: Config, events: seq<(Event, int)>)
    ensures Served(cfg, events) + Run(cfg, events).waiting == Joined(cfg, events)
  {
    hide Run, Step, Serving, Joining, Kept;
    if events == [] {
      NobodyWaits(cfg);
    } else {
      var before := events[..|events| - 1];
      var (e, now) := events[|events| - 1];
      var s, t := Run(cfg, before), Run(cfg, events);
      FirstComeFirstServed(cfg, before);
      LastStep(cfg, events);
      StepInOrder(cfg, s, e, now);
      assert (Served(cfg, before) + Serving(s, e, t)) + t.waiting ==
        Served(cfg, before) + (Serving(s, e, t) + t.waiting);
      assert Served(cfg, before) + (s.waiting + Joining(s, e, t)) ==
        (Served(cfg, before) + s.waiting) + Joining(s, e, t);
    }
  }

  lemma NobodyWaits(cfg: Config)
    ensures Run(cfg, []).waiting == []
  {
  }

  lemma LastStep(cfg: Config, events: seq<(Event, int)>)
    requires events != []
    ensures Run(cfg, events) ==
            Step(cfg, Run(cfg, events[..|events| - 1]), events[|events| - 1].0, events[|events| - 1].1)
  {
    hide Step;
  }

  lemma {:induction false} Extends(cfg: Config, events: seq<(Event, int)>, more: seq<(Event, int)>)
    ensures Served(cfg, events) <= Served(cfg, events + more)
    ensures Joined(cfg, events) <= Joined(cfg, events + more)
    decreases |more|
  {
    hide Run, Serving, Joining;
    if more == [] {
      assert events + more == events;
    } else {
      Extends(cfg, events, more[..|more| - 1]);
      assert (events + more)[..|events + more| - 1] == events + more[..|more| - 1];
    }
  }

  /** Of the callers that wait after a run, the i-th is the i-th to be served from then on, whatever happens:
      none is served before one that was there earlier. */
  lemma ServedInTurn(cfg: Config, events: seq<(Event, int)>, more: seq<(Event, int)>, i: nat)
    requires i < |Run(cfg, events).waiting|
    ensures var later := Served(cfg, events + more);
            && Served(cfg, events) <= later
            && var since := later[|Served(cfg, events)|..];
               if i < |since| then since[i] == Run(cfg, events).waiting[i]
               else var still := Run(cfg, events + more).waiting;
                    i - |since| < |still| && still[i - |since|] == Run(cfg, events).waiting[i]
  {
    hide Run, Served, Joined;
    FirstComeFirstServed(cfg, events);
    FirstComeFirstServed(cfg, events + more);
    Extends(cfg, events, more);
    var was, later := Served(cfg, events), Served(cfg, events + more);
    var waiting := Run(cfg, events).waiting;
    assert (was + waiting)[|was| + i] == waiting[i];
    assert Joined(cfg, events + more)[|was| + i] == waiting[i];
  }

  // ---------------------------------------------------------------- refusals

  function RefusalOf(t: Task): multiset<Callback> {
    if t.Fail? then multiset{t.cb} else multiset{}
  }

  function RefusalsIn(tasks: seq<Task>): multiset<Callback> {
    if tasks == [] then multiset{} else RefusalsIn(tasks[..|tasks| - 1]) + RefusalOf(tasks[|tasks| - 1])
  }

  function RefusalsAmong(called: seq<(Callback, Answer)>): multiset<Callback> {
    if called == [] then multiset{}
    else
      var (cb, answer) := called[|called| - 1];
      RefusalsAmong(called[..|called| - 1]) + if answer.Refused? then multiset{cb} else multiset{}
  }

  /** The callers that were refused or whose refusal is on its way. */
  function Refusals(s: State): multiset<Callback> {
    RefusalsIn(s.pending) + RefusalsAmong(s.called)
  }

  /** Nobody can be given a connection or a place in the queue. */
  predicate Full(cfg: Config, s: State) {
    && s.free == []
    && cfg.connectionLimit != 0 && |s.all| >= cfg.connectionLimit
    && (!cfg.waitForConnections || (cfg.queueLimit != 0 && |s.waiting| >= cfg.queueLimit))
  }

  /** Whom an event refuses: a caller that asks a closed or full pool, one whose connection fails or comes when
      the pool is closed, and everybody who waits when it is closed. */
  function Refusing(cfg: Config, s: State, e: Event): multiset<Callback> {
    match e
    case EvEnd => multiset(s.waiting)
    case EvConnected(i, ok) =>
      if i < |s.pending| && s.pending[i].Connect? && (!ok || s.closed) then multiset{s.pending[i].cb} else multiset{}
    case _ => if s.closed || Full(cfg, s) then multiset(Asking(s, e)) else multiset{}
  }

  lemma RefusalsSnoc(tasks: seq<Task>, t: Task)
    ensures RefusalsIn(tasks + [t]) == RefusalsIn(tasks) + RefusalOf(t)
  {
    assert (tasks + [t])[..|tasks|] == tasks;
  }

  lemma AnswerSnoc(called: seq<(Callback, Answer)>, cb: Callback, answer: Answer)
    ensures RefusalsAmong(called + [(cb, answer)]) ==
            RefusalsAmong(called) + if answer.Refused? then multiset{cb} else multiset{}
  {
    assert (called + [(cb, answer)])[..|called|] == called;
  }

  lemma {:induction false} RefusalsAt(tasks: seq<Task>, i: nat)
    requires i < |tasks|
    ensures RefusalsIn(tasks) == RefusalsIn(RemoveAt(tasks, i)) + RefusalOf(tasks[i])
  {
    hide RefusalsIn, RefusalOf;
    var init, last := tasks[..|tasks| - 1], tasks[|tasks| - 1];
    assert tasks == init + [last];
    RefusalsSnoc(init, last);
    if i < |init| {
      RefusalsAt(init, i);
      assert RemoveAt(tasks, i) == RemoveAt(init, i) + [last];
      RefusalsSnoc(RemoveAt(init, i), last);
    } else {
      assert RemoveAt(tasks, i) == init;
    }
  }

  lemma {:induction false} FailAllRefusals(tasks: seq<Task>, cbs: seq<Callback>)
    ensures RefusalsIn(tasks + FailAll(cbs)) == RefusalsIn(tasks) + multiset(cbs)
    decreases |cbs|
  {
    hide RefusalsIn;
    if cbs == [] {
      assert tasks + FailAll(cbs) == tasks;
    } else {
      assert tasks + FailAll(cbs) == (tasks + [Fail(cbs[0])]) + FailAll(cbs[1..]);
      FailAllRefusals(tasks + [Fail(cbs[0])], cbs[1..]);
      RefusalsSnoc(tasks, Fail(cbs[0]));
      assert cbs == [cbs[0]] + cbs[1..];
    }
  }

  lemma GetRefusals(cfg: Config, s: State, cb: Callback, now: int)
    ensures Refusals(GetConnection(cfg, s, cb, now)) ==
            Refusals(s) + if s.closed || Full(cfg, s) then multiset{cb} else multiset{}
  {
    hide RefusalsIn, RefusalsAmong;
    var t := GetConnection(cfg, s, cb, now);
    AnswerSnoc(s.called, cb, Refused);
    if |t.pending| > |s.pending| {
      RefusalsSnoc(s.pending, t.pending[|s.pending|]);
    }
  }

  lemma RetryRefusals(s: State)
    ensures Refusals(RetryFirst(s)) == Refusals(s)
  {
    hide RefusalsIn, RefusalsAmong;
    if s.waiting != [] {
      RefusalsSnoc(s.pending, Retry(s.waiting[0]));
    }
  }

  lemma HandleRefusals(s: State, c: Conn)
    ensures Refusals(HandleSuccessfulRelease(s, c)) == Refusals(s)
  {
    hide RefusalsIn, RefusalsAmong;
    if s.waiting != [] {
      RefusalsSnoc(s.pending, Deliver(s.waiting[0], c));
    }
  }

  lemma ReleaseRefusals(cfg: Config, s: State, c: Conn)
    requires c < |s.links|
    ensures Refusals(ReleaseConnection(cfg, s, c)) == Refusals(s)
  {
    hide RefusalsIn, RefusalsAmong, RetryFirst, HandleSuccessfulRelease;
    RetryRefusals(s);
    HandleRefusals(s, c);
  }

  lemma RemoveRefusals(cfg: Config, s: State, c: Conn)
    ensures Refusals(RemoveFromPool(cfg, s, c)) == Refusals(s)
  {
    hide RefusalsIn, RefusalsAmong, Without;
    if c < |s.links| {
      ReleaseRefusals(cfg, SetLink(s, c, s.links[c].(pooled := false)).(
        all := Without<Conn>(s.all, c), free := Without<Conn>(s.free, c)), c);
    }
  }

  lemma CallRefusals(s: State, cb: Callback, answer: Answer)
    ensures Refusals(Call(s, cb, answer)) == Refusals(s) + if answer.Refused? then multiset{cb} else multiset{}
  {
    hide RefusalsIn, RefusalsAmong;
    AnswerSnoc(s.called, cb, answer);
  }

  lemma TakenRefusals(s: State, i: nat)
    requires i < |s.pending|
    ensures Refusals(s) == Refusals(s.(pending := RemoveAt(s.pending, i))) + RefusalOf(s.pending[i])
  {
    hide RefusalsIn, RefusalsAmong, RefusalOf;
    RefusalsAt(s.pending, i);
  }

  lemma HandOutRefusals(s: State, cb: Callback, c: Conn, link: Link)
    requires c < |s.links|
    ensures Refusals(HandOut(SetLink(s, c, link), cb, c)) == Refusals(s)
  {
    hide RefusalsIn, RefusalsAmong;
    AnswerSnoc(s.called, cb, Got(c));
  }

  lemma TaskRefusals(cfg: Config, s: State, i: nat, now: int)
    ensures Refusals(RunTask(cfg, s, i, now)) == Refusals(s) + Refusing(cfg, s, EvTask(i))
  {
    hide Refusals, GetConnection, HandOut, Call, Full;
    if i < |s.pending| {
      var t := s.(pending := RemoveAt(s.pending, i));
      TakenRefusals(s, i);
      match s.pending[i]
      case Fail(cb) => CallRefusals(t, cb, Refused);
      case Deliver(cb, c) =>
        if c < |s.links| {
          HandOutRefusals(t, cb, c, s.links[c].(released := false));
        }
      case Retry(cb) => RetryTaskRefusals(cfg, s, i, now);
      case Connect(_, _) =>
    }
  }

  lemma RetryTaskRefusals(cfg: Config, s: State, i: nat, now: int)
    requires i < |s.pending| && s.pending[i].Retry?
    ensures Refusals(RunTask(cfg, s, i, now)) == Refusals(s) + Refusing(cfg, s, EvTask(i))
  {
    hide Refusals, GetConnection;
    var t, cb := s.(pending := RemoveAt(s.pending, i)), s.pending[i].cb;
    TakenRefusals(s, i);
    assert Refusals(s) == Refusals(t);
    GetRefusals(cfg, t, cb, now);
    assert multiset([cb]) == multiset{cb} && Full(cfg, t) == Full(cfg, s);
  }

  lemma ConnectedRefusals(cfg: Config, s: State, i: nat, ok: bool)
    ensures Refusals(Connected(cfg, s, i, ok)) == Refusals(s) + Refusing(cfg, s, EvConnected(i, ok))
  {
    hide RefusalsIn, RefusalsAmong, RemoveFromPool;
    if i < |s.pending| && s.pending[i].Connect? {
      var t, cb, c := s.(pending := RemoveAt(s.pending, i)), s.pending[i].cb, s.pending[i].conn;
      RefusalsAt(s.pending, i);
      if !ok {
        RemoveRefusals(cfg, t, c);
        CallRefusals(RemoveFromPool(cfg, t, c), cb, Refused);
      } else {
        CallRefusals(t, cb, if s.closed then Refused else Got(c));
      }
    }
  }

  lemma ResetRefusals(s: State, c: Conn, ok: bool)
    ensures Refusals(ResetDone(s, c, ok)) == Refusals(s)
  {
    hide RefusalsIn, RefusalsAmong, RetryFirst, HandleSuccessfulRelease, Without;
    if c in s.resetting && c < |s.links| {
      var t := s.(resetting := s.resetting - {c});
      HandleRefusals(t, c);
      RetryRefusals(SetLink(t, c, s.links[c].(pooled := false)).(all := Without<Conn>(s.all, c)));
    }
  }

  /** A step refuses exactly the callers listed, and a refusal is never taken back. */
  lemma RefusedExactly(cfg: Config, s: State, e: Event, now: int)
    ensures Refusals(Step(cfg, s, e, now)) == Refusals(s) + Refusing(cfg, s, e)
  {
    hide RefusalsIn, RefusalsAmong, GetConnection, ReleaseConnection, RunTask, Connected, RemoveFromPool, ResetDone,
      FailAll, Full;
    match e
    case EvGet(cb) =>
      GetRefusals(cfg, s, cb, now);
      assert multiset([cb]) == multiset{cb};
    case EvTask(i) => TaskRefusals(cfg, s, i, now);
    case EvConnected(i, ok) => ConnectedRefusals(cfg, s, i, ok);
    case EvRelease(c) =>
      if c < |s.links| {
        ReleaseRefusals(cfg, SetLink(s, c, Link(true, true, now)).(held := s.held - {c}), c);
      }
    case EvLost(c) => RemoveRefusals(cfg, s, c);
    case EvReset(c, ok) => ResetRefusals(s, c, ok);
    case EvEnd => FailAllRefusals(s.pending, s.waiting);
  }
}
