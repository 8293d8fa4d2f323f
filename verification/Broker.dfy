/** The load-balancing broker and its workers: the broker's own loop, and the
    system of clients, broker and workers with messages in flight. */
module Brokers {
  import opened Wrappers

  type Identity = seq<nat>
  type Worker = nat
  type Body = nat

  const READY: nat := 1
  const COUNTER: nat := 0x1_0000_0000

  /** A request on its way to a worker, or the reply to it on its way back: the
      worker replaces the last frame and leaves the client's address as it was. */
  datatype Message = Message(client: Identity, body: Body)

  /** What a worker sends: that it is ready, or the reply to a request. */
  datatype Envelope = Ready | Reply(message: Message)

  /** The broker tells the two apart by the first byte of the first frame, which in
      a reply is the client's identity. */
  predicate LooksReady(e: Envelope) {
    e.Ready? || Ambiguous(e.message)
  }

  predicate Ambiguous(m: Message) { m.client != [] && m.client[0] == READY }

  datatype State = State(workers: seq<Worker>, frx: nat, ftx: nat, brx: nat, btx: nat, nworkers: nat)

  function OnBackend(s: State, w: Worker, e: Envelope): State {
    var s := s.(workers := s.workers + [w]);
    if LooksReady(e) then s.(nworkers := (s.nworkers + 1) % COUNTER)
    else s.(brx := (s.brx + 1) % COUNTER, ftx := (s.ftx + 1) % COUNTER)
  }

  function OnFrontend(s: State): State
    requires s.workers != []
  {
    s.(workers := s.workers[1..], frx := (s.frx + 1) % COUNTER, btx := (s.btx + 1) % COUNTER)
  }

  class Broker {
    // Available workers, first come first served, and message counters.
    var workers: seq<Worker>
    var frx: nat
    var ftx: nat
    var brx: nat
    var btx: nat
    var nworkers: nat

    function Abstract(): State
      reads this
    { State(workers, frx, ftx, brx, btx, nworkers) }

    constructor ()
      ensures Abstract() == State([], 0, 0, 0, 0, 0)
    {
      workers, frx, ftx, brx, btx, nworkers := [], 0, 0, 0, 0, 0;
    }

    /** One iteration of the event loop.  The frontend is only polled, so a request
        is only there to be handled, when a worker was available before. */
    method Iterate(fromBackend: Option<(Worker, Envelope)>, fromFrontend: Option<Message>)
      returns (toClient: Option<Message>, toWorker: Option<(Worker, Message)>)
      requires fromFrontend.Some? ==> workers != []
      modifies this
      ensures var s := if fromBackend.Some? then OnBackend(old(Abstract()), fromBackend.value.0, fromBackend.value.1)
                       else old(Abstract());
              Abstract() == if fromFrontend.Some? then OnFrontend(s) else s
      ensures toClient == if fromBackend.Some? && !LooksReady(fromBackend.value.1)
                          then Some(fromBackend.value.1.message) else None
      ensures toWorker == if fromFrontend.Some? then Some((old(workers)[0], fromFrontend.value)) else None
      // In the broker's own terms: a reply is passed on and counted unless its
      // client's identity begins with byte 1; all else from a worker counts as ready.
      ensures fromBackend.Some? && fromBackend.value.1.Reply?
              && (var client := fromBackend.value.1.message.client; client == [] || client[0] != 1) ==>
                && toClient == Some(fromBackend.value.1.message) && nworkers == old(nworkers)
                && brx == (old(brx) + 1) % 0x1_0000_0000 && ftx == (old(ftx) + 1) % 0x1_0000_0000
      ensures fromBackend.Some?
              && (fromBackend.value.1.Reply? ==> var client := fromBackend.value.1.message.client; client != [] && client[0] == 1) ==>
                toClient == None && nworkers == (old(nworkers) + 1) % 0x1_0000_0000 && brx == old(brx) && ftx == old(ftx)
      ensures fromBackend.None? ==> toClient == None && nworkers == old(nworkers) && brx == old(brx) && ftx == old(ftx)
      ensures workers == (old(workers) + if fromBackend.Some? then [fromBackend.value.0] else [])[(if fromFrontend.Some? then 1 else 0)..]
      ensures fromFrontend.Some? ==>
                frx == (old(frx) + 1) % 0x1_0000_0000 && btx == (old(btx) + 1) % 0x1_0000_0000
      ensures fromFrontend.None? ==> frx == old(frx) && btx == old(btx)
    {
      toClient, toWorker := None, None;
      if fromBackend.Some? {
        var (identity, e) := fromBackend.value;
        workers := workers + [identity];
        if LooksReady(e) {
          nworkers := (nworkers + 1) % COUNTER;
        } else {
          brx := (brx + 1) % COUNTER;
          toClient := Some(e.message);
          ftx := (ftx + 1) % COUNTER;
        }
      }
      if fromFrontend.Some? {
        frx := (frx + 1) % COUNTER;
        toWorker := Some((workers[0], fromFrontend.value));
        workers := workers[1..];
        btx := (btx + 1) % COUNTER;
      }
    }
  }

  /* ----- the system ----- */

  /** Everything in the system, with what has happened so far. */
  datatype System = System(
    broker: State,
    frontend: seq<Message>,              // requests waiting at the broker
    busy: seq<(Worker, Message)>,        // requests sent to workers and not yet answered
    backend: seq<(Worker, Envelope)>,    // messages from workers waiting at the broker
    started: seq<Worker>,                // workers, in the order they connected
    sent: seq<Message>,                  // requests of all clients
    delivered: seq<Message>,             // replies passed on to their clients
    dropped: seq<Message>,               // replies taken for ready signals
    queued: seq<Worker>,                 // all workers ever queued
    dispatched: seq<Worker>)             // all workers ever given a request

  const INITIAL: System := System(State([], 0, 0, 0, 0, 0), [], [], [], [], [], [], [], [], [])

  datatype Action =
    | Connect(w: Worker)
    | Request(message: Message)
    | Work(i: nat)
    | Loop(fromBackend: Option<nat>, fromFrontend: Option<nat>)

  predicate Enabled(s: System, a: Action) {
    match a
    case Connect(w) => w !in s.started
    case Request(_) => true
    case Work(i) => i < |s.busy|
    case Loop(b, f) =>
      && (b.Some? ==> b.value < |s.backend|)
      && (f.Some? ==> f.value < |s.frontend| && s.broker.workers != [])
  }

  function Without<T>(s: seq<T>, i: nat): seq<T>
    requires i < |s|
  { s[..i] + s[i + 1..] }

  function TakeBackend(s: System, i: nat): System
    requires i < |s.backend|
  {
    var (w, e) := s.backend[i];
    var s := s.(broker := OnBackend(s.broker, w, e), backend := Without(s.backend, i), queued := s.queued + [w]);
    match e
    case Ready => s
    case Reply(m) => if LooksReady(e) then s.(dropped := s.dropped + [m]) else s.(delivered := s.delivered + [m])
  }

  function TakeFrontend(s: System, i: nat): System
    requires i < |s.frontend| && s.broker.workers != []
  {
    var w, m := s.broker.workers[0], s.frontend[i];
    s.(broker := OnFrontend(s.broker), frontend := Without(s.frontend, i),
       busy := s.busy + [(w, m)], dispatched := s.dispatched + [w])
  }

  function Step(s: System, a: Action): System
    requires Enabled(s, a)
  {
    match a
    case Connect(w) => s.(started := s.started + [w], backend := s.backend + [(w, Ready)])
    case Request(m) => s.(frontend := s.frontend + [m], sent := s.sent + [m])
    case Work(i) =>
      var (w, m) := s.busy[i];
      s.(busy := Without(s.busy, i), backend := s.backend + [(w, Reply(m))])
    case Loop(b, f) =>
      var s := if b.Some? then TakeBackend(s, b.value) else s;
      if f.Some? then TakeFrontend(s, f.value) else s
  }

  /* ----- invariants ----- */

  function Workers<T>(s: seq<(Worker, T)>): (m: multiset<Worker>) {
    if s == [] then multiset{} else multiset{s[0].0} + Workers(s[1..])
  }

  function Requests(s: seq<(Worker, Message)>): multiset<Message> {
    if s == [] then multiset{} else multiset{s[0].1} + Requests(s[1..])
  }

  function Replies(s: seq<(Worker, Envelope)>): multiset<Message> {
    if s == [] then multiset{}
    else (if s[0].1.Reply? then multiset{s[0].1.message} else multiset{}) + Replies(s[1..])
  }

  /** Every connected worker is in exactly one place. */
  predicate WorkersConserved(s: System) {
    && multiset(s.broker.workers) + Workers(s.busy) + Workers(s.backend) == multiset(s.started)
    && forall i, k | 0 <= i < k < |s.started| :: s.started[i] != s.started[k]
  }

  /** Every request is waiting, being worked on, answered, delivered or dropped. */
  predicate RequestsConserved(s: System) {
    && multiset(s.sent) == multiset(s.frontend) + Requests(s.busy) + Replies(s.backend)
                           + multiset(s.delivered) + multiset(s.dropped)
    && (forall i | 0 <= i < |s.delivered| :: !Ambiguous(s.delivered[i]))
    && (forall i | 0 <= i < |s.dropped| :: Ambiguous(s.dropped[i]))
  }

  /** Workers are dispatched in the order in which they were queued. */
  predicate FirstComeFirstServed(s: System) {
    s.queued == s.dispatched + s.broker.workers
  }

  /** nworkers = |queue| + (btx - brx), as 32-bit numbers. */
  predicate CountersAgree(s: State) {
    && (s.nworkers + s.brx) % COUNTER == (|s.workers| + s.btx) % COUNTER
    && s.frx == s.btx && s.brx == s.ftx
  }

  predicate Inv(s: System) {
    WorkersConserved(s) && RequestsConserved(s) && FirstComeFirstServed(s) && CountersAgree(s.broker)
  }

  /* ----- every step keeps the invariant ----- */

  lemma {:induction false} WorkersSplit<T>(a: seq<(Worker, T)>, b: seq<(Worker, T)>)
    ensures Workers(a + b) == Workers(a) + Workers(b)
  {
    if a == [] {
      assert a + b == b;
    } else {
      assert (a + b)[1..] == a[1..] + b;
      WorkersSplit(a[1..], b);
    }
  }

  lemma {:induction false} RequestsSplit(a: seq<(Worker, Message)>, b: seq<(Worker, Message)>)
    ensures Requests(a + b) == Requests(a) + Requests(b)
  {
    if a == [] {
      assert a + b == b;
    } else {
      assert (a + b)[1..] == a[1..] + b;
      RequestsSplit(a[1..], b);
    }
  }

  lemma {:induction false} RepliesSplit(a: seq<(Worker, Envelope)>, b: seq<(Worker, Envelope)>)
    ensures Replies(a + b) == Replies(a) + Replies(b)
  {
    if a == [] {
      assert a + b == b;
    } else {
      assert (a + b)[1..] == a[1..] + b;
      RepliesSplit(a[1..], b);
    }
  }

  lemma Parts<T>(s: seq<T>, i: nat)
    requires i < |s|
    ensures s == s[..i] + ([s[i]] + s[i + 1..])
    ensures multiset(Without(s, i)) == multiset(s) - multiset{s[i]}
  {
    assert s == s[..i] + ([s[i]] + s[i + 1..]);
  }

  lemma WorkersWithout<T>(s: seq<(Worker, T)>, i: nat)
    requires i < |s|
    ensures Workers(s) == Workers(Without(s, i)) + multiset{s[i].0}
  {
    Parts(s, i);
    WorkersSplit(s[..i], [s[i]] + s[i + 1..]);
    WorkersSplit([s[i]], s[i + 1..]);
    WorkersSplit(s[..i], s[i + 1..]);
  }

  lemma RequestsWithout(s: seq<(Worker, Message)>, i: nat)
    requires i < |s|
    ensures Requests(s) == Requests(Without(s, i)) + multiset{s[i].1}
  {
    Parts(s, i);
    RequestsSplit(s[..i], [s[i]] + s[i + 1..]);
    RequestsSplit([s[i]], s[i + 1..]);
    RequestsSplit(s[..i], s[i + 1..]);
  }

  lemma RepliesWithout(s: seq<(Worker, Envelope)>, i: nat)
    requires i < |s|
    ensures Replies(s) == Replies(Without(s, i)) + Replies([s[i]])
  {
    Parts(s, i);
    RepliesSplit(s[..i], [s[i]] + s[i + 1..]);
    RepliesSplit([s[i]], s[i + 1..]);
    RepliesSplit(s[..i], s[i + 1..]);
  }

  lemma ModAdd(x: nat, y: nat)
    ensures (x % COUNTER + y) % COUNTER == (x + y) % COUNTER
  {}

  lemma CountersStep(s: State, w: Worker, e: Envelope)
    requires CountersAgree(s)
    ensures CountersAgree(OnBackend(s, w, e))
    ensures s.workers != [] ==> CountersAgree(OnFrontend(s))
  {
    ModAdd(s.nworkers + 1, s.brx);
    ModAdd(s.brx + 1, s.nworkers);
    ModAdd(s.nworkers + s.brx, 1);
    ModAdd(|s.workers| + s.btx, 1);
    if s.workers != [] {
      ModAdd(s.btx + 1, |s.workers| - 1);
    }
  }

  /** A message leaves the backend, and its sender joins the queue. */
  lemma BackendWorkers(queue: seq<Worker>, busy: multiset<Worker>, backend: seq<(Worker, Envelope)>, i: nat)
    requires i < |backend|
    ensures multiset(queue + [backend[i].0]) + busy + Workers(Without(backend, i)) == multiset(queue) + busy + Workers(backend)
  {
    WorkersWithout(backend, i);
  }

  lemma BackendReady(rest: multiset<Message>, backend: seq<(Worker, Envelope)>, i: nat)
    requires i < |backend| && backend[i].1.Ready?
    ensures rest + Replies(Without(backend, i)) == rest + Replies(backend)
  {
    RepliesWithout(backend, i);
    assert Replies([backend[i]]) == multiset{};
  }

  lemma BackendReply(rest: multiset<Message>, backend: seq<(Worker, Envelope)>, i: nat, out: seq<Message>)
    requires i < |backend| && backend[i].1.Reply?
    ensures rest + Replies(Without(backend, i)) + multiset(out + [backend[i].1.message])
         == rest + Replies(backend) + multiset(out)
  {
    RepliesWithout(backend, i);
    assert Replies([backend[i]]) == multiset{backend[i].1.message};
  }

  lemma FrontendWorkers(queue: seq<Worker>, busy: seq<(Worker, Message)>, rest: multiset<Worker>, m: Message)
    requires queue != []
    ensures multiset(queue[1..]) + Workers(busy + [(queue[0], m)]) + rest == multiset(queue) + Workers(busy) + rest
  {
    var w := queue[0];
    assert queue == [w] + queue[1..];
    WorkersSplit(busy, [(w, m)]);
    assert Workers([(w, m)]) == multiset{w};
    MoveOne(multiset(queue), multiset(queue[1..]), w, Workers(busy), Workers(busy + [(w, m)]), rest);
  }

  lemma MoveOne(a: multiset<Worker>, a': multiset<Worker>, w: Worker, b: multiset<Worker>, b': multiset<Worker>, rest: multiset<Worker>)
    requires a == multiset{w} + a' && b' == b + multiset{w}
    ensures a' + b' + rest == a + b + rest
  {}

  lemma FrontendRequests(frontend: seq<Message>, i: nat, busy: seq<(Worker, Message)>, w: Worker, rest: multiset<Message>)
    requires i < |frontend|
    ensures multiset(Without(frontend, i)) + Requests(busy + [(w, frontend[i])]) + rest
         == multiset(frontend) + Requests(busy) + rest
  {
    Parts(frontend, i);
    RequestsSplit(busy, [(w, frontend[i])]);
    assert Requests([(w, frontend[i])]) == multiset{frontend[i]};
  }

  lemma WorkWorkers(rest: multiset<Worker>, busy: seq<(Worker, Message)>, i: nat, backend: seq<(Worker, Envelope)>)
    requires i < |busy|
    ensures rest + Workers(Without(busy, i)) + Workers(backend + [(busy[i].0, Reply(busy[i].1))])
         == rest + Workers(busy) + Workers(backend)
  {
    WorkersWithout(busy, i);
    WorkersSplit(backend, [(busy[i].0, Reply(busy[i].1))]);
    assert Workers([(busy[i].0, Reply(busy[i].1))]) == multiset{busy[i].0};
  }

  lemma WorkRequests(rest: multiset<Message>, busy: seq<(Worker, Message)>, i: nat, backend: seq<(Worker, Envelope)>)
    requires i < |busy|
    ensures rest + Requests(Without(busy, i)) + Replies(backend + [(busy[i].0, Reply(busy[i].1))])
         == rest + Requests(busy) + Replies(backend)
  {
    RequestsWithout(busy, i);
    RepliesSplit(backend, [(busy[i].0, Reply(busy[i].1))]);
    assert Replies([(busy[i].0, Reply(busy[i].1))]) == multiset{busy[i].1};
  }

  lemma Swap(a: multiset<Message>, x: multiset<Message>, b: multiset<Message>, c: multiset<Message>)
    ensures a + x + b + c == a + b + c + x
  {}

  lemma Exchange(a: multiset<Message>, b: multiset<Message>, c: multiset<Message>, d: multiset<Message>)
    ensures a + b + c + d == a + c + b + d
  {}

  lemma Group(a: multiset<Message>, b: multiset<Message>, c: multiset<Message>, d: multiset<Message>, e: multiset<Message>)
    ensures a + b + (c + d + e) == a + b + c + d + e
  {}

  lemma TakeBackendKeeps(s: System, i: nat)
    requires Inv(s) && i < |s.backend|
    ensures Inv(TakeBackend(s, i))
  {
    hide CountersAgree, Workers, Replies, Requests, Without;
    var (w, e) := s.backend[i];
    var inTransit := multiset(s.frontend) + Requests(s.busy);
    CountersStep(s.broker, w, e);
    BackendWorkers(s.broker.workers, Workers(s.busy), s.backend, i);
    if e.Ready? {
      BackendReady(inTransit, s.backend, i);
    } else if LooksReady(e) {
      BackendReply(inTransit + multiset(s.delivered), s.backend, i, s.dropped);
      Exchange(inTransit, multiset(s.delivered), Replies(s.backend), multiset(s.dropped));
      Exchange(inTransit, multiset(s.delivered), Replies(Without(s.backend, i)), multiset(s.dropped + [e.message]));
    } else {
      BackendReply(inTransit + multiset(s.dropped), s.backend, i, s.delivered);
      Swap(inTransit, multiset(s.dropped), Replies(s.backend), multiset(s.delivered));
      Swap(inTransit, multiset(s.dropped), Replies(Without(s.backend, i)), multiset(s.delivered + [e.message]));
    }
  }

  lemma TakeFrontendKeeps(s: System, i: nat)
    requires Inv(s) && i < |s.frontend| && s.broker.workers != []
    ensures Inv(TakeFrontend(s, i))
  {
    hide CountersAgree, Workers, Replies, Requests, Without;
    CountersStep(s.broker, 0, Ready);
    FrontendWorkers(s.broker.workers, s.busy, Workers(s.backend), s.frontend[i]);
    FrontendRequests(s.frontend, i, s.busy, s.broker.workers[0],
                     Replies(s.backend) + multiset(s.delivered) + multiset(s.dropped));
    Group(multiset(s.frontend), Requests(s.busy), Replies(s.backend), multiset(s.delivered), multiset(s.dropped));
    Group(multiset(Without(s.frontend, i)), Requests(s.busy + [(s.broker.workers[0], s.frontend[i])]),
          Replies(s.backend), multiset(s.delivered), multiset(s.dropped));
    assert s.broker.workers == [s.broker.workers[0]] + s.broker.workers[1..];
  }

  lemma ConnectKeeps(s: System, w: Worker)
    requires Inv(s) && w !in s.started
    ensures Inv(Step(s, Connect(w)))
  {
    hide CountersAgree, Workers, Replies, Requests;
    Arrival(s.backend, w);
  }

  lemma Arrival(backend: seq<(Worker, Envelope)>, w: Worker)
    ensures Workers(backend + [(w, Ready)]) == Workers(backend) + multiset{w}
    ensures Replies(backend + [(w, Ready)]) == Replies(backend)
  {
    WorkersSplit(backend, [(w, Ready)]);
    RepliesSplit(backend, [(w, Ready)]);
    assert Workers([(w, Ready)]) == multiset{w} && Replies([(w, Ready)]) == multiset{};
  }

  lemma WorkKeeps(s: System, i: nat)
    requires Inv(s) && i < |s.busy|
    ensures Inv(Step(s, Work(i)))
  {
    hide CountersAgree, Workers, Replies, Requests, Without;
    WorkWorkers(multiset(s.broker.workers), s.busy, i, s.backend);
    WorkRequests(multiset(s.frontend), s.busy, i, s.backend);
  }

  /** Whatever happens next, in whatever order, the invariant holds afterwards. */
  lemma StepKeeps(s: System, a: Action)
    requires Inv(s) && Enabled(s, a)
    ensures Inv(Step(s, a))
  {
    match a
    case Connect(w) => ConnectKeeps(s, w);
    case Request(m) => RequestKeeps(s, m);
    case Work(i) => WorkKeeps(s, i);
    case Loop(b, f) => LoopKeeps(s, b, f);
  }

  lemma RequestKeeps(s: System, m: Message)
    requires Inv(s)
    ensures Inv(Step(s, Request(m)))
  {
    hide CountersAgree, Workers, Replies, Requests;
  }

  lemma LoopKeeps(s: System, b: Option<nat>, f: Option<nat>)
    requires Inv(s) && Enabled(s, Loop(b, f))
    ensures Inv(Step(s, Loop(b, f)))
  {
    hide Inv, TakeFrontend;
    if b.Some? {
      TakeBackendKeeps(s, b.value);
    }
    if f.Some? {
      TakeFrontendKeeps(if b.Some? then TakeBackend(s, b.value) else s, f.value);
    }
  }

  /* ----- runs ----- */

  /** Taking the actions one after another leads from s to s'. */
  ghost predicate Run(s: System, actions: seq<Action>, s': System)
    decreases |actions|
  {
    if actions == [] then s == s'
    else Enabled(s, actions[0]) && Run(Step(s, actions[0]), actions[1..], s')
  }

  lemma {:induction false} RunKeeps(s: System, actions: seq<Action>, s': System)
    requires Inv(s) && Run(s, actions, s')
    ensures Inv(s')
    decreases |actions|
  {
    hide Inv, Step;
    if actions == [] {
    } else {
      StepKeeps(s, actions[0]);
      RunKeeps(Step(s, actions[0]), actions[1..], s');
    }
  }

  /** In every reachable state the system's laws hold. */
  lemma Safety(actions: seq<Action>, s: System)
    requires Run(INITIAL, actions, s)
    ensures Inv(s)
    ensures s.queued == s.dispatched + s.broker.workers
    ensures (s.broker.nworkers + s.broker.brx) % 0x1_0000_0000 == (|s.broker.workers| + s.broker.btx) % 0x1_0000_0000
    ensures |s.broker.workers| + |s.busy| + |s.backend| == |s.started|
    ensures |s.sent| >= |s.frontend| + |s.busy| + |s.delivered| + |s.dropped|
  {
    hide Run, WorkersConserved, RequestsConserved;
    assert Inv(INITIAL) by { InitiallyConserved(); }
    RunKeeps(INITIAL, actions, s);
    PlacesCount(s);
    KeptCount(s);
  }

  lemma InitiallyConserved()
    ensures Inv(INITIAL)
  {}

  lemma PlacesCount(s: System)
    requires WorkersConserved(s)
    ensures |s.broker.workers| + |s.busy| + |s.backend| == |s.started|
  {
    hide Workers;
    WorkersCount(s.busy);
    WorkersCount(s.backend);
    assert |multiset(s.broker.workers) + Workers(s.busy) + Workers(s.backend)| == |multiset(s.started)|;
  }

  lemma KeptCount(s: System)
    requires RequestsConserved(s)
    ensures |s.sent| >= |s.frontend| + |s.busy| + |s.delivered| + |s.dropped|
  {
    hide Requests, Replies;
    RequestsCount(s.busy);
    var kept := multiset(s.frontend) + Requests(s.busy) + Replies(s.backend) + multiset(s.delivered) + multiset(s.dropped);
    assert |kept| == |multiset(s.sent)|;
  }

  lemma {:induction false} WorkersCount<T>(s: seq<(Worker, T)>)
    ensures |Workers(s)| == |s|
  {
    if s == [] {
    } else {
      WorkersCount(s[1..]);
    }
  }

  lemma {:induction false} RequestsCount(s: seq<(Worker, Message)>)
    ensures |Requests(s)| == |s|
  {
    if s == [] {
    } else {
      RequestsCount(s[1..]);
    }
  }

  lemma {:induction false} WorkersMember<T>(s: seq<(Worker, T)>, i: nat)
    requires i < |s|
    ensures s[i].0 in Workers(s)
  {
    if i == 0 {
    } else {
      WorkersMember(s[1..], i - 1);
    }
  }

  /** A worker has at most one request outstanding, and none while it is queued. */
  lemma OneOutstanding(s: System, i: nat, k: nat)
    requires Inv(s) && i < |s.busy| && k < |s.busy| && i != k
    ensures s.busy[i].0 != s.busy[k].0
    ensures s.busy[i].0 !in s.broker.workers
  {
    var w := s.busy[i].0;
    OnceStarted(s.started, w);
    WorkersWithout(s.busy, i);
    WorkersMember(Without(s.busy, i), if k < i then k else k - 1);
  }

  lemma {:induction false} OnceStarted(s: seq<Worker>, w: Worker)
    requires forall i, k | 0 <= i < k < |s| :: s[i] != s[k]
    ensures multiset(s)[w] <= 1
  {
    if s == [] {
    } else {
      assert s == [s[0]] + s[1..];
      OnceStarted(s[1..], w);
    }
  }

  /** Every delivered reply answers a request of the client it went to, and no
      request is answered more often than it was made. */
  lemma RepliesReturn(s: System)
    requires Inv(s)
    ensures multiset(s.delivered) <= multiset(s.sent)
    ensures forall i | 0 <= i < |s.delivered| :: s.delivered[i] in s.sent
  {
    forall i | 0 <= i < |s.delivered| ensures s.delivered[i] in s.sent {
      assert s.delivered[i] in multiset(s.delivered);
      assert s.delivered[i] in multiset(s.sent);
    }
  }

  /** A reply is lost exactly when its client's identity begins with byte 1, like a
      ready signal: once the system is quiet, the requests of other clients are all
      delivered. */
  lemma OnlyAmbiguousRepliesAreLost(s: System)
    requires Inv(s) && s.frontend == [] && s.busy == [] && s.backend == []
    ensures forall m: Message ::
              multiset(s.delivered)[m] == if m.client != [] && m.client[0] == 1 then 0 else multiset(s.sent)[m]
    ensures forall m: Message ::
              multiset(s.dropped)[m] == if m.client != [] && m.client[0] == 1 then multiset(s.sent)[m] else 0
  {
    forall m
      ensures Ambiguous(m) ==> multiset(s.delivered)[m] == 0
      ensures !Ambiguous(m) ==> multiset(s.dropped)[m] == 0
    {
      if m in multiset(s.delivered) {
        assert m in s.delivered;
      }
      if m in multiset(s.dropped) {
        assert m in s.dropped;
      }
    }
  }

  lemma StepExtends(s: System, a: Action)
    requires Enabled(s, a)
    ensures s.queued <= Step(s, a).queued && s.dispatched <= Step(s, a).dispatched
  {}

  lemma {:induction false} RunExtends(s: System, actions: seq<Action>, s': System)
    requires Run(s, actions, s')
    ensures s.queued <= s'.queued && s.dispatched <= s'.dispatched
    decreases |actions|
  {
    hide Step;
    if actions == [] {
    } else {
      StepExtends(s, actions[0]);
      RunExtends(Step(s, actions[0]), actions[1..], s');
    }
  }

  /** The worker at queue position p gets exactly the (p+1)-th dispatch from now on. */
  lemma TurnByPosition(s: System, actions: seq<Action>, s': System, p: nat)
    requires Inv(s) && Run(s, actions, s')
    requires p < |s.broker.workers| && |s.dispatched| + p < |s'.dispatched|
    ensures s'.dispatched[|s.dispatched| + p] == s.broker.workers[p]
  {
    hide Step, WorkersConserved, RequestsConserved, CountersAgree;
    RunKeeps(s, actions, s');
    RunExtends(s, actions, s');
    hide Run;
    assert FirstComeFirstServed(s) && FirstComeFirstServed(s');
    Prefixes(s.dispatched, s.broker.workers, s'.dispatched, s'.broker.workers, p);
  }

  lemma Prefixes(d: seq<Worker>, q: seq<Worker>, d': seq<Worker>, q': seq<Worker>, p: nat)
    requires d + q <= d' + q' && p < |q| && |d| + p < |d'|
    ensures d'[|d| + p] == q[p]
  {
    assert (d + q)[|d| + p] == q[p];
    assert (d' + q')[|d| + p] == d'[|d| + p];
  }
}
