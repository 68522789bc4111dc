/**
 The connection manager (backend/app/db/mongodb.py, `MongoManager`). Calls do not overlap. What the
 driver, the event loop and the schema setup do on each await is a parameter, so every result holds
 for all of it: constructors that raise, failed and cancelled pings, cancelled back-off sleeps, schema
 setups that raise or are cancelled.
 */
module MongoManager {
  import opened Wrappers

  type Client = nat

  type Loop = nat

  datatype Settings = Production | Test | Development

  // One round of the retry loop. The first two raise before there is a database handle.
  datatype Attempt =
    | ConstructorRaises
    | DatabaseRaises(client: Client)
    | PingRaises(client: Client)
    | PingCancelled(client: Client)
    | Connects(client: Client)

  datatype SchemaEnd = SchemaDone | SchemaRaises | SchemaCancelled

  // What a call of `connect` meets. Attempts are numbered from 1.
  datatype World = World(
    settings: Settings, loop: Loop, loopClosed: bool,
    attempts: nat -> Attempt, sleepCancelled: nat -> bool, schema: SchemaEnd)

  datatype Result = Returned | Raised | Cancelled

  datatype Task = Task(client: Client, done: bool)

  // What is known of the schema setup on the client held.
  datatype Setup = NotFinished | Finished | Background

  // `open` and `setup` are not fields of the source: the clients not closed yet, and the setup's outcome.
  datatype State = State(
    client: Option<Client>, database: Option<Client>, loop: Option<Loop>, indexesReady: bool, task: Option<Task>,
    open: set<Client>, setup: Setup)
  {
    predicate IsReady() { client.Some? && indexesReady }
  }

  const START := State(None, None, None, false, None, {}, NotFinished)

  function MaxAttempts(settings: Settings): nat {
    if settings == Production then 3 else 5
  }

  // ---------- transitions ----------

  function Closed(s: State): State {
    if s.client.None? then s else
      s.(client := None, database := None, loop := None, open := s.open - {s.client.value}, setup := NotFinished)
  }

  function Disconnected(s: State): State {
    if s.client.None? then s.(task := None) else Closed(s).(indexesReady := false, task := None)
  }

  function Assigned(s: State, client: Client, loop: Loop): State {
    s.(client := Some(client), database := Some(client), loop := Some(loop), open := s.open + {client})
  }

  // One round, up to and including the cleanup of a failed one. No result means that it failed.
  function Round(s: State, world: World, attempt: nat): (State, Option<Result>) {
    match world.attempts(attempt)
    case ConstructorRaises => (Closed(s), None)
    case DatabaseRaises(c) => (Closed(s.(client := Some(c), open := s.open + {c})), None)
    case PingRaises(c) => (Closed(Assigned(s, c, world.loop)), None)
    case PingCancelled(c) => (Assigned(s, c, world.loop), Some(Cancelled))
    case Connects(c) => (Assigned(s, c, world.loop), Some(Returned))
  }

  function Retried(s: State, world: World, attempt: nat): (r: (State, Result))
    ensures r.1 == Returned ==> r.0.client.Some?
    decreases MaxAttempts(world.settings) + 1 - attempt
  {
    if attempt > MaxAttempts(world.settings) then (s, Raised) else
      var (s', result) := Round(s, world, attempt);
      if result.Some? then (s', result.value)
      else if attempt < MaxAttempts(world.settings) && world.sleepCancelled(attempt) then (s', Cancelled)
      else Retried(s', world, attempt + 1)
  }

  function SchemaSetUp(s: State, world: World): (State, Result)
    requires s.client.Some?
  {
    if world.settings == Development then
      (s.(indexesReady := true, task := Some(Task(s.client.value, false)), setup := Background), Returned)
    else match world.schema
      case SchemaDone => (s.(indexesReady := true, setup := Finished), Returned)
      case SchemaRaises => (s.(indexesReady := false), Raised)
      case SchemaCancelled => (s, Cancelled)
  }

  predicate Reuses(s: State, world: World) {
    s.client.Some? && s.loop == Some(world.loop) && !world.loopClosed
  }

  function Connected(s: State, world: World): (State, Result) {
    if Reuses(s, world) then (s, Returned) else
      var (s', result) := Retried(if s.client.Some? then Disconnected(s) else s, world, 1);
      if result != Returned then (s', result) else SchemaSetUp(s', world)
  }

  // ---------- the manager ----------

  class Manager {
    var client: Option<Client>
    var database: Option<Client>
    var loop: Option<Loop>
    var indexesReady: bool
    var task: Option<Task>
    ghost var open: set<Client>
    ghost var setup: Setup

    ghost function Snapshot(): State
      reads this
    {
      State(client, database, loop, indexesReady, task, open, setup)
    }

    constructor ()
      ensures Snapshot() == START
    {
      client, database, loop, indexesReady, task := None, None, None, false, None;
      open, setup := {}, NotFinished;
    }

    predicate IsReady()
      reads this
      ensures IsReady() == Snapshot().IsReady()
    {
      client.Some? && indexesReady
    }

    method CloseClient()
      modifies this
      ensures Snapshot() == Closed(old(Snapshot()))
    {
      if client.Some? {
        open, setup := open - {client.value}, NotFinished;
        client := None;
        database := None;
        loop := None;
      }
    }

    method Disconnect()
      modifies this
      ensures Snapshot() == Disconnected(old(Snapshot()))
      ensures client.None? && task.None?
      ensures old(client).Some? ==>
                && database.None? && loop.None? && !indexesReady
                && open == old(open) - {old(client).value}
    {
      task := None;
      if client.Some? {
        CloseClient();
        indexesReady := false;
      }
    }

    // The body of the try block; false means that it raised an Exception.
    method TryAttempt(world: World, attempt: nat) returns (ok: bool, cancelled: bool)
      modifies this
      ensures var (s, result) := Round(old(Snapshot()), world, attempt);
              && (ok <==> result.Some?) && (cancelled <==> result == Some(Cancelled))
              && (if ok then Snapshot() == s else Closed(Snapshot()) == s)
    {
      match world.attempts(attempt) {
        case ConstructorRaises =>
          return false, false;
        case DatabaseRaises(c) =>
          client := Some(c);
          open := open + {c};
          return false, false;
        case PingRaises(c) =>
          Assign(c, world.loop);
          return false, false;
        case PingCancelled(c) =>
          Assign(c, world.loop);
          return true, true;
        case Connects(c) =>
          Assign(c, world.loop);
          return true, false;
      }
    }

    method Assign(c: Client, on: Loop)
      modifies this
      ensures Snapshot() == Assigned(old(Snapshot()), c, on)
    {
      client := Some(c);
      open := open + {c};
      database := Some(c);
      loop := Some(on);
    }

    method Connect(world: World) returns (result: Result)
      modifies this
      ensures (Snapshot(), result) == Connected(old(Snapshot()), world)
    {
      if client.Some? {
        if loop == Some(world.loop) && !world.loopClosed {
          return Returned;
        }
        Disconnect();
      }
      ghost var start := Snapshot();
      var attempts := MaxAttempts(world.settings);
      var attempt := 1;
      var connected := false;
      while attempt <= attempts && !connected
        invariant 1 <= attempt <= attempts + 1
        invariant connected ==> Retried(start, world, 1) == (Snapshot(), Returned)
        invariant !connected ==> Retried(start, world, 1) == Retried(Snapshot(), world, attempt)
        decreases attempts + 1 - attempt, !connected
      {
        var ok, cancelled := TryAttempt(world, attempt);
        if ok {
          if cancelled {
            return Cancelled;
          }
          connected := true;
        } else {
          CloseClient();
          if attempt < attempts && world.sleepCancelled(attempt) {
            return Cancelled;
          }
          attempt := attempt + 1;
        }
      }
      if !connected {
        return Raised;
      }
      result := EnsureSchema(world);
    }

    method EnsureSchema(world: World) returns (result: Result)
      requires client.Some?
      modifies this
      ensures (Snapshot(), result) == SchemaSetUp(old(Snapshot()), world)
    {
      if world.settings != Development {
        match world.schema {
          case SchemaDone =>
            indexesReady := true;
            setup := Finished;
            return Returned;
          case SchemaRaises =>
            indexesReady := false;
            return Raised;
          case SchemaCancelled =>
            return Cancelled;
        }
      }
      indexesReady := true;
      task := Some(Task(client.value, false));
      setup := Background;
      return Returned;
    }
  }

  // ---------- invariants of every run ----------

  datatype Op = ConnectOp(world: World) | DisconnectOp | TaskEnds

  function Step(s: State, op: Op): State {
    match op
    case ConnectOp(world) => Connected(s, world).0
    case DisconnectOp => Disconnected(s)
    case TaskEnds => if s.task.Some? then s.(task := Some(s.task.value.(done := true))) else s
  }

  function Run(ops: seq<Op>): State {
    if ops == [] then START else Step(Run(ops[..|ops| - 1]), ops[|ops| - 1])
  }

  lemma RunIsSteps(ops: seq<Op>, op: Op)
    ensures Run([]) == START
    ensures Run(ops + [op]) == Step(Run(ops), op)
  {
    hide Step;
    assert (ops + [op])[..|ops|] == ops;
  }

  // Client, database and loop are all set, on one client, or all unset; only the held client is open; the
  // manager is ready exactly when the setup finished on that client or was left to the background.
  ghost predicate Sound(s: State) {
    && s.database == s.client
    && (s.client.Some? <==> s.loop.Some?)
    && s.open == (if s.client.Some? then {s.client.value} else {})
    && (s.indexesReady <==> s.setup != NotFinished)
    && (s.client.None? ==> s.setup == NotFinished && s.task.None?)
    && (s.task.Some? ==> s.task.value.client == s.client.value && s.setup == Background)
  }

  lemma {:induction false} RetriedSound(s: State, world: World, attempt: nat)
    requires Sound(s) && s.client.None? && attempt >= 1
    ensures var (s', result) := Retried(s, world, attempt);
            && Sound(s') && s'.setup == NotFinished
            && (result == Raised ==> s' == s)
            && (result == Returned ==> s'.loop == Some(world.loop))
    decreases MaxAttempts(world.settings) + 1 - attempt
  {
    if attempt <= MaxAttempts(world.settings) {
      var (s', result) := Round(s, world, attempt);
      if result.None? {
        assert s' == s;
        RetriedSound(s, world, attempt + 1);
      }
    }
  }

  lemma StepSound(s: State, op: Op)
    requires Sound(s)
    ensures Sound(Step(s, op))
  {
    if op.ConnectOp? {
      RetriedSound(Disconnected(s), op.world, 1);
    }
  }

  lemma {:induction false} EveryRunSound(ops: seq<Op>)
    ensures Sound(Run(ops))
    ensures var s := Run(ops);
            && s.database == s.client && (s.client.Some? <==> s.loop.Some?)
            && (s.IsReady() <==> s.client.Some? && s.setup in {Finished, Background})
            && |s.open| == if s.client.Some? then 1 else 0
  {
    if ops != [] {
      EveryRunSound(ops[..|ops| - 1]);
      StepSound(Run(ops[..|ops| - 1]), ops[|ops| - 1]);
    }
  }

  // Without development settings no setup runs in the background, so ready means finished.
  lemma {:induction false} ReadyMeansSchemaFinished(ops: seq<Op>)
    requires forall i :: 0 <= i < |ops| && ops[i].ConnectOp? ==> ops[i].world.settings != Development
    ensures Run(ops).IsReady() <==> Run(ops).client.Some? && Run(ops).setup == Finished
    ensures Run(ops).setup != Background
  {
    EveryRunSound(ops);
    if ops != [] {
      var before, op := ops[..|ops| - 1], ops[|ops| - 1];
      ReadyMeansSchemaFinished(before);
      EveryRunSound(before);
      if op.ConnectOp? {
        RetriedSound(Disconnected(Run(before)), op.world, 1);
      }
    }
  }

  // ---------- what a connect does, attempt by attempt ----------

  // An attempt that raises an Exception, and a retry loop that gets as far as an attempt.
  predicate Fails(world: World, n: nat) {
    !world.attempts(n).Connects? && !world.attempts(n).PingCancelled?
  }

  ghost predicate Tried(world: World, n: nat) {
    && 1 <= n <= (if world.settings == Production then 3 else 5)
    && forall m :: 1 <= m < n ==> Fails(world, m) && !world.sleepCancelled(m)
  }

  lemma {:induction false} RetriedUpTo(s: State, world: World, from: nat, n: nat)
    requires Sound(s) && s.client.None? && Tried(world, n) && 1 <= from <= n
    ensures Retried(s, world, from) == Retried(s, world, n)
    decreases n - from
  {
    if from < n {
      assert Fails(world, from);
      assert Round(s, world, from) == (s, None);
      RetriedUpTo(s, world, from + 1, n);
    }
  }

  // A client held on the running loop is kept, and nothing is tried. Otherwise there are three attempts in
  // production and five elsewhere; the first that connects decides which client is held, and the settings
  // and the schema setup decide the rest. When all fail the call raises and holds nothing.
  lemma ConnectTries(ops: seq<Op>, world: World, n: nat)
    ensures var s := Run(ops); var (s', result) := Connected(s, world);
            if s.client.Some? && s.loop == Some(world.loop) && !world.loopClosed then s' == s && result == Returned
            else Tried(world, n) ==>
              var last, attempt := n == (if world.settings == Production then 3 else 5), world.attempts(n);
              && (attempt.Connects? ==>
                    && s'.client == Some(attempt.client) && s'.loop == Some(world.loop)
                    && (world.settings == Development ==>
                          result == Returned && s'.IsReady() && s'.task == Some(Task(attempt.client, false)))
                    && (world.settings != Development ==>
                          && s'.IsReady() == (world.schema == SchemaDone)
                          && result == match world.schema
                                       case SchemaDone => Returned
                                       case SchemaRaises => Raised
                                       case SchemaCancelled => Cancelled))
              && (attempt.PingCancelled? ==>
                    result == Cancelled && s'.client == Some(attempt.client) && !s'.IsReady())
              && (Fails(world, n) && last ==> result == Raised && s'.client.None?)
              && (Fails(world, n) && !last && world.sleepCancelled(n) ==> result == Cancelled && s'.client.None?)
  {
    hide Run;
    EveryRunSound(ops);
    var s := Run(ops);
    var start := if s.client.Some? then Disconnected(s) else s;
    assert Sound(start) && start.client.None?;
    if Tried(world, n) {
      RetriedUpTo(start, world, 1, n);
      OneRound(start, world, n);
    }
  }

  lemma OneRound(s: State, world: World, n: nat)
    requires Sound(s) && s.client.None? && Tried(world, n)
    ensures var (s', result) := Retried(s, world, n);
            var last, attempt := n == (if world.settings == Production then 3 else 5), world.attempts(n);
            && (attempt.Connects? ==> (s', result) == (Assigned(s, attempt.client, world.loop), Returned))
            && (attempt.PingCancelled? ==> (s', result) == (Assigned(s, attempt.client, world.loop), Cancelled))
            && (Fails(world, n) && last ==> (s', result) == (s, Raised))
            && (Fails(world, n) && !last && world.sleepCancelled(n) ==> (s', result) == (s, Cancelled))
  {
    if Fails(world, n) {
      assert Round(s, world, n) == (s, None);
    }
  }

  // A failed series of attempts leaves nothing behind.
  lemma FailedConnectLeavesNothing(ops: seq<Op>, world: World)
    requires !Reuses(Run(ops), world) && Retried(Disconnected(Run(ops)), world, 1).1 == Raised
    ensures var (s, result) := Connected(Run(ops), world);
            result == Raised && s.client.None? && s.open == {} && s.task.None? && !s.indexesReady
  {
    EveryRunSound(ops);
    RetriedSound(Disconnected(Run(ops)), world, 1);
    assert Run(ops).client.None? ==> Disconnected(Run(ops)) == Run(ops);
  }

  // A connect that returns leaves the manager ready, unless it only found a client already held on this
  // loop whose setup never finished.
  lemma ReturnedMeansReadyExactly(ops: seq<Op>, world: World)
    requires Connected(Run(ops), world).1 == Returned
    ensures !Connected(Run(ops), world).0.IsReady() <==> Reuses(Run(ops), world) && !Run(ops).IsReady()
  {
    EveryRunSound(ops);
    RetriedSound(Disconnected(Run(ops)), world, 1);
  }

  // And there it stays: after a setup that raised or a cancelled ping, no number of connects on the same
  // loop runs the setup again, though each of them returns normally.
  lemma {:induction false} UnreadyClientStays(s: State, more: seq<Op>)
    requires s.client.Some? && !s.IsReady() && s.task.None?
    requires forall i :: 0 <= i < |more| ==>
               more[i].TaskEnds? || (more[i].ConnectOp? && Reuses(s, more[i].world))
    ensures RunFrom(s, more) == s
  {
    if more != [] {
      UnreadyClientStays(s, more[..|more| - 1]);
    }
  }

  function RunFrom(s: State, ops: seq<Op>): State {
    if ops == [] then s else Step(RunFrom(s, ops[..|ops| - 1]), ops[|ops| - 1])
  }

  lemma {:induction false} RunContinues(ops: seq<Op>, more: seq<Op>)
    ensures RunFrom(Run(ops), more) == Run(ops + more)
  {
    hide Step;
    if more == [] {
      assert ops + more == ops;
    } else {
      assert ops + more == (ops + more[..|more| - 1]) + [more[|more| - 1]];
      RunContinues(ops, more[..|more| - 1]);
      RunIsSteps(ops + more[..|more| - 1], more[|more| - 1]);
    }
  }

  lemma SchemaFailureNeedsDisconnect(ops: seq<Op>, world: World, more: seq<Op>)
    requires !Reuses(Run(ops), world) && world.settings != Development
    requires Retried(Disconnected(Run(ops)), world, 1).1 == Returned && world.schema != SchemaDone
    requires var s := Connected(Run(ops), world).0;
             forall i :: 0 <= i < |more| ==> more[i].TaskEnds? || (more[i].ConnectOp? && Reuses(s, more[i].world))
    ensures var (s, result) := Connected(Run(ops), world);
            && result != Returned && s.client.Some?
            && RunFrom(s, more) == s && !RunFrom(s, more).IsReady()
  {
    EveryRunSound(ops);
    var before := Run(ops);
    assert before.client.None? ==> Disconnected(before) == before;
    RetriedSound(Disconnected(before), world, 1);
    StepSound(before, ConnectOp(world));
    UnreadyClientStays(Connected(before, world).0, more);
  }
}
