/** The console stream as a protocol in steps: the store appends and publishes, a worker
    hands events to the hub, the hub schedules offers, the stream subscribes, reads the
    backlog and then receives. Any interleaving of the steps is a run. */
module LiveStream {
  import opened Ordering
  import opened ConsoleHub

  /** `after` is the client's cursor; `limit` bounds the backlog page; `storeCapacity`
      bounds the store's own subscriber queue, `capacity` the console's. */
  datatype Config = Config(after: nat, limit: nat, storeCapacity: nat, capacity: nat)

  ghost predicate ValidConfig(config: Config) {
    config.limit >= 1 && config.storeCapacity >= 1 && config.capacity >= 1
  }

  /** An event the store's worker holds: not yet broadcast, or broadcast to a snapshot of
      the subscribers that does or does not contain this stream. */
  datatype InFlight = Taken | Snapshot(includesUs: bool)

  datatype Phase = Connecting | Subscribed | Streaming

  datatype State = State(
    logged: nat,                 // events 1..logged have been appended
    unpublished: set<nat>,       // appended, `_publish` still to run
    storeQueue: seq<nat>,
    dropped: set<nat>,           // refused by the full store queue
    atHub: Option<(nat, InFlight)>,
    phase: Phase,
    backlog: set<nat>,           // after the cursor and stored when the backlog was read
    backlogExceeded: bool,       // then one resync request was sent in its place
    scheduled: seq<Notice>,
    offered: seq<Notice>,
    queue: seq<Message>,
    received: seq<Message>)

  const START := State(0, {}, [], {}, None, Connecting, {}, false, [], [], [], [])

  datatype Action =
    | Append
    | Publish(event: nat)
    | Take
    | TakeSnapshot
    | Schedule
    | ScheduleOther(notice: Notice)
    | RunCallback
    | Subscribe
    | ReadBacklog
    | Receive

  predicate IsAfter(config: Config, logged: nat, e: nat) { config.after < e <= logged }

  function After(config: Config, logged: nat): set<nat> {
    set e: nat | e <= logged && IsAfter(config, logged, e)
  }

  /** One step; an action that is not enabled changes nothing. */
  function Step(s: State, action: Action, config: Config): State {
    match action
    case Append =>
      s.(logged := s.logged + 1, unpublished := s.unpublished + {s.logged + 1})
    case Publish(event) =>
      if event !in s.unpublished then s
      else if |s.storeQueue| < config.storeCapacity then
        s.(unpublished := s.unpublished - {event}, storeQueue := s.storeQueue + [event])
      else s.(unpublished := s.unpublished - {event}, dropped := s.dropped + {event})
    case Take =>
      if s.atHub.Some? || s.storeQueue == [] then s
      else s.(atHub := Some((s.storeQueue[0], Taken)), storeQueue := s.storeQueue[1..])
    case TakeSnapshot =>
      if s.atHub.None? || s.atHub.value.1 != Taken then s
      else s.(atHub := Some((s.atHub.value.0, Snapshot(s.phase != Connecting))))
    case Schedule =>
      if s.atHub.None? || s.atHub.value.1 == Taken then s
      else if s.atHub.value.1.includesUs then
        s.(atHub := None, scheduled := s.scheduled + [StoredEvent(s.atHub.value.0)])
      else s.(atHub := None)
    case ScheduleOther(notice) =>
      if s.phase == Connecting || notice.StoredEvent? then s
      else s.(scheduled := s.scheduled + [notice])
    case RunCallback =>
      if s.scheduled == [] then s
      else s.(scheduled := s.scheduled[1..], offered := s.offered + [s.scheduled[0]],
              queue := Offered(s.queue, config.capacity, s.scheduled[0]))
    case Subscribe =>
      if s.phase == Connecting then s.(phase := Subscribed) else s
    case ReadBacklog =>
      if s.phase != Subscribed then s
      else
        var stored := After(config, s.logged);
        s.(phase := Streaming, backlog := stored, backlogExceeded := |stored| > config.limit)
    case Receive =>
      if s.phase != Streaming || s.queue == [] then s
      else s.(received := s.received + [s.queue[0]], queue := s.queue[1..])
  }

  function Run(actions: seq<Action>, config: Config): State {
    if actions == [] then START
    else Step(Run(actions[..|actions| - 1], config), actions[|actions| - 1], config)
  }

  // ----- where an event can be ----------------------------------------------------------

  /** Published to the store's queue or beyond, or still on its way there. */
  predicate Upstream(s: State, e: nat) {
    e in s.unpublished || e in s.storeQueue || (s.atHub.Some? && s.atHub.value.0 == e)
  }

  predicate Downstream(s: State, e: nat) {
    StoredEvent(e) in s.scheduled || StoredEvent(e) in s.offered
  }

  /** On its way to this stream: upstream, or caught in a snapshot that includes it. */
  predicate Coming(s: State, e: nat) {
    || e in s.unpublished || e in s.storeQueue
    || (s.atHub.Some? && s.atHub.value.0 == e && s.atHub.value.1 != Snapshot(false))
    || StoredEvent(e) in s.scheduled
  }

  /** An appended event is in at most one place, and only appended events are anywhere. */
  ghost predicate OnePlace(s: State, e: nat) {
    && (Upstream(s, e) || Downstream(s, e) || e in s.dropped ==> 1 <= e <= s.logged)
    && (e in s.unpublished ==> e !in s.storeQueue && !(s.atHub.Some? && s.atHub.value.0 == e))
    && (s.atHub.Some? && s.atHub.value.0 == e ==> e !in s.storeQueue)
    && (Upstream(s, e) ==> !Downstream(s, e) && e !in s.dropped)
    && (e in s.dropped ==> !Downstream(s, e))
  }

  ghost predicate Placed(s: State) {
    && (forall e :: OnePlace(s, e))
    && (forall i, j :: 0 <= i < j < |s.storeQueue| ==> s.storeQueue[i] != s.storeQueue[j])
  }

  /** Nothing live exists before the subscription, and no backlog before it is read. */
  ghost predicate Phased(s: State) {
    && (s.phase == Connecting ==> s.scheduled == [] && s.offered == [] && s.received == [] && s.queue == []
                                  && (s.atHub.Some? ==> s.atHub.value.1 != Snapshot(true)))
    && (s.phase != Streaming ==> !s.backlogExceeded && s.backlog == {})
  }

  /** In the backlog, offered, still coming, or refused by the store's own queue. */
  predicate Accounted(s: State, e: nat) {
    e in s.backlog || StoredEvent(e) in s.offered || Coming(s, e) || e in s.dropped
  }

  ghost predicate Covered(s: State, config: Config) {
    s.phase == Streaming ==> forall e :: e in After(config, s.logged) ==> Accounted(s, e)
  }

  /** What every reachable state keeps. */
  ghost predicate Invariant(s: State, config: Config) {
    && |s.queue| <= config.capacity && Explains(s.offered, s.received + s.queue)
    && Placed(s) && Phased(s) && Covered(s, config)
  }

  lemma StepKeepsQueue(s: State, action: Action, config: Config)
    requires ValidConfig(config) && Invariant(s, config)
    ensures var t := Step(s, action, config);
      |t.queue| <= config.capacity && Explains(t.offered, t.received + t.queue)
  {
    if action == RunCallback && s.scheduled != [] {
      OfferExplained(s.offered, s.received, s.queue, config.capacity, s.scheduled[0]);
    } else if action == Receive && s.queue != [] {
      assert s.received + s.queue == (s.received + [s.queue[0]]) + s.queue[1..];
    }
  }

  lemma SplitHead<T>(s: seq<T>)
    requires s != []
    ensures s == [s[0]] + s[1..]
  {
  }

  lemma StepKeepsOnePlace(s: State, action: Action, config: Config, e: nat)
    requires Placed(s)
    ensures OnePlace(Step(s, action, config), e)
  {
    assert OnePlace(s, e);
    match action
    case Append => assert OnePlace(s, s.logged + 1);
    case Publish(event) => assert OnePlace(s, event);
    case Take =>
      if s.storeQueue != [] {
        SplitHead(s.storeQueue);
        assert OnePlace(s, s.storeQueue[0]);
      }
    case RunCallback =>
      if s.scheduled != [] {
        SplitHead(s.scheduled);
      }
    case _ =>
  }

  lemma StepKeepsPlaced(s: State, action: Action, config: Config)
    requires Placed(s)
    ensures Placed(Step(s, action, config))
  {
    forall e ensures OnePlace(Step(s, action, config), e) {
      StepKeepsOnePlace(s, action, config, e);
    }
    match action
    case Publish(event) => assert OnePlace(s, event);
    case _ =>
  }

  lemma StepKeepsAccounted(s: State, action: Action, config: Config, e: nat)
    requires s.phase == Streaming && Accounted(s, e)
    ensures Accounted(Step(s, action, config), e)
  {
    if action == Take && s.storeQueue != [] {
      SplitHead(s.storeQueue);
    } else if action == RunCallback && s.scheduled != [] {
      SplitHead(s.scheduled);
    }
  }

  lemma StepKeepsCovered(s: State, action: Action, config: Config)
    requires Covered(s, config) && Phased(s)
    ensures Covered(Step(s, action, config), config)
  {
    var t := Step(s, action, config);
    if t.phase == Streaming {
      forall e | e in After(config, t.logged) ensures Accounted(t, e) {
        if s.phase == Streaming && e in After(config, s.logged) {
          StepKeepsAccounted(s, action, config, e);
        } else if s.phase == Streaming {
          assert action == Append && IsAfter(config, t.logged, e);
        } else {
          assert action == ReadBacklog;
        }
      }
    }
  }

  lemma StepKeepsInvariant(s: State, action: Action, config: Config)
    requires ValidConfig(config) && Invariant(s, config)
    ensures Invariant(Step(s, action, config), config)
  {
    StepKeepsQueue(s, action, config);
    StepKeepsPlaced(s, action, config);
    StepKeepsCovered(s, action, config);
  }

  lemma {:induction false} RunsKeepInvariant(actions: seq<Action>, config: Config)
    requires ValidConfig(config)
    ensures Invariant(Run(actions, config), config)
  {
    if actions != [] {
      RunsKeepInvariant(actions[..|actions| - 1], config);
      StepKeepsInvariant(Run(actions[..|actions| - 1], config), actions[|actions| - 1], config);
    }
  }

  // ----- what the client can rely on ----------------------------------------------------

  /** A message stands for the event: it was in the backlog, sent itself or covered by the
      resync request sent instead; or it was offered, and is live or in the block of a resync
      request. */
  ghost predicate Shown(s: State, e: nat) {
    e in s.backlog || exists j, i :: 0 <= j < |s.offered| && s.offered[j] == StoredEvent(e)
                                     && StandsFor(s.offered, s.received + s.queue, i, j)
  }

  /** Once streaming, an event after the cursor is shown to the client or still coming to
      it, unless the store's own queue refused it; with nothing left in flight it is shown
      exactly unless it was refused and had not been stored when the backlog was read. */
  lemma NoSilentGapInTheStream(actions: seq<Action>, config: Config, e: nat)
    requires ValidConfig(config)
    requires Run(actions, config).phase == Streaming && config.after < e <= Run(actions, config).logged
    ensures var s := Run(actions, config);
      && (Shown(s, e) || Coming(s, e) || e in s.dropped)
      && (!Coming(s, e) ==> (Shown(s, e) <==> !(e in s.dropped && e !in s.backlog)))
  {
    RunsKeepInvariant(actions, config);
    var s := Run(actions, config);
    assert e in After(config, s.logged);
    assert Accounted(s, e) && OnePlace(s, e);
    var where := NoSilentGap(s.offered, s.received + s.queue);
    if StoredEvent(e) in s.offered {
      var j :| 0 <= j < |s.offered| && s.offered[j] == StoredEvent(e);
      assert StandsFor(s.offered, s.received + s.queue, where[j], j);
    }
  }

  /** What was read is everything stored after the cursor up to that moment, and one resync
      request went out for it exactly when it was more than a page. */
  lemma {:induction false} BacklogIsAPrefix(actions: seq<Action>, config: Config)
    ensures var s := Run(actions, config);
      s.phase == Streaming ==> exists n: nat :: n <= s.logged && s.backlog == After(config, n)
                                           && (s.backlogExceeded <==> |After(config, n)| > config.limit)
  {
    if actions != [] {
      var last := |actions| - 1;
      BacklogIsAPrefix(actions[..last], config);
      var s := Run(actions[..last], config);
      if s.phase != Streaming && actions[last] == ReadBacklog {
        assert s.logged <= s.logged;
      }
    }
  }

  /** The promise is about the store too: with a store queue of one, an event appended
      while the worker is away is refused, and a stream that had read its backlog is
      neither shown the event nor asked to resynchronise. */
  lemma StoreCanDropSilently(config: Config)
    requires ValidConfig(config) && config.storeCapacity == 1 && config.after == 0
    ensures var s := Run([Subscribe, ReadBacklog, Append, Publish(1), Append, Publish(2)], config);
      && s.phase == Streaming && !s.backlogExceeded && 2 in s.dropped
      && !Shown(s, 2) && !Coming(s, 2) && s.received + s.queue == []
  {
    var actions := [Subscribe, ReadBacklog, Append, Publish(1), Append, Publish(2)];
    var s1 := START.(phase := Subscribed);
    assert After(config, 0) == {};
    var s2 := s1.(phase := Streaming);
    var s3 := s2.(logged := 1, unpublished := {1});
    var s4 := s2.(logged := 1, storeQueue := [1]);
    var s5 := s2.(logged := 2, storeQueue := [1], unpublished := {2});
    var s6 := s2.(logged := 2, storeQueue := [1], dropped := {2});
    assert actions[..1] == actions[..0] + [Subscribe];
    assert Run(actions[..1], config) == s1;
    assert actions[..2] == actions[..1] + [ReadBacklog];
    assert Run(actions[..2], config) == s2;
    assert actions[..3] == actions[..2] + [Append];
    assert Run(actions[..3], config) == s3;
    assert actions[..4] == actions[..3] + [Publish(1)];
    assert Run(actions[..4], config) == s4;
    assert actions[..5] == actions[..4] + [Append];
    assert Run(actions[..5], config) == s5;
    assert actions == actions[..5] + [Publish(2)];
    assert Run(actions, config) == s6;
  }
}
