/** Whole episodes of the tactical agent's retreats: any interleaving of evaluations,
    dispatches and execution reports. */
module TacticalRuns {
  import opened Ordering
  import opened TacticalRules

  /** A call, as the retreat book sees it. */
  datatype Event =
    | Dispatch(actor: Actor, tags: seq<Tag>, signature: string, ids: Ids, at: nat)
    | MoveReport(actor: Actor, status: Status, at: nat)
    | ActorLost(actor: Actor, at: nat)
    | Evaluation(at: nat)
    | Unrelated(at: nat)

  ghost predicate Step(before: RetreatBook, e: Event, after: RetreatBook, config: Config) {
    match e
    case Dispatch(actor, tags, signature, ids, at) =>
      after == DispatchedRetreat(before, actor, tags, signature, ids, at, config)
    case MoveReport(actor, status, at) =>
      after == if actor in before.states then ReportedRetreat(before, actor, status, at, config) else before
    case ActorLost(actor, _) => after == ForgottenRetreat(before, actor)
    case Evaluation(at) => EvaluatedRetreats(before, after, at, config)
    case Unrelated(_) => after == before
  }

  /** `books[i]` is the book before `events[i]`; an episode starts empty. */
  ghost predicate Episode(books: seq<RetreatBook>, events: seq<Event>, config: Config) {
    && |books| == |events| + 1 && books[0] == NO_RETREATS
    && forall i :: 0 <= i < |events| ==> Step(books[i], events[i], books[i + 1], config)
  }

  ghost predicate Ordered(events: seq<Event>) {
    forall i, j :: 0 <= i <= j < |events| ==> events[i].at <= events[j].at
  }

  /** The event announces the arrival of `actor`. */
  predicate Announces(book: RetreatBook, e: Event, actor: Actor) {
    e.MoveReport? && e.actor == actor && Arrives(book, actor, e.status)
  }

  predicate AnnouncesCommitment(book: RetreatBook, e: Event, c: Commitment) {
    e.MoveReport? && Arrives(book, e.actor, e.status) && book.states[e.actor].commitment == Some(c)
  }

  // ----- at most one arrival ------------------------------------------------------------

  lemma {:induction false} ArrivalsAreKept(books: seq<RetreatBook>, events: seq<Event>, config: Config, i: nat, j: nat)
    requires Episode(books, events, config) && i <= j <= |events|
    ensures books[i].arrivals <= books[j].arrivals
  {
    if i < j {
      ArrivalsAreKept(books, events, config, i, j - 1);
      assert Step(books[j - 1], events[j - 1], books[j], config);
    }
  }

  /** Each commitment is announced at most once in an episode, whichever actors carry it and
      however often it is dispatched again, lost or forgotten in between. */
  lemma CommitmentArrivesOnce(books: seq<RetreatBook>, events: seq<Event>, config: Config, i: nat, j: nat,
                              c: Commitment)
    requires Episode(books, events, config) && i < |events| && j < |events|
    requires AnnouncesCommitment(books[i], events[i], c) && AnnouncesCommitment(books[j], events[j], c)
    ensures i == j
  {
    if i < j {
      assert Step(books[i], events[i], books[i + 1], config);
      ArrivalsAreKept(books, events, config, i + 1, j);
    } else if j < i {
      assert Step(books[j], events[j], books[j + 1], config);
      ArrivalsAreKept(books, events, config, j + 1, i);
    }
  }

  predicate Done(book: RetreatBook, actor: Actor) {
    actor in book.states ==> book.states[actor].phase == Arrived && book.states[actor].arrivalEmitted
  }

  lemma {:induction false} DoneUntilDispatched(books: seq<RetreatBook>, events: seq<Event>, config: Config,
                                               actor: Actor, i: nat, j: nat)
    requires Episode(books, events, config) && i <= j <= |events| && Done(books[i], actor)
    requires forall k :: i <= k < j && events[k].Dispatch? ==> events[k].actor != actor
    ensures Done(books[j], actor)
  {
    if i < j {
      DoneUntilDispatched(books, events, config, actor, i, j - 1);
      assert Step(books[j - 1], events[j - 1], books[j], config);
    }
  }

  /** Even a retreat that carries no commitment is announced at most once for each dispatch. */
  lemma ArrivalsNeedDispatches(books: seq<RetreatBook>, events: seq<Event>, config: Config, actor: Actor, i: nat,
                               j: nat)
    requires Episode(books, events, config) && i < j < |events|
    requires Announces(books[i], events[i], actor) && Announces(books[j], events[j], actor)
    ensures exists k :: i < k < j && events[k].Dispatch? && events[k].actor == actor
  {
    if forall k :: i + 1 <= k < j && events[k].Dispatch? ==> events[k].actor != actor {
      assert Step(books[i], events[i], books[i + 1], config);
      DoneUntilDispatched(books, events, config, actor, i + 1, j);
    }
  }

  /** Every dispatch to the actor carries these members, threat and identifiers. */
  ghost predicate DispatchedOnlyAs(events: seq<Event>, actor: Actor, tags: seq<Tag>, signature: string, ids: Ids) {
    forall i :: 0 <= i < |events| && events[i].Dispatch? && events[i].actor == actor ==>
      events[i].tags == tags && events[i].signature == signature && events[i].ids == ids
  }

  ghost predicate AnnouncedTwice(books: seq<RetreatBook>, events: seq<Event>, actor: Actor)
    requires |books| == |events| + 1
  {
    exists i, j :: 0 <= i < j < |events| && Announces(books[i], events[i], actor)
      && Announces(books[j], events[j], actor)
  }

  /** An ordered episode in which the actor, dispatched with these alone, arrives twice. */
  ghost predicate RepeatedArrival(books: seq<RetreatBook>, events: seq<Event>, config: Config, actor: Actor,
                                  tags: seq<Tag>,
                                  signature: string, ids: Ids) {
    && Episode(books, events, config) && Ordered(events) && DispatchedOnlyAs(events, actor, tags, signature, ids)
    && AnnouncedTwice(books, events, actor)
  }

  lemma {:induction false} CommitmentIsDispatched(books: seq<RetreatBook>, events: seq<Event>, config: Config,
                                                  actor: Actor,
                                                  tags: seq<Tag>, signature: string, ids: Ids, i: nat)
    requires Episode(books, events, config) && DispatchedOnlyAs(events, actor, tags, signature, ids) && i <= |events|
    ensures actor in books[i].states ==> books[i].states[actor].commitment == CommitmentOf(tags, signature, ids)
  {
    if i > 0 {
      CommitmentIsDispatched(books, events, config, actor, tags, signature, ids, i - 1);
      assert Step(books[i - 1], events[i - 1], books[i], config);
    }
  }

  /** Whatever the members and the threat, dispatching the same retreat again can announce
      its arrival again exactly when it carries no operation, hence no commitment. */
  lemma UncommittedRetreatArrivesTwice(config: Config, actor: Actor, tags: seq<Tag>, signature: string, ids: Ids)
    ensures (exists books, events :: RepeatedArrival(books, events, config, actor, tags, signature, ids))
       <==> ids.operation.None?
  {
    if ids.operation.None? {
      var d, m := Dispatch(actor, tags, signature, ids, 0), MoveReport(actor, Succeeded, 0);
      var b1 := DispatchedRetreat(NO_RETREATS, actor, tags, signature, ids, 0, config);
      var b2 := ArrivedRetreat(b1, actor, 0, config);
      var b3 := DispatchedRetreat(b2, actor, tags, signature, ids, 0, config);
      var b4 := ArrivedRetreat(b3, actor, 0, config);
      var books, events := [NO_RETREATS, b1, b2, b3, b4], [d, m, d, m];
      assert Episode(books, events, config);
      assert Announces(books[1], events[1], actor) && Announces(books[3], events[3], actor);
      assert RepeatedArrival(books, events, config, actor, tags, signature, ids);
    } else if books, events :| RepeatedArrival(books, events, config, actor, tags, signature, ids) {
      var i, j :| 0 <= i < j < |events| && Announces(books[i], events[i], actor)
        && Announces(books[j], events[j], actor);
      CommitmentIsDispatched(books, events, config, actor, tags, signature, ids, i);
      CommitmentIsDispatched(books, events, config, actor, tags, signature, ids, j);
      CommitmentArrivesOnce(books, events, config, i, j, CommitmentOf(tags, signature, ids).value);
    }
  }

  // ----- cooldowns ----------------------------------------------------------------------

  /** No cooldown reaches further than one full cooldown from `now`. */
  ghost predicate Bounded(book: RetreatBook, now: nat, config: Config) {
    && (forall a :: a in book.states ==> book.states[a].cooldownUntil <= now + config.retreatCooldown)
    && (forall c :: c in book.cooldowns ==> book.cooldowns[c] <= now + config.retreatCooldown)
  }

  function Clock(events: seq<Event>, i: nat): nat
    requires i <= |events|
  {
    if i == 0 then 0 else events[i - 1].at
  }

  lemma {:induction false} EpisodeKeepsBounded(books: seq<RetreatBook>, events: seq<Event>, config: Config, i: nat)
    requires Episode(books, events, config) && Ordered(events) && i <= |events|
    ensures Bounded(books[i], Clock(events, i), config)
  {
    if i > 0 {
      EpisodeKeepsBounded(books, events, config, i - 1);
      assert Step(books[i - 1], events[i - 1], books[i], config);
    }
  }

  /** While an actor's state lives, or is replaced by a dispatch, its cooldown never moves
      backwards. */
  lemma {:induction false} CooldownNeverMovesBack(books: seq<RetreatBook>, events: seq<Event>, config: Config,
                                                  actor: Actor, i: nat, j: nat)
    requires Episode(books, events, config) && Ordered(events) && i <= j <= |events|
    requires forall k :: i <= k <= j ==> actor in books[k].states
    ensures books[i].states[actor].cooldownUntil <= books[j].states[actor].cooldownUntil
  {
    if i < j {
      CooldownNeverMovesBack(books, events, config, actor, i, j - 1);
      EpisodeKeepsBounded(books, events, config, j - 1);
      assert Step(books[j - 1], events[j - 1], books[j], config);
    }
  }

  /** Only a dispatch can move the cooldown of a living actor back, and it does exactly when
      neither its own time nor what its commitment has stored reaches the current one. */
  lemma CooldownMovesBackMeaning(books: seq<RetreatBook>, events: seq<Event>, config: Config, actor: Actor, i: nat)
    requires Episode(books, events, config) && i < |events|
    requires actor in books[i].states && actor in books[i + 1].states
    ensures books[i + 1].states[actor].cooldownUntil < books[i].states[actor].cooldownUntil <==>
      var e := events[i];
      && e.Dispatch? && e.actor == actor
      && NatMax(e.at + config.retreatCooldown, StoredCooldown(books[i], CommitmentOf(e.tags, e.signature, e.ids)))
         < books[i].states[actor].cooldownUntil
  {
    assert Step(books[i], events[i], books[i + 1], config);
  }

  /** With loops that run backwards that does happen, whatever is dispatched. */
  lemma DisorderMovesCooldownBack(config: Config, actor: Actor, tags: seq<Tag>, signature: string, ids: Ids, at: nat)
    returns (books: seq<RetreatBook>, events: seq<Event>)
    ensures Episode(books, events, config) && DispatchedOnlyAs(events, actor, tags, signature, ids) && |events| == 2
    ensures events[0].Dispatch? && events[0].at == at + 1 && events[1].Dispatch? && events[1].at == at
    ensures actor in books[1].states && actor in books[2].states
    ensures books[2].states[actor].cooldownUntil < books[1].states[actor].cooldownUntil
  {
    var d, e := Dispatch(actor, tags, signature, ids, at + 1), Dispatch(actor, tags, signature, ids, at);
    var b1 := DispatchedRetreat(NO_RETREATS, actor, tags, signature, ids, at + 1, config);
    var b2 := DispatchedRetreat(b1, actor, tags, signature, ids, at, config);
    books, events := [NO_RETREATS, b1, b2], [d, e];
    assert Episode(books, events, config);
  }

  // ----- commitments outlive their states -----------------------------------------------

  lemma {:induction false} ArrivalCooldownIsKept(books: seq<RetreatBook>, events: seq<Event>, config: Config,
                                                 c: Commitment, i: nat, j: nat)
    requires Episode(books, events, config) && i <= j <= |events|
    requires c in books[i].arrivals && c in books[i].cooldowns
    ensures c in books[j].cooldowns && books[j].cooldowns[c] == books[i].cooldowns[c]
  {
    if i < j {
      ArrivalCooldownIsKept(books, events, config, c, i, j - 1);
      ArrivalsAreKept(books, events, config, i, j - 1);
      assert Step(books[j - 1], events[j - 1], books[j], config);
    }
  }

  /** Once a commitment's arrival was announced at loop s, whoever is dispatched under it
      later, even after the first state vanished, waits at least until s plus the cooldown
      and never announces it again. */
  lemma ArrivedCommitmentWaits(books: seq<RetreatBook>, events: seq<Event>, config: Config, i: nat, j: nat,
                               c: Commitment)
    requires Episode(books, events, config) && i < j < |events|
    requires AnnouncesCommitment(books[i], events[i], c)
    requires events[j].Dispatch? && events[j].ids.operation == Some(c.operation)
    requires events[j].tags == c.tags && events[j].signature == c.signature
    ensures events[j].actor in books[j + 1].states
    ensures books[j + 1].states[events[j].actor].cooldownUntil >= events[i].at + config.retreatCooldown
    ensures books[j + 1].states[events[j].actor].arrivalEmitted
  {
    assert Step(books[i], events[i], books[i + 1], config);
    assert Step(books[j], events[j], books[j + 1], config);
    ArrivalsAreKept(books, events, config, i + 1, j);
    ArrivalCooldownIsKept(books, events, config, c, i + 1, j);
  }
}
