/** What one evaluation of the defence agent proposes, offer by offer: who fights, who rallies,
    what is built, and when a worker is drafted. */
module DefenseMeaning {
  import opened Defense
  import opened Ordering

  // ----- combat -------------------------------------------------------------------------

  /** A target on offer to a combat actor nobody claimed, not committed and not cooling down. */
  ghost predicate AttackOpen(c: Context, start: Book, i: nat)
    requires i < |c.attacks|
  {
    && c.attacks[i].target.Some? && c.attacks[i].actor in c.combatActors && c.attacks[i].actor !in c.claimed
    && !Blocked(start, AttackAt(c, i), c.gameLoop)
  }

  ghost function AttackAt(c: Context, i: nat): Key
    requires i < |c.attacks|
  {
    var o := c.attacks[i];
    Key(o.actor, "Attack_Unit", "Attack_Unit:" + if o.target.Some? then o.target.value else "")
  }

  ghost predicate MoveOpen(c: Context, start: Book, i: nat)
    requires i < |c.moves|
  {
    && c.moves[i].position.Some? && c.moves[i].actor in c.combatActors && c.moves[i].actor !in c.claimed
    && !Blocked(start, MoveAt(c, i), c.gameLoop)
  }

  ghost function MoveAt(c: Context, i: nat): Key
    requires i < |c.moves|
  {
    var o := c.moves[i];
    Key(o.actor, "Move_Minimap", "Move_Minimap:" + if o.position.Some? then o.position.value else "")
  }

  /** `k` is the first attack open to its actor. */
  ghost predicate FirstAttack(c: Context, start: Book, k: Key) {
    exists i :: 0 <= i < |c.attacks| && AttackOpen(c, start, i) && k == AttackAt(c, i)
             && forall j :: 0 <= j < i && AttackOpen(c, start, j) ==> c.attacks[j].actor != k.actor
  }

  /** `k` is the first rally open to its actor, and no attack is. */
  ghost predicate FirstMove(c: Context, start: Book, k: Key) {
    && (forall j :: 0 <= j < |c.attacks| && AttackOpen(c, start, j) ==> c.attacks[j].actor != k.actor)
    && exists i :: 0 <= i < |c.moves| && MoveOpen(c, start, i) && k == MoveAt(c, i)
                && forall j :: 0 <= j < i && MoveOpen(c, start, j) ==> c.moves[j].actor != k.actor
  }

  /** A response that a combat actor nobody claimed may give. */
  ghost predicate MayGive(c: Context, start: Book, k: Key) {
    k.actor in c.combatActors && k.actor !in c.claimed && !Blocked(start, k, c.gameLoop)
  }

  /** The first position in a list of responses at which an actor may give one. */
  ghost predicate FirstGiven(keys: seq<Key>, c: Context, start: Book, i: nat)
    requires i < |keys|
  {
    MayGive(c, start, keys[i])
    && forall j :: 0 <= j < i && MayGive(c, start, keys[j]) ==> keys[j].actor != keys[i].actor
  }

  ghost predicate Given(keys: seq<Key>, c: Context, start: Book, k: Key) {
    exists i :: 0 <= i < |keys| && keys[i] == k && FirstGiven(keys, c, start, i)
  }

  lemma GivenOneMore(keys: seq<Key>, more: Key, c: Context, start: Book, k: Key)
    ensures Given(keys + [more], c, start, k) <==>
      || Given(keys, c, start, k)
      || (k == more && FirstGiven(keys + [more], c, start, |keys|))
  {
    var all := keys + [more];
    assert forall i :: 0 <= i < |keys| ==> all[i] == keys[i];
    forall i | 0 <= i < |keys| ensures FirstGiven(all, c, start, i) == FirstGiven(keys, c, start, i) {
      assert forall j :: 0 <= j < i ==> all[j] == keys[j];
    }
    assert all[|keys|] == more;
    if i :| 0 <= i < |keys| && keys[i] == k && FirstGiven(keys, c, start, i) {
      assert all[i] == k && FirstGiven(all, c, start, i);
    }
    if i :| 0 <= i < |all| && all[i] == k && FirstGiven(all, c, start, i) {
      assert i < |keys| ==> keys[i] == k && FirstGiven(keys, c, start, i);
    }
  }

  /** An actor that may give some response gives one. */
  lemma {:induction false} SomeFirstGiven(keys: seq<Key>, c: Context, start: Book, j: nat) returns (i: nat)
    requires j < |keys| && MayGive(c, start, keys[j])
    ensures i <= j && keys[i].actor == keys[j].actor && FirstGiven(keys, c, start, i)
    decreases j
  {
    i := j;
    if !FirstGiven(keys, c, start, j) {
      var m :| 0 <= m < j && MayGive(c, start, keys[m]) && keys[m].actor == keys[j].actor;
      i := SomeFirstGiven(keys, c, start, m);
    }
  }

  lemma {:induction false} CombatKeysAreGiven(keys: seq<Key>, c: Context, start: Book)
    ensures forall k :: k in CombatKeys(keys, c, start) <==> Given(keys, c, start, k)
  {
    if keys != [] {
      var init, last := keys[..|keys| - 1], keys[|keys| - 1];
      CombatKeysAreGiven(init, c, start);
      assert keys == init + [last];
      LastIsGiven(init, last, c, start);
      forall k ensures k in CombatKeys(keys, c, start) <==> Given(keys, c, start, k) {
        GivenOneMore(init, last, c, start, k);
      }
    }
  }

  lemma LastIsGiven(init: seq<Key>, last: Key, c: Context, start: Book)
    requires forall k :: k in CombatKeys(init, c, start) <==> Given(init, c, start, k)
    ensures FirstGiven(init + [last], c, start, |init|) <==>
      MayGive(c, start, last) && last.actor !in Actors(CombatKeys(init, c, start))
  {
    var all := init + [last];
    assert forall i :: 0 <= i < |init| ==> all[i] == init[i];
    if last.actor in Actors(CombatKeys(init, c, start)) {
      var k :| k in CombatKeys(init, c, start) && k.actor == last.actor;
      var i :| 0 <= i < |init| && init[i] == k && FirstGiven(init, c, start, i);
      assert all[i] == k && MayGive(c, start, all[i]);
    } else {
      forall j | 0 <= j < |init| && MayGive(c, start, init[j]) ensures init[j].actor != last.actor {
        var i := SomeFirstGiven(init, c, start, j);
        assert Given(init, c, start, init[i]);
      }
    }
  }

  lemma {:induction false} AttackKeysMembers(c: Context, n: nat, k: Key)
    requires n <= |c.attacks|
    ensures k in AttackKeys(c.attacks[..n]) <==>
            exists i :: 0 <= i < n && c.attacks[i].target.Some? && k == AttackAt(c, i)
  {
    if n > 0 {
      AttackKeysMembers(c, n - 1, k);
      assert c.attacks[..n][..n - 1] == c.attacks[..n - 1];
      if k == AttackAt(c, n - 1) && c.attacks[n - 1].target.Some? {
        assert k in AttackKey(c.attacks[n - 1]);
      }
    }
  }

  lemma {:induction false} MoveKeysMembers(c: Context, n: nat, k: Key)
    requires n <= |c.moves|
    ensures k in MoveKeys(c.moves[..n]) <==>
            exists i :: 0 <= i < n && c.moves[i].position.Some? && k == MoveAt(c, i)
  {
    if n > 0 {
      MoveKeysMembers(c, n - 1, k);
      assert c.moves[..n][..n - 1] == c.moves[..n - 1];
      if k == MoveAt(c, n - 1) && c.moves[n - 1].position.Some? {
        assert k in MoveKey(c.moves[n - 1]);
      }
    }
  }

  /** The last of a list is given when no other of its actor may be. */
  lemma LastMeaning(keys: seq<Key>, more: Key, c: Context, start: Book)
    ensures FirstGiven(keys + [more], c, start, |keys|) <==>
      MayGive(c, start, more) && forall k :: k in keys && MayGive(c, start, k) ==> k.actor != more.actor
  {
    var all := keys + [more];
    assert forall j :: 0 <= j < |keys| ==> all[j] == keys[j];
    assert all[|keys|] == more;
    if FirstGiven(all, c, start, |keys|) {
      forall k | k in keys && MayGive(c, start, k) ensures k.actor != more.actor {
        var j :| 0 <= j < |keys| && keys[j] == k;
        assert all[j] == k;
      }
    }
  }

  ghost predicate FirstAttackOf(c: Context, start: Book, n: nat, k: Key)
    requires n <= |c.attacks|
  {
    exists i :: 0 <= i < n && AttackOpen(c, start, i) && k == AttackAt(c, i)
             && forall j :: 0 <= j < i && AttackOpen(c, start, j) ==> c.attacks[j].actor != k.actor
  }

  lemma NoAttackYet(c: Context, start: Book, n: nat, actor: string)
    requires n <= |c.attacks|
    ensures (forall k :: k in AttackKeys(c.attacks[..n]) && MayGive(c, start, k) ==> k.actor != actor)
       <==> (forall j :: 0 <= j < n && AttackOpen(c, start, j) ==> c.attacks[j].actor != actor)
  {
    forall k
      ensures k in AttackKeys(c.attacks[..n]) <==>
              exists i :: 0 <= i < n && c.attacks[i].target.Some? && k == AttackAt(c, i)
    {
      AttackKeysMembers(c, n, k);
    }
    if j :| 0 <= j < n && AttackOpen(c, start, j) && c.attacks[j].actor == actor {
      assert AttackAt(c, j) in AttackKeys(c.attacks[..n]);
    }
  }

  lemma {:induction false} AttacksGiven(c: Context, start: Book, n: nat, k: Key)
    requires n <= |c.attacks|
    ensures Given(AttackKeys(c.attacks[..n]), c, start, k) <==> FirstAttackOf(c, start, n, k)
  {
    if n > 0 {
      var m := n - 1;
      AttacksGiven(c, start, m, k);
      assert c.attacks[..n][..m] == c.attacks[..m];
      var keys := AttackKeys(c.attacks[..m]);
      if c.attacks[m].target.None? {
        assert AttackKeys(c.attacks[..n]) == keys;
      } else {
        assert AttackKeys(c.attacks[..n]) == keys + [AttackAt(c, m)];
        GivenOneMore(keys, AttackAt(c, m), c, start, k);
        LastMeaning(keys, AttackAt(c, m), c, start);
        NoAttackYet(c, start, m, c.attacks[m].actor);
      }
    }
  }

  ghost predicate FirstMoveOf(c: Context, start: Book, n: nat, k: Key)
    requires n <= |c.moves|
  {
    && (forall j :: 0 <= j < |c.attacks| && AttackOpen(c, start, j) ==> c.attacks[j].actor != k.actor)
    && exists i :: 0 <= i < n && MoveOpen(c, start, i) && k == MoveAt(c, i)
                && forall j :: 0 <= j < i && MoveOpen(c, start, j) ==> c.moves[j].actor != k.actor
  }

  lemma NoResponseYet(c: Context, start: Book, n: nat, actor: string)
    requires n <= |c.moves|
    ensures (forall k :: k in AttackKeys(c.attacks) + MoveKeys(c.moves[..n]) && MayGive(c, start, k) ==>
               k.actor != actor)
       <==> && (forall j :: 0 <= j < |c.attacks| && AttackOpen(c, start, j) ==> c.attacks[j].actor != actor)
            && (forall j :: 0 <= j < n && MoveOpen(c, start, j) ==> c.moves[j].actor != actor)
  {
    assert c.attacks[..|c.attacks|] == c.attacks;
    NoAttackYet(c, start, |c.attacks|, actor);
    forall k
      ensures k in MoveKeys(c.moves[..n]) <==>
              exists i :: 0 <= i < n && c.moves[i].position.Some? && k == MoveAt(c, i)
    {
      MoveKeysMembers(c, n, k);
    }
    if j :| 0 <= j < n && MoveOpen(c, start, j) && c.moves[j].actor == actor {
      assert MoveAt(c, j) in MoveKeys(c.moves[..n]);
    }
  }

  lemma {:induction false} MovesGiven(c: Context, start: Book, n: nat, k: Key)
    requires n <= |c.moves|
    ensures Given(AttackKeys(c.attacks) + MoveKeys(c.moves[..n]), c, start, k) <==>
            FirstAttack(c, start, k) || FirstMoveOf(c, start, n, k)
  {
    var attacks := AttackKeys(c.attacks);
    if n == 0 {
      assert c.attacks[..|c.attacks|] == c.attacks && attacks + MoveKeys(c.moves[..0]) == attacks;
      AttacksGiven(c, start, |c.attacks|, k);
    } else {
      var m := n - 1;
      MovesGiven(c, start, m, k);
      assert c.moves[..n][..m] == c.moves[..m];
      var keys := attacks + MoveKeys(c.moves[..m]);
      if c.moves[m].position.None? {
        assert attacks + MoveKeys(c.moves[..n]) == keys;
      } else {
        assert attacks + MoveKeys(c.moves[..n]) == keys + [MoveAt(c, m)];
        OneMoveMore(c, start, m, k);
      }
    }
  }

  /** No attack is open to the actor of a rally, and no earlier rally. */
  ghost predicate MoveGoesFirst(c: Context, start: Book, m: nat)
    requires m < |c.moves|
  {
    && MoveOpen(c, start, m)
    && (forall j :: 0 <= j < |c.attacks| && AttackOpen(c, start, j) ==> c.attacks[j].actor != c.moves[m].actor)
    && (forall j :: 0 <= j < m && MoveOpen(c, start, j) ==> c.moves[j].actor != c.moves[m].actor)
  }

  lemma OneMoveMore(c: Context, start: Book, m: nat, k: Key)
    requires m < |c.moves| && c.moves[m].position.Some?
    ensures var keys := AttackKeys(c.attacks) + MoveKeys(c.moves[..m]);
      Given(keys + [MoveAt(c, m)], c, start, k) <==>
        Given(keys, c, start, k) || (k == MoveAt(c, m) && MoveGoesFirst(c, start, m))
  {
    var keys := AttackKeys(c.attacks) + MoveKeys(c.moves[..m]);
    GivenOneMore(keys, MoveAt(c, m), c, start, k);
    LastMeaning(keys, MoveAt(c, m), c, start);
    NoResponseYet(c, start, m, c.moves[m].actor);
  }

  /** Who fights and who rallies: each combat actor nobody claimed gives the first attack that
      is open to it, or else the first rally. */
  lemma CombatMeaning(c: Context, start: Book, k: Key)
    ensures k in CombatKeys(AttackKeys(c.attacks) + MoveKeys(c.moves), c, start) <==>
            FirstAttack(c, start, k) || FirstMove(c, start, k)
  {
    CombatKeysAreGiven(AttackKeys(c.attacks) + MoveKeys(c.moves), c, start);
    MovesGiven(c, start, |c.moves|, k);
    assert c.moves[..|c.moves|] == c.moves;
  }

  // ----- emergencies --------------------------------------------------------------------

  /** Everything said below is about one evaluation: what it answers in combat and beside it. */
  ghost predicate Answered(c: Context, start: Book, combat: seq<Key>, emergency: seq<Key>) {
    && combat == CombatKeys(AttackKeys(c.attacks) + MoveKeys(c.moves), c, start)
    && emergency == EmergencyKeys(c, combat, start)
  }

  /** An evaluation goes by what is known of the same episode while the threat lasts; in a
      new episode, and once the threat is over, nothing stays blocked. */
  lemma InheritedMeaning(agent: DefenseAgent, c: Context, k: Key, gameLoop: nat)
    ensures Blocked(agent.Inherited(c), k, gameLoop) <==>
            c.threatened && agent.episode == Some(c.episode) && Blocked(agent.book, k, gameLoop)
  {
  }

  ghost function WorkerAt(c: Context, i: nat): Key
    requires i < |c.workers|
  {
    Key(c.workers[i].actor, c.workers[i].action, c.workers[i].action + ":" + c.workers[i].target)
  }

  /** The first worker that is free to fight. */
  ghost predicate FirstWorker(c: Context, start: Book, k: Key) {
    exists i :: 0 <= i < |c.workers| && k == WorkerAt(c, i) && !Blocked(start, k, c.gameLoop)
             && forall j :: 0 <= j < i ==> Blocked(start, WorkerAt(c, j), c.gameLoop)
  }

  /** A worker is drafted, which is the one response with a target of its own. */
  ghost predicate Drafts(k: Key) {
    k.signature != k.action
  }

  lemma LastResortMeaning(c: Context, start: Book)
    ensures (LastResort(c, start) == [] <==>
               forall i :: 0 <= i < |c.workers| ==> Blocked(start, WorkerAt(c, i), c.gameLoop))
    ensures LastResort(c, start) != [] ==>
      |LastResort(c, start)| == 1 && Drafts(LastResort(c, start)[0]) && FirstWorker(c, start, LastResort(c, start)[0])
  {
    var keys := WorkerKeys(c.workers);
    assert forall i :: 0 <= i < |keys| ==> keys[i] == WorkerAt(c, i);
    if LastResort(c, start) != [] {
      var i := FirstFreeIsFirst(keys, start, c.gameLoop);
      assert keys[i] == WorkerAt(c, i);
      assert |WorkerAt(c, i).signature| > |WorkerAt(c, i).action|;
      assert forall j :: 0 <= j < i ==> Blocked(start, keys[j], c.gameLoop);
    }
    if forall i :: 0 <= i < |c.workers| ==> Blocked(start, WorkerAt(c, i), c.gameLoop) {
      assert forall k :: k in keys ==> Blocked(start, k, c.gameLoop);
    } else {
      var i :| 0 <= i < |c.workers| && !Blocked(start, WorkerAt(c, i), c.gameLoop);
      assert keys[i] in keys;
    }
  }

  lemma {:induction false} ImmediateSignatures(offers: seq<ActionOffer>, claimed: set<string>, book: Book)
    ensures forall k :: k in ImmediateKeys(offers, claimed, book) ==> !Drafts(k)
  {
    if offers != [] {
      ImmediateSignatures(offers[..|offers| - 1], claimed, book);
    }
  }

  lemma {:induction false} PrerequisiteSignatures(offers: seq<ActionOffer>)
    ensures forall k :: k in PrerequisiteKeys(offers) ==> !Drafts(k)
  {
    if offers != [] {
      PrerequisiteSignatures(offers[1..]);
    }
  }

  /** What is answered beside combat and workers. */
  ghost function Built(c: Context, start: Book, combat: seq<Key>): seq<Key> {
    var immediate := ImmediateAnswers(c, c.claimed + Actors(combat), start);
    if immediate == [] then Closure(c, start) else immediate
  }

  /** Nobody is drafted among these. */
  ghost predicate Builds(keys: seq<Key>) {
    forall i :: 0 <= i < |keys| ==> !Drafts(keys[i])
  }

  lemma BuiltDraftsNobody(c: Context, start: Book, combat: seq<Key>)
    ensures Builds(Built(c, start, combat))
  {
    ImmediateSignatures(c.immediate, c.claimed + Actors(combat), start);
    PrerequisiteSignatures(c.prerequisites);
  }

  /** Nobody but workers responds. */
  ghost predicate Undefended(c: Context, combat: seq<Key>) {
    forall i :: 0 <= i < |combat| ==> combat[i].actor in c.workerActors
  }

  lemma EmergencyParts(c: Context, start: Book, combat: seq<Key>) returns (drafted: seq<Key>)
    ensures EmergencyKeys(c, combat, start) == Built(c, start, combat) + drafted
    ensures drafted == [] || (|drafted| == 1 && Drafts(drafted[0]) && FirstWorker(c, start, drafted[0]))
    ensures drafted != [] <==>
      && c.critical && Undefended(c, combat)
      && exists i :: 0 <= i < |c.workers| && !Blocked(start, WorkerAt(c, i), c.gameLoop)
    ensures Builds(Built(c, start, combat))
  {
    drafted := if c.critical && !Responds(combat, c) then LastResort(c, start) else [];
    LastResortMeaning(c, start);
    BuiltDraftsNobody(c, start, combat);
  }

  /** A worker is drafted exactly when the threat is critical, nobody else responds, and some
      worker on offer is free. */
  lemma DraftMeaning(c: Context, start: Book, combat: seq<Key>, emergency: seq<Key>)
    requires Answered(c, start, combat, emergency)
    ensures (exists k :: k in emergency && Drafts(k)) <==>
      && c.critical && Undefended(c, combat)
      && exists i :: 0 <= i < |c.workers| && !Blocked(start, WorkerAt(c, i), c.gameLoop)
  {
    var drafted := EmergencyParts(c, start, combat);
    SomeDraft(emergency, Built(c, start, combat), drafted);
  }

  lemma SomeDraft(keys: seq<Key>, built: seq<Key>, drafted: seq<Key>)
    requires keys == built + drafted && Builds(built)
    requires drafted == [] || (|drafted| == 1 && Drafts(drafted[0]))
    ensures (exists k :: k in keys && Drafts(k)) <==> drafted != []
  {
    if drafted != [] {
      assert keys[|built|] in keys;
    }
  }

  /** Then it is the first that is free, and the only one. */
  lemma DraftedIsFirst(c: Context, start: Book, combat: seq<Key>, emergency: seq<Key>, i: nat, j: nat)
    requires Answered(c, start, combat, emergency) && i < |emergency| && j < |emergency|
    requires Drafts(emergency[i])
    ensures FirstWorker(c, start, emergency[i]) && (Drafts(emergency[j]) ==> i == j)
  {
    var drafted := EmergencyParts(c, start, combat);
    OnlyDraft(emergency, Built(c, start, combat), drafted, i, j);
  }

  lemma OnlyDraft(keys: seq<Key>, built: seq<Key>, drafted: seq<Key>, i: nat, j: nat)
    requires keys == built + drafted && Builds(built) && |drafted| <= 1
    requires i < |keys| && j < |keys| && Drafts(keys[i])
    ensures drafted == [keys[i]] && (Drafts(keys[j]) ==> i == j)
  {
  }

  // ----- what is built ------------------------------------------------------------------

  ghost predicate Claimed(c: Context, combat: seq<Key>, actor: string) {
    actor in c.claimed || exists i :: 0 <= i < |combat| && combat[i].actor == actor
  }

  /** How many responses with this action were dispatched and not reported back. */
  ghost function Underway(start: Book, action: string): nat {
    |set k | k in start.states && IsUnderway(start, k, action)|
  }

  /** As many as are wanted are there, queued or underway; the queue may count those underway. */
  ghost predicate Enough(start: Book, o: ActionOffer) {
    o.limit.Some?
    && (o.completed + o.queued >= o.limit.value || o.completed + Underway(start, o.action) >= o.limit.value)
  }

  /** `k` is an action of which there is not enough, by the first actor nobody claimed. */
  ghost predicate Considered(c: Context, start: Book, combat: seq<Key>, k: Key) {
    exists o, n: nat :: o in c.immediate && !Enough(start, o) && n < |o.actors|
      && k == Key(o.actors[n], o.action, o.action) && !Claimed(c, combat, o.actors[n])
      && forall m :: 0 <= m < n ==> Claimed(c, combat, o.actors[m])
  }

  ghost predicate IsUnderway(start: Book, k: Key, action: string) {
    k in start.states && k.action == action && start.states[k].phase == Responding && start.states[k].command != None
  }

  ghost function UnderwayAmong(start: Book, keys: seq<Key>, action: string): set<Key> {
    set k | k in keys && IsUnderway(start, k, action)
  }

  lemma UnderwayOneMore(start: Book, first: Key, rest: seq<Key>, action: string)
    requires first !in rest
    ensures |UnderwayAmong(start, [first] + rest, action)|
         == |UnderwayAmong(start, rest, action)| + if IsUnderway(start, first, action) then 1 else 0
  {
    var later := UnderwayAmong(start, rest, action);
    assert UnderwayAmong(start, [first] + rest, action)
        == if IsUnderway(start, first, action) then later + {first} else later;
  }

  lemma DistinctTail(order: seq<Key>)
    requires Distinct(order) && order != []
    ensures Distinct(order[1..]) && order[0] !in order[1..] && order == [order[0]] + order[1..]
  {
    assert forall i :: 0 <= i < |order[1..]| ==> order[1..][i] == order[i + 1];
  }

  lemma {:induction false} DispatchedAreCounted(start: Book, order: seq<Key>, action: string)
    requires Distinct(order) && forall k :: k in order ==> k in start.states && start.states[k].key == k
    ensures CountDispatched(start, order, action) == |UnderwayAmong(start, order, action)|
  {
    if order == [] {
      assert UnderwayAmong(start, order, action) == {};
    } else {
      DistinctTail(order);
      DispatchedAreCounted(start, order[1..], action);
      UnderwayOneMore(start, order[0], order[1..], action);
    }
  }

  lemma EnoughMeaning(start: Book, o: ActionOffer)
    requires ValidBook(start)
    ensures Enough(start, o) <==> Saturated(start, o)
  {
    DispatchedAreCounted(start, start.order, o.action);
    assert UnderwayAmong(start, start.order, o.action)
        == (set k | k in start.states && IsUnderway(start, k, o.action));
  }

  lemma {:induction false} FirstUnclaimedIsFirst(actors: seq<string>, claimed: set<string>, actor: string)
    ensures FirstUnclaimed(actors, claimed) == Some(actor) <==>
            exists n :: 0 <= n < |actors| && actors[n] == actor && actor !in claimed
                     && forall m :: 0 <= m < n ==> actors[m] in claimed
  {
    if actors != [] {
      FirstUnclaimedIsFirst(actors[1..], claimed, actor);
      if actors[0] in claimed {
        if n :| 0 <= n < |actors[1..]| && actors[1..][n] == actor && actor !in claimed
                && forall m :: 0 <= m < n ==> actors[1..][m] in claimed {
          assert forall m :: 0 <= m < n + 1 ==> actors[m] in claimed;
          assert actors[n + 1] == actor;
        }
        if n :| 0 <= n < |actors| && actors[n] == actor && actor !in claimed
                && forall m :: 0 <= m < n ==> actors[m] in claimed {
          assert n > 0 && actors[1..][n - 1] == actor;
          assert forall m :: 0 <= m < n - 1 ==> actors[1..][m] == actors[m + 1];
        }
      }
    }
  }

  lemma ConsideredMeaning(c: Context, start: Book, combat: seq<Key>, k: Key)
    requires ValidBook(start)
    ensures k in ImmediateKeys(c.immediate, c.claimed + Actors(combat), start) <==> Considered(c, start, combat, k)
  {
    var claimed := c.claimed + Actors(combat);
    ImmediateKeysMeaning(c.immediate, claimed, start, k);
    forall a ensures a in claimed <==> Claimed(c, combat, a) {
      if p :| p in combat && p.actor == a {
        var i :| 0 <= i < |combat| && combat[i] == p;
      }
    }
    forall o: ActionOffer
      ensures Enough(start, o) <==> Saturated(start, o)
      ensures FirstUnclaimed(o.actors, claimed) == Some(k.actor) <==>
              exists n :: 0 <= n < |o.actors| && o.actors[n] == k.actor && !Claimed(c, combat, k.actor)
                       && forall m :: 0 <= m < n ==> Claimed(c, combat, o.actors[m])
    {
      EnoughMeaning(start, o);
      FirstUnclaimedIsFirst(o.actors, claimed, k.actor);
    }
  }

  /** The first action on offer, by its first actor, that is free. */
  ghost predicate FirstFrom(offers: seq<ActionOffer>, start: Book, gameLoop: nat, k: Key) {
    exists i :: 0 <= i < |offers| && offers[i].actors != []
             && k == Key(offers[i].actors[0], offers[i].action, offers[i].action) && !Blocked(start, k, gameLoop)
             && forall j :: 0 <= j < i && offers[j].actors != [] ==>
                 Blocked(start, Key(offers[j].actors[0], offers[j].action, offers[j].action), gameLoop)
  }

  lemma {:induction false} PrerequisitesInTurn(offers: seq<ActionOffer>, start: Book, gameLoop: nat, k: Key)
    ensures k in FirstFree(PrerequisiteKeys(offers), start, gameLoop) <==> FirstFrom(offers, start, gameLoop, k)
  {
    if offers != [] {
      PrerequisitesInTurn(offers[1..], start, gameLoop, k);
      FirstFromTail(offers, start, gameLoop, k);
      var rest := PrerequisiteKeys(offers[1..]);
      if offers[0].actors == [] {
        assert PrerequisiteKeys(offers) == rest;
      } else {
        var first := Key(offers[0].actors[0], offers[0].action, offers[0].action);
        assert PrerequisiteKeys(offers) == [first] + rest;
        assert ([first] + rest)[1..] == rest;
      }
    }
  }

  lemma FirstFromTail(offers: seq<ActionOffer>, start: Book, gameLoop: nat, k: Key)
    requires offers != []
    ensures FirstFrom(offers, start, gameLoop, k) <==>
      if offers[0].actors == [] || Blocked(start, Key(offers[0].actors[0], offers[0].action, offers[0].action),
                                           gameLoop)
      then FirstFrom(offers[1..], start, gameLoop, k)
      else k == Key(offers[0].actors[0], offers[0].action, offers[0].action)
  {
    var rest := offers[1..];
    assert forall j :: 0 <= j < |rest| ==> rest[j] == offers[j + 1];
    if offers[0].actors == []
       || Blocked(start, Key(offers[0].actors[0], offers[0].action, offers[0].action), gameLoop) {
      if i :| 0 <= i < |rest| && rest[i].actors != []
              && k == Key(rest[i].actors[0], rest[i].action, rest[i].action) && !Blocked(start, k, gameLoop)
              && forall j :: 0 <= j < i && rest[j].actors != [] ==>
                  Blocked(start, Key(rest[j].actors[0], rest[j].action, rest[j].action), gameLoop) {
        forall j | 0 <= j < i + 1 && offers[j].actors != []
          ensures Blocked(start, Key(offers[j].actors[0], offers[j].action, offers[j].action), gameLoop)
        {
          assert j > 0 ==> offers[j] == rest[j - 1];
        }
        assert offers[i + 1] == rest[i];
      }
      if i :| 0 <= i < |offers| && offers[i].actors != []
              && k == Key(offers[i].actors[0], offers[i].action, offers[i].action) && !Blocked(start, k, gameLoop)
              && forall j :: 0 <= j < i && offers[j].actors != [] ==>
                  Blocked(start, Key(offers[j].actors[0], offers[j].action, offers[j].action), gameLoop) {
        assert i > 0 && rest[i - 1] == offers[i];
      }
    }
  }

  lemma BuiltMeaning(c: Context, start: Book, combat: seq<Key>, k: Key)
    requires ValidBook(start)
    ensures k in Built(c, start, combat) <==>
      if exists q :: Considered(c, start, combat, q) && !Blocked(start, q, c.gameLoop)
      then Considered(c, start, combat, k) && !Blocked(start, k, c.gameLoop)
      else !c.terminalCollapse && FirstFrom(c.prerequisites, start, c.gameLoop, k)
  {
    var immediate := ImmediateAnswers(c, c.claimed + Actors(combat), start);
    forall q ensures q in immediate <==> Considered(c, start, combat, q) && !Blocked(start, q, c.gameLoop) {
      ConsideredMeaning(c, start, combat, q);
    }
    if immediate != [] {
      assert immediate[0] in immediate;
    }
    PrerequisitesInTurn(c.prerequisites, start, c.gameLoop, k);
  }

  lemma BuiltAnswers(c: Context, start: Book, combat: seq<Key>, emergency: seq<Key>, k: Key)
    requires Answered(c, start, combat, emergency)
    ensures k in emergency && !Drafts(k) <==> k in Built(c, start, combat)
  {
    var drafted := EmergencyParts(c, start, combat);
    NoDraft(emergency, Built(c, start, combat), drafted, k);
  }

  lemma NoDraft(keys: seq<Key>, built: seq<Key>, drafted: seq<Key>, k: Key)
    requires keys == built + drafted && Builds(built)
    requires drafted == [] || (|drafted| == 1 && Drafts(drafted[0]))
    ensures k in keys && !Drafts(k) <==> k in built
  {
  }

  /** What is built: every action considered whose response is free; or, when there is none
      and the base is not collapsing, the first prerequisite that is free. */
  lemma BuildMeaning(c: Context, start: Book, combat: seq<Key>, emergency: seq<Key>, k: Key)
    requires ValidBook(start) && Answered(c, start, combat, emergency)
    ensures k in emergency && !Drafts(k) <==>
      if exists q :: Considered(c, start, combat, q) && !Blocked(start, q, c.gameLoop)
      then Considered(c, start, combat, k) && !Blocked(start, k, c.gameLoop)
      else !c.terminalCollapse && FirstFrom(c.prerequisites, start, c.gameLoop, k)
  {
    BuiltAnswers(c, start, combat, emergency, k);
    BuiltMeaning(c, start, combat, k);
  }

  // ----- consultations and reports ------------------------------------------------------

  /** Asking for a response changes the book only when its hold has run out: then the command
      that held it is forgotten. */
  lemma ConsultationMeaning(book: Book, key: Key, gameLoop: nat, other: Key)
    requires ValidBook(book)
    ensures var after := Consulted(book, key, gameLoop);
      && after.order == book.order && after.states.Keys == book.states.Keys
      && (other in book.states && other != key ==> after.states[other] == book.states[other])
      && (key in book.states ==>
            after.states[key] ==
            if book.states[key].phase == Holding && book.states[key].activeUntil <= gameLoop
            then book.states[key].(phase := Responding, command := None)
            else book.states[key])
  {
  }

  /** The response a command belongs to: the first in the book that carries it. */
  ghost predicate FirstWith(book: Book, command: Identity, i: int) {
    && 0 <= i < |book.order| && book.order[i] in book.states && book.states[book.order[i]].command == Some(command)
    && forall j :: 0 <= j < i && book.order[j] in book.states ==> book.states[book.order[j]].command != Some(command)
  }

  lemma {:induction false} OwnerFrom(book: Book, order: seq<Key>, command: Identity)
    ensures match Owner(book, order, command)
            case None =>
              forall j :: 0 <= j < |order| && order[j] in book.states ==> book.states[order[j]].command != Some(command)
            case Some(key) =>
              exists i :: 0 <= i < |order| && order[i] == key && key in book.states
                       && book.states[key].command == Some(command)
                       && forall j :: 0 <= j < i && order[j] in book.states ==>
                           book.states[order[j]].command != Some(command)
  {
    if order != [] && !(order[0] in book.states && book.states[order[0]].command == Some(command)) {
      var rest := order[1..];
      OwnerFrom(book, rest, command);
      assert forall j :: 0 <= j < |rest| ==> rest[j] == order[j + 1];
      if Owner(book, rest, command).Some? {
        var key := Owner(book, rest, command).value;
        var i :| 0 <= i < |rest| && rest[i] == key && key in book.states
              && book.states[key].command == Some(command)
              && forall j :: 0 <= j < i && rest[j] in book.states ==> book.states[rest[j]].command != Some(command);
        forall j | 0 <= j < i + 1 && order[j] in book.states
          ensures book.states[order[j]].command != Some(command)
        {
          assert j > 0 ==> order[j] == rest[j - 1];
        }
        assert order[i + 1] == key;
      }
    }
  }

  /** What a report leaves: a success holds the response for 112 loops, and not less than
      before; a failure frees it but for a cooldown of 32; anything else, and a report for no
      response, changes nothing; and no other response is touched. */
  lemma ReportMeaning(book: Book, command: Identity, outcome: Outcome, gameLoop: nat, i: nat)
    requires ValidBook(book) && FirstWith(book, command, i)
    ensures var key := book.order[i];
      var was, after := book.states[key], ReportedTo(book, command, outcome, gameLoop);
      && after.order == book.order
      && after.states == book.states[key :=
           match outcome
           case Succeeded =>
             was.(phase := Holding,
                  activeUntil := if was.activeUntil > gameLoop + 112 then was.activeUntil else gameLoop + 112)
           case Failed => was.(phase := Cooldown, activeUntil := gameLoop, cooldownUntil := gameLoop + 32)
           case Inconclusive => was]
  {
    OwnerFrom(book, book.order, command);
  }

  /** A dispatch starts a response over, for 112 loops, with no cooldown. */
  lemma DispatchMeaning(book: Book, actor: string, action: string, arguments: seq<Argument>, command: Identity,
                        gameLoop: nat)
    ensures var key := CommandKey(actor, action, arguments);
      var after := Dispatched(book, key, command, gameLoop);
      && after.order == (if key in book.states then book.order else book.order + [key])
      && after.states == book.states[key := ActorState(key, Responding, gameLoop + 112, 0, Some(command))]
      && key.actor == actor && key.action == action
  {
  }
}
