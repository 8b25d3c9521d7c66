/** The defence agent: which responses it may propose, given what it dispatched, what was
    reported back, and when. */
module Defense {
  import opened Ordering

  const COMMITMENT: nat := 112
  const RETRY_COOLDOWN: nat := 32

  /** The dict key `actor|action|signature`. */
  datatype Key = Key(actor: string, action: string, signature: string)

  datatype Phase = Responding | Holding | Cooldown

  datatype Identity = Identity(commandId: string, operationId: Option<string>, attemptId: Option<string>)

  datatype ActorState = ActorState(
    key: Key, phase: Phase, activeUntil: nat, cooldownUntil: nat, command: Option<Identity>)

  /** The agent's dict, with its insertion order. */
  datatype Book = Book(order: seq<Key>, states: map<Key, ActorState>)

  const EMPTY := Book([], map[])

  ghost predicate ValidBook(book: Book) {
    && (forall k :: k in book.order <==> k in book.states)
    && (forall k :: k in book.states ==> book.states[k].key == k)
    && Distinct(book.order)
  }

  datatype Outcome = Succeeded | Failed | Inconclusive

  // ----- signatures ---------------------------------------------------------------------

  /** A command argument: its text, and the text of its whole coordinates when it is a pair. */
  datatype Argument = Argument(text: string, position: Option<string>)

  function AttackSignature(target: string): string { "Attack_Unit:" + target }

  function MoveSignature(position: string): string { "Move_Minimap:" + position }

  /** `_command_signature`: only attacks and moves keep their target. */
  function CommandSignature(action: string, arguments: seq<Argument>): string {
    if action == "Attack_Unit" && arguments != [] then AttackSignature(arguments[0].text)
    else if action == "Move_Minimap" && arguments != [] && arguments[0].position.Some? then
      MoveSignature(arguments[0].position.value)
    else action
  }

  function CommandKey(actor: string, action: string, arguments: seq<Argument>): Key {
    Key(actor, action, CommandSignature(action, arguments))
  }

  /** Which commands carry the signature of which proposal: an attack on the same target, by
      its very text; a move to the same place; any command of an action proposed as a whole,
      unless it is an attack or a move and its arguments say where. */
  lemma SignatureMeaning(action: string, arguments: seq<Argument>, target: string)
    ensures CommandSignature("Attack_Unit", arguments) == AttackSignature(target) <==>
      arguments != [] && arguments[0].text == target
    ensures CommandSignature("Move_Minimap", arguments) == MoveSignature(target) <==>
      arguments != [] && arguments[0].position == Some(target)
    ensures CommandSignature(action, arguments) == action <==>
      || (action != "Attack_Unit" && action != "Move_Minimap") || arguments == []
      || (action == "Move_Minimap" && arguments[0].position.None?)
  {
    assert AttackSignature(target)[|"Attack_Unit:"|..] == target;
    assert MoveSignature(target)[|"Move_Minimap:"|..] == target;
    if arguments != [] {
      assert AttackSignature(arguments[0].text)[|"Attack_Unit:"|..] == arguments[0].text;
      if arguments[0].position.Some? {
        assert MoveSignature(arguments[0].position.value)[|"Move_Minimap:"|..] == arguments[0].position.value;
      }
    }
  }

  /** A proposal that names its target under another action is matched by no command. */
  lemma OtherTargetsAreDropped(action: string, arguments: seq<Argument>, target: string)
    requires action != "Attack_Unit" && action != "Move_Minimap"
    ensures CommandSignature(action, arguments) != action + ":" + target
  {
    assert |action + ":" + target| > |action|;
  }

  // ----- one operation each, on values --------------------------------------------------

  function Assign(book: Book, key: Key, state: ActorState): Book {
    Book(if key in book.states then book.order else book.order + [key], book.states[key := state])
  }

  function Dispatched(book: Book, key: Key, command: Identity, gameLoop: nat): Book {
    Assign(book, key, ActorState(key, Responding, gameLoop + COMMITMENT, 0, Some(command)))
  }

  /** The first state, in insertion order, that carries this command. */
  function Owner(book: Book, order: seq<Key>, command: Identity): Option<Key> {
    if order == [] then None
    else if order[0] in book.states && book.states[order[0]].command == Some(command) then Some(order[0])
    else Owner(book, order[1..], command)
  }

  function NatMax(a: nat, b: nat): nat { if a >= b then a else b }

  function AfterOutcome(state: ActorState, outcome: Outcome, gameLoop: nat): ActorState {
    match outcome
    case Succeeded => state.(phase := Holding, activeUntil := NatMax(state.activeUntil, gameLoop + COMMITMENT))
    case Failed => state.(phase := Cooldown, activeUntil := gameLoop, cooldownUntil := gameLoop + RETRY_COOLDOWN)
    case Inconclusive => state
  }

  function ReportedTo(book: Book, command: Identity, outcome: Outcome, gameLoop: nat): Book {
    match Owner(book, book.order, command)
    case None => book
    case Some(key) =>
      if key in book.states then Assign(book, key, AfterOutcome(book.states[key], outcome, gameLoop)) else book
  }

  /** The response is still committed or cooling down. */
  predicate Blocked(book: Book, key: Key, gameLoop: nat) {
    key in book.states
    && (gameLoop < book.states[key].activeUntil || gameLoop < book.states[key].cooldownUntil)
  }

  predicate Expired(state: ActorState, gameLoop: nat) {
    state.phase == Holding && gameLoop >= state.activeUntil
  }

  /** Asking about an expired hold releases it: its late reports no longer find it. */
  function Consulted(book: Book, key: Key, gameLoop: nat): Book {
    if key in book.states && Expired(book.states[key], gameLoop)
    then Assign(book, key, book.states[key].(phase := Responding, command := None))
    else book
  }

  /** One signature is never both a rally and an attack. */
  lemma RallyNeverReplaced(signature: string)
    ensures !(IsPrefix("Move_Minimap:", signature) && IsPrefix("Attack_Unit:", signature))
  {
    assert "Move_Minimap:"[0] != "Attack_Unit:"[0];
  }

  /** `after` is `before` with some expired holds released, as consulting leaves it. */
  ghost predicate Released(before: Book, after: Book, gameLoop: nat) {
    && after.order == before.order && after.states.Keys == before.states.Keys
    && forall k :: k in before.states ==>
         || after.states[k] == before.states[k]
         || (Expired(before.states[k], gameLoop)
             && after.states[k] == before.states[k].(phase := Responding, command := None))
  }

  /** Consulting never changes what is blocked. */
  lemma ReleasedBlocksTheSame(before: Book, after: Book, key: Key, gameLoop: nat)
    requires Released(before, after, gameLoop)
    ensures Blocked(after, key, gameLoop) == Blocked(before, key, gameLoop)
  {
  }

  /** Dispatching blocks one free response: the one with its actor, action and signature. */
  lemma DispatchBlocksOneResponse(book: Book, actor: string, action: string, arguments: seq<Argument>,
                                  command: Identity,
                                  at: nat, proposal: Key, gameLoop: nat)
    requires at <= gameLoop < at + 112 && !Blocked(book, proposal, gameLoop)
    ensures Blocked(Dispatched(book, CommandKey(actor, action, arguments), command, at), proposal, gameLoop) <==>
      proposal.actor == actor && proposal.action == action && proposal.signature == CommandSignature(action, arguments)
  {
  }

  ghost predicate AllFree(proposals: seq<Key>, book: Book, gameLoop: nat) {
    forall p :: p in proposals ==> !Blocked(book, p, gameLoop)
  }

  // ----- the agent ----------------------------------------------------------------------

  datatype AttackOffer = AttackOffer(actor: string, target: Option<string>)

  datatype MoveOffer = MoveOffer(actor: string, position: Option<string>)

  /** A production, fortification or prerequisite action on offer; a training action may
      be capped by what is built, queued and already dispatched. */
  datatype ActionOffer = ActionOffer(action: string, actors: seq<string>, limit: Option<nat>, completed: nat,
                                     queued: nat)

  datatype WorkerOffer = WorkerOffer(action: string, actor: string, target: string)

  /** What one evaluation sees. */
  datatype Context = Context(
    episode: (string, string), gameLoop: nat, threatened: bool, critical: bool, terminalCollapse: bool,
    claimed: set<string>, combatActors: set<string>, workerActors: set<string>,
    attacks: seq<AttackOffer>, moves: seq<MoveOffer>,
    immediate: seq<ActionOffer>, prerequisites: seq<ActionOffer>, workers: seq<WorkerOffer>)

  predicate IsPrefix(p: string, s: string) { p <= s }

  function CountDispatched(book: Book, order: seq<Key>, action: string): nat {
    if order == [] then 0
    else
      (if order[0] in book.states && book.states[order[0]].key.action == action
          && book.states[order[0]].phase == Responding && book.states[order[0]].command.Some? then 1 else 0)
      + CountDispatched(book, order[1..], action)
  }

  function Saturated(book: Book, offer: ActionOffer): bool {
    offer.limit.Some? &&
    var dispatched := CountDispatched(book, book.order, offer.action);
    offer.completed + offer.queued + (if dispatched > offer.queued then dispatched - offer.queued else 0)
      >= offer.limit.value
  }

  function FirstUnclaimed(actors: seq<string>, claimed: set<string>): (r: Option<string>)
    ensures r.Some? ==> r.value in actors && r.value !in claimed
    ensures r.None? <==> forall a :: a in actors ==> a in claimed
  {
    if actors == [] then None
    else if actors[0] !in claimed then Some(actors[0])
    else FirstUnclaimed(actors[1..], claimed)
  }

  /** An unsaturated action, by its first unclaimed actor. */
  function ImmediateKey(offer: ActionOffer, claimed: set<string>, book: Book): (r: seq<Key>)
    ensures |r| <= 1
  {
    var actor := FirstUnclaimed(offer.actors, claimed);
    if Saturated(book, offer) || actor.None? then [] else [Key(actor.value, offer.action, offer.action)]
  }

  function ImmediateKeys(offers: seq<ActionOffer>, claimed: set<string>, book: Book): seq<Key> {
    if offers == [] then []
    else
      ImmediateKeys(offers[..|offers| - 1], claimed, book) + ImmediateKey(offers[|offers| - 1], claimed, book)
  }

  /** Each unsaturated action with an unclaimed actor, and nothing else, is considered. */
  lemma {:induction false} ImmediateKeysMeaning(offers: seq<ActionOffer>, claimed: set<string>, book: Book, k: Key)
    ensures k in ImmediateKeys(offers, claimed, book) <==>
      exists o :: o in offers && !Saturated(book, o) && FirstUnclaimed(o.actors, claimed) == Some(k.actor)
                  && k == Key(k.actor, o.action, o.action)
  {
    if offers != [] {
      var init, last := offers[..|offers| - 1], offers[|offers| - 1];
      ImmediateKeysMeaning(init, claimed, book, k);
      assert offers == init + [last];
    }
  }

  /** Prerequisites go to their first actor, claimed or not. */
  function PrerequisiteKeys(offers: seq<ActionOffer>): seq<Key> {
    if offers == [] then []
    else
      (if offers[0].actors == [] then [] else [Key(offers[0].actors[0], offers[0].action, offers[0].action)])
      + PrerequisiteKeys(offers[1..])
  }

  function WorkerKeys(offers: seq<WorkerOffer>): (r: seq<Key>)
    ensures |r| == |offers|
    ensures forall i :: 0 <= i < |r| ==>
      r[i] == Key(offers[i].actor, offers[i].action, offers[i].action + ":" + offers[i].target)
  {
    seq(|offers|, i requires 0 <= i < |offers| =>
      Key(offers[i].actor, offers[i].action, offers[i].action + ":" + offers[i].target))
  }

  function AttackKey(offer: AttackOffer): (r: seq<Key>)
    ensures |r| <= 1
  {
    if offer.target.None? then [] else [Key(offer.actor, "Attack_Unit", AttackSignature(offer.target.value))]
  }

  function AttackKeys(offers: seq<AttackOffer>): seq<Key> {
    if offers == [] then [] else AttackKeys(offers[..|offers| - 1]) + AttackKey(offers[|offers| - 1])
  }

  function MoveKey(offer: MoveOffer): (r: seq<Key>)
    ensures |r| <= 1
  {
    if offer.position.None? then [] else [Key(offer.actor, "Move_Minimap", MoveSignature(offer.position.value))]
  }

  function MoveKeys(offers: seq<MoveOffer>): seq<Key> {
    if offers == [] then [] else MoveKeys(offers[..|offers| - 1]) + MoveKey(offers[|offers| - 1])
  }

  /** Of the responses in order, the first free one of each combat actor nobody claimed. */
  function CombatKeys(keys: seq<Key>, context: Context, start: Book): seq<Key> {
    if keys == [] then []
    else
      var before, last := CombatKeys(keys[..|keys| - 1], context, start), keys[|keys| - 1];
      if last.actor in context.claimed || last.actor in Actors(before) || last.actor !in context.combatActors
         || Blocked(start, last, context.gameLoop)
      then before else before + [last]
  }

  /** The responses that are not blocked, in order. */
  function FreeKeys(keys: seq<Key>, book: Book, gameLoop: nat): (r: seq<Key>)
    ensures forall k :: k in r <==> k in keys && !Blocked(book, k, gameLoop)
  {
    if keys == [] then []
    else
      FreeKeys(keys[..|keys| - 1], book, gameLoop)
      + (if Blocked(book, keys[|keys| - 1], gameLoop) then [] else [keys[|keys| - 1]])
  }

  lemma FreeOneMore(keys: seq<Key>, last: Key, book: Book, gameLoop: nat)
    ensures FreeKeys(keys + [last], book, gameLoop)
         == FreeKeys(keys, book, gameLoop) + if Blocked(book, last, gameLoop) then [] else [last]
  {
    assert (keys + [last])[..|keys|] == keys;
  }

  lemma FreeAppend(keys: seq<Key>, more: seq<Key>, book: Book, gameLoop: nat)
    requires |more| <= 1
    ensures FreeKeys(keys + more, book, gameLoop)
         == FreeKeys(keys, book, gameLoop) + FreeKeys(more, book, gameLoop)
  {
    if more == [] {
      assert keys + more == keys;
    } else {
      FreeOneMore(keys, more[0], book, gameLoop);
      FreeOneMore([], more[0], book, gameLoop);
      assert more == [more[0]] && [] + more == more;
    }
  }

  lemma ImmediateOneMore(offers: seq<ActionOffer>, i: nat, claimed: set<string>, book: Book, gameLoop: nat)
    requires i < |offers|
    ensures FreeKeys(ImmediateKeys(offers[..i + 1], claimed, book), book, gameLoop)
         == FreeKeys(ImmediateKeys(offers[..i], claimed, book), book, gameLoop)
            + FreeKeys(ImmediateKey(offers[i], claimed, book), book, gameLoop)
  {
    assert offers[..i + 1][..i] == offers[..i];
    FreeAppend(ImmediateKeys(offers[..i], claimed, book), ImmediateKey(offers[i], claimed, book), book, gameLoop);
  }

  /** The first response that is not blocked, or none when all are. */
  function FirstFree(keys: seq<Key>, book: Book, gameLoop: nat): (r: seq<Key>)
    ensures r == [] <==> forall k :: k in keys ==> Blocked(book, k, gameLoop)
    ensures r != [] ==> |r| == 1 && r[0] in keys && !Blocked(book, r[0], gameLoop)
  {
    if keys == [] then []
    else if Blocked(book, keys[0], gameLoop) then FirstFree(keys[1..], book, gameLoop)
    else [keys[0]]
  }

  /** Nothing before the response found is free. */
  lemma {:induction false} FirstFreeIsFirst(keys: seq<Key>, book: Book, gameLoop: nat) returns (i: nat)
    requires FirstFree(keys, book, gameLoop) != []
    ensures i < |keys| && FirstFree(keys, book, gameLoop) == [keys[i]] && !Blocked(book, keys[i], gameLoop)
    ensures forall j :: 0 <= j < i ==> Blocked(book, keys[j], gameLoop)
  {
    if !Blocked(book, keys[0], gameLoop) {
      i := 0;
    } else {
      i := FirstFreeIsFirst(keys[1..], book, gameLoop);
      i := i + 1;
    }
  }

  lemma {:induction false} ReleasedCountsTheSame(before: Book, after: Book, order: seq<Key>, action: string,
                                                 gameLoop: nat)
    requires Released(before, after, gameLoop)
    ensures CountDispatched(after, order, action) == CountDispatched(before, order, action)
  {
    if order != [] {
      ReleasedCountsTheSame(before, after, order[1..], action, gameLoop);
    }
  }

  /** Nor does consulting change what is saturated. */
  lemma ReleasedSaturatesTheSame(before: Book, after: Book, offer: ActionOffer, gameLoop: nat)
    requires Released(before, after, gameLoop)
    ensures Saturated(after, offer) == Saturated(before, offer)
  {
    ReleasedCountsTheSame(before, after, before.order, offer.action, gameLoop);
  }

  /** What an evaluation answers beside combat: immediate actions or else a prerequisite,
      and a worker when the threat is critical and no combat group responds. */
  function EmergencyKeys(context: Context, combat: seq<Key>, start: Book): seq<Key> {
    var immediate := ImmediateAnswers(context, context.claimed + Actors(combat), start);
    (if immediate == [] then Closure(context, start) else immediate)
    + (if context.critical && !Responds(combat, context) then LastResort(context, start) else [])
  }

  function ImmediateAnswers(context: Context, claimed: set<string>, start: Book): seq<Key> {
    FreeKeys(ImmediateKeys(context.immediate, claimed, start), start, context.gameLoop)
  }

  function Closure(context: Context, start: Book): seq<Key> {
    if context.terminalCollapse then [] else FirstFree(PrerequisiteKeys(context.prerequisites), start, context.gameLoop)
  }

  function LastResort(context: Context, start: Book): seq<Key> {
    FirstFree(WorkerKeys(context.workers), start, context.gameLoop)
  }

  /** Somebody other than a worker responds. */
  predicate Responds(combat: seq<Key>, context: Context) {
    exists p :: p in combat && p.actor !in context.workerActors
  }

  /** What one more offer adds. */
  function CombatAnswer(more: seq<Key>, claimed: set<string>, context: Context, start: Book): seq<Key>
    requires |more| <= 1
  {
    if more == [] || more[0].actor in claimed || more[0].actor !in context.combatActors
       || Blocked(start, more[0], context.gameLoop)
    then [] else more
  }

  lemma CombatOneMore(keys: seq<Key>, more: seq<Key>, context: Context, start: Book)
    requires |more| <= 1
    ensures var before := CombatKeys(keys, context, start);
      CombatKeys(keys + more, context, start)
      == before + CombatAnswer(more, context.claimed + Actors(before), context, start)
  {
    if more == [] {
      assert keys + more == keys;
    } else {
      assert (keys + more)[..|keys|] == keys;
    }
  }

  lemma AttacksOneMore(offers: seq<AttackOffer>, i: nat, context: Context, start: Book)
    requires i < |offers|
    ensures var before := CombatKeys(AttackKeys(offers[..i]), context, start);
      CombatKeys(AttackKeys(offers[..i + 1]), context, start)
      == before + CombatAnswer(AttackKey(offers[i]), context.claimed + Actors(before), context, start)
  {
    assert offers[..i + 1][..i] == offers[..i];
    CombatOneMore(AttackKeys(offers[..i]), AttackKey(offers[i]), context, start);
  }

  lemma MovesOneMore(attacks: seq<Key>, offers: seq<MoveOffer>, i: nat, context: Context, start: Book)
    requires i < |offers|
    ensures var before := CombatKeys(attacks + MoveKeys(offers[..i]), context, start);
      CombatKeys(attacks + MoveKeys(offers[..i + 1]), context, start)
      == before + CombatAnswer(MoveKey(offers[i]), context.claimed + Actors(before), context, start)
  {
    assert offers[..i + 1][..i] == offers[..i];
    assert attacks + (MoveKeys(offers[..i]) + MoveKey(offers[i])) == attacks + MoveKeys(offers[..i])
      + MoveKey(offers[i]);
    CombatOneMore(attacks + MoveKeys(offers[..i]), MoveKey(offers[i]), context, start);
  }

  lemma EmergencyIsFree(context: Context, combat: seq<Key>, start: Book)
    ensures AllFree(EmergencyKeys(context, combat, start), start, context.gameLoop)
  {
  }

  /** Combat proposals go to combat actors nobody claimed, one each, and are not blocked. */
  lemma {:induction false} CombatIsFair(keys: seq<Key>, context: Context, start: Book)
    ensures OnePerActor(CombatKeys(keys, context, start), context)
    ensures AllFree(CombatKeys(keys, context, start), start, context.gameLoop)
  {
    if keys != [] {
      CombatIsFair(keys[..|keys| - 1], context, start);
    }
  }

  /** And every free response of a combat actor leaves that actor claimed. */
  lemma {:induction false} CombatServes(keys: seq<Key>, context: Context, start: Book, k: Key)
    requires k in keys && k.actor in context.combatActors && !Blocked(start, k, context.gameLoop)
    ensures k.actor in context.claimed + Actors(CombatKeys(keys, context, start))
  {
    var init, last := keys[..|keys| - 1], keys[|keys| - 1];
    if k != last {
      assert k in init;
      CombatServes(init, context, start, k);
    } else {
      assert last.actor in context.claimed + Actors(CombatKeys(init, context, start))
          || last in CombatKeys(keys, context, start);
    }
  }

  class DefenseAgent {
    var episode: Option<(string, string)>
    var book: Book

    constructor ()
      ensures Valid() && book == EMPTY && episode == None
    {
      episode, book := None, EMPTY;
    }

    ghost predicate Valid()
      reads this
    {
      ValidBook(book)
    }

    /** `_may_emit`. An attack may replace a rally only under another signature, and the
        state consulted always carries the asked signature, so that exception is idle. */
    method MayEmit(key: Key, gameLoop: nat) returns (allowed: bool)
      requires Valid()
      modifies this`book
      ensures Valid()
      ensures allowed <==> !Blocked(old(book), key, gameLoop)
      ensures book == Consulted(old(book), key, gameLoop)
    {
      if key !in book.states {
        return true;
      }
      var state := book.states[key];
      if state.phase == Holding {
        if gameLoop < state.activeUntil {
          return false;
        }
        state := state.(phase := Responding, command := None);
        book := Assign(book, key, state);
      }
      if gameLoop < state.cooldownUntil {
        return false;
      }
      if gameLoop < state.activeUntil {
        var mayReplaceRally := IsPrefix("Move_Minimap:", state.key.signature)
          && IsPrefix("Attack_Unit:", key.signature);
        RallyNeverReplaced(state.key.signature);
        if !mayReplaceRally {
          return false;
        }
      }
      return true;
    }

    method RecordDispatch(actor: string, action: string, arguments: seq<Argument>, command: Identity, gameLoop: nat)
      requires Valid()
      modifies this`book
      ensures Valid()
      ensures book == Dispatched(old(book), CommandKey(actor, action, arguments), command, gameLoop)
    {
      var key := Key(actor, action, CommandSignature(action, arguments));
      book := Assign(book, key, ActorState(key, Responding, gameLoop + COMMITMENT, 0, None));
      book := Assign(book, key, book.states[key].(command := Some(command)));
    }

    /** `record_execution`: the loop bound the report sets, if it belongs to a state. */
    method RecordExecution(command: Identity, outcome: Outcome, gameLoop: nat) returns (until: Option<nat>)
      requires Valid()
      modifies this`book
      ensures Valid()
      ensures book == ReportedTo(old(book), command, outcome, gameLoop)
      ensures until.Some? <==> Owner(old(book), old(book).order, command).Some? && outcome != Inconclusive
      ensures until.Some? ==>
        var key := Owner(old(book), old(book).order, command).value;
        key in book.states
        && until.value == if outcome == Succeeded then book.states[key].activeUntil else book.states[key].cooldownUntil
    {
      var found: Option<Key> := None;
      for i := 0 to |book.order|
        invariant found == None && book == old(book)
        invariant Owner(book, book.order[i..], command) == Owner(book, book.order, command)
      {
        var key := book.order[i];
        assert book.order[i..][1..] == book.order[i + 1..];
        if book.states[key].command == Some(command) {
          found := Some(key);
          break;
        }
      }
      if found == None {
        return None;
      }
      var key := found.value;
      var state := book.states[key];
      match outcome
      case Succeeded =>
        state := state.(phase := Holding, activeUntil := NatMax(state.activeUntil, gameLoop + COMMITMENT));
        book := Assign(book, key, state);
        return Some(state.activeUntil);
      case Failed =>
        state := state.(activeUntil := gameLoop, cooldownUntil := gameLoop + RETRY_COOLDOWN, phase := Cooldown);
        book := Assign(book, key, state);
        return Some(state.cooldownUntil);
      case Inconclusive =>
        return None;
    }

    /** One consultation on behalf of an evaluation that began with `start`. */
    method Ask(key: Key, gameLoop: nat, ghost start: Book) returns (allowed: bool)
      requires Valid() && Released(start, book, gameLoop)
      modifies this`book
      ensures Valid() && Released(start, book, gameLoop)
      ensures allowed <==> !Blocked(start, key, gameLoop)
    {
      ghost var before := book;
      allowed := MayEmit(key, gameLoop);
      ReleasedBlocksTheSame(start, before, key, gameLoop);
    }

    /** The attack loop: free combat actors take their target, each at most once. */
    method ProposeAttacks(context: Context, ghost start: Book) returns (proposals: seq<Key>, claimed: set<string>)
      requires Valid() && Released(start, book, context.gameLoop)
      modifies this`book
      ensures Valid() && Released(start, book, context.gameLoop)
      ensures proposals == CombatKeys(AttackKeys(context.attacks), context, start)
      ensures claimed == context.claimed + Actors(proposals)
    {
      proposals, claimed := [], context.claimed;
      for i := 0 to |context.attacks|
        invariant Valid() && Released(start, book, context.gameLoop)
        invariant proposals == CombatKeys(AttackKeys(context.attacks[..i]), context, start)
        invariant claimed == context.claimed + Actors(proposals)
      {
        AttacksOneMore(context.attacks, i, context, start);
        var found := AskCombat(AttackKey(context.attacks[i]), context, claimed, start);
        proposals, claimed := proposals + found, claimed + Actors(found);
      }
      assert context.attacks[..|context.attacks|] == context.attacks;
    }

    /** A response, if there is one, by a combat actor nobody claimed. */
    method AskCombat(offered: seq<Key>, context: Context, claimed: set<string>, ghost start: Book)
      returns (found: seq<Key>)
      requires Valid() && Released(start, book, context.gameLoop) && |offered| <= 1
      modifies this`book
      ensures Valid() && Released(start, book, context.gameLoop)
      ensures found == CombatAnswer(offered, claimed, context, start)
    {
      if offered == [] || offered[0].actor in claimed || offered[0].actor !in context.combatActors {
        return [];
      }
      var allowed := Ask(offered[0], context.gameLoop, start);
      return if allowed then offered else [];
    }

    /** The rally loop, over the actors the attacks left unclaimed. */
    method ProposeMoves(context: Context, attacks: seq<Key>, before: set<string>, ghost offered: seq<Key>,
                        ghost start: Book)
      returns (proposals: seq<Key>, claimed: set<string>)
      requires Valid() && Released(start, book, context.gameLoop)
      requires attacks == CombatKeys(offered, context, start)
      requires before == context.claimed + Actors(attacks)
      modifies this`book
      ensures Valid() && Released(start, book, context.gameLoop)
      ensures proposals == CombatKeys(offered + MoveKeys(context.moves), context, start)
      ensures claimed == context.claimed + Actors(proposals)
    {
      proposals, claimed := attacks, before;
      assert offered + MoveKeys(context.moves[..0]) == offered;
      for i := 0 to |context.moves|
        invariant Valid() && Released(start, book, context.gameLoop)
        invariant proposals == CombatKeys(offered + MoveKeys(context.moves[..i]), context, start)
        invariant claimed == context.claimed + Actors(proposals)
      {
        MovesOneMore(offered, context.moves, i, context, start);
        var found := AskCombat(MoveKey(context.moves[i]), context, claimed, start);
        proposals, claimed := proposals + found, claimed + Actors(found);
      }
      assert context.moves[..|context.moves|] == context.moves;
    }

    /** Production and fortification, each action by its first unclaimed actor. */
    method ProposeImmediate(context: Context, claimed: set<string>, ghost start: Book) returns (proposals: seq<Key>)
      requires Valid() && Released(start, book, context.gameLoop)
      modifies this`book
      ensures Valid() && Released(start, book, context.gameLoop)
      ensures proposals == ImmediateAnswers(context, claimed, start)
    {
      proposals := [];
      for i := 0 to |context.immediate|
        invariant Valid() && Released(start, book, context.gameLoop)
        invariant proposals == FreeKeys(ImmediateKeys(context.immediate[..i], claimed, start), start, context.gameLoop)
      {
        var found := AskImmediate(context.immediate[i], claimed, context.gameLoop, start);
        ImmediateOneMore(context.immediate, i, claimed, start, context.gameLoop);
        proposals := proposals + found;
      }
      assert context.immediate[..|context.immediate|] == context.immediate;
    }

    method AskImmediate(offer: ActionOffer, claimed: set<string>, gameLoop: nat,
                        ghost start: Book) returns (found: seq<Key>)
      requires Valid() && Released(start, book, gameLoop)
      modifies this`book
      ensures Valid() && Released(start, book, gameLoop)
      ensures found == FreeKeys(ImmediateKey(offer, claimed, start), start, gameLoop)
    {
      ReleasedSaturatesTheSame(start, book, offer, gameLoop);
      var actor := FirstUnclaimed(offer.actors, claimed);
      if Saturated(book, offer) || actor.None? {
        return [];
      }
      var key := Key(actor.value, offer.action, offer.action);
      var allowed := Ask(key, gameLoop, start);
      return if allowed then [key] else [];
    }

    /** The first prerequisite that is free, unless the base has no future. */
    method ProposePrerequisite(context: Context, ghost start: Book) returns (proposals: seq<Key>)
      requires Valid() && Released(start, book, context.gameLoop)
      modifies this`book
      ensures Valid() && Released(start, book, context.gameLoop)
      ensures proposals == Closure(context, start)
    {
      var keys := PrerequisiteKeys(context.prerequisites);
      var found := AskInTurn(keys, context.gameLoop, start);
      return if context.terminalCollapse then [] else found;
    }

    /** The first worker free to fight. */
    method ProposeWorker(context: Context, ghost start: Book) returns (proposals: seq<Key>)
      requires Valid() && Released(start, book, context.gameLoop)
      modifies this`book
      ensures Valid() && Released(start, book, context.gameLoop)
      ensures proposals == LastResort(context, start)
    {
      proposals := AskInTurn(WorkerKeys(context.workers), context.gameLoop, start);
    }

    /** Asks one response after another until one is allowed. */
    method AskInTurn(keys: seq<Key>, gameLoop: nat, ghost start: Book) returns (found: seq<Key>)
      requires Valid() && Released(start, book, gameLoop)
      modifies this`book
      ensures Valid() && Released(start, book, gameLoop)
      ensures found == FirstFree(keys, start, gameLoop)
    {
      for i := 0 to |keys|
        invariant Valid() && Released(start, book, gameLoop)
        invariant FirstFree(keys[i..], start, gameLoop) == FirstFree(keys, start, gameLoop)
      {
        assert keys[i..][1..] == keys[i + 1..];
        var allowed := Ask(keys[i], gameLoop, start);
        if allowed {
          return [keys[i]];
        }
      }
      return [];
    }

    /** `_compile_emergency_strategy`. */
    method ProposeEmergency(context: Context, combat: seq<Key>, claimed: set<string>, ghost start: Book)
      returns (proposals: seq<Key>)
      requires Valid() && Released(start, book, context.gameLoop) && claimed == context.claimed + Actors(combat)
      modifies this`book
      ensures Valid() && Released(start, book, context.gameLoop)
      ensures proposals == EmergencyKeys(context, combat, start)
    {
      proposals := ProposeImmediate(context, claimed, start);
      if proposals == [] {
        proposals := ProposePrerequisite(context, start);
      }
      if context.critical && !Responds(combat, context) {
        var worker := ProposeWorker(context, start);
        proposals := proposals + worker;
      }
    }

    /** The book an evaluation starts from: nothing survives an episode change or a calm. */
    function Inherited(context: Context): Book
      reads this
    {
      if episode == Some(context.episode) && context.threatened then book else EMPTY
    }

    /** `propose_source_intents`. */
    method ProposeSourceIntents(context: Context) returns (combat: seq<Key>, emergency: seq<Key>)
      requires Valid()
      modifies this
      ensures Valid() && episode == Some(context.episode)
      ensures Released(old(Inherited(context)), book, context.gameLoop)
      ensures !context.threatened ==> combat == [] && emergency == []
      ensures AllFree(combat + emergency, old(Inherited(context)), context.gameLoop)
      ensures OnePerActor(combat, context)
      ensures context.threatened ==>
        combat == CombatKeys(AttackKeys(context.attacks) + MoveKeys(context.moves), context, old(Inherited(context)))
      ensures context.threatened ==> emergency == EmergencyKeys(context, combat, old(Inherited(context)))
    {
      if episode != Some(context.episode) {
        episode, book := Some(context.episode), EMPTY;
      }
      if !context.threatened {
        book := EMPTY;
        return [], [];
      }
      ghost var start := book;
      var attacks, claimed := ProposeAttacks(context, start);
      combat, claimed := ProposeMoves(context, attacks, claimed, AttackKeys(context.attacks), start);
      emergency := ProposeEmergency(context, combat, claimed, start);
      CombatIsFair(AttackKeys(context.attacks) + MoveKeys(context.moves), context, start);
      EmergencyIsFree(context, combat, start);
      assert forall p :: p in combat + emergency ==> p in combat || p in emergency;
    }
  }

  function Actors(proposals: seq<Key>): set<string> {
    set p | p in proposals :: p.actor
  }

  /** Combat proposals go to combat actors nobody claimed, one each. */
  ghost predicate OnePerActor(proposals: seq<Key>, context: Context) {
    && (forall i, j :: 0 <= i < j < |proposals| ==> proposals[i].actor != proposals[j].actor)
    && forall p :: p in proposals ==> p.actor in context.combatActors && p.actor !in context.claimed
  }

  // ----- runs ---------------------------------------------------------------------------

  datatype Event =
    | Dispatch(actor: string, action: string, arguments: seq<Argument>, command: Identity, gameLoop: nat)
    | Report(command: Identity, outcome: Outcome, gameLoop: nat)
    | Evaluate(gameLoop: nat)

  /** One event of an uninterrupted threat stretch. */
  ghost predicate Step(before: Book, event: Event, after: Book) {
    match event
    case Dispatch(actor, action, arguments, command, gameLoop) =>
      after == Dispatched(before, CommandKey(actor, action, arguments), command, gameLoop)
    case Report(command, outcome, gameLoop) => after == ReportedTo(before, command, outcome, gameLoop)
    case Evaluate(gameLoop) => Released(before, after, gameLoop)
  }

  ghost predicate Stretch(books: seq<Book>, events: seq<Event>) {
    && |books| == |events| + 1
    && (forall m :: 0 <= m < |events| ==> Step(books[m], events[m], books[m + 1]))
    && (forall m, n :: 0 <= m <= n < |events| ==> events[m].gameLoop <= events[n].gameLoop)
  }

  /** The event dispatches a command with this response's actor, action and signature. */
  predicate Dispatches(event: Event, key: Key) {
    event.Dispatch? && CommandKey(event.actor, event.action, event.arguments) == key
  }

  /** The event is a failure report that this state owns. */
  ghost predicate OwnFailure(book: Book, event: Event, key: Key) {
    event.Report? && event.outcome == Failed && Owner(book, book.order, event.command) == Some(key)
  }

  predicate CommittedUntil(book: Book, key: Key, until: nat) {
    key in book.states && book.states[key].activeUntil >= until
  }

  lemma {:induction false} CommitmentLasts(books: seq<Book>, events: seq<Event>, i: nat, j: nat, key: Key, until: nat)
    requires Stretch(books, events) && i < j < |books|
    requires CommittedUntil(books[i + 1], key, until) && until <= events[i].gameLoop + 112
    requires forall m :: i < m < j ==> !OwnFailure(books[m], events[m], key)
    ensures CommittedUntil(books[j], key, until)
  {
    if j > i + 1 {
      CommitmentLasts(books, events, i, j - 1, key, until);
      assert Step(books[j - 1], events[j - 1], books[j]);
    }
  }

  /** A dispatched response stays blocked for the whole commitment unless its own command
      is reported as failed. */
  lemma DispatchedIsNotRepeated(books: seq<Book>, events: seq<Event>, i: nat, j: nat, key: Key)
    requires Stretch(books, events) && i < j < |events|
    requires Dispatches(events[i], key)
    requires events[j].gameLoop < events[i].gameLoop + 112
    requires forall m :: i < m < j ==> !OwnFailure(books[m], events[m], key)
    ensures Blocked(books[j], key, events[j].gameLoop)
  {
    assert Step(books[i], events[i], books[i + 1]);
    CommitmentLasts(books, events, i, j, key, events[i].gameLoop + 112);
  }

  predicate BarredUntil(book: Book, key: Key, until: nat) {
    key in book.states && (book.states[key].activeUntil >= until || book.states[key].cooldownUntil >= until)
  }

  lemma {:induction false} BarLasts(books: seq<Book>, events: seq<Event>, i: nat, j: nat, key: Key, until: nat)
    requires Stretch(books, events) && i < j < |books|
    requires BarredUntil(books[i + 1], key, until) && until <= events[i].gameLoop + 32
    ensures BarredUntil(books[j], key, until)
  {
    if j > i + 1 {
      BarLasts(books, events, i, j - 1, key, until);
      assert Step(books[j - 1], events[j - 1], books[j]);
    }
  }

  /** After its own failure a response stays blocked for the retry cooldown, whatever is
      dispatched or reported in between. */
  lemma FailedIsNotRetriedEarly(books: seq<Book>, events: seq<Event>, i: nat, j: nat, key: Key)
    requires Stretch(books, events) && i < j < |events|
    requires OwnFailure(books[i], events[i], key) && key in books[i].states
    requires events[j].gameLoop < events[i].gameLoop + 32
    ensures Blocked(books[j], key, events[j].gameLoop)
  {
    assert Step(books[i], events[i], books[i + 1]);
    BarLasts(books, events, i, j, key, events[i].gameLoop + 32);
  }

  /** The event concerns another response. */
  ghost predicate Unrelated(book: Book, event: Event, key: Key) {
    && !Dispatches(event, key)
    && (event.Report? ==> Owner(book, book.order, event.command) != Some(key))
  }

  lemma {:induction false} DeadlinesStay(books: seq<Book>, events: seq<Event>, i: nat, j: nat, key: Key)
    requires Stretch(books, events) && i < j < |books| && key in books[i + 1].states
    requires forall m :: i < m < j ==> Unrelated(books[m], events[m], key)
    ensures key in books[j].states
    ensures books[j].states[key].activeUntil == books[i + 1].states[key].activeUntil
    ensures books[j].states[key].cooldownUntil == books[i + 1].states[key].cooldownUntil
  {
    if j > i + 1 {
      DeadlinesStay(books, events, i, j - 1, key);
      assert Step(books[j - 1], events[j - 1], books[j]);
      assert Unrelated(books[j - 1], events[j - 1], key);
    }
  }

  /** Both bounds are exact: left alone, a response is free again at the end of its
      commitment, or at the end of the cooldown after its failure. */
  lemma BoundsAreExact(books: seq<Book>, events: seq<Event>, i: nat, j: nat, key: Key)
    requires Stretch(books, events) && i < j < |events|
    requires forall m :: i < m < j ==> Unrelated(books[m], events[m], key)
    ensures Dispatches(events[i], key) ==>
      (Blocked(books[j], key, events[j].gameLoop) <==> events[j].gameLoop < events[i].gameLoop + 112)
    ensures OwnFailure(books[i], events[i], key) && key in books[i].states ==>
      (Blocked(books[j], key, events[j].gameLoop) <==> events[j].gameLoop < events[i].gameLoop + 32)
  {
    assert Step(books[i], events[i], books[i + 1]);
    if Dispatches(events[i], key) || (OwnFailure(books[i], events[i], key) && key in books[i].states) {
      DeadlinesStay(books, events, i, j, key);
    }
  }

  /** A report for a command that was replaced or released belongs to no state. */
  lemma StaleReportsChangeNothing(book: Book, command: Identity, outcome: Outcome, gameLoop: nat)
    requires forall k :: k in book.states ==> book.states[k].command != Some(command)
    ensures ReportedTo(book, command, outcome, gameLoop) == book
  {
    NoOwner(book, book.order, command);
  }

  lemma {:induction false} NoOwner(book: Book, order: seq<Key>, command: Identity)
    requires forall k :: k in book.states ==> book.states[k].command != Some(command)
    ensures Owner(book, order, command) == None
  {
    if order != [] {
      NoOwner(book, order[1..], command);
    }
  }
}
