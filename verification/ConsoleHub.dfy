/** Live console fan-out: bounded subscriber queues that collapse into one resync request
    on overflow, and the hub that schedules offers on each subscriber's event loop. */
module ConsoleHub {
  import opened Ordering

  datatype Notice = StoredEvent(id: nat) | RunStatus(status: string) | FrameAvailable(kind: string, frame: nat)

  datatype Message = Live(notice: Notice) | Resync

  // ----- the queue discipline -----------------------------------------------------------

  function Offered(queue: seq<Message>, capacity: nat, notice: Notice): seq<Message> {
    if |queue| >= capacity then [Resync] else queue + [Live(notice)]
  }

  /** `seen` is `offered` with some non-empty blocks of consecutive notices replaced by one
      resync request each: nothing reordered, repeated, or missing without a marker. */
  ghost predicate Explains(offered: seq<Notice>, seen: seq<Message>)
    decreases |seen|
  {
    if seen == [] then offered == []
    else match seen[|seen| - 1]
      case Live(notice) =>
        && offered != [] && offered[|offered| - 1] == notice
        && Explains(offered[..|offered| - 1], seen[..|seen| - 1])
      case Resync =>
        exists k :: 0 <= k < |offered| && Explains(offered[..k], seen[..|seen| - 1])
  }

  /** Whatever was seen first explains what was offered first. */
  lemma {:induction false} ExplainsPrefix(offered: seq<Notice>, seen: seq<Message>, i: nat) returns (k: nat)
    requires Explains(offered, seen) && i <= |seen|
    ensures k <= |offered| && Explains(offered[..k], seen[..i])
    ensures i < |seen| ==> k < |offered|
    decreases |seen|
  {
    if i == |seen| {
      k := |offered|;
      assert offered[..k] == offered && seen[..i] == seen;
    } else {
      var init := seen[..|seen| - 1];
      var cut: nat := |offered| - 1;
      if seen[|seen| - 1] == Resync {
        cut :| 0 <= cut < |offered| && Explains(offered[..cut], init);
      }
      k := ExplainsPrefix(offered[..cut], init, i);
      assert offered[..cut][..k] == offered[..k] && init[..i] == seen[..i];
    }
  }

  /** Offering keeps the explanation, also when the queue overflows. */
  lemma OfferExplained(offered: seq<Notice>, received: seq<Message>, queue: seq<Message>, capacity: nat, notice: Notice)
    requires Explains(offered, received + queue)
    ensures Explains(offered + [notice], received + Offered(queue, capacity, notice))
  {
    var after := offered + [notice];
    if |queue| >= capacity {
      var k := ExplainsPrefix(offered, received + queue, |received|);
      assert (received + queue)[..|received|] == received;
      var seen := received + [Resync];
      assert seen[..|seen| - 1] == received && after[..k] == offered[..k];
    } else {
      var seen := received + (queue + [Live(notice)]);
      assert seen[..|seen| - 1] == received + queue;
      assert after[..|after| - 1] == offered;
    }
  }

  /** One more block of offers and the message for it. */
  lemma ExplainsOneMore(offered: seq<Notice>, seen: seq<Message>, block: seq<Notice>, message: Message)
    requires Explains(offered, seen) && Explains(block, [message])
    ensures Explains(offered + block, seen + [message])
  {
    var all, more := offered + block, seen + [message];
    assert more[..|more| - 1] == seen && [message][..0] == [];
    if message.Live? {
      assert block[..|block| - 1] == [];
      assert all[..|all| - 1] == offered && all[|all| - 1] == block[0];
    } else {
      assert all[..|offered|] == offered;
    }
  }

  /** Message `i` stands for offer `j`: the block around `j` is what it stands for, the
      messages before it explain what was offered before the block, and those after it what
      was offered after. */
  ghost predicate StandsFor(offered: seq<Notice>, seen: seq<Message>, i: nat, j: nat) {
    i < |seen| && j < |offered| && exists lo, hi :: 0 <= lo <= j < hi <= |offered| && Between(offered, seen, i, lo, hi)
  }

  ghost predicate Between(offered: seq<Notice>, seen: seq<Message>, i: nat, lo: nat, hi: nat)
    requires i < |seen| && lo <= hi <= |offered|
  {
    Explains(offered[..lo], seen[..i]) && Explains(offered[lo..hi], [seen[i]]) && Explains(offered[hi..], seen[i + 1..])
  }

  lemma Slices<T>(s: seq<T>, t: seq<T>, lo: nat, hi: nat)
    requires lo <= hi <= |s|
    ensures (s + t)[..lo] == s[..lo] && (s + t)[lo..hi] == s[lo..hi] && (s + t)[hi..] == s[hi..] + t
  {
  }

  lemma BetweenStays(offered: seq<Notice>, seen: seq<Message>, block: seq<Notice>, message: Message,
                     i: nat, lo: nat, hi: nat)
    requires i < |seen| && lo <= hi <= |offered| && Between(offered, seen, i, lo, hi) && Explains(block, [message])
    ensures Between(offered + block, seen + [message], i, lo, hi)
  {
    ExplainsOneMore(offered[hi..], seen[i + 1..], block, message);
    Slices(offered, block, lo, hi);
    Slices(seen, [message], i, i + 1);
  }

  lemma StandsForStays(offered: seq<Notice>, seen: seq<Message>, block: seq<Notice>, message: Message, i: nat, j: nat)
    requires StandsFor(offered, seen, i, j) && Explains(block, [message])
    ensures StandsFor(offered + block, seen + [message], i, j)
  {
    var all, more := offered + block, seen + [message];
    var lo, hi :| 0 <= lo <= j < hi <= |offered| && Between(offered, seen, i, lo, hi);
    BetweenStays(offered, seen, block, message, i, lo, hi);
    assert Between(all, more, i, lo, hi);
  }

  ghost predicate MarksBlock(seen: seq<Message>, i: nat) {
    i < |seen| && seen[i] == Resync
  }

  /** No silent gap: every offer has a message that stands for it, in order; only a resync
      request stands for more than one. */
  lemma {:induction false} NoSilentGap(offered: seq<Notice>, seen: seq<Message>) returns (where: seq<nat>)
    requires Explains(offered, seen)
    ensures |where| == |offered|
    ensures forall i :: i in where <==> 0 <= i < |seen|
    ensures forall j :: 0 <= j < |offered| ==> StandsFor(offered, seen, where[j], j)
    ensures forall j, l :: 0 <= j < l < |offered| ==> where[j] <= where[l]
    ensures forall j, l :: 0 <= j < l < |offered| && where[j] == where[l] ==> MarksBlock(seen, where[j])
    decreases |seen|
  {
    if seen == [] {
      where := [];
    } else {
      var last := |seen| - 1;
      var cut: nat := |offered| - 1;
      if seen[last] == Resync {
        cut :| 0 <= cut < |offered| && Explains(offered[..cut], seen[..last]);
      }
      var before := NoSilentGap(offered[..cut], seen[..last]);
      LastBlock(offered, seen, last, cut);
      assert offered == offered[..cut] + offered[cut..] && seen == seen[..last] + [seen[last]];
      forall j | 0 <= j < cut ensures StandsFor(offered, seen, before[j], j) && before[j] < last {
        StandsForStays(offered[..cut], seen[..last], offered[cut..], seen[last], before[j], j);
      }
      where := before + seq(|offered| - cut, i => last);
      assert where[cut] == last;
    }
  }

  lemma LastBlock(offered: seq<Notice>, seen: seq<Message>, last: nat, cut: nat)
    requires |seen| == last + 1 && cut < |offered| && Explains(offered, seen) && Explains(offered[..cut], seen[..last])
    requires seen[last].Live? ==> cut == |offered| - 1
    ensures Explains(offered[cut..], [seen[last]])
    ensures forall j :: cut <= j < |offered| ==> StandsFor(offered, seen, last, j)
  {
    LoneBlock(offered[cut..], seen[last], offered[|offered| - 1]);
    assert offered[cut..|offered|] == offered[cut..] && offered[|offered|..] == [] && seen[last + 1..] == [];
    assert Between(offered, seen, last, cut, |offered|);
  }

  lemma LoneBlock(block: seq<Notice>, message: Message, notice: Notice)
    requires block != [] && block[|block| - 1] == notice
    requires message.Live? ==> |block| == 1 && message.notice == notice
    ensures Explains(block, [message])
  {
    assert [message][..0] == [] && block[..0] == [];
    assert Explains(block[..0], [message][..0]);
  }

  // ----- the objects --------------------------------------------------------------------

  /** A connected console: its queue, and the offers waiting on its event loop. */
  class Subscriber {
    var queue: seq<Message>
    var scheduled: seq<Notice>
    var loopClosed: bool
    const capacity: nat
    ghost var offered: seq<Notice>
    ghost var received: seq<Message>

    constructor (capacity: nat)
      requires capacity >= 1
      ensures Valid() && queue == [] && scheduled == [] && offered == [] && received == [] && !loopClosed
      ensures this.capacity == capacity
    {
      queue, scheduled, loopClosed := [], [], false;
      offered, received := [], [];
      this.capacity := capacity;
    }

    ghost predicate Valid()
      reads this
    {
      && capacity >= 1 && |queue| <= capacity
      && Explains(offered, received + queue)
    }

    /** `_offer`: drain a full queue and leave one resync request in it. */
    method Offer(notice: Notice)
      requires Valid()
      modifies this`queue, this`offered
      ensures Valid()
      ensures offered == old(offered) + [notice]
      ensures queue == Offered(old(queue), capacity, notice)
    {
      OfferExplained(offered, received, queue, capacity, notice);
      offered := offered + [notice];
      if |queue| == capacity {
        while queue != []
          invariant offered == old(offered) + [notice]
          decreases |queue|
        {
          queue := queue[1..];
        }
        queue := queue + [Resync];
        return;
      }
      queue := queue + [Live(notice)];
    }

    /** Run the next callback of the subscriber's event loop. */
    method RunCallback()
      requires Valid() && scheduled != []
      modifies this`queue, this`offered, this`scheduled
      ensures Valid()
      ensures scheduled == old(scheduled)[1..]
      ensures offered == old(offered) + [old(scheduled)[0]]
      ensures queue == Offered(old(queue), capacity, old(scheduled)[0])
    {
      var notice := scheduled[0];
      scheduled := scheduled[1..];
      Offer(notice);
    }

    method Receive() returns (message: Message)
      requires Valid() && queue != []
      modifies this`queue, this`received
      ensures Valid()
      ensures message == old(queue)[0] && queue == old(queue)[1..]
      ensures received == old(received) + [message]
    {
      message := queue[0];
      assert received + queue == (received + [message]) + queue[1..];
      queue, received := queue[1..], received + [message];
    }
  }

  class LiveConsoleHub {
    var subscribers: map<nat, Subscriber>
    var nextSubscriberId: nat
    var frames: map<string, nat>
    const queueSize: nat

    constructor (queueSize: nat)
      requires queueSize >= 1
      ensures Valid() && subscribers == map[] && frames == map[]
    {
      subscribers, nextSubscriberId, frames := map[], 0, map[];
      this.queueSize := queueSize;
    }

    ghost predicate Valid()
      reads this
    {
      && queueSize >= 1
      && (forall id :: id in subscribers ==> id < nextSubscriberId)
      && (forall a, b :: a in subscribers && b in subscribers && a != b ==> subscribers[a] != subscribers[b])
    }

    method Subscribe() returns (id: nat, subscriber: Subscriber)
      requires Valid()
      modifies this`subscribers, this`nextSubscriberId
      ensures Valid() && fresh(subscriber) && subscriber.Valid() && subscriber.queue == [] && subscriber.scheduled == []
      ensures id !in old(subscribers) && subscribers == old(subscribers)[id := subscriber]
    {
      subscriber := new Subscriber(queueSize);
      id := nextSubscriberId;
      nextSubscriberId := nextSubscriberId + 1;
      subscribers := subscribers[id := subscriber];
    }

    method Unsubscribe(id: nat)
      modifies this`subscribers
      ensures subscribers == old(subscribers) - {id}
      ensures old(Valid()) ==> Valid()
    {
      subscribers := subscribers - {id};
    }

    /** `_broadcast`: every open loop gets the notice behind what it already has; a closed
        loop loses its subscription; nobody waits. */
    method Broadcast(notice: Notice)
      requires Valid()
      modifies this`subscribers, set id | id in subscribers :: subscribers[id]`scheduled
      ensures Valid()
      ensures forall id :: id in old(subscribers) ==>
        if old(subscribers)[id].loopClosed then id !in subscribers
          && old(subscribers)[id].scheduled == old(subscribers[id].scheduled)
        else id in subscribers && subscribers[id] == old(subscribers)[id]
             && subscribers[id].scheduled == old(subscribers[id].scheduled) + [notice]
      ensures forall id :: id in subscribers ==> id in old(subscribers)
    {
      NotifyAll(subscribers, notice);
    }

    method NotifyAll(targets: map<nat, Subscriber>, notice: Notice)
      requires subscribers == targets
      requires forall a, b :: a in targets && b in targets && a != b ==> targets[a] != targets[b]
      modifies this`subscribers, set id | id in targets :: targets[id]`scheduled
      ensures subscribers.Keys <= targets.Keys && forall id :: id in subscribers ==> subscribers[id] == targets[id]
      ensures forall id :: id in targets ==> (id in subscribers <==> !targets[id].loopClosed)
      ensures forall id :: id in targets ==>
        targets[id].scheduled == old(targets[id].scheduled) + (if targets[id].loopClosed then [] else [notice])
    {
      var left := targets.Keys;
      while left != {}
        invariant left <= targets.Keys && left <= subscribers.Keys <= targets.Keys
        invariant forall id :: id in subscribers ==> subscribers[id] == targets[id]
        invariant forall id :: id in targets && id !in left ==> (id in subscribers <==> !targets[id].loopClosed)
        invariant forall id :: id in targets ==>
          targets[id].scheduled == old(targets[id].scheduled)
            + (if id in left || targets[id].loopClosed then [] else [notice])
        decreases left
      {
        var id :| id in left;
        Notify(id, targets[id], notice);
        left := left - {id};
      }
    }

    method Notify(id: nat, subscriber: Subscriber, notice: Notice)
      modifies this`subscribers, subscriber`scheduled
      ensures subscribers == if subscriber.loopClosed then old(subscribers) - {id} else old(subscribers)
      ensures subscriber.scheduled == old(subscriber.scheduled) + (if subscriber.loopClosed then [] else [notice])
    {
      if subscriber.loopClosed {
        Unsubscribe(id);
      } else {
        subscriber.scheduled := subscriber.scheduled + [notice];
      }
    }

    /** Keep a frame only when it is newer than the kept one of its kind, and say so. */
    method PutFrame(kind: string, frame: nat) returns (stored: bool)
      requires Valid()
      modifies this`subscribers, this`frames, set id | id in subscribers :: subscribers[id]`scheduled
      ensures Valid()
      ensures stored <==> kind !in old(frames) || frame > old(frames)[kind]
      ensures frames == if stored then old(frames)[kind := frame] else old(frames)
      ensures !stored ==> subscribers == old(subscribers)
                          && forall id :: id in subscribers ==> unchanged(subscribers[id])
    {
      if kind in frames && frame <= frames[kind] {
        return false;
      }
      frames := frames[kind := frame];
      Broadcast(FrameAvailable(kind, frame));
      return true;
    }
  }
}
