/** Bounded subscriber queues and what a slow reader is guaranteed to see. */
module SseQueue {
  import opened Text
  import opened OperationTypes

  // ---------- what one broadcast does to one queue ----------

  /** The position of the oldest message that may be dropped, or the length. */
  function OldestDroppable(queue: seq<Message>, i: nat): (k: nat)
    requires i <= |queue|
    ensures i <= k <= |queue|
    ensures forall j | i <= j < k :: IsMustDeliver(queue[j])
    ensures k < |queue| ==> !IsMustDeliver(queue[k])
    decreases |queue| - i
  {
    if i < |queue| && IsMustDeliver(queue[i]) then OldestDroppable(queue, i + 1) else i
  }

  function RemoveAt(queue: seq<Message>, i: nat): seq<Message>
    requires i < |queue|
  {
    queue[..i] + queue[i + 1..]
  }

  /** The message given up: the oldest droppable one, or the oldest if all must be delivered. */
  function Victim(queue: seq<Message>): (i: nat)
    requires queue != []
    ensures i < |queue|
  {
    var k := OldestDroppable(queue, 0);
    if k < |queue| then k else 0
  }

  /** Giving up messages until fewer than `bound` are left. */
  function MakeRoom(queue: seq<Message>, bound: nat): (r: seq<Message>)
    requires bound > 0
    ensures |r| < bound
    ensures |queue| < bound ==> r == queue
    decreases |queue|
  {
    if |queue| < bound then queue else MakeRoom(RemoveAt(queue, Victim(queue)), bound)
  }

  predicate Full(queue: seq<Message>, bound: nat) {
    bound > 0 && |queue| >= bound
  }

  /** The queue after a broadcast, or `None` when the subscriber is dropped. A bound of zero means
      no bound. */
  function Offer(queue: seq<Message>, bound: nat, m: Message): Option<seq<Message>> {
    if !Full(queue, bound) then Some(queue + [m])
    else if !IsMustDeliver(m) then None
    else Some(MakeRoom(queue, bound) + [m])
  }

  // ---------- the queue and the broadcast loops ----------

  /** The nested scan that deletes the oldest droppable message until there is room. */
  method EvictOldest(queue: seq<Message>, maxsize: nat) returns (buffered: seq<Message>)
    requires maxsize > 0
    ensures buffered == MakeRoom(queue, maxsize)
  {
    buffered := queue;
    while |buffered| >= maxsize
      invariant MakeRoom(buffered, maxsize) == MakeRoom(queue, maxsize)
      decreases |buffered|
    {
      var index := 0;
      while index < |buffered| && IsMustDeliver(buffered[index])
        invariant 0 <= index <= |buffered|
        invariant OldestDroppable(buffered, 0) == OldestDroppable(buffered, index)
      {
        index := index + 1;
      }
      if index == |buffered| {
        index := 0;
      }
      assert index == Victim(buffered);
      buffered := buffered[..index] + buffered[index + 1..];
    }
  }

  class Queue {
    var items: seq<Message>
    const maxsize: nat

    constructor (maxsize: nat)
      ensures items == [] && this.maxsize == maxsize
    {
      items := [];
      this.maxsize := maxsize;
    }

    /** `put_nowait`; false stands for `QueueFull`. */
    method PutNowait(m: Message) returns (stored: bool)
      modifies this
      ensures stored == !Full(old(items), maxsize)
      ensures items == if stored then old(items) + [m] else old(items)
    {
      stored := !(maxsize > 0 && |items| >= maxsize);
      if stored {
        items := items + [m];
      }
    }

    /** `get_nowait`; `None` stands for `QueueEmpty`. */
    method GetNowait() returns (m: Option<Message>)
      modifies this
      ensures old(items) == [] ==> m == None && items == []
      ensures old(items) != [] ==> m == Some(old(items)[0]) && items == old(items)[1..]
    {
      if items == [] {
        return None;
      }
      m, items := Some(items[0]), items[1..];
    }

    /** Taking everything out, one message at a time. */
    method Drain() returns (buffered: seq<Message>)
      modifies this
      ensures buffered == old(items) && items == []
    {
      buffered := [];
      var m := GetNowait();
      while m.Some?
        invariant m.Some? ==> buffered + [m.value] + items == old(items)
        invariant m.None? ==> buffered == old(items) && items == []
        decreases m.Some?, |items|
      {
        buffered := buffered + [m.value];
        m := GetNowait();
      }
    }

    /** Offering a message: the re-queue after an eviction never finds the queue full. */
    method Deliver(m: Message) returns (alive: bool)
      modifies this
      ensures alive <==> Offer(old(items), maxsize, m).Some?
      ensures items == if alive then Offer(old(items), maxsize, m).value else old(items)
      ensures maxsize == 0 || |old(items)| < maxsize ==> alive && items == old(items) + [m]
      ensures alive ==> items != [] && items[|items| - 1] == m
    {
      hide MakeRoom;
      alive := PutNowait(m);
      if alive || !IsMustDeliver(m) {
        return;
      }
      var buffered := Drain();
      buffered := EvictOldest(buffered, maxsize);
      for i := 0 to |buffered|
        invariant items == buffered[..i]
      {
        var stored := PutNowait(buffered[i]);
        assert stored;
      }
      alive := PutNowait(m);
    }
  }

  /** The queues whose flag is set, in order. */
  function Keep(queues: seq<Queue>, flags: seq<bool>): (r: seq<Queue>)
    requires |queues| == |flags|
    ensures forall q | q in r :: q in queues
  {
    if queues == [] then []
    else
      var n := |queues| - 1;
      Keep(queues[..n], flags[..n]) + (if flags[n] then [queues[n]] else [])
  }

  // ---------- all queues of a broadcast as values ----------

  /** The subscribers in order, and what lies in each watched queue. */
  datatype Inboxes = Inboxes(subscribers: seq<Queue>, items: map<Queue, seq<Message>>) {
    function At(q: Queue): seq<Message> { if q in items then items[q] else [] }
  }

  predicate Takes(b: Inboxes, q: Queue, m: Message) { Offer(b.At(q), q.maxsize, m).Some? }

  function Takers(b: Inboxes, m: Message): seq<bool> {
    seq(|b.subscribers|, i requires 0 <= i < |b.subscribers| => Takes(b, b.subscribers[i], m))
  }

  /** A broadcast: the subscribers that take the message get it and stay, in order; all other queues keep
      what they hold. */
  function Sent(b: Inboxes, m: Message): Inboxes {
    Inboxes(Keep(b.subscribers, Takers(b, m)),
            map q | q in b.items ::
              if q in b.subscribers && Takes(b, q, m) then Offer(b.At(q), q.maxsize, m).value else b.items[q])
  }

  /** Several broadcasts, one after the other. */
  function SentAll(b: Inboxes, messages: seq<Message>): Inboxes {
    if messages == [] then b else Sent(SentAll(b, messages[..|messages| - 1]), messages[|messages| - 1])
  }

  /** A queue after the `_close` marker was put, if it had room. */
  function Offered(items: seq<Message>, maxsize: nat): seq<Message> {
    if Full(items, maxsize) then items else items + [Message.Close]
  }

  /** Closing: every subscriber with room gets the marker, and then all are forgotten. */
  function Shut(b: Inboxes): Inboxes {
    Inboxes([], map q | q in b.items :: if q in b.subscribers then Offered(b.items[q], q.maxsize) else b.items[q])
  }

  /** The subscribers and what the watched queues hold. */
  ghost function Watched(subscribers: seq<Queue>, watch: set<Queue>): Inboxes
    reads watch
  {
    Inboxes(subscribers, map q | q in watch :: q.items)
  }

  /** Every queue gets its offer, and the subscribers that took it stay, in order. */
  method OfferAll(subscribers: seq<Queue>, m: Message) returns (rest: seq<Queue>, alive: seq<bool>)
    requires Distinct(subscribers)
    modifies set q | q in subscribers
    ensures |alive| == |subscribers| && rest == Keep(subscribers, alive)
    ensures forall i | 0 <= i < |subscribers| ::
              var q := subscribers[i];
              && (alive[i] <==> Offer(old(q.items), q.maxsize, m).Some?)
              && q.items == if alive[i] then Offer(old(q.items), q.maxsize, m).value else old(q.items)
  {
    hide Offer;
    rest, alive := [], [];
    for i := 0 to |subscribers|
      invariant |alive| == i && rest == Keep(subscribers[..i], alive)
      invariant forall j | i <= j < |subscribers| :: subscribers[j].items == old(subscribers[j].items)
      invariant forall j | 0 <= j < i ::
                  var q := subscribers[j];
                  && (alive[j] <==> Offer(old(q.items), q.maxsize, m).Some?)
                  && q.items == if alive[j] then Offer(old(q.items), q.maxsize, m).value else old(q.items)
    {
      var q := subscribers[i];
      ghost var before := alive;
      var took := q.Deliver(m);
      if took {
        rest := rest + [q];
      }
      alive := alive + [took];
      assert subscribers[..i + 1][..i] == subscribers[..i] && alive[..i] == before;
    }
    assert subscribers[..|subscribers|] == subscribers;
  }

  /** One broadcast, on the subscribers and all watched queues. */
  method Broadcast(subscribers: seq<Queue>, m: Message, ghost watch: set<Queue>) returns (rest: seq<Queue>)
    requires Distinct(subscribers) && forall q | q in subscribers :: q in watch
    modifies set q | q in subscribers
    ensures Watched(rest, watch) == Sent(old(Watched(subscribers, watch)), m)
    ensures Distinct(rest) && forall q | q in rest :: q in subscribers
  {
    hide Offer, Keep, Distinct;
    ghost var before := Watched(subscribers, watch);
    var alive;
    rest, alive := OfferAll(subscribers, m);
    KeepIsDistinct(subscribers, alive);
    assert alive == Takers(before, m);
    assert Watched(rest, watch).items == Sent(before, m).items;
  }

  /** Dropping subscribers leaves no queue twice. */
  lemma {:induction false} KeepIsDistinct(queues: seq<Queue>, flags: seq<bool>)
    requires |queues| == |flags|
    requires Distinct(queues)
    ensures Distinct(Keep(queues, flags))
  {
    if queues != [] {
      var n := |queues| - 1;
      KeepIsDistinct(queues[..n], flags[..n]);
      var front := Keep(queues[..n], flags[..n]);
      var r := Keep(queues, flags);
      assert r == front + (if flags[n] then [queues[n]] else []);
      forall i, j | 0 <= i < j < |r| ensures r[i] != r[j] {
        if j < |front| {
          assert front[i] != front[j];
        } else {
          assert front[i] in front;
        }
      }
    }
  }

  lemma {:induction false} SentFew(b: Inboxes, m: Message, n: Message)
    ensures SentAll(b, []) == b && SentAll(b, [m]) == Sent(b, m) && SentAll(b, [m, n]) == Sent(Sent(b, m), n)
  {
    hide Sent;
    assert [m][..0] == [] && [m, n][..1] == [m];
  }

  lemma {:induction false} KeepMembers(queues: seq<Queue>, flags: seq<bool>, q: Queue)
    requires |queues| == |flags|
    ensures q in Keep(queues, flags) <==> exists i | 0 <= i < |queues| :: queues[i] == q && flags[i]
  {
    if queues != [] {
      var n := |queues| - 1;
      KeepMembers(queues[..n], flags[..n], q);
      if i :| 0 <= i < n && queues[..n][i] == q && flags[..n][i] {
        assert queues[i] == q && flags[i];
      }
    }
  }

  // ---------- a subscriber over a whole run ----------

  /** What was broadcast since the subscription, what was read, and what waits in the queue. */
  datatype Subscriber = Subscriber(issued: seq<Message>, read: seq<Message>, queue: seq<Message>, registered: bool)

  const NEW := Subscriber([], [], [], true)

  datatype Step = Issue(m: Message) | Read

  function Apply(s: Subscriber, bound: nat, step: Step): Subscriber {
    match step
    case Issue(m) => if s.registered then Issued(s, m, Offer(s.queue, bound, m)) else s
    case Read => if s.queue == [] then s else s.(read := s.read + [s.queue[0]], queue := s.queue[1..])
  }

  function Issued(s: Subscriber, m: Message, queue: Option<seq<Message>>): Subscriber {
    if queue.Some? then s.(issued := s.issued + [m], queue := queue.value)
    else s.(issued := s.issued + [m], registered := false)
  }

  function After(bound: nat, steps: seq<Step>): Subscriber {
    if steps == [] then NEW else Apply(After(bound, steps[..|steps| - 1]), bound, steps[|steps| - 1])
  }

  /** One queue of a broadcast, seen as a subscriber. */
  predicate Shows(b: Inboxes, q: Queue, s: Subscriber) {
    q in b.items && s.queue == b.items[q] && s.registered == (q in b.subscribers)
  }

  function IssueAll(s: Subscriber, bound: nat, messages: seq<Message>): Subscriber {
    if messages == [] then s
    else Apply(IssueAll(s, bound, messages[..|messages| - 1]), bound, Issue(messages[|messages| - 1]))
  }

  lemma {:induction false} SentIsIssue(b: Inboxes, q: Queue, s: Subscriber, m: Message)
    requires Shows(b, q, s)
    ensures Shows(Sent(b, m), q, Apply(s, q.maxsize, Issue(m)))
  {
    hide Offer;
    KeepMembers(b.subscribers, Takers(b, m), q);
    if q in b.subscribers {
      var i :| 0 <= i < |b.subscribers| && b.subscribers[i] == q;
      assert Takers(b, m)[i] == Takes(b, q, m);
    }
  }

  /** Broadcasts reach each queue as the steps of its subscriber's run. */
  lemma {:induction false} SentAllIsRun(b: Inboxes, q: Queue, s: Subscriber, messages: seq<Message>)
    requires Shows(b, q, s)
    ensures Shows(SentAll(b, messages), q, IssueAll(s, q.maxsize, messages))
  {
    hide Shows, Apply, Sent;
    if messages != [] {
      var n := |messages| - 1;
      SentAllIsRun(b, q, s, messages[..n]);
      SentIsIssue(SentAll(b, messages[..n]), q, IssueAll(s, q.maxsize, messages[..n]), messages[n]);
    }
  }

  /** `a` is `b` with some messages left out. */
  ghost predicate IsSubsequence(a: seq<Message>, b: seq<Message>) {
    || a == []
    || (b != [] && a[|a| - 1] == b[|b| - 1] && IsSubsequence(a[..|a| - 1], b[..|b| - 1]))
    || (b != [] && IsSubsequence(a, b[..|b| - 1]))
  }

  function MustDeliver(s: seq<Message>): seq<Message> {
    if s == [] then []
    else
      var before := MustDeliver(s[..|s| - 1]);
      if IsMustDeliver(s[|s| - 1]) then before + [s[|s| - 1]] else before
  }

  lemma {:induction false} MustAppend(a: seq<Message>, b: seq<Message>)
    ensures MustDeliver(a + b) == MustDeliver(a) + MustDeliver(b)
  {
    if b == [] {
      assert a + b == a;
    } else {
      MustAppend(a, b[..|b| - 1]);
      assert (a + b)[..|a + b| - 1] == a + b[..|b| - 1];
    }
  }

  lemma {:induction false} MustAll(s: seq<Message>)
    requires forall i | 0 <= i < |s| :: IsMustDeliver(s[i])
    ensures MustDeliver(s) == s
  {
    hide IsMustDeliver;
    if s != [] {
      var n := |s| - 1;
      MustAll(s[..n]);
      assert s == s[..n] + [s[n]];
    }
  }

  lemma {:induction false} SubsequenceExtend(a: seq<Message>, b: seq<Message>, m: Message)
    requires IsSubsequence(a, b)
    ensures IsSubsequence(a + [m], b + [m]) && IsSubsequence(a, b + [m])
  {
  }

  lemma {:induction false} SubsequenceShrink(a: seq<Message>, b: seq<Message>, i: nat)
    requires i < |a| && IsSubsequence(a, b)
    ensures IsSubsequence(RemoveAt(a, i), b)
    decreases |b|
  {
    hide IsSubsequence;
    SubsequenceEnds(a, b);
    var n, front, last := |a| - 1, b[..|b| - 1], b[|b| - 1];
    assert b == front + [last];
    if IsSubsequence(a, front) {
      SubsequenceShrink(a, front, i);
      SubsequenceExtend(RemoveAt(a, i), front, last);
    } else if i == n {
      assert RemoveAt(a, i) == a[..n];
      SubsequenceExtend(a[..n], front, last);
    } else {
      SubsequenceShrink(a[..n], front, i);
      SubsequenceExtend(RemoveAt(a[..n], i), front, last);
      assert RemoveAt(a, i) == RemoveAt(a[..n], i) + [last];
    }
  }

  lemma {:induction false} SubsequenceEnds(a: seq<Message>, b: seq<Message>)
    requires a != [] && IsSubsequence(a, b)
    ensures b != []
    ensures IsSubsequence(a, b[..|b| - 1]) || (a[|a| - 1] == b[|b| - 1] && IsSubsequence(a[..|a| - 1], b[..|b| - 1]))
  {
  }

  /** Making room leaves a subsequence of what was read and queued. */
  lemma {:induction false} RoomIsSubsequence(read: seq<Message>, queue: seq<Message>, bound: nat, issued: seq<Message>)
    requires bound > 0 && IsSubsequence(read + queue, issued)
    ensures IsSubsequence(read + MakeRoom(queue, bound), issued)
    decreases |queue|
  {
    hide IsSubsequence, OldestDroppable;
    if |queue| >= bound {
      var i := Victim(queue);
      SubsequenceShrink(read + queue, issued, |read| + i);
      assert RemoveAt(read + queue, |read| + i) == read + RemoveAt(queue, i);
      RoomIsSubsequence(read, RemoveAt(queue, i), bound, issued);
    }
  }

  ghost predicate InOrder(s: Subscriber, bound: nat) {
    IsSubsequence(s.read + s.queue, s.issued) && (bound > 0 ==> |s.queue| <= bound)
  }

  lemma {:induction false} StepInOrder(s: Subscriber, bound: nat, step: Step)
    requires InOrder(s, bound)
    ensures InOrder(Apply(s, bound, step), bound)
  {
    hide IsSubsequence, MakeRoom;
    if step.Read? {
      if s.queue != [] {
        assert s.read + [s.queue[0]] + s.queue[1..] == s.read + s.queue;
      }
    } else if s.registered {
      var m := step.m;
      SubsequenceExtend(s.read + s.queue, s.issued, m);
      if Full(s.queue, bound) {
        var room := MakeRoom(s.queue, bound);
        RoomIsSubsequence(s.read, s.queue, bound, s.issued);
        SubsequenceExtend(s.read + room, s.issued, m);
        assert s.read + (room + [m]) == s.read + room + [m];
      } else {
        assert s.read + (s.queue + [m]) == s.read + s.queue + [m];
      }
    }
  }

  /** In every run, a registered subscriber has seen or will see a subsequence of the broadcasts, in
      order and without repetition, and its queue stays within its bound. */
  lemma {:induction false} RunIsInOrder(bound: nat, steps: seq<Step>)
    ensures InOrder(After(bound, steps), bound)
  {
    if steps != [] {
      RunIsInOrder(bound, steps[..|steps| - 1]);
      StepInOrder(After(bound, steps[..|steps| - 1]), bound, steps[|steps| - 1]);
    }
  }

  lemma {:induction false} MustRemove(queue: seq<Message>, i: nat)
    requires i < |queue| && !IsMustDeliver(queue[i])
    ensures MustDeliver(RemoveAt(queue, i)) == MustDeliver(queue)
  {
    var head, tail := queue[..i], queue[i + 1..];
    MustAppend(head, tail);
    MustAppend(head + [queue[i]], tail);
    MustAppend(head, [queue[i]]);
    assert queue == head + [queue[i]] + tail;
    assert [queue[i]][..0] == [];
  }

  lemma {:induction false} MustIsShorter(queue: seq<Message>)
    ensures |MustDeliver(queue)| <= |queue|
  {
    if queue != [] { MustIsShorter(queue[..|queue| - 1]); }
  }

  /** Room is made without giving up a must-deliver message when fewer than `bound` are queued. */
  lemma {:induction false} RoomKeepsMust(queue: seq<Message>, bound: nat)
    requires bound > 0 && |MustDeliver(queue)| < bound
    ensures MustDeliver(MakeRoom(queue, bound)) == MustDeliver(queue)
    decreases |queue|
  {
    if |queue| >= bound {
      var i := Victim(queue);
      if OldestDroppable(queue, 0) == |queue| { MustAll(queue); }
      MustRemove(queue, i);
      RoomKeepsMust(RemoveAt(queue, i), bound);
    }
  }

  /** All must-deliver messages broadcast so far were read or are queued, in order. */
  ghost predicate NoneLost(s: Subscriber) {
    MustDeliver(s.read) + MustDeliver(s.queue) == MustDeliver(s.issued)
  }

  lemma {:induction false} MustOne(s: seq<Message>, m: Message)
    ensures MustDeliver(s + [m]) == if IsMustDeliver(m) then MustDeliver(s) + [m] else MustDeliver(s)
  {
  }

  lemma {:induction false} ReadLosesNone(s: Subscriber, bound: nat)
    requires NoneLost(s)
    ensures NoneLost(Apply(s, bound, Read))
  {
    hide MustDeliver, IsMustDeliver;
    if s.queue != [] {
      var head, tail := [s.queue[0]], s.queue[1..];
      MustAppend(s.read, head);
      MustAppend(head, tail);
      assert s.queue == head + tail;
    }
  }

  lemma {:induction false} IssueLosesNone(s: Subscriber, bound: nat, m: Message)
    requires bound > 0 && s.registered && NoneLost(s)
    requires Apply(s, bound, Issue(m)).registered
    requires |MustDeliver(s.issued + [m])| <= bound
    ensures NoneLost(Apply(s, bound, Issue(m)))
  {
    hide MustDeliver, MakeRoom, IsMustDeliver;
    MustOne(s.issued, m);
    if Full(s.queue, bound) {
      RoomKeepsMust(s.queue, bound);
      MustOne(MakeRoom(s.queue, bound), m);
    } else {
      MustOne(s.queue, m);
    }
  }

  lemma {:induction false} StepLosesNone(s: Subscriber, bound: nat, step: Step)
    requires bound > 0 && s.registered && NoneLost(s)
    requires Apply(s, bound, step).registered
    requires |MustDeliver(Apply(s, bound, step).issued)| <= bound
    ensures NoneLost(Apply(s, bound, step))
  {
    hide MustDeliver, MakeRoom, IsMustDeliver, NoneLost;
    match step
    case Read => ReadLosesNone(s, bound);
    case Issue(m) => IssueLosesNone(s, bound, m);
  }

  /** Before a step no more was broadcast and no one had been dropped who is registered after it. */
  lemma {:induction false} StepGrows(s: Subscriber, bound: nat, step: Step)
    ensures |MustDeliver(s.issued)| <= |MustDeliver(Apply(s, bound, step).issued)|
    ensures Apply(s, bound, step).registered ==> s.registered
  {
  }

  /** No must-deliver message is lost, and none is repeated or reordered, while no more of them than
      the queue can hold have been broadcast to a subscriber that is still registered. */
  lemma {:induction false} RunDeliversMust(bound: nat, steps: seq<Step>)
    requires bound > 0 && After(bound, steps).registered
    requires |MustDeliver(After(bound, steps).issued)| <= bound
    ensures NoneLost(After(bound, steps))
  {
    if steps != [] {
      var s := After(bound, steps[..|steps| - 1]);
      StepGrows(s, bound, steps[|steps| - 1]);
      RunDeliversMust(bound, steps[..|steps| - 1]);
      StepLosesNone(s, bound, steps[|steps| - 1]);
    }
  }

  lemma {:induction false} RoomOfFull(queue: seq<Message>, bound: nat)
    requires bound > 0 && |queue| == bound
    ensures MakeRoom(queue, bound) == RemoveAt(queue, Victim(queue))
  {
  }

  /** A broadcast loses a must-deliver message exactly when it must be delivered itself and finds the
      queue filled with nothing but messages that must. */
  lemma {:induction false} LosesExactlyWhen(s: Subscriber, bound: nat, m: Message)
    requires bound > 0 && s.registered && NoneLost(s) && |s.queue| <= bound && IsMustDeliver(m)
    ensures !NoneLost(Apply(s, bound, Issue(m))) <==>
            Full(s.queue, bound) && forall i | 0 <= i < |s.queue| :: IsMustDeliver(s.queue[i])
  {
    hide MustDeliver, MakeRoom;
    MustOne(s.issued, m);
    if !Full(s.queue, bound) {
      MustOne(s.queue, m);
    } else {
      RoomOfFull(s.queue, bound);
      var i := Victim(s.queue);
      var room := RemoveAt(s.queue, i);
      MustOne(room, m);
      if IsMustDeliver(s.queue[i]) {
        VictimIsDroppable(s.queue);
        MustAll(s.queue);
        MustAll(room);
      } else {
        MustRemove(s.queue, i);
      }
    }
  }

  /** A subscriber is dropped exactly when a message that need not be delivered finds its queue full;
      a broadcast that must be delivered always ends up last in the queue. */
  lemma {:induction false} DroppedExactlyWhen(s: Subscriber, bound: nat, m: Message)
    requires s.registered
    ensures !Apply(s, bound, Issue(m)).registered <==> Full(s.queue, bound) && !IsMustDeliver(m)
    ensures IsMustDeliver(m) ==>
              var q := Apply(s, bound, Issue(m)).queue; q != [] && q[|q| - 1] == m
  {
  }

  /** With room, a registered subscriber gets the message behind all it has; a full queue never does: it
      loses the subscriber or another message. */
  lemma {:induction false} RoomDelivers(s: Subscriber, bound: nat, m: Message)
    requires s.registered
    ensures var r := Apply(s, bound, Issue(m));
            r.read + r.queue == s.read + s.queue + [m] <==> !(bound > 0 && |s.queue| >= bound)
  {
    var r := Apply(s, bound, Issue(m));
    if bound > 0 && |s.queue| >= bound {
      assert |r.read + r.queue| < |s.read + s.queue + [m]|;
    } else {
      assert s.read + (s.queue + [m]) == s.read + s.queue + [m];
    }
  }

  /** Every broadcast of the run found room. */
  ghost predicate AlwaysRoom(bound: nat, steps: seq<Step>) {
    steps == [] ||
    (AlwaysRoom(bound, steps[..|steps| - 1]) &&
     (steps[|steps| - 1].Issue? ==> bound == 0 || |After(bound, steps[..|steps| - 1]).queue| < bound))
  }

  /** A subscriber that always has room misses nothing: it reads every broadcast, in order. */
  lemma {:induction false} RoomyRunDeliversAll(bound: nat, steps: seq<Step>)
    requires AlwaysRoom(bound, steps)
    ensures var s := After(bound, steps); s.registered && s.read + s.queue == s.issued
  {
    if steps != [] {
      var s, step := After(bound, steps[..|steps| - 1]), steps[|steps| - 1];
      RoomyRunDeliversAll(bound, steps[..|steps| - 1]);
      if step.Read? && s.queue != [] {
        assert s.read + [s.queue[0]] + s.queue[1..] == s.read + s.queue;
      } else if step.Issue? {
        assert s.read + (s.queue + [step.m]) == s.read + s.queue + [step.m];
      }
    }
  }

  /** A must-deliver message that finds a full queue costs exactly one message: the oldest that may be
      dropped, or the oldest of all if none may. */
  lemma {:induction false} FullQueueLosesOne(queue: seq<Message>, bound: nat, m: Message, i: nat)
    requires |queue| == bound && i < bound && IsMustDeliver(m)
    requires || (!IsMustDeliver(queue[i]) && forall j | 0 <= j < i :: IsMustDeliver(queue[j]))
             || (i == 0 && forall j | 0 <= j < |queue| :: IsMustDeliver(queue[j]))
    ensures Offer(queue, bound, m) == Some(queue[..i] + queue[i + 1..] + [m])
  {
    hide IsMustDeliver;
    RoomOfFull(queue, bound);
    assert Victim(queue) == i;
  }

  /** A must-deliver message is given up only from a queue that holds nothing else. */
  lemma {:induction false} VictimIsDroppable(queue: seq<Message>)
    requires queue != [] && IsMustDeliver(queue[Victim(queue)])
    ensures forall i | 0 <= i < |queue| :: IsMustDeliver(queue[i])
    ensures Victim(queue) == 0
  {
  }
}
