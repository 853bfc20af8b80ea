/**
 The drop-oldest client queues of `backend/gateway/ws_router.py` and `backend/services/streaming/broadcaster.py`. Neither
 fan-out loop gives up control, so an offer to all queues and a take from one queue are atomic; offers and any number
 of takers interleave freely.
 */
module FanOut {
  import opened Common

  /** What happens to one client queue. */
  datatype Step<T> = Offer(message: T) | Take

  /** How a message left its queue. */
  datatype Fate = Taken | Dropped

  // ----- one queue

  function Pushed<T>(capacity: nat, q: seq<T>, m: T): seq<T>
    requires capacity > 0
  {
    (if |q| >= capacity then q[1..] else q) + [m]
  }

  function Popped<T>(q: seq<T>): seq<T> { if q == [] then [] else q[1..] }

  function QueueAfter<T>(capacity: nat, steps: seq<Step<T>>): seq<T>
    requires capacity > 0
  {
    if steps == [] then []
    else
      var q := QueueAfter(capacity, steps[..|steps| - 1]);
      match steps[|steps| - 1]
      case Offer(m) => Pushed(capacity, q, m)
      case Take => Popped(q)
  }

  // ----- its whole history

  /** Every message offered to the client. */
  function Offered<T>(steps: seq<Step<T>>): seq<T> {
    if steps == [] then []
    else
      match steps[|steps| - 1]
      case Offer(m) => Offered(steps[..|steps| - 1]) + [m]
      case Take => Offered(steps[..|steps| - 1])
  }

  /** What the takers received. */
  function Received<T>(capacity: nat, steps: seq<Step<T>>): seq<T>
    requires capacity > 0
  {
    if steps == [] then []
    else
      var earlier, q := Received(capacity, steps[..|steps| - 1]), QueueAfter(capacity, steps[..|steps| - 1]);
      if steps[|steps| - 1].Take? && q != [] then earlier + [q[0]] else earlier
  }

  /** How the messages that left the queue left it, in the order in which they left. */
  function Fates<T>(capacity: nat, steps: seq<Step<T>>): seq<Fate>
    requires capacity > 0
  {
    if steps == [] then []
    else
      var earlier, q := Fates(capacity, steps[..|steps| - 1]), QueueAfter(capacity, steps[..|steps| - 1]);
      match steps[|steps| - 1]
      case Offer(_) => if |q| >= capacity then earlier + [Dropped] else earlier
      case Take => if q != [] then earlier + [Taken] else earlier
  }

  /** The messages among the first |fates| that met the given fate. */
  function Selected<T>(messages: seq<T>, fates: seq<Fate>, fate: Fate): seq<T>
    requires |fates| <= |messages|
  {
    if fates == [] then []
    else
      var i := |fates| - 1;
      if fates[i] == fate then Selected(messages, fates[..i], fate) + [messages[i]]
      else Selected(messages, fates[..i], fate)
  }

  lemma {:induction false} SelectedPrefix<T>(messages: seq<T>, more: seq<T>, fates: seq<Fate>, fate: Fate)
    requires |fates| <= |messages|
    ensures Selected(messages + more, fates, fate) == Selected(messages, fates, fate)
  {
    if fates != [] { SelectedPrefix(messages, more, fates[..|fates| - 1], fate); }
  }

  lemma SelectedNext<T>(messages: seq<T>, fates: seq<Fate>, next: Fate, fate: Fate)
    requires |fates| < |messages|
    ensures Selected(messages, fates + [next], fate) ==
      if next == fate then Selected(messages, fates, fate) + [messages[|fates|]] else Selected(messages, fates, fate)
  {
    assert (fates + [next])[..|fates|] == fates;
  }

  lemma {:induction false} SelectedSplit<T>(messages: seq<T>, fates: seq<Fate>)
    requires |fates| <= |messages|
    ensures |Selected(messages, fates, Taken)| + |Selected(messages, fates, Dropped)| == |fates|
  {
    if fates != [] { SelectedSplit(messages, fates[..|fates| - 1]); }
  }

  /** The queue is what the messages that left it leave over, and the takers received exactly the taken ones. */
  predicate Accounted<T(==)>(capacity: nat, q: seq<T>, offered: seq<T>, received: seq<T>, fates: seq<Fate>) {
    && |fates| + |q| == |offered|
    && |q| <= capacity
    && q == offered[|fates|..]
    && received == Selected(offered, fates, Taken)
  }

  lemma OfferAccounted<T>(capacity: nat, q: seq<T>, offered: seq<T>, received: seq<T>, fates: seq<Fate>, m: T)
    requires capacity > 0 && Accounted(capacity, q, offered, received, fates)
    ensures Accounted(capacity, Pushed(capacity, q, m), offered + [m], received,
                      if |q| >= capacity then fates + [Dropped] else fates)
  {
    SelectedPrefix(offered, [m], fates, Taken);
    if |q| >= capacity {
      SelectedNext(offered + [m], fates, Dropped, Taken);
      assert offered[|fates|..][1..] == offered[|fates| + 1..];
    }
  }

  lemma TakeAccounted<T>(capacity: nat, q: seq<T>, offered: seq<T>, received: seq<T>, fates: seq<Fate>)
    requires Accounted(capacity, q, offered, received, fates) && q != []
    ensures Accounted(capacity, Popped(q), offered, received + [q[0]], fates + [Taken])
  {
    SelectedNext(offered, fates, Taken, Taken);
    assert offered[|fates|..][1..] == offered[|fates| + 1..];
  }

  lemma {:induction false} RunAccounted<T>(capacity: nat, steps: seq<Step<T>>)
    requires capacity > 0
    ensures Accounted(capacity, QueueAfter(capacity, steps), Offered(steps), Received(capacity, steps), Fates(capacity, steps))
  {
    if steps != [] {
      var s0 := steps[..|steps| - 1];
      RunAccounted(capacity, s0);
      var q := QueueAfter(capacity, s0);
      match steps[|steps| - 1]
      case Offer(m) => OfferAccounted(capacity, q, Offered(s0), Received(capacity, s0), Fates(capacity, s0), m);
      case Take =>
        if q != [] { TakeAccounted(capacity, q, Offered(s0), Received(capacity, s0), Fates(capacity, s0)); }
    }
  }

  /**
   Under every interleaving of offers and takes: the queue holds the latest consecutive messages offered, never more than
   its capacity; the takers received each taken message once and in order; and offered = received + dropped + queued.
   */
  lemma QueueGuarantees<T>(capacity: nat, steps: seq<Step<T>>)
    requires capacity > 0
    ensures var q, offered, fates := QueueAfter(capacity, steps), Offered(steps), Fates(capacity, steps);
      && |q| <= capacity && |q| + |fates| == |offered|
      && q == offered[|offered| - |q|..]
      && Received(capacity, steps) == Selected(offered, fates, Taken)
      && |offered| == |Received(capacity, steps)| + |Selected(offered, fates, Dropped)| + |q|
  {
    RunAccounted(capacity, steps);
    SelectedSplit(Offered(steps), Fates(capacity, steps));
  }

  /** Whatever a taker receives is one of the latest `capacity` messages offered by then. */
  lemma ReceivedIsRecent<T>(capacity: nat, steps: seq<Step<T>>)
    requires capacity > 0 && QueueAfter(capacity, steps) != []
    ensures var i := |Fates(capacity, steps)|;
      && |Offered(steps)| - capacity <= i < |Offered(steps)|
      && Received(capacity, steps + [Take]) == Received(capacity, steps) + [Offered(steps)[i]]
  {
    RunAccounted(capacity, steps);
    assert (steps + [Take])[..|steps|] == steps;
  }

  // ----- against a queue without a bound

  function Backlog<T>(steps: seq<Step<T>>): seq<T> {
    if steps == [] then []
    else
      match steps[|steps| - 1]
      case Offer(m) => Backlog(steps[..|steps| - 1]) + [m]
      case Take => Popped(Backlog(steps[..|steps| - 1]))
  }

  predicate BacklogFits<T>(capacity: nat, steps: seq<Step<T>>) {
    |Backlog(steps)| <= capacity && (steps == [] || BacklogFits(capacity, steps[..|steps| - 1]))
  }

  predicate NoneDropped(fates: seq<Fate>) {
    fates == [] || (fates[|fates| - 1] == Taken && NoneDropped(fates[..|fates| - 1]))
  }

  /** No message is lost exactly when the backlog of an unbounded queue would never have exceeded the capacity. */
  lemma {:induction false} LosslessIffBacklogFits<T>(capacity: nat, steps: seq<Step<T>>)
    requires capacity > 0
    ensures NoneDropped(Fates(capacity, steps)) <==> BacklogFits(capacity, steps)
    ensures BacklogFits(capacity, steps) ==> QueueAfter(capacity, steps) == Backlog(steps)
  {
    if steps != [] {
      var s0 := steps[..|steps| - 1];
      LosslessIffBacklogFits(capacity, s0);
      var fates := Fates(capacity, s0);
      assert (fates + [Dropped])[..|fates|] == fates && (fates + [Taken])[..|fates|] == fates;
    }
  }

  // ----- the queues of a running process

  class ClientQueue<T> {
    const capacity: nat
    var items: seq<T>
    ghost var steps: seq<Step<T>>

    ghost predicate Valid()
      reads this
    {
      capacity > 0 && items == QueueAfter(capacity, steps)
    }

    constructor (capacity: nat)
      requires capacity > 0
      ensures Valid() && this.capacity == capacity && steps == []
    {
      this.capacity, items, steps := capacity, [], [];
    }

    /** Room is made by dropping the oldest message. */
    method PutDroppingOldest(m: T)
      requires Valid()
      modifies this
      ensures Valid() && steps == old(steps) + [Offer(m)]
    {
      ghost var s := steps;
      assert (s + [Offer(m)])[..|s|] == s;
      if |items| >= capacity {
        items := items[1..];
      }
      items := items + [m];
      steps := steps + [Offer(m)];
    }

    /** One turn of a taker: it passes over an empty queue. */
    method TakeTurn() returns (m: Option<T>)
      requires Valid()
      modifies this
      ensures Valid() && steps == old(steps) + [Take]
      ensures m == if old(items) == [] then None else Some(old(items)[0])
      ensures Received(capacity, steps)
        == Received(capacity, old(steps)) + (if m.Some? then [m.value] else [])
    {
      ghost var s := steps;
      assert (s + [Take])[..|s|] == s;
      if items == [] {
        m := None;
      } else {
        m := Some(items[0]);
        items := items[1..];
      }
      steps := steps + [Take];
    }
  }

  datatype Message = Message(camera: string, body: string)

  const CLIENT_QUEUE_SIZE: nat := 20

  /** `_WSClient`: no camera means all cameras. */
  datatype WSClient = WSClient(ws: nat, camera: Option<string>, queue: ClientQueue<Message>)

  predicate Matches(camera: Option<string>, m: Message) { camera.None? || camera.value == m.camera }

  predicate DistinctQueues(clients: seq<WSClient>) {
    forall i, j :: 0 <= i < j < |clients| ==> clients[i].queue != clients[j].queue
  }

  /** The messages that a camera filter lets through. */
  function Matching(camera: Option<string>, log: seq<Message>): seq<Message> {
    if log == [] then []
    else
      var m := log[|log| - 1];
      if Matches(camera, m) then Matching(camera, log[..|log| - 1]) + [m] else Matching(camera, log[..|log| - 1])
  }

  function From(camera: string): Message -> bool { (m: Message) => m.camera == camera }

  lemma {:induction false} MatchingAll(log: seq<Message>)
    ensures Matching(None, log) == log
  {
    if log != [] { MatchingAll(log[..|log| - 1]); }
  }

  /** A filter on a camera lets through exactly that camera's messages, each once and in order. */
  lemma {:induction false} MatchingSelects(camera: string, log: seq<Message>)
    ensures Selects(log, From(camera), Matching(Some(camera), log))
  {
    if log == [] {
      SelectsNone(From(camera));
    } else {
      MatchingSelects(camera, log[..|log| - 1]);
      SelectsNext(log, From(camera), Matching(Some(camera), log[..|log| - 1]));
    }
  }

  lemma MatchingNext(camera: Option<string>, log: seq<Message>, since: nat, m: Message)
    requires since <= |log|
    ensures Matching(camera, (log + [m])[since..]) ==
      if Matches(camera, m) then Matching(camera, log[since..]) + [m] else Matching(camera, log[since..])
  {
    assert (log + [m])[since..] == log[since..] + [m];
    assert (log[since..] + [m])[..|log| - since] == log[since..];
  }

  /** The client was offered exactly the matching messages since it connected. */
  ghost predicate OfferedMatching(c: WSClient, log: seq<Message>, since: nat)
    requires since <= |log|
    reads c.queue
  {
    Offered(c.queue.steps) == Matching(c.camera, log[since..])
  }

  lemma OneMoreMatching(camera: Option<string>, log: seq<Message>, since: nat, steps: seq<Step<Message>>, m: Message)
    requires since <= |log| && Offered(steps) == Matching(camera, log[since..])
    ensures Offered(steps + (if Matches(camera, m) then [Offer(m)] else [])) == Matching(camera, (log + [m])[since..])
  {
    MatchingNext(camera, log, since, m);
    OfferedNext(steps, m);
    assert steps + [] == steps;
  }

  /** The loop of `_enqueue`. */
  method OfferMatching(clients: seq<WSClient>, m: Message)
    requires DistinctQueues(clients) && forall c :: c in clients ==> c.queue.Valid()
    modifies set c | c in clients :: c.queue
    ensures forall c :: c in clients ==>
      && c.queue.Valid()
      && c.queue.steps == old(c.queue.steps) + (if Matches(c.camera, m) then [Offer(m)] else [])
  {
    var i := 0;
    while i < |clients|
      invariant i <= |clients|
      invariant forall c :: c in clients ==> c.queue.Valid()
      invariant forall j :: 0 <= j < i ==>
        clients[j].queue.steps == old(clients[j].queue.steps) + (if Matches(clients[j].camera, m) then [Offer(m)] else [])
      invariant forall j :: i <= j < |clients| ==> clients[j].queue.steps == old(clients[j].queue.steps)
    {
      if Matches(clients[i].camera, m) {
        clients[i].queue.PutDroppingOldest(m);
      }
      i := i + 1;
    }
  }

  /** `log` is everything ever enqueued and `since` how much of it came before each connection. */
  class WebSocketManager {
    var clients: seq<WSClient>
    ghost var log: seq<Message>
    ghost var since: map<ClientQueue<Message>, nat>

    ghost predicate Valid()
      reads this, set c | c in clients :: c.queue
    {
      && DistinctQueues(clients)
      && forall c :: c in clients ==>
        && c.queue.Valid() && c.queue.capacity == CLIENT_QUEUE_SIZE
        && c.queue in since && since[c.queue] <= |log|
        && OfferedMatching(c, log, since[c.queue])
    }

    constructor ()
      ensures Valid() && clients == [] && log == []
    {
      clients, log, since := [], [], map[];
    }

    method Connect(ws: nat, camera: Option<string>) returns (client: WSClient)
      requires Valid()
      modifies this
      ensures Valid() && clients == old(clients) + [client] && log == old(log)
      ensures client.ws == ws && client.camera == camera
      ensures fresh(client.queue) && client.queue.steps == []
    {
      var queue := new ClientQueue(CLIENT_QUEUE_SIZE);
      client := WSClient(ws, camera, queue);
      clients := clients + [client];
      since := since[queue := |log|];
      assert log[|log|..] == [];
    }

    /** Only the clients on other connections stay, in their order. */
    method Disconnect(ws: nat)
      requires Valid()
      modifies this
      ensures Valid() && clients == OnOther(old(clients), ws) && log == old(log)
      ensures Selects(old(clients), NotOn(ws), clients)
    {
      OnOtherInOrder(clients, ws);
      OnOtherSelects(clients, ws);
      var kept := OnOther(clients, ws);
      assert forall c :: c in kept ==> c in clients;
      clients := kept;
    }

    /** Every matching client is offered the message, and no other queue changes. */
    method Enqueue(m: Message)
      requires Valid()
      modifies `log, set c | c in clients :: c.queue
      ensures Valid() && log == old(log) + [m]
      ensures forall c :: c in clients ==>
        c.queue.steps == old(c.queue.steps) + (if Matches(c.camera, m) then [Offer(m)] else [])
    {
      OfferMatching(clients, m);
      log := log + [m];
      forall c | c in clients ensures OfferedMatching(c, log, since[c.queue]) {
        OneMoreMatching(c.camera, old(log), since[c.queue], old(c.queue.steps), m);
      }
    }

    /** A dispatcher's turn at one client of its snapshot, which may have disconnected since. */
    method Dispatch(client: WSClient) returns (m: Option<Message>)
      requires Valid() && client.queue.Valid()
      modifies client.queue
      ensures Valid() && client.queue.Valid()
      ensures client.queue.steps == old(client.queue.steps) + [Take]
      ensures m == if old(client.queue.items) == [] then None else Some(old(client.queue.items)[0])
    {
      m := client.queue.TakeTurn();
      OfferedNext(old(client.queue.steps), Message("", ""));
      forall c | c in clients ensures OfferedMatching(c, log, since[c.queue]) {
        assert old(OfferedMatching(c, log, since[c.queue]));
      }
    }

    /** A connected client's queue is the tail, of at most 20 messages, of the matching messages since it connected. */
    lemma ClientSeesMatching(c: WSClient)
      requires Valid() && c in clients
      ensures var matching := Matching(c.camera, log[since[c.queue]..]);
        && |c.queue.items| <= CLIENT_QUEUE_SIZE && |c.queue.items| <= |matching|
        && c.queue.items == matching[|matching| - |c.queue.items|..]
        && (c.camera == None ==> matching == log[since[c.queue]..])
        && (c.camera.Some? ==> Selects(log[since[c.queue]..], From(c.camera.value), matching))
    {
      MatchingAll(log[since[c.queue]..]);
      if c.camera.Some? { MatchingSelects(c.camera.value, log[since[c.queue]..]); }
      assert OfferedMatching(c, log, since[c.queue]);
      QueueGuarantees(CLIENT_QUEUE_SIZE, c.queue.steps);
    }
  }

  lemma OfferedNext<T>(steps: seq<Step<T>>, m: T)
    ensures Offered(steps + [Offer(m)]) == Offered(steps) + [m] && Offered(steps + [Take]) == Offered(steps)
  {
    assert (steps + [Offer(m)])[..|steps|] == steps && (steps + [Take])[..|steps|] == steps;
  }

  /** `disconnect` keeps the clients of all other connections. */
  function OnOther(clients: seq<WSClient>, ws: nat): seq<WSClient> {
    if clients == [] then []
    else
      var last := clients[|clients| - 1];
      if last.ws == ws then OnOther(clients[..|clients| - 1], ws) else OnOther(clients[..|clients| - 1], ws) + [last]
  }

  function NotOn(ws: nat): WSClient -> bool { (c: WSClient) => c.ws != ws }

  lemma {:induction false} OnOtherInOrder(clients: seq<WSClient>, ws: nat)
    ensures Selects(clients, NotOn(ws), OnOther(clients, ws))
  {
    if clients == [] {
      SelectsNone(NotOn(ws));
    } else {
      OnOtherInOrder(clients[..|clients| - 1], ws);
      SelectsNext(clients, NotOn(ws), OnOther(clients[..|clients| - 1], ws));
    }
  }

  lemma {:induction false} OnOtherSelects(clients: seq<WSClient>, ws: nat)
    ensures forall c :: c in OnOther(clients, ws) ==> c in clients
    ensures forall c :: c in clients ==> (c.ws != ws <==> c in OnOther(clients, ws))
    ensures DistinctQueues(clients) ==> DistinctQueues(OnOther(clients, ws))
  {
    if clients != [] {
      var s0, r0, last := clients[..|clients| - 1], OnOther(clients[..|clients| - 1], ws), clients[|clients| - 1];
      OnOtherSelects(s0, ws);
      if DistinctQueues(clients) {
        forall i | 0 <= i < |r0| ensures r0[i].queue != last.queue {
          assert r0[i] in r0;
          assert r0[i] in s0;
        }
      }
    }
  }

  const FRAME_QUEUE_SIZE: nat := 2

  /** The frames fanned out on a camera. */
  function SentOn<Bytes>(sent: map<string, seq<Bytes>>, camera: string): seq<Bytes> {
    if camera in sent then sent[camera] else []
  }

  /**
   The client queues of `FrameBroadcaster`, by camera; `Bytes` stands for an encoded frame. The history: `sent` is every
   frame fanned out on a camera, `home` the camera of each queue and `since` how much was sent there before it was added.
   */
  class FrameBroadcaster<Bytes> {
    var cameras: map<string, seq<ClientQueue<Bytes>>>
    ghost var sent: map<string, seq<Bytes>>
    ghost var home: map<ClientQueue<Bytes>, string>
    ghost var since: map<ClientQueue<Bytes>, nat>

    /** The queue was offered exactly the frames sent on its camera since it was added. */
    ghost predicate Tracked(camera: string, q: ClientQueue<Bytes>)
      reads this, q
    {
      && q.Valid() && q.capacity == FRAME_QUEUE_SIZE
      && q in home && home[q] == camera
      && q in since && since[q] <= |SentOn(sent, camera)|
      && Offered(q.steps) == SentOn(sent, camera)[since[q]..]
    }

    ghost predicate Valid()
      reads this, set camera, q | camera in cameras && q in cameras[camera] :: q
    {
      forall camera :: camera in cameras ==>
        AllDifferent(cameras[camera]) && forall q :: q in cameras[camera] ==> Tracked(camera, q)
    }

    constructor ()
      ensures Valid() && cameras == map[]
    {
      cameras, sent, home, since := map[], map[], map[], map[];
    }

    method AddClient(camera: string) returns (q: ClientQueue<Bytes>)
      requires Valid()
      modifies this
      ensures Valid() && fresh(q) && q.steps == [] && sent == old(sent)
      ensures cameras == old(cameras)[camera := (if camera in old(cameras) then old(cameras)[camera] else []) + [q]]
      ensures q in since && since[q] == |SentOn(sent, camera)|
    {
      q := new ClientQueue(FRAME_QUEUE_SIZE);
      var queues := if camera in cameras then cameras[camera] else [];
      cameras := cameras[camera := queues + [q]];
      home := home[q := camera];
      since := since[q := |SentOn(sent, camera)|];
      forall c, p | c in old(cameras) && p in old(cameras)[c] ensures Tracked(c, p) {
        assert old(Tracked(c, p));
      }
      assert Tracked(camera, q);
    }

    /** Every queue of the camera is offered the frame, and no other queue changes. */
    method FanOut(camera: string, frame: Bytes)
      requires Valid()
      modifies `sent, if camera in cameras then set q | q in cameras[camera] else {}
      ensures Valid()
      ensures sent == if camera in cameras then old(sent)[camera := SentOn(old(sent), camera) + [frame]] else old(sent)
      ensures camera in cameras ==> forall q :: q in cameras[camera] ==> q.steps == old(q.steps) + [Offer(frame)]
    {
      if camera !in cameras {
        return;
      }
      OfferAll(cameras[camera], frame);
      ghost var log := SentOn(sent, camera);
      sent := sent[camera := log + [frame]];
      forall q | q in cameras[camera] ensures Tracked(camera, q) {
        assert old(Tracked(camera, q));
        OfferedNext(old(q.steps), frame);
        assert (log + [frame])[since[q]..] == log[since[q]..] + [frame];
      }
      forall c, q | c in cameras && c != camera && q in cameras[c] ensures Tracked(c, q) {
        assert old(Tracked(c, q));
      }
    }

    /** `remove_client`: an unknown camera or queue is ignored. */
    method RemoveClient(camera: string, q: ClientQueue<Bytes>)
      requires Valid()
      modifies this
      ensures Valid() && sent == old(sent)
      ensures cameras == if camera in old(cameras) then old(cameras)[camera := Removed(old(cameras)[camera], q)] else old(cameras)
      ensures camera in old(cameras) ==> RemovesFirst(old(cameras)[camera], cameras[camera], q)
    {
      if camera in cameras {
        RemovedRemoves(cameras[camera], q);
        RemovedSelects(cameras[camera], q);
        assert forall r :: r in Removed(cameras[camera], q) ==> r in cameras[camera];
        cameras := cameras[camera := Removed(cameras[camera], q)];
      }
    }

    /** A client's queue is the tail, of at most two, of the frames fanned out on its camera since it was added. */
    lemma ClientSeesFrames(camera: string, q: ClientQueue<Bytes>)
      requires Valid() && camera in cameras && q in cameras[camera]
      ensures Tracked(camera, q)
      ensures var frames := SentOn(sent, camera)[since[q]..];
        && |q.items| <= FRAME_QUEUE_SIZE && |q.items| <= |frames|
        && q.items == frames[|frames| - |q.items|..]
    {
      QueueGuarantees(FRAME_QUEUE_SIZE, q.steps);
    }
  }

  /** The fan-out loop. */
  method OfferAll<T>(queues: seq<ClientQueue<T>>, m: T)
    requires AllDifferent(queues) && forall q :: q in queues ==> q.Valid()
    modifies set q | q in queues
    ensures forall q :: q in queues ==> q.Valid() && q.steps == old(q.steps) + [Offer(m)]
  {
    for i := 0 to |queues|
      invariant forall q :: q in queues ==> q.Valid()
      invariant forall j :: 0 <= j < i ==> queues[j].steps == old(queues[j].steps) + [Offer(m)]
      invariant forall j :: i <= j < |queues| ==> queues[j].steps == old(queues[j].steps)
    {
      queues[i].PutDroppingOldest(m);
    }
  }

  predicate AllDifferent<T(==)>(s: seq<T>) { forall i, j :: 0 <= i < j < |s| ==> s[i] != s[j] }

  /** The list without the first occurrence of `x`. */
  function Removed<T(==)>(s: seq<T>, x: T): seq<T> {
    if s == [] then [] else if s[0] == x then s[1..] else [s[0]] + Removed(s[1..], x)
  }

  lemma WithoutPlace<T>(s: seq<T>, i: nat)
    requires 0 < i < |s|
    ensures [s[0]] + (s[1..][..i - 1] + s[1..][i..]) == s[..i] + s[i + 1..]
  {
    assert [s[0]] + s[1..][..i - 1] == s[..i];
    assert s[1..][i..] == s[i + 1..];
    Regroup([s[0]], s[1..][..i - 1], s[1..][i..]);
  }

  /** `x` stands at place `i` for the first time. */
  predicate FirstAt<T(==)>(s: seq<T>, x: T, i: nat) { i < |s| && s[i] == x && forall j :: 0 <= j < i ==> s[j] != x }

  lemma {:induction false} RemovedAt<T>(s: seq<T>, x: T, i: nat)
    requires FirstAt(s, x, i)
    ensures Removed(s, x) == s[..i] + s[i + 1..]
  {
    if i == 0 {
      assert s[..0] + s[1..] == s[1..];
    } else {
      assert s[0] != x;
      RemovedAt(s[1..], x, i - 1);
      WithoutPlace(s, i);
    }
  }

  lemma {:induction false} FirstPlace<T>(s: seq<T>, x: T) returns (i: nat)
    requires x in s
    ensures FirstAt(s, x, i)
  {
    if s[0] == x {
      i := 0;
    } else {
      i := FirstPlace(s[1..], x);
      i := i + 1;
    }
  }

  lemma {:induction false} RemovedUnknown<T>(s: seq<T>, x: T)
    requires x !in s
    ensures Removed(s, x) == s
  {
    if s != [] { RemovedUnknown(s[1..], x); }
  }

  /** Of a known element the first occurrence goes and the rest keep their order; an unknown one changes nothing. */
  ghost predicate RemovesFirst<T>(before: seq<T>, after: seq<T>, x: T) {
    if x in before then exists i: nat :: FirstAt(before, x, i) && after == before[..i] + before[i + 1..] else after == before
  }

  lemma RemovedRemoves<T>(s: seq<T>, x: T)
    ensures RemovesFirst(s, Removed(s, x), x)
  {
    if x in s {
      var i := FirstPlace(s, x);
      RemovedAt(s, x, i);
    } else {
      RemovedUnknown(s, x);
    }
  }

  lemma {:induction false} RemovedSelects<T>(s: seq<T>, x: T)
    requires AllDifferent(s)
    ensures forall y :: y in Removed(s, x) ==> y in s
    ensures forall y :: y in s ==> (y != x <==> y in Removed(s, x))
    ensures AllDifferent(Removed(s, x))
  {
    if s != [] {
      if s[0] != x {
        RemovedSelects(s[1..], x);
        var r := Removed(s[1..], x);
        forall i, j | 0 <= i < j < |r| + 1 ensures ([s[0]] + r)[i] != ([s[0]] + r)[j] {
          assert r[j - 1] in r && r[j - 1] in s[1..];
        }
      }
    }
  }
}
