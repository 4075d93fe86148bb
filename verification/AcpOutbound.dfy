/**
 Requests the agent sends to its client: ids are minted from a counter, the waiter is
 registered under its id, then the line is sent. Responses, timeouts and abandoned waits
 interleave with any number of such requests, so each of these is a step of its own.
 */
module AcpOutbound {
  import opened Wrappers

  datatype Reply =
    | Result(value: Option<string>)
    | Failure(code: int, message: string)

  /** Where a caller stands. An expired caller has timed out and not yet forgotten its
      entry; an abandoned one was dropped while it waited. */
  datatype Stage = Minted | Registered | Waiting | Answered(reply: Reply) | Expired | Forgotten | Abandoned

  /** A caller, the id it owns and what its one-shot channel holds. */
  datatype Call = Call(id: int, stage: Stage, channel: Option<Reply>)

  /** `handed` are senders taken out of `pending` whose reply is not in the channel yet. */
  datatype Wire = Wire(
    nextId: int,
    pending: map<int, nat>,
    calls: map<nat, Call>,
    handed: map<nat, Reply>,
    lines: seq<int>)

  datatype Event =
    | Mint(caller: nat)
    | Register(caller: nat)
    | Send(caller: nat)
    | Respond(id: int, reply: Reply)
    | Complete(caller: nat)
    | Receive(caller: nat)
    | Expire(caller: nat)
    | Forget(caller: nat)
    | Abandon(caller: nat)

  const START := Wire(1, map[], map[], map[], [])

  predicate At(w: Wire, c: nat, stage: Stage) {
    c in w.calls && w.calls[c].stage == stage
  }

  /** A timeout polls its receiver first, so it expires only over an empty channel. */
  predicate Enabled(w: Wire, e: Event) {
    match e
    case Mint(c) => c !in w.calls
    case Register(c) => At(w, c, Minted)
    case Send(c) => At(w, c, Registered)
    case Respond(_, _) => true
    case Complete(c) => c in w.handed && c in w.calls
    case Receive(c) => At(w, c, Waiting) && w.calls[c].channel.Some?
    case Expire(c) => At(w, c, Waiting) && w.calls[c].channel.None?
    case Forget(c) => At(w, c, Expired)
    case Abandon(c) => At(w, c, Waiting)
  }

  /** Whether the caller's end of the channel still exists. */
  predicate Listening(stage: Stage) {
    stage == Registered || stage == Waiting
  }

  function Moved(w: Wire, c: nat, stage: Stage): Wire
    requires c in w.calls
  {
    w.(calls := w.calls[c := w.calls[c].(stage := stage)])
  }

  function Apply(w: Wire, e: Event): Wire
    requires Enabled(w, e)
  {
    match e
    case Mint(c) => w.(nextId := w.nextId + 1, calls := w.calls[c := Call(w.nextId, Minted, None)])
    case Register(c) => Moved(w, c, Registered).(pending := w.pending[w.calls[c].id := c])
    case Send(c) => Moved(w, c, Waiting).(lines := w.lines + [w.calls[c].id])
    case Respond(id, reply) =>
      if id in w.pending
      then w.(pending := w.pending - {id}, handed := w.handed[w.pending[id] := reply])
      else w
    case Complete(c) =>
      var w' := w.(handed := w.handed - {c});
      if Listening(w.calls[c].stage)
      then w'.(calls := w.calls[c := w.calls[c].(channel := Some(w.handed[c]))])
      else w'
    case Receive(c) =>
      w.(calls := w.calls[c := Call(w.calls[c].id, Answered(w.calls[c].channel.value), None)])
    case Expire(c) => Moved(w, c, Expired)
    case Forget(c) => Moved(w, c, Forgotten).(pending := w.pending - {w.calls[c].id})
    case Abandon(c) => w.(calls := w.calls[c := Call(w.calls[c].id, Abandoned, None)])
  }

  ghost predicate Legal(w: Wire, events: seq<Event>)
    decreases |events|
  {
    events == [] || (Enabled(w, events[0]) && Legal(Apply(w, events[0]), events[1..]))
  }

  ghost function Run(w: Wire, events: seq<Event>): Wire
    requires Legal(w, events)
    decreases |events|
  {
    if events == [] then w else Run(Apply(w, events[0]), events[1..])
  }

  // ----- what every interleaving keeps

  ghost predicate OwnIds(w: Wire) {
    && (forall c | c in w.calls :: 1 <= w.calls[c].id < w.nextId)
    && (forall a, b | a in w.calls && b in w.calls && a != b :: w.calls[a].id != w.calls[b].id)
  }

  /** The entry of `c` is filed under its own id, and then nothing has been said to it yet. */
  ghost predicate Filed(w: Wire, id: int, c: nat) {
    && c in w.calls && w.calls[c].id == id
    && w.calls[c].channel.None? && c !in w.handed
    && (Listening(w.calls[c].stage) || w.calls[c].stage == Expired || w.calls[c].stage == Abandoned)
  }

  ghost predicate Entries(w: Wire) {
    forall id | id in w.pending :: Filed(w, id, w.pending[id])
  }

  ghost predicate Handed(w: Wire) {
    forall c | c in w.handed ::
      && c in w.calls && w.calls[c].channel.None? && w.calls[c].id !in w.pending
      && w.calls[c].stage != Minted && !w.calls[c].stage.Answered?
  }

  /** A reply sits only in a channel that is still listened to; and whoever listens is on
      file, about to be told, or told. */
  ghost predicate Channels(w: Wire) {
    && (forall c | c in w.calls && w.calls[c].channel.Some? :: Listening(w.calls[c].stage))
    && (forall c | c in w.calls && Listening(w.calls[c].stage) ::
          || (w.calls[c].id in w.pending && w.pending[w.calls[c].id] == c)
          || c in w.handed || w.calls[c].channel.Some?)
  }

  ghost predicate Unsent(w: Wire) {
    && (forall id | id in w.lines :: id < w.nextId)
    && (forall c | c in w.calls && (w.calls[c].stage == Minted || w.calls[c].stage == Registered) ::
          w.calls[c].id !in w.lines)
  }

  ghost predicate SentOnce(w: Wire) {
    forall i, j | 0 <= i < j < |w.lines| :: w.lines[i] != w.lines[j]
  }

  ghost predicate Inv(w: Wire) {
    1 <= w.nextId && OwnIds(w) && Entries(w) && Handed(w) && Channels(w) && Unsent(w) && SentOnce(w)
  }

  lemma OwnIdsKept(w: Wire, e: Event)
    requires Inv(w) && Enabled(w, e)
    ensures OwnIds(Apply(w, e))
  {
  }

  lemma EntryKept(w: Wire, e: Event, id: int)
    requires Inv(w) && Enabled(w, e) && id in Apply(w, e).pending
    ensures Filed(Apply(w, e), id, Apply(w, e).pending[id])
  {
    if id in w.pending {
      assert Filed(w, id, w.pending[id]);
    }
    if e.Respond? && e.id in w.pending {
      assert Filed(w, e.id, w.pending[e.id]);
    }
  }

  lemma EntriesKept(w: Wire, e: Event)
    requires Inv(w) && Enabled(w, e)
    ensures Entries(Apply(w, e))
  {
    forall id | id in Apply(w, e).pending ensures Filed(Apply(w, e), id, Apply(w, e).pending[id]) {
      EntryKept(w, e, id);
    }
  }

  lemma HandedKept(w: Wire, e: Event)
    requires Inv(w) && Enabled(w, e)
    ensures Handed(Apply(w, e))
  {
    if e.Respond? && e.id in w.pending {
      assert Filed(w, e.id, w.pending[e.id]);
    }
  }

  lemma ChannelsKept(w: Wire, e: Event)
    requires Inv(w) && Enabled(w, e)
    ensures Channels(Apply(w, e))
  {
    if e.Respond? && e.id in w.pending {
      assert Filed(w, e.id, w.pending[e.id]);
    }
  }

  lemma LinesKept(w: Wire, e: Event)
    requires OwnIds(w) && Unsent(w) && SentOnce(w) && Enabled(w, e)
    ensures Unsent(Apply(w, e)) && SentOnce(Apply(w, e))
  {
    if e.Send? {
      assert forall id | id in Apply(w, e).lines :: id in w.lines || id == w.calls[e.caller].id;
    } else {
      assert Apply(w, e).lines == w.lines;
    }
  }

  lemma StepKeeps(w: Wire, e: Event)
    requires Inv(w) && Enabled(w, e)
    ensures Inv(Apply(w, e))
  {
    OwnIdsKept(w, e);
    EntriesKept(w, e);
    HandedKept(w, e);
    ChannelsKept(w, e);
    LinesKept(w, e);
  }

  lemma {:induction false} RunKeeps(w: Wire, events: seq<Event>)
    requires Inv(w) && Legal(w, events)
    ensures Inv(Run(w, events))
    decreases |events|
  {
    if events != [] {
      StepKeeps(w, events[0]);
      RunKeeps(Apply(w, events[0]), events[1..]);
    }
  }

  /** No two requests share an id and no id is sent twice. */
  lemma IdsAreUnique(events: seq<Event>, a: nat, b: nat)
    requires Legal(START, events)
    requires a in Run(START, events).calls && b in Run(START, events).calls && a != b
    ensures Run(START, events).calls[a].id != Run(START, events).calls[b].id
    ensures forall i, j | 0 <= i < j < |Run(START, events).lines| ::
              Run(START, events).lines[i] != Run(START, events).lines[j]
  {
    RunKeeps(START, events);
  }

  /** A line goes out only for a caller whose entry is filed, or already answered: whoever
      reads the line and responds finds the waiter. */
  lemma RegisteredBeforeSent(events: seq<Event>, c: nat)
    requires Legal(START, events) && Enabled(Run(START, events), Send(c))
    ensures var w := Run(START, events);
            && w.calls[c].id !in w.lines
            && (w.calls[c].id in w.pending || c in w.handed || w.calls[c].channel.Some?)
            && (w.calls[c].id in w.pending ==> w.pending[w.calls[c].id] == c)
  {
    RunKeeps(START, events);
  }

  /** Entries belong to callers that are still out: once every caller has its answer or has
      forgotten its request, nothing lingers. Only an abandoned wait can leave an entry. */
  lemma NothingLingers(events: seq<Event>)
    requires Legal(START, events)
    requires forall c | c in Run(START, events).calls ::
               Run(START, events).calls[c].stage.Answered? || Run(START, events).calls[c].stage == Forgotten
    ensures Run(START, events).pending == map[]
  {
    RunKeeps(START, events);
    var w := Run(START, events);
    forall id ensures id !in w.pending {
      assert id in w.pending ==> Filed(w, id, w.pending[id]);
    }
  }

  // ----- which response a waiter gets

  /** The reply that has been taken for `c`, wherever it is by now. */
  ghost function Held(w: Wire, c: nat): Option<Reply>
    requires c in w.calls
  {
    if w.calls[c].stage.Answered? then Some(w.calls[c].stage.reply)
    else if w.calls[c].channel.Some? then w.calls[c].channel
    else if c in w.handed then Some(w.handed[c])
    else None
  }

  ghost predicate Deserted(stage: Stage) {
    stage == Expired || stage == Forgotten || stage == Abandoned
  }

  ghost function FirstReply(events: seq<Event>, id: int): Option<Reply>
    decreases |events|
  {
    if events == [] then None
    else if events[0].Respond? && events[0].id == id then Some(events[0].reply)
    else FirstReply(events[1..], id)
  }

  /** Off the books: past registration, with no entry. */
  ghost predicate Settled(w: Wire, c: nat) {
    c in w.calls && w.calls[c].stage != Minted && w.calls[c].id !in w.pending
  }

  lemma SettledStep(w: Wire, e: Event, c: nat)
    requires Inv(w) && Enabled(w, e) && Settled(w, c)
    ensures Settled(Apply(w, e), c) && Apply(w, e).calls[c].id == w.calls[c].id
    ensures Held(Apply(w, e), c) == Held(w, c)
            || (Held(Apply(w, e), c).None? && Deserted(Apply(w, e).calls[c].stage))
    ensures Deserted(w.calls[c].stage) ==> Deserted(Apply(w, e).calls[c].stage)
  {
  }

  lemma {:induction false} SettledStays(w: Wire, events: seq<Event>, c: nat)
    requires Inv(w) && Legal(w, events) && Settled(w, c)
    ensures Settled(Run(w, events), c)
    ensures Held(Run(w, events), c) == Held(w, c)
            || (Held(Run(w, events), c).None? && Deserted(Run(w, events).calls[c].stage))
    ensures Deserted(w.calls[c].stage) ==> Deserted(Run(w, events).calls[c].stage)
    decreases |events|
  {
    if events != [] {
      StepKeeps(w, events[0]);
      SettledStep(w, events[0], c);
      SettledStays(Apply(w, events[0]), events[1..], c);
    }
  }

  lemma FiledStep(w: Wire, e: Event, c: nat)
    requires Inv(w) && Enabled(w, e)
    requires c in w.calls && w.calls[c].id in w.pending && w.pending[w.calls[c].id] == c
    ensures c in Apply(w, e).calls && Apply(w, e).calls[c].id == w.calls[c].id
    ensures e.Respond? && e.id == w.calls[c].id ==> Settled(Apply(w, e), c) && Held(Apply(w, e), c) == Some(e.reply)
    ensures e == Forget(c) ==>
              && Settled(Apply(w, e), c) && Held(Apply(w, e), c).None? && Deserted(Apply(w, e).calls[c].stage)
    ensures !(e.Respond? && e.id == w.calls[c].id) && e != Forget(c) ==>
              w.calls[c].id in Apply(w, e).pending && Apply(w, e).pending[w.calls[c].id] == c
  {
    assert Filed(w, w.calls[c].id, c);
  }

  /** From registration on, whatever interleaves: a waiter is completed only by the first
      response that bears its id, never by a later one or one for another id; and unless it
      has timed out or been abandoned, that first response does complete it. */
  lemma {:induction false} WaiterGetsTheFirstReply(w: Wire, events: seq<Event>, c: nat)
    requires Inv(w) && Legal(w, events)
    requires c in w.calls && w.calls[c].id in w.pending && w.pending[w.calls[c].id] == c
    ensures c in Run(w, events).calls
    ensures var w' := Run(w, events); var first := FirstReply(events, w.calls[c].id);
            && (Held(w', c).Some? ==> Held(w', c) == first)
            && (!Deserted(w'.calls[c].stage) ==> Held(w', c) == first)
    decreases |events|
  {
    if events == [] {
      assert Filed(w, w.calls[c].id, c);
    } else {
      var e, w1 := events[0], Apply(w, events[0]);
      StepKeeps(w, e);
      FiledStep(w, e, c);
      if (e.Respond? && e.id == w.calls[c].id) || e == Forget(c) {
        SettledStays(w1, events[1..], c);
      } else {
        WaiterGetsTheFirstReply(w1, events[1..], c);
      }
    }
  }

  /** A request that timed out never comes back: no entry, no reply, in any continuation. */
  lemma TimedOutStaysForgotten(before: seq<Event>, after: seq<Event>, c: nat)
    requires Legal(START, before) && Enabled(Run(START, before), Forget(c))
    requires Legal(Apply(Run(START, before), Forget(c)), after)
    ensures var w := Run(Apply(Run(START, before), Forget(c)), after);
            && Settled(w, c) && Deserted(w.calls[c].stage) && !w.calls[c].stage.Answered?
  {
    RunKeeps(START, before);
    var w := Run(START, before);
    StepKeeps(w, Forget(c));
    SettledStays(Apply(w, Forget(c)), after, c);
  }

  lemma RunOfOne(w: Wire, e: Event)
    requires Enabled(w, e)
    ensures Legal(w, [e]) && Run(w, [e]) == Apply(w, e)
  {
    assert [e][1..] == [];
  }

  lemma RunOfMore(w: Wire, e: Event, rest: seq<Event>)
    requires Enabled(w, e) && Legal(Apply(w, e), rest)
    ensures Legal(w, [e] + rest) && Run(w, [e] + rest) == Run(Apply(w, e), rest)
  {
    assert ([e] + rest)[1..] == rest;
  }

  lemma RunOfThree(w: Wire, a: Event, b: Event, c: Event)
    requires Enabled(w, a) && Enabled(Apply(w, a), b) && Enabled(Apply(Apply(w, a), b), c)
    ensures Legal(w, [a, b, c]) && Run(w, [a, b, c]) == Apply(Apply(Apply(w, a), b), c)
  {
    var w1 := Apply(w, a);
    RunOfOne(Apply(w1, b), c);
    RunOfMore(w1, b, [c]);
    RunOfMore(w, a, [b, c]);
    assert [b] + [c] == [b, c];
    assert [a] + [b, c] == [a, b, c];
  }

  /** Waiting without end needs a client that never answers: a waiter left without a reply
      has an entry under its id, and a response with that id reaches it in three steps. */
  lemma WaiterIsAlwaysReachable(events: seq<Event>, c: nat, reply: Reply)
    requires Legal(START, events)
    requires At(Run(START, events), c, Waiting) && Held(Run(START, events), c).None?
    ensures var w := Run(START, events);
            var answer := [Respond(w.calls[c].id, reply), Complete(c), Receive(c)];
            Legal(w, answer) && At(Run(w, answer), c, Answered(reply))
  {
    RunKeeps(START, events);
    var w := Run(START, events);
    var id := w.calls[c].id;
    assert Filed(w, id, w.pending[id]);
    assert w.pending[id] == c;
    var w1 := Apply(w, Respond(id, reply));
    var w2 := Apply(w1, Complete(c));
    assert w1.handed[c] == reply && Enabled(w1, Complete(c));
    assert w2.calls[c].channel == Some(reply) && Enabled(w2, Receive(c));
    RunOfThree(w, Respond(id, reply), Complete(c), Receive(c));
  }

  // ----- the connection object

  ghost predicate Reached(w: Wire) {
    exists events :: Legal(START, events) && Run(START, events) == w
  }

  lemma {:induction false} RunAppend(w: Wire, a: seq<Event>, b: seq<Event>)
    requires Legal(w, a) && Legal(Run(w, a), b)
    ensures Legal(w, a + b) && Run(w, a + b) == Run(Run(w, a), b)
    decreases |a|
  {
    if a == [] {
      assert a + b == b;
    } else {
      RunAppend(Apply(w, a[0]), a[1..], b);
      RunOfMore(w, a[0], a[1..] + b);
      assert [a[0]] + (a[1..] + b) == a + b;
    }
  }

  lemma StillReached(w: Wire, more: seq<Event>)
    requires Reached(w) && Legal(w, more)
    ensures Reached(Run(w, more))
  {
    var events :| Legal(START, events) && Run(START, events) == w;
    RunAppend(START, events, more);
  }

  /** What the three steps of one request add up to when nothing comes between. */
  function Requested(w: Wire, c: nat): Wire {
    Wire(w.nextId + 1, w.pending[w.nextId := c], w.calls[c := Call(w.nextId, Waiting, None)], w.handed, w.lines + [w.nextId])
  }

  lemma RequestAddsUp(w: Wire, c: nat)
    requires c !in w.calls
    ensures var steps := [Mint(c), Register(c), Send(c)]; Legal(w, steps) && Run(w, steps) == Requested(w, c)
  {
    RunOfThree(w, Mint(c), Register(c), Send(c));
  }

  lemma RequestReaches(w: Wire, c: nat)
    requires Reached(w) && c !in w.calls
    ensures Reached(Requested(w, c))
  {
    RequestAddsUp(w, c);
    StillReached(w, [Mint(c), Register(c), Send(c)]);
  }

  /** What routing a response adds up to: the entry goes, and a listener is told. */
  function Delivered(w: Wire, id: int, reply: Reply): Wire
    requires id in w.pending && w.pending[id] in w.calls
  {
    var c := w.pending[id];
    var call := w.calls[c];
    w.(pending := w.pending - {id},
       calls := w.calls[c := if Listening(call.stage) then call.(channel := Some(reply)) else call])
  }

  lemma EntryFacts(w: Wire, id: int)
    requires Reached(w) && id in w.pending
    ensures Filed(w, id, w.pending[id])
    ensures forall other | other in w.pending && other != id :: w.pending[other] != w.pending[id]
  {
    var events :| Legal(START, events) && Run(START, events) == w;
    RunKeeps(START, events);
    forall other | other in w.pending ensures Filed(w, other, w.pending[other]) {
    }
  }

  lemma DeliveryAddsUp(w: Wire, id: int, reply: Reply)
    requires Reached(w) && w.handed == map[] && id in w.pending
    ensures Filed(w, id, w.pending[id])
    ensures var steps := [Respond(id, reply), Complete(w.pending[id])];
            Legal(w, steps) && Run(w, steps) == Delivered(w, id, reply)
  {
    EntryFacts(w, id);
    var c := w.pending[id];
    var w1 := Apply(w, Respond(id, reply));
    RunOfOne(w1, Complete(c));
    RunOfMore(w, Respond(id, reply), [Complete(c)]);
    assert [Respond(id, reply)] + [Complete(c)] == [Respond(id, reply), Complete(c)];
    var w2 := Apply(w1, Complete(c));
    assert w2.handed == map[];
    assert w2.calls == Delivered(w, id, reply).calls;
  }

  lemma DeliveryReaches(w: Wire, id: int, reply: Reply)
    requires Reached(w) && w.handed == map[] && id in w.pending
    ensures Filed(w, id, w.pending[id])
    ensures forall other | other in w.pending && other != id :: w.pending[other] != w.pending[id]
    ensures Reached(Delivered(w, id, reply))
  {
    EntryFacts(w, id);
    DeliveryAddsUp(w, id, reply);
    StillReached(w, [Respond(id, reply), Complete(w.pending[id])]);
  }

  lemma ForgettingReaches(w: Wire, c: nat)
    requires Reached(w) && At(w, c, Expired)
    ensures Reached(Apply(w, Forget(c)))
  {
    RunOfOne(w, Forget(c));
    StillReached(w, [Forget(c)]);
  }

  /** One caller's end of the line: open until the caller drops its receiver. */
  class OneShot {
    var reply: Option<Reply>
    var open: bool

    constructor ()
      ensures reply.None? && open
    {
      reply, open := None, true;
    }
  }

  /** Each entry's sender belongs to the caller the wire files under that id. */
  ghost predicate Wired(pending: map<int, OneShot>, w: Wire, ends: map<nat, OneShot>) {
    && pending.Keys == w.pending.Keys
    && ends.Keys == w.calls.Keys
    && (forall id | id in pending :: w.pending[id] in ends && pending[id] == ends[w.pending[id]])
    && (forall a, b | a in ends && b in ends && a != b :: ends[a] != ends[b])
  }

  lemma DeliveryStaysWired(pending: map<int, OneShot>, w: Wire, ends: map<nat, OneShot>, id: int, reply: Reply)
    requires Reached(w) && w.handed == map[] && Wired(pending, w, ends) && id in pending
    ensures Filed(w, id, w.pending[id]) && pending[id] == ends[w.pending[id]]
    ensures Wired(pending - {id}, Delivered(w, id, reply), ends)
    ensures Reached(Delivered(w, id, reply))
  {
    DeliveryReaches(w, id, reply);
  }

  lemma ForgettingStaysWired(pending: map<int, OneShot>, w: Wire, ends: map<nat, OneShot>, c: nat)
    requires Reached(w) && Wired(pending, w, ends) && At(w, c, Expired)
    ensures Wired(pending - {w.calls[c].id}, Apply(w, Forget(c)), ends)
    ensures Reached(Apply(w, Forget(c)))
  {
    ForgettingReaches(w, c);
  }

  /** The sending half of the connection, with the abstract wire it stands for. */
  class Connection {
    var pending: map<int, OneShot>
    var nextRequestId: int
    var sent: seq<int>
    ghost var wire: Wire
    ghost var ends: map<nat, OneShot>

    ghost predicate Valid()
      reads this, ends.Values
    {
      && Reached(wire)
      && nextRequestId == wire.nextId && sent == wire.lines && wire.handed == map[]
      && Wired(pending, wire, ends)
      && (forall c | c in ends :: ends[c].reply == wire.calls[c].channel)
      && (forall c | c in ends :: ends[c].open <==> (wire.calls[c].stage == Minted || Listening(wire.calls[c].stage)))
    }

    constructor ()
      ensures Valid() && wire == START && ends == map[]
    {
      pending, nextRequestId, sent := map[], 1, [];
      wire, ends := START, map[];
      new;
      assert Legal(START, []) && Run(START, []) == START;
    }

    /** `request`: mint, file, then send. */
    method Request(ghost caller: nat) returns (id: int, receiver: OneShot)
      requires Valid() && caller !in wire.calls
      modifies this
      ensures Valid() && fresh(receiver) && ends == old(ends)[caller := receiver]
      ensures wire == Requested(old(wire), caller)
      ensures id == old(nextRequestId) && sent == old(sent) + [id]
      ensures pending == old(pending)[id := receiver]
    {
      id := nextRequestId;
      nextRequestId := nextRequestId + 1;
      receiver := new OneShot();
      pending := pending[id := receiver];
      sent := sent + [id];
      RequestReaches(wire, caller);
      ends := ends[caller := receiver];
      wire := Requested(wire, caller);
    }

    /** `deliver_response`, run to completion: only an integer id with an entry is routed,
        and a missing result counts as null. */
    method DeliverResponse(id: Option<int>, result: Option<string>, error: Option<(int, string)>)
      requires Valid()
      modifies this, pending.Values
      ensures Valid() && ends == old(ends) && sent == old(sent)
      ensures id.None? || id.value !in old(pending) ==> wire == old(wire) && pending == old(pending)
      ensures id.Some? && id.value in old(pending) ==>
                var reply := if error.Some? then Failure(error.value.0, error.value.1) else Result(result);
                && pending == old(pending) - {id.value}
                && old(wire).pending[id.value] in old(wire).calls
                && wire == Delivered(old(wire), id.value, reply)
    {
      if id.None? || id.value !in pending {
        return;
      }
      var sender := pending[id.value];
      pending := pending - {id.value};
      var reply := if error.Some? then Failure(error.value.0, error.value.1) else Result(result);
      DeliveryStaysWired(old(pending), wire, ends, id.value, reply);
      if sender.open {
        sender.reply := Some(reply);
      }
      wire := Delivered(wire, id.value, reply);
    }

    /** `forget_request`, called by the caller whose wait timed out. */
    method ForgetRequest(id: int, ghost caller: nat)
      requires Valid() && At(wire, caller, Expired) && wire.calls[caller].id == id
      modifies this
      ensures Valid() && wire == Apply(old(wire), Forget(caller)) && ends == old(ends)
      ensures pending == old(pending) - {id}
    {
      pending := pending - {id};
      ForgettingStaysWired(old(pending), wire, ends, caller);
      wire := Apply(wire, Forget(caller));
    }
  }
}
