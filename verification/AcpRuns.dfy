/**
 The run slot of an ACP session: a run counter and the cancellation token of the prompt
 now streaming. Prompts, cancels, closes and finishing runs meet here in any order.
 A cancel or close takes the token under the session lock and fires it afterwards, so
 the two are separate steps.
 */
module AcpRuns {
  import opened Wrappers

  /** Runs are named by their number; so are their tokens. `live` runs have started and
      not reached `clear_pending`; `taken` tokens are in the hand of a cancel about to fire. */
  datatype Slot = Slot(runSeq: nat, pending: Option<nat>, live: set<nat>, cancelled: set<nat>, taken: set<nat>)

  datatype Event =
    | Start
    | Take
    | Fire(token: nat)
    | Finish(run: nat)

  const EMPTY := Slot(0, None, {}, {}, {})

  predicate Enabled(s: Slot, e: Event) {
    match e
    case Fire(token) => token in s.taken
    case Finish(run) => run in s.live
    case _ => true
  }

  function ToSet(o: Option<nat>): set<nat> {
    if o.Some? then {o.value} else {}
  }

  function Apply(s: Slot, e: Event): Slot {
    match e
    case Start =>
      Slot(s.runSeq + 1, Some(s.runSeq + 1), s.live + {s.runSeq + 1}, s.cancelled + ToSet(s.pending), s.taken)
    case Take => s.(pending := None, taken := s.taken + ToSet(s.pending))
    case Fire(token) => s.(taken := s.taken - {token}, cancelled := s.cancelled + {token})
    case Finish(run) => s.(live := s.live - {run}, pending := if s.pending == Some(run) then None else s.pending)
  }

  ghost predicate Legal(s: Slot, events: seq<Event>)
    decreases |events|
  {
    events == [] || (Enabled(s, events[0]) && Legal(Apply(s, events[0]), events[1..]))
  }

  ghost function Run(s: Slot, events: seq<Event>): Slot
    decreases |events|
  {
    if events == [] then s else Run(Apply(s, events[0]), events[1..])
  }

  /** A live run can still be stopped: it is cancelled already, about to be, or in the slot.
      The slot holds the newest run, live and neither cancelled nor taken. */
  ghost predicate Inv(s: Slot) {
    && (forall r | r in s.live :: 0 < r <= s.runSeq && (r in s.cancelled || r in s.taken || s.pending == Some(r)))
    && (forall r | r in s.cancelled || r in s.taken :: r <= s.runSeq)
    && (s.pending.Some? ==>
          && s.pending.value == s.runSeq && s.runSeq in s.live
          && s.runSeq !in s.cancelled && s.runSeq !in s.taken)
  }

  lemma StepKeeps(s: Slot, e: Event)
    requires Inv(s) && Enabled(s, e)
    ensures Inv(Apply(s, e))
  {
  }

  /** Over every run the invariant stays, and run numbers only grow: a later start is
      numbered above everything before it. */
  lemma {:induction false} RunKeeps(s: Slot, events: seq<Event>)
    requires Inv(s) && Legal(s, events)
    ensures Inv(Run(s, events)) && s.runSeq <= Run(s, events).runSeq < Apply(Run(s, events), Start).runSeq
    decreases |events|
  {
    if events != [] {
      StepKeeps(s, events[0]);
      RunKeeps(Apply(s, events[0]), events[1..]);
    }
  }

  /** In every interleaving at most one live run escapes cancellation, and it is the newest;
      it is then the one in the slot. */
  lemma OnlyTheNewestRunIsUncancelled(events: seq<Event>, run: nat)
    requires Legal(EMPTY, events)
    requires var s := Run(EMPTY, events); run in s.live && run !in s.cancelled && run !in s.taken
    ensures run == Run(EMPTY, events).runSeq && Run(EMPTY, events).pending == Some(run)
  {
    RunKeeps(EMPTY, events);
  }

  /** A run that finishes clears the slot only if the slot is its own, whatever started since. */
  lemma FinishingSparesNewerRuns(events: seq<Event>, run: nat)
    requires Legal(EMPTY, events)
    requires var s := Run(EMPTY, events); run in s.live && run < s.runSeq
    ensures var s := Run(EMPTY, events); Apply(s, Finish(run)).pending == s.pending
  {
    RunKeeps(EMPTY, events);
  }

  /** What was begun by the time of a cancel. */
  ghost predicate Doomed(s: Slot, last: nat) {
    forall r | r in s.live && r <= last :: r in s.cancelled || r in s.taken
  }

  lemma {:induction false} DoomedStays(s: Slot, events: seq<Event>, last: nat)
    requires Inv(s) && Legal(s, events) && Doomed(s, last) && last <= s.runSeq
    ensures Doomed(Run(s, events), last)
    decreases |events|
  {
    if events != [] {
      StepKeeps(s, events[0]);
      assert Doomed(Apply(s, events[0]), last);
      DoomedStays(Apply(s, events[0]), events[1..], last);
    }
  }

  /** A cancel or a close reaches every run that had started: from the moment it takes the
      token on, whatever happens in between, once all tokens taken have been fired none of
      those runs is live and uncancelled. */
  lemma CancelReachesEveryStartedRun(before: seq<Event>, after: seq<Event>, run: nat)
    requires Legal(EMPTY, before)
    requires Legal(Apply(Run(EMPTY, before), Take), after)
    requires var s := Run(Apply(Run(EMPTY, before), Take), after);
             s.taken == {} && run in s.live && run <= Run(EMPTY, before).runSeq
    ensures run in Run(Apply(Run(EMPTY, before), Take), after).cancelled
  {
    RunKeeps(EMPTY, before);
    var s := Run(EMPTY, before);
    StepKeeps(s, Take);
    DoomedStays(Apply(s, Take), after, s.runSeq);
  }

  // ----- the objects

  class CancellationToken {
    var cancelled: bool

    constructor ()
      ensures !cancelled
    {
      cancelled := false;
    }
  }

  /** The session's two fields, with what they stand for. */
  class Session {
    var runSeq: nat
    var pending: Option<(nat, CancellationToken)>
    ghost var slot: Slot
    ghost var tokens: map<nat, CancellationToken>

    ghost predicate Valid()
      reads this, tokens.Values
    {
      && Inv(slot)
      && runSeq == slot.runSeq
      && (pending.Some? <==> slot.pending.Some?)
      && (pending.Some? ==> pending.value.0 == slot.pending.value && runSeq in tokens && tokens[runSeq] == pending.value.1)
      && (forall r | r in tokens :: 0 < r <= runSeq && (tokens[r].cancelled <==> r in slot.cancelled))
      && (forall r, q | r in tokens && q in tokens && r != q :: tokens[r] != tokens[q])
      && (forall r | r in slot.live || r in slot.taken :: r in tokens)
      && (forall r | r in slot.taken :: 0 < r)
    }

    constructor ()
      ensures Valid() && slot == EMPTY && tokens == map[]
    {
      runSeq, pending := 0, None;
      slot, tokens := EMPTY, map[];
    }

    /** `handle_prompt` takes the slot: the run before it is cancelled, under the lock. */
    method BeginRun() returns (run: nat, token: CancellationToken)
      requires Valid()
      modifies this, tokens.Values
      ensures Valid() && slot == Apply(old(slot), Start)
      ensures run == old(runSeq) + 1 && fresh(token) && tokens == old(tokens)[run := token]
    {
      token := new CancellationToken();
      if pending.Some? {
        assert tokens[runSeq] in tokens.Values;
        pending.value.1.cancelled := true;
      }
      runSeq := runSeq + 1;
      pending := Some((runSeq, token));
      slot := Apply(slot, Start);
      tokens := tokens[runSeq := token];
      run := runSeq;
    }

    /** The first half of `session/cancel` and `session/close`. */
    method TakePending() returns (token: Option<CancellationToken>)
      requires Valid()
      modifies this
      ensures Valid() && slot == Apply(old(slot), Take) && tokens == old(tokens)
      ensures token.Some? <==> old(slot).pending.Some?
      ensures token.Some? ==> old(slot).runSeq in tokens && tokens[old(slot).runSeq] == token.value
    {
      token := if pending.Some? then Some(pending.value.1) else None;
      pending := None;
      slot := Apply(slot, Take);
    }

    /** The second half: the token fires, whatever has happened to the slot meanwhile. */
    method FireToken(ghost run: nat, token: CancellationToken)
      requires Valid() && run in slot.taken && tokens[run] == token
      modifies this, token
      ensures Valid() && slot == Apply(old(slot), Fire(run)) && tokens == old(tokens)
    {
      token.cancelled := true;
      slot := Apply(slot, Fire(run));
    }

    /** `clear_pending`: a run that is over empties the slot only if it is its own. */
    method ClearPending(run: nat)
      requires Valid() && run in slot.live
      modifies this
      ensures Valid() && slot == Apply(old(slot), Finish(run)) && tokens == old(tokens)
    {
      if pending.Some? && pending.value.0 == run {
        pending := None;
      }
      slot := Apply(slot, Finish(run));
    }
  }
}
