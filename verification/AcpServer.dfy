/**
 The request side of the ACP server: every message runs as a task of its own, so handlers
 interleave freely; a prompt goes through several locked stretches before it replies.
 */
module AcpServer {
  import opened Wrappers
  import opened Text
  import P = Providers
  import opened Selection

  datatype Id = Null | Given(value: string)

  datatype Value = Str(text: string) | NotStr

  /** Methods with their parameters; `BadParams` is any session method, or a model
      switch, whose parameters do not parse. */
  datatype Method =
    | Initialize
    | Authenticate
    | Logout
    | NewSession(uuid: string)
    | LoadSession(session: Option<string>)
    | Prompt(session: Option<string>, prompt: string)
    | Cancel(session: Option<string>)
    | SetConfigOption(session: Option<string>, config: Option<string>, value: Option<Value>)
    | SetMode(session: Option<string>, mode: Option<string>)
    | SetModel(session: Option<string>, model: Option<string>)
    | Close(session: Option<string>)
    | BadParams
    | Unknown(name: string)

  /** What a line can be: not a message at all, a response to a request of ours, a message
      with neither id nor method, or a call (a notification when its id is null). */
  datatype Message =
    | Unparsable(id: Id)
    | ClientResponse(id: Id)
    | Ignored
    | Call(id: Id, action: Method)

  datatype Body = Success | Error(code: int)

  const PARSE_ERROR := -32700
  const METHOD_NOT_FOUND := -32601
  const INVALID_PARAMS := -32602
  const AGENT_FAILED := -32000

  datatype SessionState = SessionState(selected: Selected, mode: string)

  datatype Phase =
    | Queued
    | Accepted(session: string)
    | Slotted(session: string)
    | Running(session: string, on: Selected)
    | Stuck(session: string)
    | Done

  datatype Task = Task(message: Message, phase: Phase)

  datatype Line = Line(task: nat, id: Id, body: Body)

  /** `objects` outlive their place in `listed`: a prompt keeps its session alive. */
  datatype Registry = Registry(objects: map<string, SessionState>, listed: set<string>)

  /** `held` are sessions whose lock is never released again. */
  datatype Server = Server(registry: Registry, held: set<string>, tasks: map<nat, Task>, log: seq<Line>)

  /** What stays fixed while the server runs. */
  datatype World = World(
    builtins: seq<P.Provider>,
    config: P.AppConfig,
    comboNames: seq<string>,
    all: seq<P.Provider>,
    start: Selected)

  const NO_SESSIONS := Registry(map[], {})
  const EMPTY := Server(NO_SESSIONS, {}, map[], [])

  predicate Runs(w: World, s: Selected) {
    EffectiveSelection(w.builtins, w.config, s).Ok?
  }

  /** The server does not come up unless its default selection resolves. */
  ghost predicate Up(w: World) {
    && P.WellBuilt(w.builtins) && P.ListsCombos(w.builtins, w.config, w.comboNames)
    && P.Lists(w.builtins, w.config, w.comboNames, w.all)
    && Runs(w, w.start)
  }

  // ----- one handler at a time

  /** What a handler leaves: the sessions, its replies, and the session of a prompt that
      goes on running. */
  datatype Handled = Handled(registry: Registry, replies: seq<Body>, accepted: Option<string>)

  function Refused(r: Registry, code: int): Handled {
    Handled(r, [Error(code)], None)
  }

  function Updated(r: Registry, session: string, state: SessionState): Handled {
    Handled(r.(objects := r.objects[session := state]), [Success], None)
  }

  predicate IsMode(mode: string) {
    mode == "auto" || mode == "readonly"
  }

  function SetOption(w: World, r: Registry, session: string, config: string, value: Value): Handled
    requires session in r.objects
  {
    var state := r.objects[session];
    if config == "mode" then
      if value.Str? && IsMode(value.text) then Updated(r, session, state.(mode := value.text))
      else Refused(r, INVALID_PARAMS)
    else if config == "provider" then
      if value.NotStr? then Refused(r, INVALID_PARAMS)
      else
        (match DefaultModel(w.all, value.text)
         case Ok(m) => Updated(r, session, state.(selected := Selected(value.text, m)))
         case Err(_) => Refused(r, INVALID_PARAMS))
    else if config == "model" then
      if value.NotStr? then Refused(r, INVALID_PARAMS)
      else
        (match ResolveSelection(w.all, value.text)
         case Ok(sel) => Updated(r, session, state.(selected := sel))
         case Err(_) => Refused(r, INVALID_PARAMS))
    else Refused(r, INVALID_PARAMS)
  }

  function SwitchModel(w: World, r: Registry, session: string, model: string): Handled
    requires session in r.objects
  {
    match ResolveSelection(w.all, model)
    case Ok(sel) => Updated(r, session, r.objects[session].(selected := sel))
    case Err(_) => Refused(r, INVALID_PARAMS)
  }

  const INTERVIEW := "/interview"

  /** Any prompt that begins with the command counts as one; without a target it is refused. */
  predicate LacksTarget(prompt: string) {
    && StartsWith(prompt, INTERVIEW)
    && !(StartsWith(prompt, INTERVIEW + " ") && Trim(prompt[|INTERVIEW| + 1..]) != "")
  }

  predicate IsLive(r: Registry, session: Option<string>) {
    session.Some? && session.value in r.listed && session.value in r.objects
  }

  function HandleMethod(w: World, r: Registry, id: Id, action: Method): Handled {
    match action
    case Initialize => Handled(r, [Success], None)
    case Authenticate => Handled(r, [Success], None)
    case Logout => Handled(r, [Success], None)
    case NewSession(uuid) =>
      Handled(Registry(r.objects[uuid := SessionState(w.start, "auto")], r.listed + {uuid}), [Success], None)
    case LoadSession(session) =>
      if IsLive(r, session) then Handled(r, [Success], None) else Refused(r, INVALID_PARAMS)
    case Prompt(session, prompt) =>
      if !IsLive(r, session) || prompt == "" || LacksTarget(prompt) then Refused(r, INVALID_PARAMS)
      else Handled(r, [], session)
    case Cancel(session) =>
      Handled(r, if id == Null then [] else [Success], None)
    case SetConfigOption(session, config, value) =>
      if config.None? || value.None? || !IsLive(r, session) then Refused(r, INVALID_PARAMS)
      else SetOption(w, r, session.value, config.value, value.value)
    case SetMode(session, mode) =>
      if mode.None? || !IsLive(r, session) || !IsMode(mode.value) then Refused(r, INVALID_PARAMS)
      else Updated(r, session.value, r.objects[session.value].(mode := mode.value))
    case SetModel(session, model) =>
      if model.None? || !IsLive(r, session) then Refused(r, INVALID_PARAMS)
      else SwitchModel(w, r, session.value, model.value)
    case Close(session) =>
      Handled(if session.Some? then r.(listed := r.listed - {session.value}) else r, [Success], None)
    case BadParams => Refused(r, INVALID_PARAMS)
    case Unknown(_) =>
      if id == Null then Handled(r, [], None) else Refused(r, METHOD_NOT_FOUND)
  }

  function HandleMessage(w: World, r: Registry, m: Message): Handled {
    match m
    case Unparsable(_) => Refused(r, PARSE_ERROR)
    case ClientResponse(_) => Handled(r, [], None)
    case Ignored => Handled(r, [], None)
    case Call(id, action) => HandleMethod(w, r, id, action)
  }

  /** The session a handler locks. Several refuse before they come to it: without the session,
      without a parameter, or, for a mode, with one that does not exist. */
  function Locks(r: Registry, m: Message): Option<string> {
    if !m.Call? then None
    else
      match m.action
      case LoadSession(session) => IfLive(r, session)
      case Cancel(session) => IfLive(r, session)
      case SetConfigOption(session, config, value) => if config.None? || value.None? then None else IfLive(r, session)
      case SetMode(session, mode) => if mode.None? || !IsMode(mode.value) then None else IfLive(r, session)
      case SetModel(session, model) => if model.None? then None else IfLive(r, session)
      case Close(session) => IfLive(r, session)
      case _ => None
  }

  function IfLive(r: Registry, session: Option<string>): Option<string> {
    if IsLive(r, session) then session else None
  }

  // ----- steps

  datatype Terminal = Completed | Failed

  datatype Event =
    | Arrive(task: nat, message: Message)
    | Handle(task: nat)
    | TakeSlot(task: nat)
    | Start(task: nat, built: bool)
    | Finish(task: nat, terminal: Option<Terminal>, cancelled: bool)

  predicate Free(s: Server, session: Option<string>) {
    session.None? || session.value !in s.held
  }

  predicate Enabled(s: Server, e: Event) {
    match e
    case Arrive(t, m) => t !in s.tasks
    case Handle(t) =>
      && t in s.tasks && s.tasks[t].phase == Queued
      && Free(s, Locks(s.registry, s.tasks[t].message))
      && (s.tasks[t].message.Call? && s.tasks[t].message.action.NewSession? ==>
            s.tasks[t].message.action.uuid !in s.registry.objects)
    case TakeSlot(t) => t in s.tasks && s.tasks[t].phase.Accepted? && s.tasks[t].phase.session !in s.held
    case Start(t, _) =>
      && t in s.tasks && s.tasks[t].phase.Slotted?
      && s.tasks[t].phase.session !in s.held && s.tasks[t].phase.session in s.registry.objects
    case Finish(t, _, _) => t in s.tasks && s.tasks[t].phase.Running? && s.tasks[t].phase.session !in s.held
  }

  function Moved(s: Server, t: nat, phase: Phase): Server
    requires t in s.tasks
  {
    s.(tasks := s.tasks[t := s.tasks[t].(phase := phase)])
  }

  function IdOf(m: Message): Id {
    if m == Ignored then Null else m.id
  }

  function Said(t: nat, id: Id, replies: seq<Body>): (lines: seq<Line>)
    ensures |lines| == |replies|
    ensures forall i | 0 <= i < |lines| :: lines[i] == Line(t, id, replies[i])
  {
    seq(|replies|, i requires 0 <= i < |replies| => Line(t, id, replies[i]))
  }

  function Answered(s: Server, t: nat, body: Body): Server
    requires t in s.tasks
  {
    Moved(s, t, Done).(log := s.log + Said(t, IdOf(s.tasks[t].message), [body]))
  }

  /** How a run's end is reported: after a cancel, always as cancelled. */
  function Report(terminal: Option<Terminal>, cancelled: bool): Body {
    if terminal == Some(Failed) && !cancelled then Error(AGENT_FAILED) else Success
  }

  function Apply(w: World, s: Server, e: Event): Server
    requires Enabled(s, e)
  {
    match e
    case Arrive(t, m) => s.(tasks := s.tasks[t := Task(m, Queued)])
    case Handle(t) =>
      var task := s.tasks[t];
      var h := HandleMessage(w, s.registry, task.message);
      var phase := if h.accepted.Some? then Accepted(h.accepted.value) else Done;
      Server(h.registry, s.held, s.tasks[t := task.(phase := phase)],
             s.log + Said(t, IdOf(task.message), h.replies))
    case TakeSlot(t) => Moved(s, t, Slotted(s.tasks[t].phase.session))
    case Start(t, built) =>
      var session := s.tasks[t].phase.session;
      (match EffectiveSelection(w.builtins, w.config, s.registry.objects[session].selected)
       case Err(_) =>
         // the failure branch locks the session again while its lock is still held
         Moved(s, t, Stuck(session)).(held := s.held + {session})
       case Ok(on) => if built then Moved(s, t, Running(session, on)) else Answered(s, t, Error(AGENT_FAILED)))
    case Finish(t, terminal, cancelled) => Answered(s, t, Report(terminal, cancelled))
  }

  ghost predicate Legal(w: World, s: Server, events: seq<Event>)
    decreases |events|
  {
    events == [] || (Enabled(s, events[0]) && Legal(w, Apply(w, s, events[0]), events[1..]))
  }

  ghost function Run(w: World, s: Server, events: seq<Event>): Server
    requires Legal(w, s, events)
    decreases |events|
  {
    if events == [] then s else Run(w, Apply(w, s, events[0]), events[1..])
  }

  // ----- replies

  function LinesOf(log: seq<Line>, t: nat): (r: seq<Line>)
    ensures |r| <= |log|
  {
    if log == [] then []
    else LinesOf(log[..|log| - 1], t) + if log[|log| - 1].task == t then [log[|log| - 1]] else []
  }

  /** How many replies a message is due. Not what JSON-RPC 2.0 asks for in section 4.1: a
      notification of a known method other than `session/cancel` is answered too. */
  function Due(m: Message): nat {
    match m
    case Unparsable(_) => 1
    case ClientResponse(_) => 0
    case Ignored => 0
    case Call(id, action) => if id == Null && (action.Cancel? || action.Unknown?) then 0 else 1
  }

  ghost predicate Told(s: Server, t: nat) {
    var lines := LinesOf(s.log, t);
    if t !in s.tasks || s.tasks[t].phase != Done then lines == []
    else
      && |lines| == Due(s.tasks[t].message)
      && forall i | 0 <= i < |lines| :: lines[i].id == IdOf(s.tasks[t].message)
  }

  lemma HandledIsDue(w: World, r: Registry, m: Message)
    ensures var h := HandleMessage(w, r, m);
            |h.replies| == if h.accepted.Some? then 0 else Due(m)
  {
  }

  lemma LinesOfOneMore(log: seq<Line>, line: Line, t: nat)
    ensures LinesOf(log + [line], t) == LinesOf(log, t) + if line.task == t then [line] else []
  {
    assert (log + [line])[..|log|] == log;
  }

  lemma {:induction false} LinesOfAppend(log: seq<Line>, speaker: nat, more: seq<Line>, t: nat)
    requires forall i | 0 <= i < |more| :: more[i].task == speaker
    ensures LinesOf(log + more, t) == LinesOf(log, t) + if speaker == t then more else []
    decreases |more|
  {
    if more == [] {
      assert log + more == log;
    } else {
      var front, last := more[..|more| - 1], more[|more| - 1];
      LinesOfAppend(log, speaker, front, t);
      LinesOfOneMore(log + front, last, t);
      assert more == front + [last];
      assert log + more == (log + front) + [last];
    }
  }

  /** A task that is past the queue and not done is a prompt. */
  ghost predicate OnlyPrompts(s: Server) {
    forall t | t in s.tasks && s.tasks[t].phase != Queued && s.tasks[t].phase != Done ::
      s.tasks[t].message.Call? && s.tasks[t].message.action.Prompt?
  }

  /** One task moves on and says what it has to say. */
  ghost predicate Speaks(s: Server, s': Server, t: nat, replies: seq<Body>) {
    && t in s.tasks && s.tasks[t].phase != Done
    && t in s'.tasks && s'.tasks == s.tasks[t := s.tasks[t].(phase := s'.tasks[t].phase)]
    && s'.log == s.log + Said(t, IdOf(s.tasks[t].message), replies)
    && |replies| == if s'.tasks[t].phase == Done then Due(s.tasks[t].message) else 0
  }

  lemma SpeakingKeepsTold(s: Server, s': Server, speaker: nat, replies: seq<Body>, t: nat)
    requires Speaks(s, s', speaker, replies) && Told(s, t)
    ensures Told(s', t)
  {
    LinesOfAppend(s.log, speaker, Said(speaker, IdOf(s.tasks[speaker].message), replies), t);
  }

  lemma HandlingSpeaks(w: World, s: Server, t: nat)
    requires Enabled(s, Handle(t))
    ensures Speaks(s, Apply(w, s, Handle(t)), t, HandleMessage(w, s.registry, s.tasks[t].message).replies)
  {
    HandledIsDue(w, s.registry, s.tasks[t].message);
  }

  lemma PromptStepsSpeak(w: World, s: Server, e: Event) returns (t: nat, replies: seq<Body>)
    requires Enabled(s, e) && OnlyPrompts(s) && (e.TakeSlot? || e.Start? || e.Finish?)
    ensures Speaks(s, Apply(w, s, e), t, replies)
  {
    t := e.task;
    var s' := Apply(w, s, e);
    replies := if e.Finish? then [Report(e.terminal, e.cancelled)]
               else if s'.tasks[t].phase == Done then [Error(AGENT_FAILED)]
               else [];
    assert Said(t, IdOf(s.tasks[t].message), []) == [];
  }

  lemma TellingKept(w: World, s: Server, e: Event, t: nat)
    requires Enabled(s, e) && OnlyPrompts(s) && Told(s, t)
    ensures Told(Apply(w, s, e), t)
  {
    if e.Handle? {
      HandlingSpeaks(w, s, e.task);
      SpeakingKeepsTold(s, Apply(w, s, e), e.task, HandleMessage(w, s.registry, s.tasks[e.task].message).replies, t);
    } else if !e.Arrive? {
      var speaker, replies := PromptStepsSpeak(w, s, e);
      SpeakingKeepsTold(s, Apply(w, s, e), speaker, replies, t);
    }
  }

  lemma PromptsKept(w: World, s: Server, e: Event)
    requires Enabled(s, e) && OnlyPrompts(s)
    ensures OnlyPrompts(Apply(w, s, e))
  {
  }

  lemma {:induction false} RunTells(w: World, s: Server, events: seq<Event>, t: nat)
    requires Legal(w, s, events) && OnlyPrompts(s) && Told(s, t)
    ensures OnlyPrompts(Run(w, s, events)) && Told(Run(w, s, events), t)
    decreases |events|
  {
    if events != [] {
      PromptsKept(w, s, events[0]);
      TellingKept(w, s, events[0], t);
      RunTells(w, Apply(w, s, events[0]), events[1..], t);
    }
  }

  ghost predicate Reachable(w: World, s: Server) {
    exists events :: Legal(w, EMPTY, events) && Run(w, EMPTY, events) == s
  }

  lemma {:induction false} RunAppend(w: World, s: Server, events: seq<Event>, e: Event)
    requires Legal(w, s, events) && Enabled(Run(w, s, events), e)
    ensures Legal(w, s, events + [e]) && Run(w, s, events + [e]) == Apply(w, Run(w, s, events), e)
    decreases |events|
  {
    if events == [] {
      assert events + [e] == [e] && [e][1..] == [];
    } else {
      RunAppend(w, Apply(w, s, events[0]), events[1..], e);
      assert (events + [e])[1..] == events[1..] + [e];
    }
  }

  lemma StepReaches(w: World, s: Server, e: Event)
    requires Reachable(w, s) && Enabled(s, e)
    ensures Reachable(w, Apply(w, s, e))
  {
    var events :| Legal(w, EMPTY, events) && Run(w, EMPTY, events) == s;
    RunAppend(w, EMPTY, events, e);
  }

  /** However the tasks interleave: a task has said nothing until it is done, and then
      exactly what its message is due, under the id of that message. */
  lemma RepliesAreExact(w: World, s: Server, t: nat)
    requires Reachable(w, s) && t in s.tasks
    ensures var m := s.tasks[t].message; var lines := LinesOf(s.log, t);
            && |lines| == (if s.tasks[t].phase == Done then Due(m) else 0)
            && forall i | 0 <= i < |lines| :: lines[i].id == IdOf(m)
  {
    var events :| Legal(w, EMPTY, events) && Run(w, EMPTY, events) == s;
    assert LinesOf(EMPTY.log, t) == [];
    RunTells(w, EMPTY, events, t);
  }

  /** A call with an id: never two replies, and one exactly when its handler is done. */
  lemma EveryRequestIsAnsweredOnce(w: World, s: Server, t: nat)
    requires Reachable(w, s) && t in s.tasks && s.tasks[t].message.Call? && s.tasks[t].message.id != Null
    ensures |LinesOf(s.log, t)| <= 1
    ensures |LinesOf(s.log, t)| == 1 <==> s.tasks[t].phase == Done
  {
    RepliesAreExact(w, s, t);
  }

  /** A notification, once handled, goes unanswered exactly when it is a `session/cancel` that
      parses or names no known method. Section 4.1 of JSON-RPC 2.0 asks for no answer to any. */
  lemma NotificationUnansweredIff(w: World, s: Server, t: nat)
    requires Reachable(w, s) && t in s.tasks && s.tasks[t].phase == Done
    requires s.tasks[t].message.Call? && s.tasks[t].message.id == Null
    ensures LinesOf(s.log, t) == [] <==> s.tasks[t].message.action.Cancel? || s.tasks[t].message.action.Unknown?
  {
    RepliesAreExact(w, s, t);
  }

  /** An error reply means that nothing was changed: no session, no selection, no mode. */
  lemma RefusalChangesNothing(w: World, r: Registry, m: Message)
    requires var h := HandleMessage(w, r, m); h.replies != [] && h.replies[0].Error?
    ensures HandleMessage(w, r, m).registry == r
  {
  }

  /** The session a message is about. */
  function About(m: Message): Option<string> {
    if !m.Call? then None
    else
      match m.action
      case NewSession(uuid) => Some(uuid)
      case Prompt(session, _) => session
      case LoadSession(session) => session
      case Cancel(session) => session
      case SetConfigOption(session, _, _) => session
      case SetMode(session, _) => session
      case SetModel(session, _) => session
      case Close(session) => session
      case _ => None
  }

  /** A message leaves every session alone but the one it is about. */
  lemma OthersAreUntouched(w: World, r: Registry, m: Message, other: string)
    requires Some(other) != About(m)
    ensures var after := HandleMessage(w, r, m).registry;
            && (other in after.listed <==> other in r.listed)
            && (other in after.objects <==> other in r.objects)
            && (other in r.objects ==> after.objects[other] == r.objects[other])
  {
  }

  /** Sessions select the default or something on offer, in one of the two modes. */
  ghost predicate Sound(w: World, r: Registry) {
    forall id | id in r.objects ::
      && (r.objects[id].selected == w.start || Offers(w.all, r.objects[id].selected))
      && IsMode(r.objects[id].mode)
  }

  lemma SetOptionStaysSound(w: World, r: Registry, session: string, config: string, value: Value)
    requires Sound(w, r) && session in r.objects
    ensures Sound(w, SetOption(w, r, session, config, value).registry)
  {
    if config == "provider" && value.Str? && DefaultModel(w.all, value.text).Ok? {
      DefaultIsOffered(w.all, value.text);
    } else if config == "model" && value.Str? && ResolveSelection(w.all, value.text).Ok? {
      ResolvedIsOffered(w.all, value.text);
    }
  }

  lemma SwitchModelStaysSound(w: World, r: Registry, session: string, model: string)
    requires Sound(w, r) && session in r.objects
    ensures Sound(w, SwitchModel(w, r, session, model).registry)
  {
    ResolvedIsOffered(w.all, model);
  }

  lemma HandlingStaysSound(w: World, r: Registry, m: Message)
    requires Sound(w, r)
    ensures Sound(w, HandleMessage(w, r, m).registry)
  {
    if m.Call? && m.action.SetConfigOption? && IsLive(r, m.action.session) && m.action.config.Some? && m.action.value.Some? {
      SetOptionStaysSound(w, r, m.action.session.value, m.action.config.value, m.action.value.value);
    } else if m.Call? && m.action.SetModel? && IsLive(r, m.action.session) && m.action.model.Some? {
      SwitchModelStaysSound(w, r, m.action.session.value, m.action.model.value);
    }
  }

  lemma {:induction false} RunStaysSound(w: World, s: Server, events: seq<Event>)
    requires Legal(w, s, events) && Sound(w, s.registry)
    ensures Sound(w, Run(w, s, events).registry)
    decreases |events|
  {
    if events != [] {
      if events[0].Handle? {
        HandlingStaysSound(w, s.registry, s.tasks[events[0].task].message);
      }
      RunStaysSound(w, Apply(w, s, events[0]), events[1..]);
    }
  }

  lemma ReachableIsSound(w: World, s: Server)
    requires Reachable(w, s)
    ensures Sound(w, s.registry)
  {
    var events :| Legal(w, EMPTY, events) && Run(w, EMPTY, events) == s;
    RunStaysSound(w, EMPTY, events);
  }

  // ----- prompts that never reply

  /** Every selection a client can ask for can be run. */
  ghost predicate SelectableRuns(w: World) {
    && (forall text :: ResolveSelection(w.all, text).Ok? ==> Runs(w, ResolveSelection(w.all, text).value))
    && (forall name :: DefaultModel(w.all, name).Ok? ==> Runs(w, Selected(name, DefaultModel(w.all, name).value)))
  }

  ghost predicate Smooth(w: World, s: Server) {
    && s.held == {}
    && AllRun(w, s.registry)
    && (forall t | t in s.tasks ::
          match s.tasks[t].phase
          case Accepted(session) => session in s.registry.objects
          case Slotted(session) => session in s.registry.objects
          case Running(session, _) => session in s.registry.objects
          case Stuck(_) => false
          case _ => true)
  }

  ghost predicate AllRun(w: World, r: Registry) {
    forall id | id in r.objects :: Runs(w, r.objects[id].selected)
  }

  lemma SetOptionStaysSmooth(w: World, r: Registry, session: string, config: string, value: Value)
    requires SelectableRuns(w) && AllRun(w, r) && session in r.objects
    ensures var h := SetOption(w, r, session, config, value);
            AllRun(w, h.registry) && h.accepted == None && h.registry.objects.Keys == r.objects.Keys
  {
    if config == "provider" && value.Str? && DefaultModel(w.all, value.text).Ok? {
      assert Runs(w, Selected(value.text, DefaultModel(w.all, value.text).value));
    } else if config == "model" && value.Str? && ResolveSelection(w.all, value.text).Ok? {
      assert Runs(w, ResolveSelection(w.all, value.text).value);
    }
  }

  lemma SwitchModelStaysSmooth(w: World, r: Registry, session: string, model: string)
    requires SelectableRuns(w) && AllRun(w, r) && session in r.objects
    ensures var h := SwitchModel(w, r, session, model);
            AllRun(w, h.registry) && h.accepted == None && h.registry.objects.Keys == r.objects.Keys
  {
    if ResolveSelection(w.all, model).Ok? {
      assert Runs(w, ResolveSelection(w.all, model).value);
    }
  }

  lemma HandlingStaysSmooth(w: World, r: Registry, m: Message)
    requires Runs(w, w.start) && SelectableRuns(w) && AllRun(w, r)
    ensures var h := HandleMessage(w, r, m);
            && AllRun(w, h.registry) && r.objects.Keys <= h.registry.objects.Keys
            && (h.accepted.Some? ==> h.accepted.value in h.registry.objects)
  {
    if m.Call? && m.action.SetConfigOption? && IsLive(r, m.action.session) && m.action.config.Some? && m.action.value.Some? {
      SetOptionStaysSmooth(w, r, m.action.session.value, m.action.config.value, m.action.value.value);
    } else if m.Call? && m.action.SetModel? && IsLive(r, m.action.session) && m.action.model.Some? {
      SwitchModelStaysSmooth(w, r, m.action.session.value, m.action.model.value);
    }
  }

  lemma StepStaysSmooth(w: World, s: Server, e: Event)
    requires Runs(w, w.start) && SelectableRuns(w) && Smooth(w, s) && Enabled(s, e)
    ensures Smooth(w, Apply(w, s, e))
  {
    if e.Handle? {
      HandlingStaysSmooth(w, s.registry, s.tasks[e.task].message);
    }
  }

  lemma {:induction false} RunStaysSmooth(w: World, s: Server, events: seq<Event>)
    requires Runs(w, w.start) && SelectableRuns(w) && Smooth(w, s) && Legal(w, s, events)
    ensures Smooth(w, Run(w, s, events))
    decreases |events|
  {
    if events != [] {
      StepStaysSmooth(w, s, events[0]);
      RunStaysSmooth(w, Apply(w, s, events[0]), events[1..]);
    }
  }

  ghost predicate NobodyStuck(s: Server) {
    forall t | t in s.tasks :: !s.tasks[t].phase.Stuck?
  }

  function Rank(phase: Phase): nat {
    match phase
    case Queued => 0
    case Accepted(_) => 1
    case Slotted(_) => 2
    case Running(_, _) => 3
    case _ => 4
  }

  lemma ReachableIsSmooth(w: World, s: Server)
    requires Runs(w, w.start) && SelectableRuns(w) && Reachable(w, s)
    ensures Smooth(w, s)
  {
    var events :| Legal(w, EMPTY, events) && Run(w, EMPTY, events) == s;
    RunStaysSmooth(w, EMPTY, events);
  }

  /** Then no task waits for another: whatever state the server is in, each unfinished task
      has a step of its own that takes it closer to done, so it is done after four at most. */
  lemma EveryTaskCanAdvance(w: World, s: Server, t: nat) returns (e: Event)
    requires Runs(w, w.start) && SelectableRuns(w) && Reachable(w, s)
    requires t in s.tasks && s.tasks[t].phase != Done
    requires s.tasks[t].message.Call? && s.tasks[t].message.action.NewSession? ==>
               s.tasks[t].message.action.uuid !in s.registry.objects
    ensures Enabled(s, e) && t in Apply(w, s, e).tasks
    ensures Rank(s.tasks[t].phase) < Rank(Apply(w, s, e).tasks[t].phase)
    ensures Apply(w, s, e).tasks[t].phase.Stuck? == false
  {
    ReachableIsSmooth(w, s);
    e := match s.tasks[t].phase
         case Queued => Handle(t)
         case Accepted(_) => TakeSlot(t)
         case Slotted(_) => Start(t, true)
         case _ => Finish(t, None, false);
  }

  /** A message that blocks on nothing is read and handled. */
  lemma Submit(w: World, s: Server, t: nat, m: Message) returns (s': Server)
    requires Reachable(w, s) && t !in s.tasks && s.held == {}
    requires m.Call? && m.action.NewSession? ==> m.action.uuid !in s.registry.objects
    ensures Reachable(w, s') && s'.held == {} && s'.registry == HandleMessage(w, s.registry, m).registry
    ensures t in s'.tasks && s'.tasks.Keys == s.tasks.Keys + {t}
    ensures HandleMessage(w, s.registry, m).accepted.Some? ==>
              s'.tasks[t].phase == Accepted(HandleMessage(w, s.registry, m).accepted.value)
  {
    StepReaches(w, s, Arrive(t, m));
    var arrived := Apply(w, s, Arrive(t, m));
    StepReaches(w, arrived, Handle(t));
    s' := Apply(w, arrived, Handle(t));
  }

  const OPENED := "s"

  /** Once some selection cannot be run: open a session, make the selection, prompt. The
      prompt is then stuck. */
  lemma BadSelectionSticks(w: World, action: Method, bad: Selected) returns (s: Server)
    requires !Runs(w, bad) && !action.NewSession?
    requires forall r | IsLive(r, Some(OPENED)) ::
               HandleMethod(w, r, Given("1"), action) ==
               Updated(r, OPENED, r.objects[OPENED].(selected := bad))
    ensures Reachable(w, s) && !NobodyStuck(s)
  {
    var s1 := OpenSession(w);
    var s2 := Submit(w, s1, 1, Call(Given("1"), action));
    s := PromptSticks(w, s2, 2);
  }

  lemma OpenSession(w: World) returns (s: Server)
    ensures Reachable(w, s) && s.held == {} && s.tasks.Keys == {0} && IsLive(s.registry, Some(OPENED))
  {
    assert Legal(w, EMPTY, []) && Run(w, EMPTY, []) == EMPTY;
    s := Submit(w, EMPTY, 0, Call(Given("0"), NewSession(OPENED)));
  }

  lemma PromptSticks(w: World, s: Server, t: nat) returns (s': Server)
    requires Reachable(w, s) && t !in s.tasks && s.held == {}
    requires IsLive(s.registry, Some(OPENED)) && !Runs(w, s.registry.objects[OPENED].selected)
    ensures Reachable(w, s') && !NobodyStuck(s')
  {
    assert !LacksTarget("x");
    var accepted := Submit(w, s, t, Call(Given("2"), Prompt(Some(OPENED), "x")));
    s' := StuckAfter(w, accepted, t);
  }

  lemma StuckAfter(w: World, s: Server, t: nat) returns (s': Server)
    requires Reachable(w, s) && t in s.tasks && s.held == {} && s.tasks[t].phase == Accepted(OPENED)
    requires OPENED in s.registry.objects && !Runs(w, s.registry.objects[OPENED].selected)
    ensures Reachable(w, s') && !NobodyStuck(s')
  {
    StepReaches(w, s, TakeSlot(t));
    var slotted := Apply(w, s, TakeSlot(t));
    StepReaches(w, slotted, Start(t, true));
    s' := Apply(w, slotted, Start(t, true));
    assert s'.tasks[t].phase == Stuck(OPENED);
  }

  lemma TextSticks(w: World, text: string) returns (s: Server)
    requires ResolveSelection(w.all, text).Ok? && !Runs(w, ResolveSelection(w.all, text).value)
    ensures Reachable(w, s) && !NobodyStuck(s)
  {
    s := BadSelectionSticks(w, SetModel(Some(OPENED), Some(text)), ResolveSelection(w.all, text).value);
  }

  lemma ProviderSwitches(w: World, r: Registry, session: string, name: string)
    requires session in r.objects && DefaultModel(w.all, name).Ok?
    ensures SetOption(w, r, session, "provider", Str(name)) ==
            Updated(r, session, r.objects[session].(selected := Selected(name, DefaultModel(w.all, name).value)))
  {
    var config := "provider";
    assert |config| != |"mode"|;
  }

  lemma ProviderSticks(w: World, name: string) returns (s: Server)
    requires DefaultModel(w.all, name).Ok? && !Runs(w, Selected(name, DefaultModel(w.all, name).value))
    ensures Reachable(w, s) && !NobodyStuck(s)
  {
    var model := DefaultModel(w.all, name).value;
    forall r | IsLive(r, Some(OPENED))
      ensures SetOption(w, r, OPENED, "provider", Str(name)) ==
              Updated(r, OPENED, r.objects[OPENED].(selected := Selected(name, model)))
    {
      ProviderSwitches(w, r, OPENED, name);
    }
    s := BadSelectionSticks(w, SetConfigOption(Some(OPENED), Some("provider"), Some(Str(name))),
                            Selected(name, DefaultModel(w.all, name).value));
  }

  /** Prompts never hang, in any run, exactly when every selection a client can make can be
      run. The branch that reports a selection which cannot be run never gets to report. */
  lemma NobodyIsEverStuckIff(w: World)
    requires Runs(w, w.start)
    ensures (forall s | Reachable(w, s) :: NobodyStuck(s)) <==> SelectableRuns(w)
  {
    if SelectableRuns(w) {
      forall s | Reachable(w, s) ensures NobodyStuck(s) {
        ReachableIsSmooth(w, s);
      }
    } else if text :| ResolveSelection(w.all, text).Ok? && !Runs(w, ResolveSelection(w.all, text).value) {
      var s := TextSticks(w, text);
    } else {
      var name :| DefaultModel(w.all, name).Ok? && !Runs(w, Selected(name, DefaultModel(w.all, name).value));
      var s := ProviderSticks(w, name);
    }
  }

  /** What a config file needs for that: nothing under `combos` but combos. */
  lemma HonestConfigNeverSticks(w: World, s: Server)
    requires Up(w) && OverrideNamesCombos(w.builtins, w.config) && Reachable(w, s)
    ensures NobodyStuck(s)
  {
    OffersRunIff(w.builtins, w.config, w.comboNames, w.all);
    forall text | ResolveSelection(w.all, text).Ok? ensures Runs(w, ResolveSelection(w.all, text).value) {
      ResolvedIsOffered(w.all, text);
    }
    forall name | DefaultModel(w.all, name).Ok? ensures Runs(w, Selected(name, DefaultModel(w.all, name).value)) {
      DefaultIsOffered(w.all, name);
    }
    ReachableIsSmooth(w, s);
  }

  /** And what breaks it: a `combos` entry with a model that is no combo, if its displayed id
      selects it. Some run then ends in a prompt that hangs. */
  lemma DishonestConfigSticks(w: World, p: P.Provider, model: string)
    requires Up(w) && Clean(w.all) && p in w.all && p.name == P.COMBOS
    requires P.ComboNamed(w.builtins, w.config, model).None?
    requires Trim(Display(P.COMBOS, model)) == Display(P.COMBOS, model)
    requires ListedBefore(p.models, model, Alias(P.COMBOS, model))
    ensures exists s :: Reachable(w, s) && !NobodyStuck(s)
  {
    DisplayResolvesIff(w.all, p, model);
    assert !Runs(w, Selected(P.COMBOS, model));
    var s := TextSticks(w, Display(P.COMBOS, model));
  }

  /** A stuck prompt has no reply and gets none, whatever happens next. */
  lemma StuckMeansSilence(w: World, s: Server, events: seq<Event>, t: nat)
    requires Reachable(w, s) && Legal(w, s, events) && t in s.tasks && s.tasks[t].phase.Stuck?
    ensures LinesOf(Run(w, s, events).log, t) == []
  {
    var before :| Legal(w, EMPTY, before) && Run(w, EMPTY, before) == s;
    assert LinesOf(EMPTY.log, t) == [];
    RunTells(w, EMPTY, before, t);
    StuckStays(w, s, events, t);
    RunTells(w, s, events, t);
  }

  lemma {:induction false} StuckStays(w: World, s: Server, events: seq<Event>, t: nat)
    requires Legal(w, s, events) && t in s.tasks && s.tasks[t].phase.Stuck?
    ensures t in Run(w, s, events).tasks && Run(w, s, events).tasks[t].phase.Stuck?
    decreases |events|
  {
    if events != [] {
      var s' := Apply(w, s, events[0]);
      assert t in s'.tasks && s'.tasks[t].phase == s.tasks[t].phase;
      StuckStays(w, s', events[1..], t);
    }
  }
}
