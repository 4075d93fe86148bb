/** What each message does to the session it is about, and how it is answered. */
module AcpEffects {
  import opened Wrappers
  import opened Text
  import P = Providers
  import opened Selection
  import opened AcpServer

  predicate Succeeds(h: Handled) {
    h.replies == [Success] && h.accepted.None?
  }

  predicate Fails(h: Handled, r: Registry, code: int) {
    h.replies == [Error(code)] && h.accepted.None? && h.registry == r
  }

  /** Only this session's state has changed, and to this one. */
  predicate Becomes(r: Registry, after: Registry, session: string, state: SessionState) {
    && after.listed == r.listed && after.objects.Keys == r.objects.Keys
    && session in after.objects && after.objects[session] == state
    && forall other | other in r.objects && other != session :: after.objects[other] == r.objects[other]
  }

  predicate Live(r: Registry, session: Option<string>) {
    session.Some? && session.value in r.listed && session.value in r.objects
  }

  // ----- modes

  /** `session/set_mode`: the two modes there are, and nothing but the mode changes. */
  lemma SetModeSets(w: World, r: Registry, id: Id, session: Option<string>, mode: Option<string>)
    ensures var h := HandleMethod(w, r, id, SetMode(session, mode));
            if Live(r, session) && (mode == Some("auto") || mode == Some("readonly")) then
              && Succeeds(h)
              && Becomes(r, h.registry, session.value, SessionState(r.objects[session.value].selected, mode.value))
            else Fails(h, r, -32602)
  {
  }

  /** The same as a config option. */
  lemma SetModeOptionSets(w: World, r: Registry, id: Id, session: Option<string>, value: Value)
    ensures var h := HandleMethod(w, r, id, SetConfigOption(session, Some("mode"), Some(value)));
            if Live(r, session) && (value == Str("auto") || value == Str("readonly")) then
              && Succeeds(h)
              && Becomes(r, h.registry, session.value, SessionState(r.objects[session.value].selected, value.text))
            else Fails(h, r, -32602)
  {
  }

  // ----- selections

  /** A model switch leaves exactly what the text resolves to, in the mode that was set. */
  lemma SetModelSelects(w: World, r: Registry, id: Id, session: Option<string>, text: Option<string>)
    ensures var h := HandleMethod(w, r, id, SetModel(session, text));
            if Live(r, session) && text.Some? && ResolveSelection(w.all, text.value).Ok? then
              && Succeeds(h)
              && Becomes(r, h.registry, session.value,
                         SessionState(ResolveSelection(w.all, text.value).value, r.objects[session.value].mode))
            else Fails(h, r, -32602)
  {
  }

  lemma OptionNamesDiffer(config: string)
    ensures config == "model" ==> config != "mode" && config != "provider"
    ensures config == "provider" ==> config != "mode" && config != "model"
  {
    if config == "model" {
      assert |config| == 5;
    } else if config == "provider" {
      assert |config| == 8;
    }
  }

  lemma SetModelOptionSelects(w: World, r: Registry, id: Id, session: Option<string>, config: string, value: Value)
    requires config == "model"
    ensures var h := HandleMethod(w, r, id, SetConfigOption(session, Some(config), Some(value)));
            if Live(r, session) && value.Str? && ResolveSelection(w.all, value.text).Ok? then
              && Succeeds(h)
              && Becomes(r, h.registry, session.value,
                         SessionState(ResolveSelection(w.all, value.text).value, r.objects[session.value].mode))
            else Fails(h, r, -32602)
  {
    OptionNamesDiffer(config);
  }

  /** A provider switch leaves the provider's default model. */
  lemma SetProviderOptionSelects(w: World, r: Registry, id: Id, session: Option<string>, config: string, value: Value)
    requires config == "provider"
    ensures var h := HandleMethod(w, r, id, SetConfigOption(session, Some(config), Some(value)));
            if Live(r, session) && value.Str? && DefaultModel(w.all, value.text).Ok? then
              && Succeeds(h)
              && Becomes(r, h.registry, session.value,
                         SessionState(Selected(value.text, DefaultModel(w.all, value.text).value), r.objects[session.value].mode))
            else Fails(h, r, -32602)
  {
    OptionNamesDiffer(config);
  }

  lemma OtherOptionsFail(w: World, r: Registry, id: Id, session: Option<string>, config: Option<string>, value: Option<Value>)
    requires config.None? || value.None? || (config != Some("mode") && config != Some("provider") && config != Some("model"))
    ensures Fails(HandleMethod(w, r, id, SetConfigOption(session, config, value)), r, -32602)
  {
  }

  // ----- the life of a session

  /** A new session is listed with the server's own selection, in mode "auto"; a session that
      is loaded stays as it is; one that is closed is listed no longer. */
  lemma SessionsComeAndGo(w: World, r: Registry, id: Id, uuid: string, session: Option<string>)
    ensures var h := HandleMethod(w, r, id, NewSession(uuid));
            && Succeeds(h)
            && h.registry.listed == r.listed + {uuid}
            && h.registry.objects == r.objects[uuid := SessionState(w.start, "auto")]
    ensures var h := HandleMethod(w, r, id, LoadSession(session));
            if Live(r, session) then Succeeds(h) && h.registry == r else Fails(h, r, -32602)
    ensures var h := HandleMethod(w, r, id, Close(session));
            && Succeeds(h) && h.registry.objects == r.objects
            && forall s :: s in h.registry.listed <==> s in r.listed && Some(s) != session
  {
  }

  /** A cancel changes no session and is answered only if it has an id. */
  lemma CancelChangesNothing(w: World, r: Registry, id: Id, session: Option<string>)
    ensures var h := HandleMethod(w, r, id, Cancel(session));
            h.registry == r && h.accepted.None? && h.replies == if id.Null? then [] else [Success]
  {
  }

  /** Which prompts are taken up: those of a live session that say something and, if they begin
      with the command, name a target behind a space. */
  lemma PromptIsTakenUpIff(w: World, r: Registry, id: Id, session: Option<string>, prompt: string)
    ensures var h := HandleMethod(w, r, id, Prompt(session, prompt));
            var lacksTarget := StartsWith(prompt, "/interview")
                               && (!StartsWith(prompt, "/interview ") || Trim(prompt[11..]) == "");
            if Live(r, session) && prompt != "" && !lacksTarget
            then h == Handled(r, [], session)
            else Fails(h, r, -32602)
  {
    assert INTERVIEW + " " == "/interview ";
  }

  /** The messages that are about no session. */
  lemma OthersAreAnswered(w: World, r: Registry, id: Id, name: string)
    ensures Succeeds(HandleMethod(w, r, id, Initialize)) && HandleMethod(w, r, id, Initialize).registry == r
    ensures Succeeds(HandleMethod(w, r, id, Authenticate)) && HandleMethod(w, r, id, Authenticate).registry == r
    ensures Succeeds(HandleMethod(w, r, id, Logout)) && HandleMethod(w, r, id, Logout).registry == r
    ensures Fails(HandleMethod(w, r, id, BadParams), r, -32602)
    ensures if id.Null? then HandleMethod(w, r, id, Unknown(name)) == Handled(r, [], None)
            else Fails(HandleMethod(w, r, id, Unknown(name)), r, -32601)
    ensures Fails(HandleMessage(w, r, Unparsable(id)), r, -32700)
    ensures HandleMessage(w, r, ClientResponse(id)) == HandleMessage(w, r, Ignored) == Handled(r, [], None)
  {
  }

  // ----- the stretches of a prompt

  /** A task says this one thing, under the id of its message, and is done. */
  predicate EndsSaying(s: Server, after: Server, t: nat, body: Body)
    requires t in s.tasks
  {
    && t in after.tasks && after.tasks[t].phase.Done?
    && after.log == s.log + [Line(t, IdOf(s.tasks[t].message), body)]
    && after.registry == s.registry && after.held == s.held
  }

  /** Starting a run: on what the session's selection comes to, with an error if the agent cannot
      be built; a selection that comes to nothing leaves the session's lock held for good. */
  lemma StartRunsTheSelection(w: World, s: Server, t: nat, built: bool)
    requires Enabled(s, Start(t, built))
    ensures var session := s.tasks[t].phase.session;
            var on := EffectiveSelection(w.builtins, w.config, s.registry.objects[session].selected);
            var after := Apply(w, s, Start(t, built));
            && (on.Ok? && built ==>
                  after.log == s.log && after.held == s.held && after.tasks[t].phase == Running(session, on.value))
            && (on.Ok? && !built ==> EndsSaying(s, after, t, Error(-32000)))
            && (on.Err? ==>
                  after.log == s.log && after.held == s.held + {session} && after.tasks[t].phase == Stuck(session))
  {
  }

  /** The end of a run: an error is reported as one unless the run had been cancelled. */
  lemma FinishReports(w: World, s: Server, t: nat, terminal: Option<Terminal>, cancelled: bool)
    requires Enabled(s, Finish(t, terminal, cancelled))
    ensures EndsSaying(s, Apply(w, s, Finish(t, terminal, cancelled)), t,
                       if terminal == Some(Failed) && !cancelled then Error(-32000) else Success)
  {
  }

  // ----- who waits for whom

  /** A handler waits for a session's lock exactly if the session is live and the message comes
      to lock it; a handler that refuses earlier does not wait. */
  lemma HandlingWaitsIff(s: Server, t: nat)
    requires t in s.tasks && s.tasks[t].phase.Queued? && s.tasks[t].message.Call? && !s.tasks[t].message.action.NewSession?
    ensures var action := s.tasks[t].message.action;
            Enabled(s, Handle(t)) <==>
              match action
              case LoadSession(session) => !(Live(s.registry, session) && session.value in s.held)
              case Cancel(session) => !(Live(s.registry, session) && session.value in s.held)
              case Close(session) => !(Live(s.registry, session) && session.value in s.held)
              case SetModel(session, model) => !(model.Some? && Live(s.registry, session) && session.value in s.held)
              case SetMode(session, mode) =>
                !((mode == Some("auto") || mode == Some("readonly")) && Live(s.registry, session) && session.value in s.held)
              case SetConfigOption(session, config, value) =>
                !(config.Some? && value.Some? && Live(s.registry, session) && session.value in s.held)
              case _ => true
  {
  }

  /** The stretches before: a message queues, is handled with what its handler says and leaves,
      and a prompt that is taken up takes its session's slot before it starts. */
  lemma MessagesAreHandled(w: World, s: Server, t: nat, m: Message)
    ensures Enabled(s, Arrive(t, m)) ==> Apply(w, s, Arrive(t, m)) == s.(tasks := s.tasks[t := Task(m, Queued)])
    ensures Enabled(s, Handle(t)) ==>
              var h, after := HandleMessage(w, s.registry, s.tasks[t].message), Apply(w, s, Handle(t));
              && after.registry == h.registry && after.held == s.held
              && |after.log| == |s.log| + |h.replies| && after.log[..|s.log|] == s.log
              && (forall i | 0 <= i < |h.replies| ::
                    after.log[|s.log| + i] == Line(t, IdOf(s.tasks[t].message), h.replies[i]))
              && after.tasks[t].phase == if h.accepted.Some? then Accepted(h.accepted.value) else Done
    ensures Enabled(s, TakeSlot(t)) ==>
              Apply(w, s, TakeSlot(t)) == s.(tasks := s.tasks[t := s.tasks[t].(phase := Slotted(s.tasks[t].phase.session))])
  {
  }

  /** A call is answered under the id it came with, which also goes with what cannot be read. */
  lemma RepliesGoUnderTheirId(w: World, r: Registry, s: Server, t: nat, id: Id, action: Method, body: Body)
    ensures IdOf(Call(id, action)) == id && IdOf(Unparsable(id)) == id
    ensures t in s.tasks && s.tasks[t].message == Call(id, action) ==>
              Answered(s, t, body).log == s.log + [Line(t, id, body)]
    ensures HandleMessage(w, r, Unparsable(id)).replies == [Error(-32700)]
    ensures HandleMessage(w, r, ClientResponse(id)).replies == []
    ensures HandleMessage(w, r, Ignored).replies == []
  {
  }
}
