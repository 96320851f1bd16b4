/**
 * The per-conversation state machine of `Environment`: building a state from
 * its configuration, advancing on a transition label, terminality and the
 * observation handed to the collaborating models.
 *
 * The `State` class is an immutable record here, so the copy taken on a
 * self-loop and the deep copy of the history taken on a real transition are
 * implicit: no later step can change a state already built.
 */
module Environment {
  import opened Wrappers
  import opened Text
  import opened Messages

  type Vars = map<string, string>

  /** One entry of the state config; `history` is `None` when the key is absent. */
  datatype StateDef = StateDef(
    terminal: bool,
    history: Option<seq<Message>>,
    validTransitions: map<string, string>,  // label -> next_state
    defaultTransition: string)

  /** A conversation state, as `State(name, history, format_vars, turns, valid_transitions, default_transition, terminal)`. */
  datatype State = State(
    name: string,
    history: seq<Message>,
    formatVars: Vars,
    turns: int,
    validTransitions: map<string, string>,
    defaultTransition: string,
    terminal: bool)

  /** Collaborators outside the model: `str.format_map` and `count_format_fields`. */
  datatype Templating = Templating(format: (string, Vars) -> string, countFields: string -> nat)

  /** The fixed attributes of one `Environment` and its set of visited state names. */
  datatype Env = Env(
    maxTurns: int,
    envName: string,
    historyId: string,
    formatVars: Vars,
    stateConfig: map<string, StateDef>,
    visited: set<string>)

  /** An environment together with its current state. */
  datatype Conversation = Conversation(env: Env, current: State)

  /** What `get_observation` hands to the transition and assessor models. */
  datatype Observation = Observation(history: seq<Message>, formatVars: Vars, turns: int)

  datatype EnvError =
    | UnknownState(name: string)            // KeyError on state_config[name]
    | UnknownTransition(transition: string)      // KeyError on valid_transitions[transition]
    | MissingVar(name: string)              // KeyError on format_vars[name]
    | InitialNotFormatted(content: string)  // the assertion on the initial state's messages

  const InitialState := "initial_state"
  const CharAction := "char_action"
  const CharAction1 := "char_action1"
  const CharAction2 := "char_action2"

  /** `state_config[name].get("history", [])` */
  function Script(d: StateDef): seq<Message> {
    if d.history.Some? then d.history.value else []
  }

  /**
   * The format variables used for the scripted message at index `i`: a fresh
   * copy of the environment's variables in which, when the character has two
   * alternative actions, `char_action` is one of them (chosen by `pick(i)`).
   */
  function MessageVars(base: Vars, i: nat, pick: nat -> bool): (r: Result<Vars, EnvError>)
    ensures r.Failure? <==> CharAction1 in base && CharAction2 !in base
    ensures r.Failure? ==> r.error == MissingVar(CharAction2)
    ensures r.Success? && CharAction1 !in base ==> r.value == base
    ensures r.Success? && CharAction1 in base ==>
              && r.value.Keys == base.Keys + {CharAction}
              && (r.value[CharAction] == base[CharAction1] || r.value[CharAction] == base[CharAction2])
              && forall k :: k in base && k != CharAction ==> r.value[k] == base[k]
  {
    if CharAction1 in base then
      if CharAction2 in base then
        Success(base[CharAction := if pick(i) then base[CharAction1] else base[CharAction2]])
      else
        Failure(MissingVar(CharAction2))
    else
      Success(base)
  }

  /** A scripted message once its placeholders are filled in and it is stripped. */
  function Rendered(m: Message, vars: Vars, fmt: Templating): Message {
    Message(m.role, Strip(fmt.format(m.content, vars)))
  }

  /** The scripted messages from index `i` on can be rendered without raising. */
  predicate RenderableFrom(name: string, script: seq<Message>, i: nat, base: Vars, fmt: Templating) {
    && (name == InitialState ==> forall j :: i <= j < |script| ==> fmt.countFields(script[j].content) == 0)
    && (i < |script| ==> !(CharAction1 in base && CharAction2 !in base))
  }

  /**
   * The loop of `create_state`: the scripted messages from index `i` on, each
   * rendered with its own copy of the variables, checked in order.
   */
  function RenderFrom(name: string, script: seq<Message>, i: nat, base: Vars, fmt: Templating,
                      pick: nat -> bool): (r: Result<seq<Message>, EnvError>)
    requires i <= |script|
    decreases |script| - i
    ensures r.Success? <==> RenderableFrom(name, script, i, base, fmt)
    ensures r.Success? ==> |r.value| == |script| - i
  {
    if i == |script| then
      Success([])
    else
      RenderableStep(name, script, i, base, fmt);
      if name == InitialState && fmt.countFields(script[i].content) != 0 then
        Failure(InitialNotFormatted(script[i].content))
      else
        match MessageVars(base, i, pick)
        case Failure(e) => Failure(e)
        case Success(v) =>
          var rest :- RenderFrom(name, script, i + 1, base, fmt, pick);
          Success([Rendered(script[i], v, fmt)] + rest)
  }

  /** Message `j - i` of the rendered script is scripted message `j` rendered with its own variables. */
  lemma {:induction false} RenderFromAt(name: string, script: seq<Message>, i: nat, base: Vars,
                                        fmt: Templating, pick: nat -> bool, j: nat)
    requires i <= j < |script|
    requires RenderFrom(name, script, i, base, fmt, pick).Success?
    ensures MessageVars(base, j, pick).Success?
    ensures RenderFrom(name, script, i, base, fmt, pick).value[j - i]
            == Rendered(script[j], MessageVars(base, j, pick).value, fmt)
    decreases j - i
  {
    var r := RenderFrom(name, script, i, base, fmt, pick).value;
    var rest := RenderFrom(name, script, i + 1, base, fmt, pick);
    assert r == [Rendered(script[i], MessageVars(base, i, pick).value, fmt)] + rest.value;
    if j > i {
      RenderFromAt(name, script, i + 1, base, fmt, pick, j);
      assert r[j - i] == rest.value[j - (i + 1)];
    }
  }

  /** Every rendered scripted message, as `create_state` appends it. */
  lemma RenderedScript(name: string, script: seq<Message>, base: Vars, fmt: Templating, pick: nat -> bool)
    requires RenderFrom(name, script, 0, base, fmt, pick).Success?
    ensures forall j :: 0 <= j < |script| ==>
              MessageVars(base, j, pick).Success?
              && RenderFrom(name, script, 0, base, fmt, pick).value[j]
                 == Rendered(script[j], MessageVars(base, j, pick).value, fmt)
  {
    forall j | 0 <= j < |script|
      ensures MessageVars(base, j, pick).Success?
      ensures RenderFrom(name, script, 0, base, fmt, pick).value[j]
              == Rendered(script[j], MessageVars(base, j, pick).value, fmt)
    {
      RenderFromAt(name, script, 0, base, fmt, pick, j);
    }
  }

  /** Renderability from `i` is the check of message `i` and renderability from `i + 1`. */
  lemma RenderableStep(name: string, script: seq<Message>, i: nat, base: Vars, fmt: Templating)
    requires i < |script|
    ensures RenderableFrom(name, script, i, base, fmt) <==>
              && (name == InitialState ==> fmt.countFields(script[i].content) == 0)
              && !(CharAction1 in base && CharAction2 !in base)
              && RenderableFrom(name, script, i + 1, base, fmt)
  {
  }

  /** The variables left in `format_vars` after the loop: those of the last scripted message. */
  function LastVars(script: seq<Message>, base: Vars, pick: nat -> bool): Vars
    requires script != [] ==> MessageVars(base, |script| - 1, pick).Success?
  {
    if script == [] then base else MessageVars(base, |script| - 1, pick).value
  }

  /**
   * `create_state(name, turns, history)`: the new state's history is the given
   * history followed by the state's rendered script; its flags and transition
   * table come from the config, and `name` is recorded as visited.
   */
  function CreateState(env: Env, name: string, turns: int, history: seq<Message>,
                       fmt: Templating, pick: nat -> bool): (r: Result<(State, Env), EnvError>)
    ensures name !in env.stateConfig ==> r == Failure(UnknownState(name))
    ensures name in env.stateConfig ==>
              (r.Success? <==> RenderableFrom(name, Script(env.stateConfig[name]), 0, env.formatVars, fmt))
    ensures r.Success? ==>
              var (s, env') := r.value;
              var d := env.stateConfig[name];
              var script := Script(d);
              && name in env.stateConfig
              && s.name == name && s.turns == turns
              && s.terminal == d.terminal
              && s.validTransitions == d.validTransitions
              && s.defaultTransition == d.defaultTransition
              && |s.history| == |history| + |script|
              && history <= s.history
              && (forall j :: 0 <= j < |script| ==>
                    && s.history[|history| + j].role == script[j].role
                    && s.history[|history| + j].content
                       == Strip(fmt.format(script[j].content, MessageVars(env.formatVars, j, pick).value)))
              && (script == [] ==> s.formatVars == env.formatVars)
              && (script != [] ==> s.formatVars == MessageVars(env.formatVars, |script| - 1, pick).value)
              && env' == env.(visited := env.visited + {name})
  {
    if name !in env.stateConfig then
      Failure(UnknownState(name))
    else
      var d := env.stateConfig[name];
      var rendered :- RenderFrom(name, Script(d), 0, env.formatVars, fmt, pick);
      RenderedScript(name, Script(d), env.formatVars, fmt, pick);
      var vars := LastVars(Script(d), env.formatVars, pick);
      Success((State(name, history + rendered, vars, turns, d.validTransitions, d.defaultTransition, d.terminal),
               env.(visited := env.visited + {name})))
  }

  /** The transition actually followed: the given one if configured, else the default. */
  function ResolveLabel(s: State, transition: string): string {
    if transition in s.validTransitions then transition else s.defaultTransition
  }

  /**
   * `post_transition_processing(state, transition, action)`; the action is not
   * read. A self-loop only counts a turn; any other target builds a new state
   * from a copy of the history.
   */
  function Advance(env: Env, s: State, transition: string, fmt: Templating, pick: nat -> bool): (r: Result<(State, Env), EnvError>)
    ensures ResolveLabel(s, transition) !in s.validTransitions ==> r == Failure(UnknownTransition(s.defaultTransition))
    ensures r.Success? ==>
              && ResolveLabel(s, transition) in s.validTransitions
              && r.value.0.turns == s.turns + 1
              && s.history <= r.value.0.history
              && env.visited <= r.value.1.visited
              && r.value.1.formatVars == env.formatVars
              && r.value.1.maxTurns == env.maxTurns
              && r.value.1.stateConfig == env.stateConfig
    ensures ResolveLabel(s, transition) in s.validTransitions && s.validTransitions[ResolveLabel(s, transition)] == s.name ==>
              r == Success((s.(turns := s.turns + 1), env))
    ensures r.Success? && s.validTransitions[ResolveLabel(s, transition)] != s.name ==>
              s.validTransitions[ResolveLabel(s, transition)] in env.stateConfig
    ensures r.Success? && s.validTransitions[ResolveLabel(s, transition)] != s.name ==>
              var target := s.validTransitions[ResolveLabel(s, transition)];
              var script := Script(env.stateConfig[target]);
              && target in env.stateConfig
              && r.value.0.name == target
              && |r.value.0.history| == |s.history| + |script|
              && (forall j :: 0 <= j < |script| ==> r.value.0.history[|s.history| + j].role == script[j].role)
              && r.value.1.visited == env.visited + {target}
    ensures ResolveLabel(s, transition) in s.validTransitions && s.validTransitions[ResolveLabel(s, transition)] != s.name ==>
              r == CreateState(env, s.validTransitions[ResolveLabel(s, transition)], s.turns + 1, s.history, fmt, pick)
  {
    var l := ResolveLabel(s, transition);
    if l !in s.validTransitions then
      Failure(UnknownTransition(l))
    else if s.validTransitions[l] == s.name then
      Success((s.(turns := s.turns + 1), env))
    else
      CreateState(env, s.validTransitions[l], s.turns + 1, s.history, fmt, pick)
  }

  /** `is_terminal(state)` */
  predicate IsTerminal(env: Env, s: State) {
    s.turns >= env.maxTurns || s.terminal
  }

  /** `Environment.__init__`: the conversation starts in `initial_state` at turn 0. */
  function Init(maxTurns: int, envName: string, historyId: string, stateConfig: map<string, StateDef>,
                formatVars: Vars, initialMessages: seq<Message>, fmt: Templating, pick: nat -> bool): (r: Result<Conversation, EnvError>)
    ensures InitialState !in stateConfig ==> r == Failure(UnknownState(InitialState))
    ensures InitialState in stateConfig ==>
              (r.Failure? <==>
                 || (exists j :: 0 <= j < |Script(stateConfig[InitialState])|
                                 && fmt.countFields(Script(stateConfig[InitialState])[j].content) != 0)
                 || (Script(stateConfig[InitialState]) != [] && CharAction1 in formatVars && CharAction2 !in formatVars))
    ensures r.Success? ==>
              && r.value.current.name == InitialState
              && r.value.current.turns == 0
              && initialMessages <= r.value.current.history
              && r.value.env.visited == {InitialState}
              && r.value.env.maxTurns == maxTurns
              && r.value.env.formatVars == formatVars
  {
    var env := Env(maxTurns, envName, historyId, formatVars, stateConfig, {});
    var created :- CreateState(env, InitialState, 0, initialMessages, fmt, pick);
    Success(Conversation(created.1, created.0))
  }

  /** `get_observation()`: the current history and turn count with the environment's own variables. */
  function GetObservation(c: Conversation): Observation {
    Observation(c.current.history, c.env.formatVars, c.current.turns)
  }

  /** The caller's `current_state = post_transition_processing(current_state, ...)`. */
  function Step(c: Conversation, transition: string, fmt: Templating, pick: nat -> bool): Result<Conversation, EnvError> {
    var next :- Advance(c.env, c.current, transition, fmt, pick);
    Success(Conversation(next.1, next.0))
  }

  /** Steps through `transitions` in order; step `k` draws its random choices from `picks(k)`. */
  function Run(c: Conversation, transitions: seq<string>, fmt: Templating, picks: nat -> nat -> bool): Result<Conversation, EnvError>
    decreases |transitions|
  {
    if transitions == [] then Success(c)
    else
      var next :- Step(c, transitions[0], fmt, picks(0));
      Run(next, transitions[1..], fmt, k => picks(k + 1))
  }

  /** One step adds one turn, only appends to the observed history, and keeps the variables. */
  lemma StepObservation(c: Conversation, transition: string, fmt: Templating, pick: nat -> bool)
    requires Step(c, transition, fmt, pick).Success?
    ensures var o := GetObservation(c);
            var o' := GetObservation(Step(c, transition, fmt, pick).value);
            && o'.turns == o.turns + 1
            && o.history <= o'.history
            && o'.formatVars == o.formatVars
  {
  }

  /**
   * A run of `k` steps adds exactly `k` turns, never shortens or rewrites the
   * history, only grows the visited set and keeps the configuration.
   */
  lemma {:induction false} RunTurns(c: Conversation, transitions: seq<string>, fmt: Templating, picks: nat -> nat -> bool)
    requires Run(c, transitions, fmt, picks).Success?
    ensures var c' := Run(c, transitions, fmt, picks).value;
            && c'.current.turns == c.current.turns + |transitions|
            && c.current.history <= c'.current.history
            && c.env.visited <= c'.env.visited
            && c'.env.maxTurns == c.env.maxTurns
            && c'.env.formatVars == c.env.formatVars
    decreases |transitions|
  {
    if transitions != [] {
      var next := Step(c, transitions[0], fmt, picks(0)).value;
      RunTurns(next, transitions[1..], fmt, k => picks(k + 1));
    }
  }

  /** A conversation that has run `maxTurns` steps from the start is terminal, whatever its state. */
  lemma RunReachesTerminal(maxTurns: int, envName: string, historyId: string, stateConfig: map<string, StateDef>,
                           formatVars: Vars, initialMessages: seq<Message>, fmt: Templating, pick: nat -> bool,
                           transitions: seq<string>, picks: nat -> nat -> bool)
    requires Init(maxTurns, envName, historyId, stateConfig, formatVars, initialMessages, fmt, pick).Success?
    requires var c := Init(maxTurns, envName, historyId, stateConfig, formatVars, initialMessages, fmt, pick).value;
             Run(c, transitions, fmt, picks).Success?
    requires |transitions| >= maxTurns
    ensures var c := Init(maxTurns, envName, historyId, stateConfig, formatVars, initialMessages, fmt, pick).value;
            var c' := Run(c, transitions, fmt, picks).value;
            IsTerminal(c'.env, c'.current)
  {
    var c := Init(maxTurns, envName, historyId, stateConfig, formatVars, initialMessages, fmt, pick).value;
    RunTurns(c, transitions, fmt, picks);
  }

  /** A fresh conversation is terminal only when `max_turns <= 0` or `initial_state` is marked terminal. */
  lemma InitialTerminal(maxTurns: int, envName: string, historyId: string, stateConfig: map<string, StateDef>,
                        formatVars: Vars, initialMessages: seq<Message>, fmt: Templating, pick: nat -> bool)
    requires Init(maxTurns, envName, historyId, stateConfig, formatVars, initialMessages, fmt, pick).Success?
    ensures var c := Init(maxTurns, envName, historyId, stateConfig, formatVars, initialMessages, fmt, pick).value;
            IsTerminal(c.env, c.current) <==> maxTurns <= 0 || stateConfig[InitialState].terminal
  {
  }
}
