/**
  The debate orchestration state machine (`AdvancedDebateGraph`).

  A debate state holds the topic, the expert partition id, the transcript,
  the current speaker, the turn counter and the mode.  Every persona turn goes
  through one primitive (`GenerateResponse`) that produces exactly one message
  and raises the turn counter by one; the three modes differ only in which
  persona speaks next and when the debate ends.  The language model and the
  vector-store retriever are uninterpreted functions carried by `Config`.
*/
module Debate {
  import opened Wrappers
  import opened Text

  // ---------------------------------------------------------------------------
  // Personas and messages

  /** The keys of the persona table. */
  datatype PersonaKey = Optimist | Skeptic | Competitor | Regulator | Moderator

  /** The string the graph stores in `current_speaker` for each persona. */
  function KeyName(k: PersonaKey): string
  {
    match k
    case Optimist => "P_OPT"
    case Skeptic => "P_SKEP"
    case Competitor => "P_COMP"
    case Regulator => "P_REG"
    case Moderator => "P_MOD"
  }

  /** An entry of the persona table: display name and system prompt template. */
  datatype Persona = Persona(name: string, systemPrompt: string)

  datatype Role = SystemRole | HumanRole | AiRole

  /** A chat message; `name` is the speaker's display name when set. */
  datatype Message = Message(role: Role, content: string, name: Option<string>)

  datatype DebateState = DebateState(
    topic: string,
    expertId: string,
    messages: seq<Message>,
    currentSpeaker: string,
    turns: int,
    mode: string,
    status: string)

  /**
    What the engine is constructed with: the persona table, the per-turn word
    budget, the retrieval depth, the chat model (messages to reply text) and the
    partition retriever (expert id, k, query text to chunk texts).
  */
  datatype Config = Config(
    personas: map<PersonaKey, Persona>,
    maxTokens: int,
    retrieveK: int,
    llm: seq<Message> -> string,
    retrieve: (string, int, string) -> seq<string>)

  // ---------------------------------------------------------------------------
  // One turn

  /** The retrieval query: the topic on an empty transcript, else the tail of the latest message. */
  function RetrievalQuery(topic: string, prior: seq<Message>): (q: string)
    ensures prior == [] ==> q == topic
    ensures prior != [] ==>
      var last := prior[|prior| - 1].content;
      |q| <= 200 && |q| <= |last| && q == last[|last| - |q|..]
      && (|last| <= 200 ==> q == last) && (|last| > 200 ==> |q| == 200)
  {
    if prior == [] then topic else TakeLast(prior[|prior| - 1].content, 200)
  }

  /** Retrieved chunks, separated by blank lines. */
  function RetrieveContext(cfg: Config, topic: string, expertId: string, prior: seq<Message>): string
  {
    Join(cfg.retrieve(expertId, cfg.retrieveK, RetrievalQuery(topic, prior)), "\n\n")
  }

  /** The instruction each node appends after the transcript. */
  function Instruction(key: PersonaKey, topic: string, prior: seq<Message>): (r: string)
    ensures key == Optimist && prior == [] ==> r == "Propose/Defend " + topic + "."
    ensures key == Optimist && prior != [] ==> r == "Respond to the critique."
  {
    match key
    case Optimist => if prior == [] then "Propose/Defend " + topic + "." else "Respond to the critique."
    case Skeptic => "Critique the proposal based on costs/risks."
    case Competitor => "Critique from a competitor's view. What are the weaknesses?"
    case Regulator => "Analyze legal/compliance risks."
    case Moderator => "Synthesize the debate so far and provide a conclusion."
  }

  function SystemPrompt(cfg: Config, key: PersonaKey, topic: string, expertId: string, prior: seq<Message>): string
    requires key in cfg.personas
  {
    cfg.personas[key].systemPrompt
    + "\n\nCONTEXT FROM DATABASE:\n" + RetrieveContext(cfg, topic, expertId, prior)
    + "\n\nTOPIC: " + topic
    + " IMPORTANT: Keep response under " + IntToString(cfg.maxTokens) + " words. Be direct."
  }

  /** The model input: the system prompt, then the whole prior transcript, then the instruction. */
  function ModelInput(cfg: Config, key: PersonaKey, topic: string, expertId: string, prior: seq<Message>): (r: seq<Message>)
    requires key in cfg.personas
    ensures |r| == |prior| + 2
    ensures r[0] == Message(SystemRole, SystemPrompt(cfg, key, topic, expertId, prior), None)
    ensures r[1..|r| - 1] == prior
    ensures r[|r| - 1] == Message(HumanRole, Instruction(key, topic, prior), None)
  {
    [Message(SystemRole, SystemPrompt(cfg, key, topic, expertId, prior), None)]
    + prior
    + [Message(HumanRole, Instruction(key, topic, prior), None)]
  }

  /** The message a persona contributes after the transcript `prior`. */
  function TurnMessage(cfg: Config, topic: string, expertId: string, prior: seq<Message>, key: PersonaKey): Message
    requires key in cfg.personas
  {
    Message(AiRole, cfg.llm(ModelInput(cfg, key, topic, expertId, prior)), Some(cfg.personas[key].name))
  }

  /** Each message of `ms` is the reply of persona `order[i]` to the messages before it. */
  ghost predicate Replies(cfg: Config, topic: string, expertId: string, ms: seq<Message>, order: seq<PersonaKey>)
  {
    && |ms| == |order|
    && (forall i :: 0 <= i < |order| ==> order[i] in cfg.personas)
    && (forall i :: 0 <= i < |order| ==> ms[i] == TurnMessage(cfg, topic, expertId, ms[..i], order[i]))
  }

  lemma {:induction false} RepliesExtend(cfg: Config, topic: string, expertId: string, ms: seq<Message>, order: seq<PersonaKey>, key: PersonaKey)
    requires Replies(cfg, topic, expertId, ms, order)
    requires key in cfg.personas
    ensures Replies(cfg, topic, expertId, ms + [TurnMessage(cfg, topic, expertId, ms, key)], order + [key])
  {
    var ms' := ms + [TurnMessage(cfg, topic, expertId, ms, key)];
    var order' := order + [key];
    forall i | 0 <= i < |order'|
      ensures order'[i] in cfg.personas
    {
      if i < |order| {
        assert order'[i] == order[i];
      }
    }
    forall i | 0 <= i < |order'|
      ensures ms'[i] == TurnMessage(cfg, topic, expertId, ms'[..i], order'[i])
    {
      PrefixOfAppend(ms, [TurnMessage(cfg, topic, expertId, ms, key)], if i < |ms| then i else |ms|);
      if i < |ms| {
        assert ms'[i] == ms[i] && order'[i] == order[i];
      }
    }
  }

  /** The partial state a node returns to the graph. */
  datatype Delta = Delta(newMessages: seq<Message>, currentSpeaker: string, turns: int)

  /** `_generate_response`: the single primitive every node is made of. */
  function GenerateResponse(cfg: Config, s: DebateState, key: PersonaKey): (d: Delta)
    requires key in cfg.personas
    ensures |d.newMessages| == 1 && d.turns == s.turns + 1 && d.currentSpeaker == KeyName(key)
    ensures d.newMessages[0].role == AiRole && d.newMessages[0].name == Some(cfg.personas[key].name)
  {
    Delta([TurnMessage(cfg, s.topic, s.expertId, s.messages, key)], KeyName(key), s.turns + 1)
  }

  /** How the graph merges a node's result: messages are concatenated, the other keys overwritten. */
  function Apply(s: DebateState, d: Delta): DebateState
  {
    s.(messages := s.messages + d.newMessages, currentSpeaker := d.currentSpeaker, turns := d.turns)
  }

  /** One persona turn keeps `turns == len(messages)`, only appends, and appends one named message. */
  lemma TurnKeepsCount(cfg: Config, s: DebateState, key: PersonaKey)
    requires key in cfg.personas
    requires s.turns == |s.messages|
    ensures var s' := Apply(s, GenerateResponse(cfg, s, key));
      && s'.turns == |s'.messages| == |s.messages| + 1
      && s'.messages[..|s.messages|] == s.messages
      && s'.messages[|s.messages|].name == Some(cfg.personas[key].name)
      && s'.currentSpeaker == KeyName(key)
      && s'.topic == s.topic && s'.expertId == s.expertId && s'.mode == s.mode
  {
  }

  // ---------------------------------------------------------------------------
  // The three transition graphs

  datatype Mode = ModeA | ModeB | ModeC

  /** `run`'s graph choice: 'b' and 'c' select their modes, anything else mode A. */
  function ModeOf(mode: string): (m: Mode)
    ensures m == ModeB <==> mode == "b"
    ensures m == ModeC <==> mode == "c"
  {
    if mode == "b" then ModeB else if mode == "c" then ModeC else ModeA
  }

  datatype Next = Speak(key: PersonaKey) | End

  /** The mode C router, consulted after the Optimist and after the Skeptic. */
  function Router(turns: int, currentSpeaker: string, maxTurns: int): (n: Next)
    ensures n.Speak?
    ensures n.key == Moderator <==> turns >= 2 * maxTurns
    ensures turns < 2 * maxTurns ==> (n.key == Skeptic <==> currentSpeaker == "P_OPT")
  {
    if turns >= maxTurns * 2 then Speak(Moderator)
    else if currentSpeaker == "P_OPT" then Speak(Skeptic)
    else Speak(Optimist)
  }

  /** The edge leaving `key` in a graph, given the state the node just produced. */
  function Successor(mode: Mode, key: PersonaKey, turns: int, currentSpeaker: string, maxTurns: int): Next
  {
    match mode
    case ModeA =>
      (match key
       case Optimist => Speak(Skeptic)
       case Skeptic => Speak(Moderator)
       case _ => End)
    case ModeB =>
      (match key
       case Optimist => Speak(Competitor)
       case Competitor => Speak(Skeptic)
       case Skeptic => Speak(Regulator)
       case Regulator => Speak(Moderator)
       case Moderator => End)
    case ModeC =>
      (match key
       case Optimist => Router(turns, currentSpeaker, maxTurns)
       case Skeptic => Router(turns, currentSpeaker, maxTurns)
       case _ => End)
  }

  /** Optimist, Skeptic, Optimist, ... of length `n`. */
  function Alternation(n: nat): (r: seq<PersonaKey>)
    ensures |r| == n
  {
    seq(n, i requires 0 <= i < n => if i % 2 == 0 then Optimist else Skeptic)
  }

  /** Number of Optimist/Skeptic turns mode C takes before the Moderator. */
  function ExchangeTurns(maxTurns: int): (n: nat)
    ensures n >= 1
    ensures maxTurns >= 1 ==> n == 2 * maxTurns
  {
    if 2 * maxTurns >= 1 then 2 * maxTurns else 1
  }

  /** The order in which each graph invokes the personas. */
  function ExpectedOrder(mode: Mode, maxTurns: int): (r: seq<PersonaKey>)
    ensures |r| > 0 && r[0] == Optimist && r[|r| - 1] == Moderator
  {
    match mode
    case ModeA => [Optimist, Skeptic, Moderator]
    case ModeB => [Optimist, Competitor, Skeptic, Regulator, Moderator]
    case ModeC => Alternation(ExchangeTurns(maxTurns)) + [Moderator]
  }

  /** The node the graph is at after `k` turns. */
  function NodeAfter(mode: Mode, maxTurns: int, k: nat): Next
  {
    var e := ExpectedOrder(mode, maxTurns);
    if k < |e| then Speak(e[k]) else End
  }

  /** Each edge of each graph leads to the next persona of `ExpectedOrder`, or to the end. */
  lemma SuccessorFollowsOrder(mode: Mode, maxTurns: int, k: nat)
    requires k < |ExpectedOrder(mode, maxTurns)|
    ensures var key := ExpectedOrder(mode, maxTurns)[k];
      Successor(mode, key, k + 1, KeyName(key), maxTurns) == NodeAfter(mode, maxTurns, k + 1)
  {
    if mode == ModeC {
      var n := ExchangeTurns(maxTurns);
      var e := ExpectedOrder(mode, maxTurns);
      if k < n {
        assert e[k] == (if k % 2 == 0 then Optimist else Skeptic);
        if k + 1 < n {
          assert e[k + 1] == (if (k + 1) % 2 == 0 then Optimist else Skeptic);
        } else {
          assert e[k + 1] == Moderator;
        }
      } else {
        assert e[k] == Moderator;
      }
    }
  }

  /** The initial state `run` builds. */
  function InitialState(topic: string, expertId: string, mode: string): (s: DebateState)
    ensures s.turns == 0 && s.messages == [] && s.currentSpeaker == "System"
  {
    DebateState(topic, expertId, [], "System", 0, mode, "start")
  }

  /** What holds of the graph run after `|order|` turns, at node `node`. */
  ghost predicate RunInvariant(cfg: Config, mode: Mode, maxTurns: int, s0: DebateState,
                               s: DebateState, order: seq<PersonaKey>, node: Next)
  {
    var e := ExpectedOrder(mode, maxTurns);
    && |order| <= |e| && order == e[..|order|]
    && node == NodeAfter(mode, maxTurns, |order|)
    && s.turns == |s.messages| == |order|
    && (|order| > 0 ==> s.currentSpeaker == KeyName(order[|order| - 1]))
    && Replies(cfg, s0.topic, s0.expertId, s.messages, order)
    && s.topic == s0.topic && s.expertId == s0.expertId && s.mode == s0.mode && s.status == s0.status
  }

  /** Following one edge from the node reached after `|order|` turns extends the order by that node. */
  lemma OrderStep(mode: Mode, maxTurns: int, order: seq<PersonaKey>, key: PersonaKey)
    requires var e := ExpectedOrder(mode, maxTurns); |order| <= |e| && order == e[..|order|]
    requires Speak(key) == NodeAfter(mode, maxTurns, |order|)
    ensures var e := ExpectedOrder(mode, maxTurns);
      && |order + [key]| <= |e| && order + [key] == e[..|order| + 1]
      && Successor(mode, key, |order| + 1, KeyName(key), maxTurns) == NodeAfter(mode, maxTurns, |order| + 1)
  {
    var e := ExpectedOrder(mode, maxTurns);
    assert key == e[|order|];
    SuccessorFollowsOrder(mode, maxTurns, |order|);
    assert order + [key] == e[..|order| + 1];
  }

  /** One node execution followed by its outgoing edge preserves `RunInvariant`. */
  lemma StepPreservesRun(cfg: Config, mode: Mode, maxTurns: int, s0: DebateState,
                         s: DebateState, order: seq<PersonaKey>, node: Next)
    requires RunInvariant(cfg, mode, maxTurns, s0, s, order, node) && node.Speak? && node.key in cfg.personas
    ensures var s' := Apply(s, GenerateResponse(cfg, s, node.key));
      RunInvariant(cfg, mode, maxTurns, s0, s', order + [node.key],
                   Successor(mode, node.key, s'.turns, s'.currentSpeaker, maxTurns))
  {
    var key := node.key;
    var s' := Apply(s, GenerateResponse(cfg, s, key));
    OrderStep(mode, maxTurns, order, key);
    RepliesExtend(cfg, s0.topic, s0.expertId, s.messages, order, key);
    assert s'.messages == s.messages + [TurnMessage(cfg, s0.topic, s0.expertId, s.messages, key)];
    assert s'.turns == |order| + 1 && s'.currentSpeaker == KeyName(key);
  }

  /**
    Invoking a compiled graph: from the entry node (the Optimist, in every
    mode), apply each node's delta and follow the outgoing edge until the end.
    Mode A takes exactly 3 turns, mode B exactly 5, mode C `2*max_turns`
    alternating Optimist/Skeptic turns then the Moderator; each message is the
    reply of its persona to the transcript before it.
  */
  method Invoke(cfg: Config, mode: Mode, maxTurns: int, s0: DebateState) returns (s: DebateState, order: seq<PersonaKey>)
    requires forall k :: k in ExpectedOrder(mode, maxTurns) ==> k in cfg.personas
    requires s0.messages == [] && s0.turns == 0
    ensures order == ExpectedOrder(mode, maxTurns)
    ensures s.turns == |s.messages| == |order|
    ensures Replies(cfg, s0.topic, s0.expertId, s.messages, order)
    ensures s.currentSpeaker == "P_MOD"
    ensures s.topic == s0.topic && s.expertId == s0.expertId && s.mode == s0.mode && s.status == s0.status
  {
    s := s0;
    order := [];
    var node := Speak(Optimist);
    ghost var e := ExpectedOrder(mode, maxTurns);
    RunStarts(cfg, mode, maxTurns, s0);
    while node.Speak?
      invariant RunInvariant(cfg, mode, maxTurns, s0, s, order, node)
      decreases |e| - |order|
    {
      var key := node.key;
      assert key == e[|order|];
      StepPreservesRun(cfg, mode, maxTurns, s0, s, order, node);
      s := Apply(s, GenerateResponse(cfg, s, key));
      order := order + [key];
      node := Successor(mode, key, s.turns, s.currentSpeaker, maxTurns);
    }
    RunEnds(cfg, mode, maxTurns, s0, s, order);
  }

  lemma RunStarts(cfg: Config, mode: Mode, maxTurns: int, s0: DebateState)
    requires s0.messages == [] && s0.turns == 0
    ensures RunInvariant(cfg, mode, maxTurns, s0, s0, [], Speak(Optimist))
  {
  }

  /** At the end node every persona of the expected order has spoken, the Moderator last. */
  lemma RunEnds(cfg: Config, mode: Mode, maxTurns: int, s0: DebateState, s: DebateState, order: seq<PersonaKey>)
    requires RunInvariant(cfg, mode, maxTurns, s0, s, order, End)
    ensures order == ExpectedOrder(mode, maxTurns) && s.currentSpeaker == "P_MOD"
  {
    var e := ExpectedOrder(mode, maxTurns);
    assert |order| <= |e| && order == e[..|order|] && NodeAfter(mode, maxTurns, |order|) == End;
    assert |order| == |e|;
    PrefixSnoc(e, 0);
    assert order[|order| - 1] == Moderator;
  }

  /** Mode C with at least one round: `2*max_turns + 1` turns, alternating from the Optimist. */
  lemma ModeCShape(maxTurns: int)
    requires maxTurns >= 1
    ensures var e := ExpectedOrder(ModeC, maxTurns);
      && |e| == 2 * maxTurns + 1
      && (forall i :: 0 <= i < 2 * maxTurns ==> e[i] == (if i % 2 == 0 then Optimist else Skeptic))
      && e[2 * maxTurns] == Moderator
  {
  }

  // ---------------------------------------------------------------------------
  // The engine object

  class DebateGraph {
    const cfg: Config
    var maxTurns: int

    /** Settings missing from the configuration fall back to 3 turns, 300 words and k = 3. */
    constructor (personas: map<PersonaKey, Persona>, maxTurnsSetting: Option<int>, maxTokensSetting: Option<int>,
                 retrieveKSetting: Option<int>, llm: seq<Message> -> string, retrieve: (string, int, string) -> seq<string>)
      ensures cfg.personas == personas && cfg.llm == llm && cfg.retrieve == retrieve
      ensures cfg.maxTokens == maxTokensSetting.GetOr(300) && cfg.retrieveK == retrieveKSetting.GetOr(3)
      ensures maxTurns == maxTurnsSetting.GetOr(3)
    {
      cfg := Config(personas, maxTokensSetting.GetOr(300), retrieveKSetting.GetOr(3), llm, retrieve);
      maxTurns := maxTurnsSetting.GetOr(3);
    }

    /**
      `run`: a positive `turns` overrides the per-persona budget (and the
      override persists in the object); the mode letter picks the graph; the
      graph is invoked from the initial state. Every persona the run reaches
      must have an entry (a missing one is a `KeyError`).
    */
    method Run(topic: string, expertId: string, mode: string, turns: Option<int>) returns (final: DebateState, order: seq<PersonaKey>)
      requires var effective := if turns.Some? && turns.value > 0 then turns.value else maxTurns;
        forall k :: k in ExpectedOrder(ModeOf(mode), effective) ==> k in cfg.personas
      modifies this
      ensures maxTurns == if turns.Some? && turns.value > 0 then turns.value else old(maxTurns)
      ensures order == ExpectedOrder(ModeOf(mode), maxTurns)
      ensures final.turns == |final.messages| == |order|
      ensures Replies(cfg, topic, expertId, final.messages, order)
      ensures final.currentSpeaker == "P_MOD"
      ensures final.topic == topic && final.expertId == expertId && final.mode == mode && final.status == "start"
    {
      if turns.Some? && turns.value > 0 {
        maxTurns := turns.value;
      }
      final, order := Invoke(cfg, ModeOf(mode), maxTurns, InitialState(topic, expertId, mode));
    }
  }
}
