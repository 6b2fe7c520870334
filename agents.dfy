/** `AgentService`: a dictionary of agents keyed by id, intent recognition by the language
    model, and the dispatch of a user message by intent. Loading from and saving to the agent
    files is left out; the directory listing becomes the agents it held, in listing order. */
module Agents {
  import opened Wrappers
  import opened Text

  datatype Agent = Agent(id: string, name: string, description: string, prompt: string, functions: seq<string>)

  /** Agents with pairwise different ids: the values of a dictionary keyed by id. */
  ghost predicate UniqueIds(es: seq<Agent>) {
    forall i, j :: 0 <= i < j < |es| ==> es[i].id != es[j].id
  }

  /** Where the agent with `id` stands. */
  function Find(es: seq<Agent>, id: string): (r: Option<nat>)
    ensures r.Some? ==> r.value < |es| && es[r.value].id == id
    ensures r.None? ==> forall i :: 0 <= i < |es| ==> es[i].id != id
  {
    if es == [] then None
    else if es[0].id == id then Some(0)
    else match Find(es[1..], id)
      case None => None
      case Some(k) => Some(k + 1)
  }

  /** `d.get(id)`. */
  function Lookup(es: seq<Agent>, id: string): Option<Agent> {
    match Find(es, id)
    case None => None
    case Some(i) => Some(es[i])
  }

  /** With unique ids, an agent is found where it stands. */
  lemma LookupAt(es: seq<Agent>, i: nat)
    requires UniqueIds(es) && i < |es|
    ensures Find(es, es[i].id) == Some(i) && Lookup(es, es[i].id) == Some(es[i])
  {
  }

  /** `d[a.id] = a`: the agent replaces the one with its id where that one stands, and
      otherwise goes last, as a Python `dict` keeps insertion order. */
  function Store(es: seq<Agent>, a: Agent): (r: seq<Agent>)
    ensures |r| == |es| + (if Find(es, a.id).None? then 1 else 0)
  {
    match Find(es, a.id)
    case Some(i) => es[i := a]
    case None => es + [a]
  }

  /** After storing, the id gives the new agent, every other id what it gave before, and the
      ids stay unique. */
  lemma StoreLookup(es: seq<Agent>, a: Agent, id: string)
    requires UniqueIds(es)
    ensures UniqueIds(Store(es, a))
    ensures Lookup(Store(es, a), id) == if id == a.id then Some(a) else Lookup(es, id)
  {
    var r := Store(es, a);
    if Find(es, a.id).None? {
      assert forall k :: 0 <= k < |es| ==> r[k] == es[k];
      LookupAt(r, |es|);
      if id != a.id && Find(es, id).Some? {
        LookupAt(r, Find(es, id).value);
      }
      if id != a.id && Find(es, id).None? {
        assert forall k :: 0 <= k < |r| ==> r[k].id != id;
      }
    } else {
      var i := Find(es, a.id).value;
      LookupAt(r, i);
      if id != a.id && Find(es, id).Some? {
        LookupAt(r, Find(es, id).value);
      }
      if id != a.id && Find(es, id).None? {
        assert forall k :: 0 <= k < |r| ==> r[k].id != id;
      }
    }
  }

  /** `del d[id]`: the agents without the one with `id`, the others in order. */
  function Remove(es: seq<Agent>, id: string): (r: seq<Agent>)
    ensures |r| == |es| - (if Find(es, id).Some? then 1 else 0)
  {
    match Find(es, id)
    case None => es
    case Some(i) => es[..i] + es[i + 1..]
  }

  /** After removing, the id gives nothing, every other id what it gave before, and the ids
      stay unique. */
  lemma RemoveLookup(es: seq<Agent>, id: string, other: string)
    requires UniqueIds(es)
    ensures UniqueIds(Remove(es, id))
    ensures Lookup(Remove(es, id), other) == if other == id then None else Lookup(es, other)
  {
    if Find(es, id).Some? {
      var i := Find(es, id).value;
      var r := Remove(es, id);
      assert forall k :: 0 <= k < |r| ==> r[k] == (if k < i then es[k] else es[k + 1]);
      assert forall k :: 0 <= k < |r| ==> r[k].id != id;
      if other != id && Find(es, other).Some? {
        var j := Find(es, other).value;
        LookupAt(r, if j < i then j else j - 1);
      }
      if other != id && Find(es, other).None? {
        assert forall k :: 0 <= k < |r| ==> r[k].id != other;
      }
    }
  }

  /** `_load_agents`: the stored agents stored one after another, a later file replacing an
      earlier one with the same id. */
  function Load(stored: seq<Agent>): seq<Agent>
    decreases |stored|
  {
    if stored == [] then [] else Store(Load(stored[..|stored| - 1]), stored[|stored| - 1])
  }

  /** The last of the stored agents with `id`. */
  function LastWith(stored: seq<Agent>, id: string): (r: Option<Agent>)
    ensures r.None? <==> forall i :: 0 <= i < |stored| ==> stored[i].id != id
    ensures r.Some? ==> exists i :: 0 <= i < |stored| && r == Some(stored[i])
                                    && forall j :: i < j < |stored| ==> stored[j].id != id
    decreases |stored|
  {
    if stored == [] then None
    else if stored[|stored| - 1].id == id then Some(stored[|stored| - 1])
    else
      var init := stored[..|stored| - 1];
      var r := LastWith(init, id);
      assert forall i :: 0 <= i < |init| ==> init[i] == stored[i];
      r
  }

  /** The loaded dictionary has unique ids and gives, for each id, the last agent stored with
      it, and nothing for an id no file holds. */
  lemma {:induction false} LoadContents(stored: seq<Agent>, id: string)
    ensures UniqueIds(Load(stored))
    ensures Lookup(Load(stored), id) == LastWith(stored, id)
  {
    if stored != [] {
      var init := stored[..|stored| - 1];
      var last := stored[|stored| - 1];
      LoadContents(init, id);
      StoreLookup(Load(init), last, id);
    }
  }

  /** `str(len(self.agents) + 1)`. */
  function NewId(es: seq<Agent>): string {
    NatToString(|es| + 1)
  }

  /** The dictionary after `create_agent`: the new agent under `NewId`, replacing any agent
      already stored there. */
  function Created(es: seq<Agent>, name: string, description: string, prompt: string,
                   functions: seq<string>): (r: seq<Agent>)
    ensures Find(es, NewId(es)).Some? ==> |r| == |es|
    ensures Find(es, NewId(es)).None? ==> |r| == |es| + 1
  {
    Store(es, Agent(NewId(es), name, description, prompt, functions))
  }

  /** After the first of two agents is deleted, creating one reuses the second one's id and
      replaces it: ids are not unique over time. */
  lemma CreateAfterDeleteReplaces(first: Agent, second: Agent, name: string, description: string,
                                  prompt: string, functions: seq<string>)
    requires first.id == "1" && second.id == "2"
    ensures var es := Remove([first, second], "1");
      NewId(es) == "2" && Created(es, name, description, prompt, functions) == [Agent("2", name, description, prompt, functions)]
  {
    assert Find([first, second], "1") == Some(0);
    var es := Remove([first, second], "1");
    assert es == [second];
    assert NatToString(2) == "2";
    assert Find(es, "2") == Some(0);
  }

  /** An intent code of `get_intent`. */
  datatype Intent = ChatIntent | QueryIntent | AgentIntent

  function Code(i: Intent): string {
    match i
    case ChatIntent => "CHAT"
    case QueryIntent => "QUERY"
    case AgentIntent => "AGENT"
  }

  /** `get_intent` given the model's `response` text, or the failure of the request or of
      reading its JSON: the normalised reply when it is one of the codes, chat otherwise. */
  function IntentOf(reply: Result<string, string>): (r: Intent)
    ensures reply.Err? ==> r == ChatIntent
  {
    if reply.Err? then ChatIntent
    else
      var code := Upper(Strip(reply.value));
      if code == "QUERY" then QueryIntent
      else if code == "AGENT" then AgentIntent
      else ChatIntent
  }

  /** The recognised intent is the one whose code is the stripped, upper-cased reply, and chat
      when the reply is none of them. */
  lemma IntentOfCode(s: string, i: Intent)
    ensures IntentOf(Ok(s)) == i <==>
      Upper(Strip(s)) == Code(i)
      || (i == ChatIntent && forall j: Intent :: Upper(Strip(s)) != Code(j))
  {
    var c := Upper(Strip(s));
    assert "CHAT" != "QUERY" && "CHAT" != "AGENT" && "QUERY" != "AGENT" by {
      assert |"CHAT"| == 4 && "QUERY"[0] != "AGENT"[0];
    }
    if forall j: Intent :: c != Code(j) {
      assert c != Code(QueryIntent) && c != Code(AgentIntent);
    } else {
      var j: Intent :| c == Code(j);
      assert IntentOf(Ok(s)) == j;
    }
  }

  /** A reply that is exactly a code is recognised as that intent. */
  lemma IntentOfItsCode(i: Intent)
    ensures IntentOf(Ok(Code(i))) == i
  {
    StripNoOp(Code(i));
    assert Upper(Code(i)) == Code(i);
  }

  /** A reply in lower case with surrounding whitespace is still recognised. */
  lemma IntentIgnoresCaseAndWhitespace()
    ensures IntentOf(Ok(" query\n")) == QueryIntent
  {
    var s := " query\n";
    assert TrimLeft(s) == TrimLeft(s[1..]) && s[1..] == "query\n";
    assert TrimLeft("query\n") == "query\n";
    assert TrimRight("query\n") == "query";
    assert Strip(s) == "query";
    assert Upper("query") == "QUERY";
  }

  /** Where `process_message` sends a message. */
  datatype Handler = RagHandler | AgentHandler(agentId: string) | ChatHandler

  /** `process_message`'s dispatch: a query to retrieval, an agent request to the agent named
      by a non-empty id, everything else to chat. */
  function Dispatch(intent: Intent, agentId: Option<string>): (h: Handler)
    ensures h == RagHandler <==> intent == QueryIntent
    ensures h.AgentHandler? <==> intent == AgentIntent && agentId.Some? && agentId.value != []
    ensures h.AgentHandler? ==> h.agentId == agentId.value
  {
    if intent == QueryIntent then RagHandler
    else if intent == AgentIntent && agentId.Some? && agentId.value != [] then AgentHandler(agentId.value)
    else ChatHandler
  }

  /** An `{"type": …, "content": …}` item yielded by the agent handler. */
  datatype AgentEvent = AgentError(content: string) | AgentMessage(content: string)

  const AgentNotFoundMessage := "Agent not found"

  /** The reply of `handle_agent_request` to an agent. */
  function AgentReply(agent: Agent, message: string): string {
    "使用 " + agent.name + " 处理消息: " + message
  }

  /** The values of the dictionary are exactly the agents its ids give. */
  lemma ListedExactly(es: seq<Agent>)
    ensures UniqueIds(es) ==> forall a :: a in es <==> Lookup(es, a.id) == Some(a)
  {
    if UniqueIds(es) {
      forall a | a in es ensures Lookup(es, a.id) == Some(a) {
        var i :| 0 <= i < |es| && es[i] == a;
        LookupAt(es, i);
      }
    }
  }

  class AgentService {
    /** The agent dictionary, in insertion order. */
    var agents: seq<Agent>

    ghost predicate Valid()
      reads this
    {
      UniqueIds(agents)
    }

    /** `_load_agents`, given the agents of the files in listing order. */
    constructor(stored: seq<Agent>)
      ensures agents == Load(stored) && Valid()
    {
      var loaded := [];
      var i := 0;
      while i < |stored|
        invariant i <= |stored|
        invariant loaded == Load(stored[..i])
      {
        assert stored[..i + 1][..i] == stored[..i];
        loaded := Store(loaded, stored[i]);
        i := i + 1;
      }
      assert stored[..i] == stored;
      LoadContents(stored, "");
      agents := loaded;
    }

    method CreateAgent(name: string, description: string, prompt: string, functions: seq<string>) returns (agent: Agent)
      requires Valid()
      modifies this
      ensures Valid()
      ensures agent == Agent(NewId(old(agents)), name, description, prompt, functions)
      ensures agents == Created(old(agents), name, description, prompt, functions)
    {
      var id := NatToString(|agents| + 1);
      agent := Agent(id, name, description, prompt, functions);
      StoreLookup(agents, agent, id);
      agents := Store(agents, agent);
    }

    /** `get_agent`: the agent stored under `id`, if any. */
    function GetAgent(id: string): (r: Option<Agent>)
      reads this
      ensures r.Some? ==> r.value.id == id && r.value in agents
      ensures r.None? <==> forall a :: a in agents ==> a.id != id
    {
      Lookup(agents, id)
    }

    /** `update_agent`: replaces a known agent where it stands, keeping its id; an unknown id
        changes nothing. */
    method UpdateAgent(id: string, name: string, description: string, prompt: string, functions: seq<string>)
      returns (r: Option<Agent>)
      requires Valid()
      modifies this
      ensures Valid()
      ensures old(GetAgent(id)).None? ==> r == None && agents == old(agents)
      ensures old(GetAgent(id)).Some? ==> (r == Some(Agent(id, name, description, prompt, functions))
                                          && agents == Store(old(agents), r.value))
    {
      if Find(agents, id).None? {
        return None;
      }
      var agent := Agent(id, name, description, prompt, functions);
      StoreLookup(agents, agent, id);
      agents := Store(agents, agent);
      return Some(agent);
    }

    /** `delete_agent`; `fileRemoved` is whether `os.remove` succeeded. */
    method DeleteAgent(id: string, fileRemoved: bool) returns (deleted: bool)
      requires Valid()
      modifies this
      ensures Valid()
      ensures deleted <==> old(GetAgent(id)).Some? && fileRemoved
      ensures deleted ==> agents == Remove(old(agents), id)
      ensures !deleted ==> agents == old(agents)
    {
      if Find(agents, id).None? {
        return false;
      }
      if !fileRemoved {
        return false;
      }
      RemoveLookup(agents, id, id);
      agents := Remove(agents, id);
      return true;
    }

    /** `list_agents`: the stored agents, in insertion order. */
    function ListAgents(): (r: seq<Agent>)
      reads this
      ensures |r| == |agents|
      ensures Valid() ==> forall a :: a in r <==> GetAgent(a.id) == Some(a)
    {
      ListedExactly(agents);
      agents
    }

    /** `handle_agent_request`: one item, an error for an unknown agent. */
    function HandleAgentRequest(message: string, agentId: string): (r: seq<AgentEvent>)
      reads this
      ensures |r| == 1
      ensures r[0] == AgentError(AgentNotFoundMessage) <==> GetAgent(agentId).None?
      ensures GetAgent(agentId).Some? ==> r[0] == AgentMessage(AgentReply(GetAgent(agentId).value, message))
    {
      match GetAgent(agentId)
      case None => [AgentError(AgentNotFoundMessage)]
      case Some(agent) => [AgentMessage(AgentReply(agent, message))]
    }

    /** `process_message`: the handler for the recognised intent and, when that is the agent
        handler, the items it yields. */
    function ProcessMessage(message: string, reply: Result<string, string>, agentId: Option<string>):
      (r: (Handler, seq<AgentEvent>))
      reads this
      ensures r.0 == Dispatch(IntentOf(reply), agentId)
      ensures r.0.AgentHandler? ==> r.1 == HandleAgentRequest(message, r.0.agentId)
      ensures !r.0.AgentHandler? ==> r.1 == []
    {
      var h := Dispatch(IntentOf(reply), agentId);
      if h.AgentHandler? then (h, HandleAgentRequest(message, h.agentId)) else (h, [])
    }

    /** An agent request naming an unknown agent yields a single error and nothing else. */
    lemma UnknownAgent(message: string, reply: Result<string, string>, id: string)
      requires IntentOf(reply) == AgentIntent && id != [] && GetAgent(id).None?
      ensures ProcessMessage(message, reply, Some(id)) == (AgentHandler(id), [AgentError(AgentNotFoundMessage)])
    {
    }
  }
}
