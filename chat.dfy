/** The chat flow's own logic: the per-session history registry, the removal
    of earlier fallback answers from the history handed to the model, the
    input record it builds, and the consolidated context built from search
    results. */
module Chat {
  import opened Optional
  import opened Text

  /** The sentence the system prompt tells the model to answer with when the
      context does not hold the answer (without its final full stop). */
  const Fallback: string := "Não tenho informações necessárias para responder sua pergunta"

  /** A message as the filter sees it: the `type` attribute (`kind` here),
      the `role` attribute and the `content` attribute may each be absent. */
  datatype Message = Message(kind: Option<string>, role: Option<string>, content: Option<string>)

  /** Python's `x or y` where `x` is an optional string: `x` when it is
      present and non-empty, `y` otherwise. */
  function OrElse(x: Option<string>, y: string): (r: string)
    ensures x.Some? && x.value != "" ==> r == x.value
    ensures x.None? || x.value == "" ==> r == y
  {
    if x.Some? && x.value != "" then x.value else y
  }

  /** `getattr(m, "type", None) or getattr(m, "role", None) or ""`. */
  function EffectiveRole(m: Message): (r: string)
    ensures m.kind.Some? && m.kind.value != "" ==> r == m.kind.value
    ensures !(m.kind.Some? && m.kind.value != "") && m.role.Some? && m.role.value != "" ==> r == m.role.value
    ensures !(m.kind.Some? && m.kind.value != "") && !(m.role.Some? && m.role.value != "") ==> r == ""
    ensures r == "" || Some(r) == m.kind || Some(r) == m.role
  {
    OrElse(m.kind, OrElse(m.role, ""))
  }

  /** `getattr(m, "content", "")`. */
  function MessageContent(m: Message): (c: string)
    ensures m.content.Some? ==> c == m.content.value
    ensures m.content.None? ==> c == ""
  {
    m.content.GetOr("")
  }

  /** The messages the filter drops: replies of the assistant (role "ai" or
      "assistant") whose content contains the fallback sentence. */
  predicate IsFallbackReply(m: Message)
    ensures IsFallbackReply(m) <==>
      (EffectiveRole(m) == "ai" || EffectiveRole(m) == "assistant") && Occurs(Fallback, MessageContent(m))
  {
    ContainsSubstringCorrect(Fallback, MessageContent(m));
    var role := EffectiveRole(m);
    (role == "ai" || role == "assistant") && ContainsSubstring(Fallback, MessageContent(m))
  }

  /** The history without its fallback replies, in the original order. */
  function Filtered(raw: seq<Message>): (r: seq<Message>)
    ensures |r| <= |raw|
    ensures forall k :: 0 <= k < |r| ==> !IsFallbackReply(r[k])
  {
    if |raw| == 0 then []
    else
      var last := raw[|raw| - 1];
      Filtered(raw[..|raw| - 1]) + (if IsFallbackReply(last) then [] else [last])
  }

  /** The positions of `raw` that the filter keeps, in increasing order. */
  function KeptIndices(raw: seq<Message>): (idx: seq<nat>)
    ensures forall k :: 0 <= k < |idx| ==> idx[k] < |raw| && !IsFallbackReply(raw[idx[k]])
    ensures forall k, l :: 0 <= k < l < |idx| ==> idx[k] < idx[l]
    ensures forall i :: 0 <= i < |raw| && !IsFallbackReply(raw[i]) ==> i in idx
  {
    if |raw| == 0 then []
    else
      var n := |raw| - 1;
      KeptIndices(raw[..n]) + (if IsFallbackReply(raw[n]) then [] else [n])
  }

  /** The filtered history is an order-preserving selection from the raw one:
      its k-th message is the message at the k-th kept position, and a
      position is kept exactly when its message is not a fallback reply. */
  lemma {:induction false} FilteredSelectsKept(raw: seq<Message>)
    ensures |Filtered(raw)| == |KeptIndices(raw)|
    ensures forall k :: 0 <= k < |Filtered(raw)| ==> Filtered(raw)[k] == raw[KeptIndices(raw)[k]]
  {
    if |raw| > 0 {
      var n := |raw| - 1;
      FilteredSelectsKept(raw[..n]);
      forall k | 0 <= k < |Filtered(raw[..n])|
        ensures Filtered(raw)[k] == raw[KeptIndices(raw)[k]]
      {
        assert Filtered(raw)[k] == Filtered(raw[..n])[k];
        assert KeptIndices(raw)[k] == KeptIndices(raw[..n])[k];
      }
    }
  }

  /** A history holding no fallback reply passes through unchanged, and only
      such a history does. */
  lemma {:induction false} FilteredUnchanged(raw: seq<Message>)
    ensures Filtered(raw) == raw <==> forall k :: 0 <= k < |raw| ==> !IsFallbackReply(raw[k])
  {
    if forall k :: 0 <= k < |raw| ==> !IsFallbackReply(raw[k]) {
      if |raw| > 0 {
        var n := |raw| - 1;
        FilteredUnchanged(raw[..n]);
        assert raw[..n] + [raw[n]] == raw;
      }
    }
  }

  /** Filtering twice drops nothing more. */
  lemma FilteredIdempotent(raw: seq<Message>)
    ensures Filtered(Filtered(raw)) == Filtered(raw)
  {
    FilteredUnchanged(Filtered(raw));
  }

  /** Two kept messages followed by a fallback answer: the answer is
      dropped and the other two stay, in order. */
  lemma FallbackAnswerDropped(system: Message, human: Message, answer: Message)
    requires !IsFallbackReply(system) && !IsFallbackReply(human) && IsFallbackReply(answer)
    ensures Filtered([system, human, answer]) == [system, human]
  {
    assert [system][..0] == [];
    assert Filtered([system]) == [system];
    assert [system, human][..1] == [system];
    assert Filtered([system, human]) == [system, human];
    assert [system, human, answer][..2] == [system, human];
  }

  /** The loop of prepare_inputs: builds a new list holding every message but
      the fallback replies. */
  method FilterFallback(raw: seq<Message>) returns (filtered: seq<Message>)
    ensures filtered == Filtered(raw)
  {
    filtered := [];
    for i := 0 to |raw|
      invariant filtered == Filtered(raw[..i])
    {
      var m := raw[i];
      assert raw[..i + 1][..i] == raw[..i];
      var role := EffectiveRole(m);
      var content := MessageContent(m);
      if (role == "ai" || role == "assistant") && ContainsSubstring(Fallback, content) {
        continue;
      }
      filtered := filtered + [m];
    }
    assert raw[..|raw|] == raw;
  }

  /** The payload prepare_inputs receives; each key may be missing. */
  datatype Payload = Payload(pergunta: Option<string>, contexto: Option<string>, rawHistory: Option<seq<Message>>)

  /** The record handed to the prompt template. */
  datatype PreparedInput = PreparedInput(pergunta: string, contexto: string, history: seq<Message>)

  /** prepare_inputs. The library's window trimming is not part of this model:
      it is the parameter `trim`, applied to the filtered history. */
  method PrepareInputs(payload: Payload, trim: seq<Message> -> seq<Message>) returns (r: PreparedInput)
    ensures r.pergunta == (if payload.pergunta.Some? then payload.pergunta.value else "")
    ensures r.contexto == (if payload.contexto.Some? then payload.contexto.value else "")
    ensures payload.rawHistory.None? ==> r.history == trim([])
    ensures payload.rawHistory.Some? ==> r.history == trim(Filtered(payload.rawHistory.value))
  {
    var rawHistory := payload.rawHistory.GetOr([]);
    var filtered := FilterFallback(rawHistory);
    var trimmed := trim(filtered);
    r := PreparedInput(payload.pergunta.GetOr(""), payload.contexto.GetOr(""), trimmed);
  }

  /** One session's chat history (the library's in-memory history object). */
  class ChatHistory {
    var messages: seq<Message>

    constructor ()
      ensures messages == []
    {
      messages := [];
    }
  }

  /** The process-wide registry from session id to that session's history. */
  class SessionRegistry {
    var sessions: map<string, ChatHistory>

    /** Each session owns its own history object. */
    ghost predicate Valid()
      reads this
    {
      forall a, b :: a in sessions && b in sessions && a != b ==> sessions[a] != sessions[b]
    }

    /** The registry is empty when the process starts. */
    constructor ()
      ensures Valid() && sessions == map[]
    {
      sessions := map[];
    }

    /** get_session_history: the session's history, created empty and
        registered on first use. */
    method GetSessionHistory(sessionId: string) returns (h: ChatHistory)
      requires Valid()
      modifies this
      ensures Valid()
      ensures sessionId in sessions && sessions[sessionId] == h
      ensures old(sessionId in sessions) ==> h == old(sessions[sessionId]) && sessions == old(sessions)
      ensures old(sessionId !in sessions) ==> fresh(h) && h.messages == [] && sessions == old(sessions)[sessionId := h]
    {
      if sessionId !in sessions {
        var created := new ChatHistory();
        sessions := sessions[sessionId := created];
      }
      h := sessions[sessionId];
    }

    /** Two lookups of one session yield the very same history object, and the
        second leaves the registry as the first left it. */
    method LookupTwice(sessionId: string) returns (h1: ChatHistory, h2: ChatHistory)
      requires Valid()
      modifies this
      ensures Valid()
      ensures h1 == h2 && sessionId in sessions && sessions[sessionId] == h1
      ensures old(sessionId in sessions) ==> sessions == old(sessions)
      ensures old(sessionId !in sessions) ==> sessions == old(sessions)[sessionId := h1]
    {
      h1 := GetSessionHistory(sessionId);
      ghost var afterFirst := sessions;
      h2 := GetSessionHistory(sessionId);
      assert sessions == afterFirst;
    }
  }

  /** One search result: a document's text and its similarity score. */
  datatype SearchHit = SearchHit(pageContent: string, score: real)

  /** How many characters of each document go into the context. */
  const SnippetLength: nat := 300

  /** `page_content[:300].replace("\n", " ")`. */
  function Snippet(text: string): (s: string)
    ensures |s| == if |text| < SnippetLength then |text| else SnippetLength
    ensures '\n' !in s
    ensures forall i :: 0 <= i < |s| ==> s[i] == (if text[i] == '\n' then ' ' else text[i])
  {
    ReplaceNewlines(if |text| <= SnippetLength then text else text[..SnippetLength])
  }

  /** The snippets of the results, in result order. */
  function Snippets(results: seq<SearchHit>): (r: seq<string>)
    ensures |r| == |results|
    ensures forall i :: 0 <= i < |r| ==> r[i] == Snippet(results[i].pageContent)
  {
    seq(|results|, i requires 0 <= i < |results| => Snippet(results[i].pageContent))
  }

  /** The context step of the chat loop: with no results the chat prints a
      message and returns from `main`, ending the whole session (None);
      otherwise the snippets joined by newlines. */
  method AssembleContext(results: seq<SearchHit>) returns (r: Option<string>)
    ensures r.None? <==> |results| == 0
    ensures r.Some? ==> r.value == JoinLines(Snippets(results))
  {
    if |results| == 0 {
      return None;
    }
    var docsText: seq<string> := [];
    for i := 0 to |results|
      invariant docsText == Snippets(results[..i])
    {
      var snippet := Snippet(results[i].pageContent);
      docsText := docsText + [snippet];
    }
    assert results[..|results|] == results;
    r := Some(JoinLines(docsText));
  }

  /** The consolidated context holds exactly one newline between consecutive
      snippets and no other, and splitting it at newlines gives the snippets
      back in result order. */
  lemma ContextLayout(results: seq<SearchHit>)
    requires |results| >= 1
    ensures CountChar(JoinLines(Snippets(results)), '\n') == |results| - 1
    ensures SplitLines(JoinLines(Snippets(results))) == Snippets(results)
  {
    JoinLinesNewlineCount(Snippets(results));
    SplitJoinLines(Snippets(results));
  }
}
