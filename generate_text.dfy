/** The text-generation Lambda of the avatar demo: it runs a retrieval-augmented
    chain on the user's question and the client-held chat history, appends
    the new turn to that history and answers with status 200, wildcard CORS
    headers and a JSON body `{answer, chatHistory}`. The chain (retriever, prompt
    template, model) is a parameter of the handler. */
module GenerateText {
  import opened Wrappers
  import opened Strings
  import opened Http
  import opened Json

  /** JavaScript truthiness of a string that may be `undefined`. */
  predicate Truthy(v: Option<string>)
  {
    v.Some? && v.value != ""
  }

  /** What a template literal writes for a string that may be `undefined`. */
  function Show(v: Option<string>): string
  {
    match v
    case Some(s) => s
    case None => "undefined"
  }

  /** The flattened text of one turn. */
  function NewInteraction(human: string, assistant: string): (r: string)
    ensures "\n\nHuman: " <= r
    ensures |assistant| <= |r| && r[|r| - |assistant|..] == assistant
  {
    "\n\nHuman: " + human + ".\n\nAssistant:" + assistant
  }

  /** `formatChatHistory`: the new turn alone when there is no previous history,
      otherwise the previous history, a blank line and the new turn. */
  function FormatChatHistory(human: string, assistant: string, previous: Option<string>): (r: string)
    ensures |NewInteraction(human, assistant)| <= |r|
    ensures r[|r| - |NewInteraction(human, assistant)|..] == NewInteraction(human, assistant)
    ensures !Truthy(previous) ==> |r| == |NewInteraction(human, assistant)|
    ensures Truthy(previous) ==> previous.value + "\n\n" <= r
    ensures Truthy(previous) ==> |r| == |previous.value| + 2 + |NewInteraction(human, assistant)|
    ensures r != ""
  {
    var newInteraction := NewInteraction(human, assistant);
    if !Truthy(previous) then newInteraction
    else previous.value + "\n\n" + newInteraction
  }

  /** A first turn is exactly the new fragment, with no leading separator. */
  lemma FirstTurn(human: string, assistant: string, previous: Option<string>)
    requires !Truthy(previous)
    ensures FormatChatHistory(human, assistant, previous) == "\n\nHuman: " + human + ".\n\nAssistant:" + assistant
  {
  }

  /** A later turn is exactly the previous history, a blank line and the fragment. */
  lemma LaterTurn(human: string, assistant: string, previous: string)
    requires previous != ""
    ensures FormatChatHistory(human, assistant, Some(previous)) == previous + "\n\n" + NewInteraction(human, assistant)
  {
  }

  /** Two successive turns: the second history starts with the whole first one. */
  lemma TwoTurns(h1: string, a1: string, previous: Option<string>, h2: string, a2: string)
    ensures var first := FormatChatHistory(h1, a1, previous);
      first + "\n\n" <= FormatChatHistory(h2, a2, Some(first))
  {
  }

  // ---------------------------------------------------------------------------
  // A conversation as the client replays it: each response's history is sent
  // back unchanged with the next question.

  datatype Turn = Turn(human: string, assistant: string)

  /** The history after the given turns; `None` before the first one. The page
      starts from the empty history `''`, which `FormatChatHistory` treats like
      an absent one (`FirstTurn`), so both starts give the same histories. Each
      turn's history is the previous one extended by that turn's fragment. */
  function Replay(turns: seq<Turn>): (r: Option<string>)
    ensures r.Some? <==> |turns| > 0
    ensures |turns| > 0 ==>
      var last := turns[|turns| - 1];
      var fragment := NewInteraction(last.human, last.assistant);
      && r.value != ""
      && |fragment| <= |r.value| && r.value[|r.value| - |fragment|..] == fragment
  {
    if turns == [] then None
    else
      var last := turns[|turns| - 1];
      Some(FormatChatHistory(last.human, last.assistant, Replay(turns[..|turns| - 1])))
  }

  /** The fragment of every turn, in order. */
  function Fragments(turns: seq<Turn>): (r: seq<string>)
    ensures |r| == |turns|
    ensures forall i :: 0 <= i < |turns| ==> r[i] == NewInteraction(turns[i].human, turns[i].assistant)
  {
    if turns == [] then []
    else
      var last := turns[|turns| - 1];
      Fragments(turns[..|turns| - 1]) + [NewInteraction(last.human, last.assistant)]
  }

  /** The history is the turns' fragments in order, separated by blank lines:
      no turn is ever rewritten, dropped or reordered. */
  lemma {:induction false} ReplayIsJoin(turns: seq<Turn>)
    requires |turns| > 0
    ensures Replay(turns) == Some(Join(Fragments(turns), "\n\n"))
  {
    var n := |turns|;
    var init := turns[..n - 1];
    var last := turns[n - 1];
    var fragment := NewInteraction(last.human, last.assistant);
    var fs := Fragments(turns);
    if n == 1 {
      assert fs == [fragment];
      assert Replay(turns) == Some(FormatChatHistory(last.human, last.assistant, None));
    } else {
      ReplayIsJoin(init);
      var previous := Join(Fragments(init), "\n\n");
      assert fs == Fragments(init) + [fragment];
      JoinSnoc(Fragments(init), "\n\n", fragment);
      assert Replay(init) == Some(previous);
      assert previous != "";
      LaterTurn(last.human, last.assistant, previous);
      assert Replay(turns) == Some(FormatChatHistory(last.human, last.assistant, Some(previous)));
    }
  }

  /** Replaying one more turn extends the previous history by a blank line and
      that turn's fragment, so the previous history is a prefix. */
  lemma ReplayExtends(turns: seq<Turn>)
    requires |turns| > 1
    ensures Replay(turns[..|turns| - 1]).Some? && Replay(turns).Some?
    ensures Replay(turns[..|turns| - 1]).value <= Replay(turns).value
  {
    var b := Replay(turns[..|turns| - 1]).value;
    var last := turns[|turns| - 1];
    assert Replay(turns).value == FormatChatHistory(last.human, last.assistant, Some(b));
    assert b + "\n\n" <= Replay(turns).value;
  }

  lemma PrefixTransitive(a: string, b: string, c: string)
    requires a <= b && b <= c
    ensures a <= c
  {
    assert a == b[..|a|] && b == c[..|b|];
  }

  /** Every earlier history is a prefix of every later one. */
  lemma {:induction false} ReplayGrows(turns: seq<Turn>, i: nat)
    requires 0 < i <= |turns|
    ensures Replay(turns[..i]).Some? && Replay(turns).Some?
    ensures Replay(turns[..i]).value <= Replay(turns).value
  {
    if i < |turns| {
      var init := turns[..|turns| - 1];
      assert init[..i] == turns[..i];
      ReplayGrows(init, i);
      ReplayExtends(turns);
      PrefixTransitive(Replay(turns[..i]).value, Replay(init).value, Replay(turns).value);
    } else {
      assert turns[..i] == turns;
    }
  }

  // ---------------------------------------------------------------------------
  // The handler

  /** `event.queryStringParameters`; a missing parameter is `undefined`. */
  datatype QueryParams = QueryParams(userPrompt: Option<string>, chatHistory: Option<string>)

  /** API Gateway passes `null` query parameters when the request has none. */
  datatype Event = Event(queryStringParameters: Option<QueryParams>)

  datatype HandlerError =
    | TypeError            // destructuring `null` query parameters
    | ChainError(message: string)   // the chain rejected; the handler does not catch it

  /** The retrieval chain, from `{chatHistory, question}` to the parsed model output. */
  type Chain = (Option<string>, Option<string>) -> Result<string, string>

  /** `JSON.stringify({answer, chatHistory})`: a text that decodes to exactly
      those two fields, in that order. */
  function AnswerBody(answer: string, chatHistory: string): (r: string)
    ensures ParseObject(r) == Some([("answer", answer), ("chatHistory", chatHistory)])
  {
    ObjectRoundTrip([("answer", answer), ("chatHistory", chatHistory)]);
    StringifyObject([("answer", answer), ("chatHistory", chatHistory)])
  }

  /** `handler`: unpack the query, run the chain, update the history
      from the question, the answer and the incoming history, and package the
      response. A chain failure propagates and yields no response at all. */
  method Handler(event: Event, chain: Chain) returns (r: Result<Response<string>, HandlerError>)
    ensures event.queryStringParameters.None? ==> r == Failure(TypeError)
    ensures event.queryStringParameters.Some? ==>
      var p := event.queryStringParameters.value;
      var outcome := chain(p.chatHistory, p.userPrompt);
      && (outcome.Failure? ==> r == Failure(ChainError(outcome.error)))
      && (outcome.Success? ==>
            var history := FormatChatHistory(Show(p.userPrompt), outcome.value, p.chatHistory);
            && r.Success?
            && IsCorsOk(r.value)
            && r.value.body == AnswerBody(outcome.value, history)
            && ParseObject(r.value.body) == Some([("answer", outcome.value), ("chatHistory", history)]))
  {
    if event.queryStringParameters.None? {
      return Failure(TypeError);
    }
    var userPrompt := event.queryStringParameters.value.userPrompt;
    var chatHistory := event.queryStringParameters.value.chatHistory;
    var result := chain(chatHistory, userPrompt);
    if result.Failure? {
      return Failure(ChainError(result.error));
    }
    var updated := FormatChatHistory(Show(userPrompt), result.value, chatHistory);
    chatHistory := Some(updated);
    var response := Response(
      200,
      map["Access-Control-Allow-Origin" := "*", "Access-Control-Allow-Headers" := "*"],
      AnswerBody(result.value, updated));
    r := Success(response);
  }
}
