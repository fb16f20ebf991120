/** The conversation history kept for the chat endpoint, and how the
    generate-routine button and the follow-up form change it. The outcome of
    each POST is an input: the reply text on success, or a failure. */
module Chat {

  import opened Options
  import opened Catalog

  datatype Role = System | User | Assistant

  datatype Message = Message(role: Role, content: string)

  /** Outcome of one POST: the assistant text found in the response envelope,
      or any network, JSON or envelope-shape failure. */
  datatype Reply = Success(text: string) | Failure

  /** The JSON body POSTed to the chat endpoint. */
  datatype Request = Request(messages: seq<Message>, model: string)

  /** The history after an operation, and the request it issued, if any. */
  datatype Turn = Turn(history: seq<Message>, sent: Option<Request>)

  const ModelName: string := "gpt-4o"

  const AdvisorInstruction: string :=
    "You are a L'Oréal skincare and beauty advisor. Build a personalized routine using only the provided products. Explain the order and purpose of each step. Be friendly and clear."

  /** The instruction that opens every routine conversation. */
  function SystemMessage(): Message
  {
    Message(System, AdvisorInstruction)
  }

  /** The text block describing one selected product. */
  function ProductBlock(p: Product): string
  {
    "Name: " + p.name + "\nBrand: " + p.brand + "\nCategory: " + p.category + "\nDescription: " + p.description
  }

  /** One block per selected product, separated by blank lines. */
  function ProductBlocks(sel: seq<Product>): string
  {
    if sel == [] then ""
    else if |sel| == 1 then ProductBlock(sel[0])
    else ProductBlock(sel[0]) + "\n\n" + ProductBlocks(sel[1..])
  }

  /** The user message that hands the selection to the advisor. */
  function SelectionPrompt(sel: seq<Product>): Message
  {
    Message(User, "Here are my selected products:\n\n" + ProductBlocks(sel) + "\n\nPlease create a routine for me.")
  }

  /** The reply appended to the history on success; nothing on failure. */
  function Answer(reply: Reply): seq<Message>
  {
    match reply
    case Success(text) => [Message(Assistant, text)]
    case Failure => []
  }

  /** The routine request: the history is reset to the system and selection
      messages before the POST, whatever it held, and the reply is appended
      only on success. */
  function RoutineWithAI(sel: seq<Product>, reply: Reply): (t: Turn)
    ensures t.sent == Some(Request([SystemMessage(), SelectionPrompt(sel)], ModelName))
    ensures reply.Failure? ==> t.history == [SystemMessage(), SelectionPrompt(sel)]
    ensures reply.Success? ==> t.history == [SystemMessage(), SelectionPrompt(sel), Message(Assistant, reply.text)]
  {
    var opening := [SystemMessage(), SelectionPrompt(sel)];
    Turn(opening + Answer(reply), Some(Request(opening, ModelName)))
  }

  /** The generate-routine button: with nothing selected no request is issued
      and the history is left alone. */
  function GenerateClicked(sel: seq<Product>, history: seq<Message>, reply: Reply): (t: Turn)
    ensures t.sent.None? <==> sel == []
    ensures sel == [] ==> t.history == history
    ensures sel != [] ==> Started(t.history) && t.history[1] == SelectionPrompt(sel)
    ensures sel != [] ==> |t.history| == if reply.Success? then 3 else 2
    ensures sel != [] ==> t.sent == Some(Request(t.history[..2], ModelName))
    ensures sel != [] && reply.Success? ==> t.history[2] == Message(Assistant, reply.text)
  {
    if |sel| == 0 then Turn(history, None)
    else RoutineWithAI(sel, reply)
  }

  /** The follow-up form: the user turn is appended before the POST and sent
      with the whole history; the reply is appended only on success, and the
      user turn is kept on failure. */
  function FollowUp(history: seq<Message>, text: string, reply: Reply): (t: Turn)
    ensures t.sent == Some(Request(history + [Message(User, text)], ModelName))
    ensures |t.history| == |history| + (if reply.Success? then 2 else 1)
    ensures t.history[..|history|] == history
    ensures t.history[|history|] == Message(User, text)
    ensures reply.Success? ==> t.history[|history| + 1] == Message(Assistant, reply.text)
  {
    var asked := history + [Message(User, text)];
    Turn(asked + Answer(reply), Some(Request(asked, ModelName)))
  }

  /** A conversation opened by the generate-routine button: the system
      instruction, then the user message describing the selection. */
  predicate Started(h: seq<Message>)
  {
    |h| >= 2 && h[0] == SystemMessage() && h[1].role == User
  }

  /** The shape every reachable history has: a system message can only open
      it, and every assistant message answers the user message just before it. */
  predicate Coherent(h: seq<Message>)
  {
    && (forall i :: 0 < i < |h| ==> h[i].role != System)
    && (forall i :: 0 <= i < |h| && h[i].role == Assistant ==> 0 < i && h[i - 1].role == User)
  }

  /** The generate-routine button keeps the history coherent. */
  lemma GenerateKeepsCoherent(sel: seq<Product>, history: seq<Message>, reply: Reply)
    requires Coherent(history)
    ensures Coherent(GenerateClicked(sel, history, reply).history)
  {
  }

  /** A follow-up keeps the history coherent, whatever the endpoint answers. */
  lemma FollowUpKeepsCoherent(history: seq<Message>, text: string, reply: Reply)
    requires Coherent(history)
    ensures Coherent(FollowUp(history, text, reply).history)
  {
    var h := FollowUp(history, text, reply).history;
    forall i | 0 <= i < |h| && h[i].role == Assistant
      ensures 0 < i && h[i - 1].role == User
    {
      if i < |history| {
        assert h[i] == history[i] && h[i - 1] == history[i - 1];
      }
    }
    forall i | 0 < i < |h| ensures h[i].role != System {
      if i < |history| {
        assert h[i] == history[i];
      }
    }
  }

  /** Follow-ups never disturb the opening of a routine conversation. */
  lemma FollowUpKeepsStarted(history: seq<Message>, text: string, reply: Reply)
    requires Started(history)
    ensures Started(FollowUp(history, text, reply).history)
    ensures FollowUp(history, text, reply).history[..2] == history[..2]
  {
    var h := FollowUp(history, text, reply).history;
    assert h[..2] == h[..|history|][..2];
  }

  /** A failed follow-up followed by a successful one leaves both user turns
      in the history, in order, and only the second one answered. */
  lemma FailedFollowUpIsNotRolledBack(history: seq<Message>, first: string, second: string, text: string)
    ensures FollowUp(FollowUp(history, first, Failure).history, second, Success(text)).history
            == history + [Message(User, first), Message(User, second), Message(Assistant, text)]
  {
  }
}
