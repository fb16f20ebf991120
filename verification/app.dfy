/** The page as a whole: the selection, the cards on the grid and the
    conversation history, driven by the events the page reacts to. Loaded
    catalogues and chat replies arrive as event data. */
module App {

  import opened Catalog
  import opened Selection
  import opened Grid
  import opened Chat

  datatype State = State(selection: seq<Product>, grid: seq<Card>, history: seq<Message>)

  datatype Event =
    | CatalogShown(products: seq<Product>)
    | CategoryChosen(products: seq<Product>, category: string)
    | CardClicked(product: Product)
    | RemoveClicked(index: int)
    | GenerateRoutine(reply: Reply)
    | FollowUpAsked(text: string, reply: Reply)

  /** The page right after start-up, with the selection read back from storage. */
  function Initial(saved: seq<Product>): (s: State)
    ensures s.selection == saved && s.grid == [] && s.history == []
  {
    State(saved, [], [])
  }

  /** One event handler run to completion. Selection changes re-apply the
      highlight to the cards already on the grid; chat events touch only the
      history. */
  function Step(s: State, e: Event): (s': State)
    ensures e.CardClicked? || e.RemoveClicked? ==> s'.history == s.history && |s'.grid| == |s.grid|
    ensures e.CatalogShown? || e.CategoryChosen? || e.GenerateRoutine? || e.FollowUpAsked? ==>
              s'.selection == s.selection
    ensures e.GenerateRoutine? || e.FollowUpAsked? ==> s'.grid == s.grid
    ensures e.CatalogShown? || e.CategoryChosen? ==> s'.history == s.history
    ensures Matches(s.grid, s.selection) ==> Matches(s'.grid, s'.selection)
    ensures e.CatalogShown? ==> s'.grid == Show(e.products, s.selection)
    ensures e.CategoryChosen? ==> s'.grid == Show(FilterByCategory(e.products, e.category), s.selection)
    ensures e.CardClicked? ==> s'.selection == Toggle(s.selection, e.product) && s'.grid == Highlight(s.grid, s'.selection)
    ensures e.RemoveClicked? ==> s'.selection == RemoveAt(s.selection, e.index) && s'.grid == Highlight(s.grid, s'.selection)
    ensures e.GenerateRoutine? ==> s'.history == GenerateClicked(s.selection, s.history, e.reply).history
    ensures e.FollowUpAsked? ==> s'.history == FollowUp(s.history, e.text, e.reply).history
  {
    match e
    case CatalogShown(products) =>
      s.(grid := Show(products, s.selection))
    case CategoryChosen(products, category) =>
      s.(grid := Show(FilterByCategory(products, category), s.selection))
    case CardClicked(p) =>
      var sel := Toggle(s.selection, p);
      s.(selection := sel, grid := Highlight(s.grid, sel))
    case RemoveClicked(index) =>
      var sel := RemoveAt(s.selection, index);
      s.(selection := sel, grid := Highlight(s.grid, sel))
    case GenerateRoutine(reply) =>
      s.(history := GenerateClicked(s.selection, s.history, reply).history)
    case FollowUpAsked(text, reply) =>
      s.(history := FollowUp(s.history, text, reply).history)
  }

  /** The events handled one after another. */
  function Run(s: State, events: seq<Event>): State
    decreases |events|
  {
    if events == [] then s else Run(Step(s, events[0]), events[1..])
  }

  /** What the page keeps true between events: distinct ids in the
      selection, grid markers that agree with it, and a coherent history. */
  predicate Consistent(s: State)
  {
    UniqueIds(s.selection) && Matches(s.grid, s.selection) && Coherent(s.history)
  }

  /** Every event handler keeps the page consistent. */
  lemma StepKeepsConsistent(s: State, e: Event)
    requires Consistent(s)
    ensures Consistent(Step(s, e))
  {
    match e
    case CardClicked(p) =>
      ToggleKeepsUniqueIds(s.selection, p);
    case RemoveClicked(index) =>
      RemoveAtKeepsUniqueIds(s.selection, index);
    case GenerateRoutine(reply) =>
      GenerateKeepsCoherent(s.selection, s.history, reply);
    case FollowUpAsked(text, reply) =>
      FollowUpKeepsCoherent(s.history, text, reply);
    case _ =>
  }

  /** Any sequence of events keeps the page consistent. */
  lemma {:induction false} RunKeepsConsistent(s: State, events: seq<Event>)
    requires Consistent(s)
    ensures Consistent(Run(s, events))
    decreases |events|
  {
    if events != [] {
      StepKeepsConsistent(s, events[0]);
      RunKeepsConsistent(Step(s, events[0]), events[1..]);
    }
  }

  /** A page started with a selection of distinct ids stays consistent
      whatever the user does. */
  lemma StartKeepsConsistent(saved: seq<Product>, events: seq<Event>)
    requires UniqueIds(saved)
    ensures Consistent(Run(Initial(saved), events))
  {
    RunKeepsConsistent(Initial(saved), events);
  }

  /** A successful routine followed by a failed follow-up: the history holds
      the opening, the routine and the unanswered question, and the
      selection and grid are untouched. */
  lemma RoutineThenFailedFollowUp(s: State, routine: string, question: string)
    requires s.selection != []
    ensures Run(s, [GenerateRoutine(Success(routine)), FollowUpAsked(question, Failure)])
            == s.(history := [SystemMessage(), SelectionPrompt(s.selection),
                              Message(Assistant, routine), Message(User, question)])
  {
    var s1 := Step(s, GenerateRoutine(Success(routine)));
    assert Run(s, [GenerateRoutine(Success(routine)), FollowUpAsked(question, Failure)])
           == Run(s1, [FollowUpAsked(question, Failure)]);
  }
}
