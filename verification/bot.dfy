/** The whole bot as a pure transition system: one inbound event at a time
    updates the conversation states and the request table and produces the
    outgoing messages. Handlers are invoked directly; the chat framework's
    routing is not modelled. */
module Bot {
  import opened Common
  import opened Questions
  import opened RequestStore
  import opened Outputs
  import opened Conversation
  import opened Admin

  /** An inbound event, already routed to its handler. */
  datatype Event =
    | StartPressed(user: UserId)                                  // the "leave a request" button
    | Answer(user: UserId, username: Option<string>, payload: Payload)  // any other text or photo
    | ListCommand(user: UserId)                                   // the `/list` command

  /** Everything the bot keeps: the in-memory conversations and the table. */
  datatype World = World(states: States, store: Store)

  /** The bot at start-up: no conversations, and whatever rows earlier runs
      left in the table, which persists across restarts. */
  function Launch(table: Store): World
  {
    World(map[], table)
  }

  /** The invariant of every reachable world. */
  predicate Valid(w: World)
  {
    AllConsistent(w.states) && StrictlyIncreasing(w.store)
  }

  /** Handles one event. */
  function Step(w: World, e: Event): (r: Transition)
    requires AllWellFormed(w.states)
    ensures AllWellFormed(r.states)
    ensures Valid(w) ==> Valid(World(r.states, r.store))
    // the table only grows, by at most one row, and old rows are untouched
    ensures |w.store| <= |r.store| <= |w.store| + 1 && r.store[..|w.store|] == w.store
    // a row is written only by the answer to the last question
    ensures |r.store| > |w.store| ==> e.Answer? && e.user in w.states && w.states[e.user].step == |Keys| - 1
    // an answer from a user with no conversation changes nothing and sends nothing
    ensures e.Answer? && e.user !in w.states ==> r == Transition(w.states, w.store, [])
    // listing is read-only
    ensures e.ListCommand? ==> r.states == w.states && r.store == w.store
  {
    match e
    case StartPressed(u) =>
      StartRequest(w.states, w.store, u)
    case Answer(u, name, p) =>
      ProcessAnswerKeepsInvariant(w.states, w.store, u, name, p);
      ProcessAnswerKeepsIdOrder(w.states, w.store, u, name, p);
      ProcessAnswer(w.states, w.store, u, name, p)
    case ListCommand(u) =>
      Transition(w.states, w.store, ListRequests(w.store, u))
  }

  /** Handles a sequence of events in order, collecting all outputs. */
  function Run(w: World, events: seq<Event>): (r: Transition)
    requires AllWellFormed(w.states)
    ensures AllWellFormed(r.states)
    ensures Valid(w) ==> Valid(World(r.states, r.store))
    // the table is append-only: rows once written are never changed or removed
    ensures |w.store| <= |r.store| && r.store[..|w.store|] == w.store
    decreases |events|
  {
    if |events| == 0 then Transition(w.states, w.store, [])
    else
      var before := Run(w, events[..|events| - 1]);
      var t := Step(World(before.states, before.store), events[|events| - 1]);
      Transition(t.states, t.store, before.outputs + t.outputs)
  }

  /** Every world reachable from start-up keeps the invariant, whatever
      table an earlier run left behind, provided its ids increase as
      `save_request` keeps them. */
  lemma ReachableIsValid(table: Store, events: seq<Event>)
    requires StrictlyIncreasing(table)
    ensures Valid(World(Run(Launch(table), events).states, Run(Launch(table), events).store))
  {
  }

  /** One answer event per payload, all from user `u`. */
  function Answers(u: UserId, username: Option<string>, ps: seq<Payload>): (r: seq<Event>)
  {
    seq(|ps|, i requires 0 <= i < |ps| => Answer(u, username, ps[i]))
  }

  /** The events of a conversation through answer `k` are those through
      answer `k - 1`, then answer `k`. */
  lemma ConversationEventsSplit(u: UserId, username: Option<string>, ps: seq<Payload>, k: nat)
    requires 0 < k <= |ps|
    ensures var events := [StartPressed(u)] + Answers(u, username, ps[..k]);
      && |events| == k + 1
      && events[..k] == [StartPressed(u)] + Answers(u, username, ps[..k - 1])
      && events[k] == Answer(u, username, ps[k - 1])
  {
  }

  lemma PromptsNext(u: UserId, k: nat)
    requires k > 0
    ensures Prompts(u, k - 1) + [Prompt(u, k)] == Prompts(u, k)
  {
  }

  /** The answers recorded after the first `k` questions are answered with
      `ps`. */
  function DataAfter(ps: seq<Payload>, k: nat): map<Key, Option<string>>
    requires k <= |ps| && k <= |Keys|
  {
    if k == 0 then map[]
    else DataAfter(ps, k - 1)[StoredKey(Keys[k - 1]) := AnswerValue(k - 1, ps[k - 1])]
  }

  /** The prompts for questions 0 to `k`. */
  function Prompts(u: UserId, k: nat): seq<Output>
  {
    seq(k + 1, i requires 0 <= i < k + 1 => Prompt(u, i))
  }

  lemma {:induction false} DataAfterKeys(ps: seq<Payload>, k: nat)
    requires k <= |ps| && k <= |Keys|
    ensures DataAfter(ps, k).Keys == KeysBefore(k)
  {
    if k > 0 {
      DataAfterKeys(ps, k - 1);
      KeysBeforeNext(k - 1);
    }
  }

  /** Different questions store their answers under different keys. */
  lemma StoredKeysDistinct(i: nat, j: nat)
    requires i < j < |Keys|
    ensures StoredKey(Keys[i]) != StoredKey(Keys[j])
  {
  }

  lemma {:induction false} DataAfterLookup(ps: seq<Payload>, k: nat, i: nat)
    requires k <= |ps| && k <= |Keys| && i < k
    ensures StoredKey(Keys[i]) in DataAfter(ps, k)
    ensures DataAfter(ps, k)[StoredKey(Keys[i])] == AnswerValue(i, ps[i])
  {
    if i < k - 1 {
      DataAfterLookup(ps, k - 1, i);
      StoredKeysDistinct(i, k - 1);
    }
  }

  /** An answer event is handled by `process_answer`. */
  lemma StepAnswer(w: World, u: UserId, username: Option<string>, p: Payload)
    requires AllWellFormed(w.states)
    ensures Step(w, Answer(u, username, p)) == ProcessAnswer(w.states, w.store, u, username, p)
  {
  }

  /** An accepted answer to question `k - 1`, from a user holding the
      answers to the questions before it, moves the user to question `k`. */
  lemma AnswerAdvances(base: States, store: Store, u: UserId, username: Option<string>, ps: seq<Payload>, k: nat)
    requires AllWellFormed(base)
    requires |ps| == |Keys| && ps[1].Photo? && 0 < k < |Keys|
    ensures AllWellFormed(base[u := ConvState(k - 1, DataAfter(ps, k - 1))])
    ensures ProcessAnswer(base[u := ConvState(k - 1, DataAfter(ps, k - 1))], store, u, username, ps[k - 1])
         == Transition(base[u := ConvState(k, DataAfter(ps, k))], store, [Prompt(u, k)])
  {
    var states := base[u := ConvState(k - 1, DataAfter(ps, k - 1))];
    DataAfterKeys(ps, k - 1);
    assert AllWellFormed(states);
    assert Accepts(k - 1, ps[k - 1]);
    AcceptedAnswerAdvances(states, store, u, username, ps[k - 1]);
    assert states[u := ConvState(k, DataAfter(ps, k))] == base[u := ConvState(k, DataAfter(ps, k))];
  }

  /** Pressing start asks the first question and opens an empty
      conversation. */
  lemma StartOpens(w: World, u: UserId)
    requires AllWellFormed(w.states)
    ensures Run(w, [StartPressed(u)]) == Transition(w.states[u := ConvState(0, map[])], w.store, [Prompt(u, 0)])
  {
  }

  /** One more accepted answer extends a partial conversation by one
      question. */
  lemma PartialConversationStep(w: World, u: UserId, username: Option<string>, ps: seq<Payload>, k: nat)
    requires AllWellFormed(w.states)
    requires |ps| == |Keys| && ps[1].Photo? && 0 < k < |Keys|
    requires Run(w, [StartPressed(u)] + Answers(u, username, ps[..k - 1]))
          == Transition(w.states[u := ConvState(k - 1, DataAfter(ps, k - 1))], w.store, Prompts(u, k - 1))
    ensures Run(w, [StartPressed(u)] + Answers(u, username, ps[..k]))
         == Transition(w.states[u := ConvState(k, DataAfter(ps, k))], w.store, Prompts(u, k))
  {
    ConversationEventsSplit(u, username, ps, k);
    var prev := w.states[u := ConvState(k - 1, DataAfter(ps, k - 1))];
    AnswerAdvances(w.states, w.store, u, username, ps, k);
    StepAnswer(World(prev, w.store), u, username, ps[k - 1]);
    assert prev[u := ConvState(k, DataAfter(ps, k))] == w.states[u := ConvState(k, DataAfter(ps, k))];
    PromptsNext(u, k);
  }

  /** After pressing start and answering the first `k` questions (with a
      photo at the photo step), the user sits at question `k` holding exactly
      those answers, has been asked questions 0 to `k`, and the table is
      untouched. */
  lemma {:induction false} PartialConversation(w: World, u: UserId, username: Option<string>, ps: seq<Payload>, k: nat)
    requires AllWellFormed(w.states)
    requires |ps| == |Keys| && ps[1].Photo? && k < |Keys|
    ensures Run(w, [StartPressed(u)] + Answers(u, username, ps[..k]))
         == Transition(w.states[u := ConvState(k, DataAfter(ps, k))], w.store, Prompts(u, k))
  {
    if k == 0 {
      assert [StartPressed(u)] + Answers(u, username, ps[..k]) == [StartPressed(u)];
      StartOpens(w, u);
      assert Prompts(u, 0) == [Prompt(u, 0)];
    } else {
      PartialConversation(w, u, username, ps, k - 1);
      PartialConversationStep(w, u, username, ps, k);
    }
  }

  /** The request a complete conversation with answers `ps` stores. */
  function Submitted(u: UserId, username: Option<string>, ps: seq<Payload>): Request
    requires |ps| == |Keys| && ps[1].Photo?
  {
    Request(u, username, TextOf(ps[0]), Some(ps[1].fileId), TextOf(ps[2]), TextOf(ps[3]),
            TextOf(ps[4]), TextOf(ps[5]), TextOf(ps[6]))
  }

  /** The answers after all seven questions, read back by key. */
  lemma AllAnswersRecorded(ps: seq<Payload>)
    requires |ps| == |Keys| && ps[1].Photo?
    ensures forall i :: 0 <= i < |Keys| ==> Get(DataAfter(ps, |Keys|), StoredKey(Keys[i])) == AnswerValue(i, ps[i])
  {
    forall i | 0 <= i < |Keys|
      ensures Get(DataAfter(ps, |Keys|), StoredKey(Keys[i])) == AnswerValue(i, ps[i])
    {
      DataAfterLookup(ps, |Keys|, i);
    }
  }

  /** The row written for answers `ps` holds them in question order. */
  lemma SubmittedIsRecorded(u: UserId, username: Option<string>, ps: seq<Payload>)
    requires |ps| == |Keys| && ps[1].Photo?
    ensures RequestOf(u, username, DataAfter(ps, |Keys|)) == Submitted(u, username, ps)
  {
    AllAnswersRecorded(ps);
    assert StoredKey(Keys[1]) == PhotoIdKey;
  }

  /** The accepted answer to the last question appends the submitted request,
      notifies the administrator with its summary and photo, acknowledges,
      and removes the user's conversation. */
  lemma LastAnswerSubmits(base: States, store: Store, u: UserId, username: Option<string>, ps: seq<Payload>)
    requires AllWellFormed(base)
    requires |ps| == |Keys| && ps[1].Photo?
    ensures AllWellFormed(base[u := ConvState(|Keys| - 1, DataAfter(ps, |Keys| - 1))])
    ensures var t := ProcessAnswer(base[u := ConvState(|Keys| - 1, DataAfter(ps, |Keys| - 1))], store, u, username, ps[|Keys| - 1]);
      var req := Submitted(u, username, ps);
      && t.states == base - {u}
      && |t.store| == |store| + 1
      && t.store[..|store|] == store
      && t.store[|store|].req == req
      && (forall i :: 0 <= i < |store| ==> store[i].id < t.store[|store|].id)
      && t.outputs == [AdminSummary(SummaryOf(req)), AdminPhoto(ps[1].fileId), Ack(u)]
  {
    var last := |Keys| - 1;
    var states := base[u := ConvState(last, DataAfter(ps, last))];
    DataAfterKeys(ps, last);
    assert AllWellFormed(states);
    var t := ProcessAnswer(states, store, u, username, ps[last]);
    SubmittedIsRecorded(u, username, ps);
    assert t.states == base - {u};
    assert |t.outputs| == 3;
  }

  /** A complete conversation: start, then one accepted answer per question
      (a photo at the photo step). Exactly one row is appended whose fields
      are the answers in question order, the administrator gets the summary
      of that row and its photo, the user gets the acknowledgement, and the
      user's conversation is gone. */
  lemma CompleteConversation(w: World, u: UserId, username: Option<string>, ps: seq<Payload>)
    requires AllWellFormed(w.states)
    requires |ps| == |Keys| && ps[1].Photo?
    ensures var r := Run(w, [StartPressed(u)] + Answers(u, username, ps));
      var req := Submitted(u, username, ps);
      && req.device == TextOf(ps[0]) && req.photoId == Option<string>.Some(ps[1].fileId) && req.memory == TextOf(ps[2])
      && req.battery == TextOf(ps[3]) && req.kit == TextOf(ps[4]) && req.defects == TextOf(ps[5])
      && req.urgency == TextOf(ps[6])
      && r.states == w.states - {u}
      && |r.store| == |w.store| + 1
      && r.store[..|w.store|] == w.store
      && r.store[|w.store|].req == req
      && (forall i :: 0 <= i < |w.store| ==> w.store[i].id < r.store[|w.store|].id)
      && r.outputs == Prompts(u, |Keys| - 1) + [AdminSummary(SummaryOf(req)), AdminPhoto(ps[1].fileId), Ack(u)]
  {
    var last := |Keys| - 1;
    var events := [StartPressed(u)] + Answers(u, username, ps);
    var before := [StartPressed(u)] + Answers(u, username, ps[..last]);
    assert ps[..last + 1] == ps;
    assert events[..|events| - 1] == before;
    assert events[|events| - 1] == Answer(u, username, ps[last]);
    var prev := w.states[u := ConvState(last, DataAfter(ps, last))];
    PartialConversation(w, u, username, ps, last);
    var b := Run(w, before);
    assert b == Transition(prev, w.store, Prompts(u, last));
    LastAnswerSubmits(w.states, w.store, u, username, ps);
    StepAnswer(World(prev, w.store), u, username, ps[last]);
    var t := ProcessAnswer(prev, w.store, u, username, ps[last]);
    assert Run(w, events) == Transition(t.states, t.store, b.outputs + t.outputs);
    assert prev - {u} == w.states - {u};
  }
}
