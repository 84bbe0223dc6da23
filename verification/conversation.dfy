/** The per-user conversation controller (main.py, `user_state`,
    `start_request`, `process_answer`): each active user has a step into the
    question table and the answers collected so far. */
module Conversation {
  import opened Common
  import opened Questions
  import opened RequestStore
  import opened Outputs

  /** What one answer message carries: text, or a photo. A photo message has
      no text. */
  datatype Payload = Text(text: string) | Photo(fileId: FileId)

  /** Python's `message.text`. */
  function TextOf(p: Payload): Option<string>
  {
    match p
    case Text(t) => Some(t)
    case Photo(_) => None
  }

  /** A user's entry in `user_state`: the current question and the answers. */
  datatype ConvState = ConvState(step: nat, data: map<Key, Option<string>>)

  type States = map<UserId, ConvState>

  /** The result of handling one event. */
  datatype Transition = Transition(states: States, store: Store, outputs: seq<Output>)

  /** What handling an answer needs of the user's entry: the step indexes the
      question table, and every earlier question's answer is present, so the
      completion summary's lookups succeed. */
  predicate WellFormed(c: ConvState)
  {
    c.step < |Keys| && KeysBefore(c.step) <= c.data.Keys
  }

  /** The stronger invariant every reachable entry keeps: exactly the earlier
      questions are answered, and a stored photo reference is non-empty. */
  predicate Consistent(c: ConvState)
  {
    && WellFormed(c)
    && c.data.Keys == KeysBefore(c.step)
    && (PhotoIdKey in c.data ==> Truthy(c.data[PhotoIdKey]))
  }

  predicate AllWellFormed(states: States)
  {
    forall u :: u in states ==> WellFormed(states[u])
  }

  predicate AllConsistent(states: States)
  {
    forall u :: u in states ==> Consistent(states[u])
  }

  /** Python's `data.get(key)`: `None` for a missing key. */
  function Get(data: map<Key, Option<string>>, key: Key): Option<string>
  {
    if key in data then data[key] else None
  }

  /** The row `save_request` writes for a completed conversation. */
  function RequestOf(u: UserId, username: Option<string>, data: map<Key, Option<string>>): Request
  {
    Request(u, username, Get(data, DeviceKey), Get(data, PhotoIdKey), Get(data, MemoryKey),
            Get(data, BatteryKey), Get(data, KitKey), Get(data, DefectsKey), Get(data, UrgencyKey))
  }

  /** Whether the question at `step` accepts payload `p`: the photo step
      accepts only a photo, every other step accepts anything. */
  predicate Accepts(step: nat, p: Payload)
  {
    step != 1 || p.Photo?
  }

  /** The value an accepted answer records. */
  function AnswerValue(step: nat, p: Payload): Option<string>
  {
    if step == 1 && p.Photo? then Some(p.fileId) else TextOf(p)
  }

  /** `start_request`: (re)creates the user's entry at the first question with
      no answers, discarding any conversation in progress, and asks the first
      question. Nothing is stored. */
  function StartRequest(states: States, store: Store, u: UserId): (r: Transition)
    ensures u in r.states && r.states[u].step == 0 && |r.states[u].data| == 0
    ensures r.states - {u} == states - {u}
    ensures r.store == store
    ensures r.outputs == [Prompt(u, 0)]
    ensures AllConsistent(states) ==> AllConsistent(r.states)
  {
    Transition(states[u := ConvState(0, map[])], store, [Prompt(u, 0)])
  }

  /** `process_answer`: records the user's answer to the current question. */
  function ProcessAnswer(states: States, store: Store, u: UserId, username: Option<string>, p: Payload): (r: Transition)
    requires u in states ==> WellFormed(states[u])
    // a user with no conversation is ignored: nothing changes, nothing is sent
    ensures u !in states ==> r == Transition(states, store, [])
    // the photo step rejects anything but a photo with a warning, changing nothing
    ensures u in states && !Accepts(states[u].step, p) ==> r == Transition(states, store, [PhotoWarning(u)])
    // other users' entries are never touched
    ensures r.states - {u} == states - {u}
    // an accepted answer before the last records the answer and asks the next question
    ensures u in states && Accepts(states[u].step, p) && states[u].step + 1 < |Keys| ==>
      var c := states[u];
      && u in r.states
      && r.states[u].step == c.step + 1
      && r.states[u].data == c.data[StoredKey(Keys[c.step]) := AnswerValue(c.step, p)]
      && r.store == store
      && r.outputs == [Prompt(u, c.step + 1)]
    // the answer to the last question stores one request and ends the conversation
    ensures u in states && Accepts(states[u].step, p) && states[u].step + 1 == |Keys| ==>
      var c := states[u];
      var req := RequestOf(u, username, c.data[StoredKey(Keys[c.step]) := AnswerValue(c.step, p)]);
      && u !in r.states
      && |r.store| == |store| + 1
      && r.store[..|store|] == store
      && r.store[|store|].req == req
      && (forall i :: 0 <= i < |store| ==> store[i].id < r.store[|store|].id)
      && 2 <= |r.outputs| <= 3
      && r.outputs[0] == AdminSummary(SummaryOf(req))
      && r.outputs[|r.outputs| - 1] == Ack(u)
      && (|r.outputs| == 3 <==> Truthy(req.photoId))
      && (|r.outputs| == 3 ==> r.outputs[1] == AdminPhoto(req.photoId.value))
  {
    if u !in states then Transition(states, store, [])
    else
      var c := states[u];
      var key := Keys[c.step];
      if key == PhotoKey && !p.Photo? then
        Transition(states, store, [PhotoWarning(u)])
      else
        var data := if key == PhotoKey then c.data[PhotoIdKey := Some(p.fileId)] else c.data[key := TextOf(p)];
        var step := c.step + 1;
        if step < |Keys| then
          Transition(states[u := ConvState(step, data)], store, [Prompt(u, step)])
        else
          var store' := Save(store, RequestOf(u, username, data));
          SummaryKeysAnswered();
          var summary := Summary(u, username, data[DeviceKey], data[MemoryKey], data[BatteryKey],
                                 data[KitKey], data[DefectsKey], data[UrgencyKey]);
          var photoId := Get(data, PhotoIdKey);
          var toAdmin := if Truthy(photoId) then [AdminSummary(summary), AdminPhoto(photoId.value)] else [AdminSummary(summary)];
          Transition(states - {u}, store', toAdmin + [Ack(u)])
  }

  /** Handling an answer keeps every entry well formed, and keeps reachable
      entries consistent. */
  lemma ProcessAnswerKeepsInvariant(states: States, store: Store, u: UserId, username: Option<string>, p: Payload)
    requires AllWellFormed(states)
    ensures AllWellFormed(ProcessAnswer(states, store, u, username, p).states)
    ensures AllConsistent(states) ==> AllConsistent(ProcessAnswer(states, store, u, username, p).states)
  {
    var r := ProcessAnswer(states, store, u, username, p);
    if u in states && Accepts(states[u].step, p) && states[u].step + 1 < |Keys| {
      var c := states[u];
      KeysBeforeNext(c.step);
      forall v | v in r.states
        ensures WellFormed(r.states[v])
        ensures AllConsistent(states) ==> Consistent(r.states[v])
      {
        if v != u {
          assert v in r.states - {u};
          assert r.states[v] == (states - {u})[v];
        } else if AllConsistent(states) {
          assert PhotoIdKey in r.states[u].data ==> Truthy(r.states[u].data[PhotoIdKey]) by {
            if c.step != 1 && PhotoIdKey in c.data {
              assert StoredKey(Keys[c.step]) != PhotoIdKey;
            }
          }
        }
      }
    } else {
      forall v | v in r.states
        ensures WellFormed(r.states[v])
        ensures AllConsistent(states) ==> Consistent(r.states[v])
      {
        if v != u {
          assert v in r.states - {u};
          assert r.states[v] == (states - {u})[v];
        }
      }
    }
  }

  /** An accepted answer before the last question replaces the user's entry
      by the next step with the answer recorded, and asks the next question. */
  lemma AcceptedAnswerAdvances(states: States, store: Store, u: UserId, username: Option<string>, p: Payload)
    requires u in states && WellFormed(states[u])
    requires Accepts(states[u].step, p) && states[u].step + 1 < |Keys|
    ensures var c := states[u];
      ProcessAnswer(states, store, u, username, p)
      == Transition(states[u := ConvState(c.step + 1, c.data[StoredKey(Keys[c.step]) := AnswerValue(c.step, p)])],
                    store, [Prompt(u, c.step + 1)])
  {
  }

  /** Handling an answer keeps the table's ids strictly increasing. */
  lemma ProcessAnswerKeepsIdOrder(states: States, store: Store, u: UserId, username: Option<string>, p: Payload)
    requires u in states ==> WellFormed(states[u])
    ensures StrictlyIncreasing(store) ==> StrictlyIncreasing(ProcessAnswer(states, store, u, username, p).store)
  {
  }

  /** The label of the cancel button shown during a conversation. No handler
      reacts to it, so it arrives as an ordinary text answer. */
  const CancelLabel: string := "❌ Отмена"

  /** Pressing cancel does not cancel: at a text step the label is recorded as
      the answer and the conversation moves on (to completion at the last
      step); at the photo step it is refused like any other text. */
  lemma CancelIsAnAnswer(states: States, store: Store, u: UserId, username: Option<string>)
    requires u in states && WellFormed(states[u])
    ensures var r := ProcessAnswer(states, store, u, username, Text(CancelLabel));
      var c := states[u];
      && (c.step == 1 ==> r == Transition(states, store, [PhotoWarning(u)]))
      && (c.step != 1 && c.step + 1 < |Keys| ==>
            u in r.states && r.states[u].step == c.step + 1 && r.states[u].data[Keys[c.step]] == Some(CancelLabel))
      && (c.step + 1 == |Keys| ==> u !in r.states && |r.store| == |store| + 1 && r.store[|store|].req.urgency == Some(CancelLabel))
  {
  }

  /** A photo sent at a text step is accepted and the answer recorded is
      `None`, since a photo message has no text: the step advances, or, at
      the last step, the request is saved with `urgency` = `None`. */
  lemma PhotoAtTextStepRecordsNone(states: States, store: Store, u: UserId, username: Option<string>, f: FileId)
    requires u in states && WellFormed(states[u]) && states[u].step != 1
    ensures var r := ProcessAnswer(states, store, u, username, Photo(f));
      var c := states[u];
      && (c.step + 1 < |Keys| ==>
            && u in r.states
            && r.states[u].step == c.step + 1
            && r.states[u].data[Keys[c.step]] == None
            && r.outputs == [Prompt(u, c.step + 1)])
      && (c.step + 1 == |Keys| ==>
            u !in r.states && |r.store| == |store| + 1 && r.store[|store|].req.urgency == None)
  {
  }
}
