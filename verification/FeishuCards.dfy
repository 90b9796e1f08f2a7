/**
 Running cards of the Feishu adapter, as a state machine over its await points. A step is the code one
 coroutine runs between two awaits; steps of any number of senders and creation tasks interleave freely.
 */
module FeishuCards {
  import opened Options

  type Source = string  // platform id of the user's message
  type CardId = string
  type TaskId = nat
  type SenderId = nat

  datatype Phase = InFlight | Finished(card: Option<CardId>) | Raised

  datatype Creation = Creation(source: Source, phase: Phase)

  /** Where a call of `_send_card_message` is suspended, or how it ended. */
  datatype Pc =
    | AwaitsCreation(task: TaskId)
    | Patches(card: CardId)
    | Replies
    | AwaitsOwnCard(task: TaskId)
    | Done
    | Failed

  datatype Sender = Sender(source: Source, isFinal: bool, pc: Pc)

  datatype State = State(
    cards: map<Source, CardId>,        // _running_card_ids
    tasks: map<Source, TaskId>,        // _running_card_tasks
    creations: map<TaskId, Creation>,  // every creation task ever started
    senders: map<SenderId, Sender>)

  datatype Action =
    | EnsureStarted(source: Source, task: TaskId)
    | CreationResumes(task: TaskId, result: Phase)
    | FinalizeTask(task: TaskId)
    | BeginSend(id: SenderId, source: Source, isFinal: bool, task: TaskId)
    | WakeSender(id: SenderId)
    | PatchReturns(id: SenderId, ok: bool)
    | ReplyReturns(id: SenderId, ok: bool)

  function Init(): State { State(map[], map[], map[], map[]) }

  /** `_ensure_running_card_started`; task ids are never reused. */
  function StartCreation(s: State, source: Source, t: TaskId): State {
    if source in s.cards || source in s.tasks || t in s.creations then s
    else s.(tasks := s.tasks[source := t], creations := s.creations[t := Creation(source, InFlight)])
  }

  function Resume(s: State, t: TaskId, result: Phase): State {
    if t !in s.creations || !s.creations[t].phase.InFlight? || result.InFlight? then s
    else
      var source := s.creations[t].source;
      var recorded := result.Finished? && result.card.Some? && result.card.value != "";
      s.(creations := s.creations[t := Creation(source, result)],
         cards := if recorded then s.cards[source := result.card.value] else s.cards)
  }

  /** The done callback runs some time after the creation ended. */
  function Finalize(s: State, t: TaskId): State {
    if t !in s.creations || s.creations[t].phase.InFlight? then s
    else
      var source := s.creations[t].source;
      if source in s.tasks && s.tasks[source] == t then s.(tasks := s.tasks - {source}) else s
  }

  function Begin(s: State, id: SenderId, source: Source, isFinal: bool, t: TaskId): State {
    if id in s.senders then s
    else
      var at := (pc: Pc) => s.senders[id := Sender(source, isFinal, pc)];
      if source in s.cards then s.(senders := at(Patches(s.cards[source])))
      else if source in s.tasks then s.(senders := at(AwaitsCreation(s.tasks[source])))
      else if isFinal then s.(senders := at(Replies))
      else if t in s.creations then s
      else StartCreation(s, source, t).(senders := at(AwaitsOwnCard(t)))
  }

  function Wake(s: State, id: SenderId): State {
    if id !in s.senders then s
    else
      var sender := s.senders[id];
      var moved := (pc: Pc) => s.(senders := s.senders[id := sender.(pc := pc)]);
      match sender.pc
      case AwaitsCreation(t) =>
        if t !in s.creations || s.creations[t].phase.InFlight? then s
        else if s.creations[t].phase.Raised? then moved(Failed)
        else if s.creations[t].phase.card.Some? && s.creations[t].phase.card.value != "" then
          moved(Patches(s.creations[t].phase.card.value))
        else moved(if sender.isFinal then Replies else Done)
      case AwaitsOwnCard(t) =>
        if t !in s.creations || s.creations[t].phase.InFlight? then s
        else moved(if s.creations[t].phase.Raised? then Failed else Done)
      case _ => s
  }

  /** A message went through: a final one forgets its card in the same breath. */
  function Conclude(s: State, id: SenderId): State
    requires id in s.senders
  {
    var sender := s.senders[id];
    s.(senders := s.senders[id := sender.(pc := Done)],
       cards := if sender.isFinal then s.cards - {sender.source} else s.cards)
  }

  function PatchDone(s: State, id: SenderId, ok: bool): State {
    if id !in s.senders || !s.senders[id].pc.Patches? then s
    else if ok then Conclude(s, id)
    else s.(senders := s.senders[id := s.senders[id].(pc := if s.senders[id].isFinal then Replies else Failed)])
  }

  function ReplyDone(s: State, id: SenderId, ok: bool): State {
    if id !in s.senders || !s.senders[id].pc.Replies? then s
    else if ok then Conclude(s, id)
    else s.(senders := s.senders[id := s.senders[id].(pc := Failed)])
  }

  function Apply(s: State, a: Action): State {
    match a
    case EnsureStarted(source, t) => StartCreation(s, source, t)
    case CreationResumes(t, result) => Resume(s, t, result)
    case FinalizeTask(t) => Finalize(s, t)
    case BeginSend(id, source, isFinal, t) => Begin(s, id, source, isFinal, t)
    case WakeSender(id) => Wake(s, id)
    case PatchReturns(id, ok) => PatchDone(s, id, ok)
    case ReplyReturns(id, ok) => ReplyDone(s, id, ok)
  }

  function Run(actions: seq<Action>): State {
    if actions == [] then Init() else Apply(Run(actions[..|actions| - 1]), actions[|actions| - 1])
  }

  /******* Invariant *******/

  predicate Creating(s: State, source: Source) {
    exists t :: t in s.creations && s.creations[t] == Creation(source, InFlight)
  }

  /** A creation in flight is the one its source waits for, and no card is recorded yet. */
  predicate CreationsOk(s: State) {
    && (forall t :: t in s.creations && s.creations[t].phase.InFlight? ==>
          var source := s.creations[t].source;
          source !in s.cards && source in s.tasks && s.tasks[source] == t)
    && (forall source :: source in s.tasks ==>
          s.tasks[source] in s.creations && s.creations[s.tasks[source]].source == source)
  }

  /** A suspended sender waits for a creation of its own source; only finals reply without a card. */
  predicate SenderOk(creations: map<TaskId, Creation>, sender: Sender) {
    && (sender.pc.AwaitsCreation? || sender.pc.AwaitsOwnCard? ==>
          sender.pc.task in creations && creations[sender.pc.task].source == sender.source)
    && (sender.pc.AwaitsOwnCard? ==> !sender.isFinal)
    && (sender.pc.Replies? ==> sender.isFinal)
  }

  predicate SendersOk(s: State) {
    forall id :: id in s.senders ==> SenderOk(s.creations, s.senders[id])
  }

  /** Creations are neither forgotten nor given another source. */
  predicate CreationsGrow(s: State, s': State) {
    forall t :: t in s.creations ==> t in s'.creations && s'.creations[t].source == s.creations[t].source
  }

  lemma StartKeepsCreations(s: State, source: Source, t: TaskId)
    requires CreationsOk(s)
    ensures CreationsOk(StartCreation(s, source, t)) && CreationsGrow(s, StartCreation(s, source, t))
  {}

  lemma ResumeKeepsCreations(s: State, t: TaskId, result: Phase)
    requires CreationsOk(s)
    ensures CreationsOk(Resume(s, t, result)) && CreationsGrow(s, Resume(s, t, result))
  {}

  lemma FinalizeKeepsCreations(s: State, t: TaskId)
    requires CreationsOk(s)
    ensures CreationsOk(Finalize(s, t)) && CreationsGrow(s, Finalize(s, t))
  {}

  /** A sender's own step leaves creations and tasks alone, and records no card. */
  predicate SenderStep(s: State, s': State) {
    s'.creations == s.creations && s'.tasks == s.tasks && s'.cards.Keys <= s.cards.Keys
  }

  lemma SenderStepKeepsCreations(s: State, s': State)
    requires CreationsOk(s) && SenderStep(s, s')
    ensures CreationsOk(s') && CreationsGrow(s, s')
  {}

  lemma BeginKeepsCreations(s: State, id: SenderId, source: Source, isFinal: bool, t: TaskId)
    ensures var s' := Begin(s, id, source, isFinal, t);
      SenderStep(s, s') || SenderStep(StartCreation(s, source, t), s')
  {}

  lemma WakeIsSenderStep(s: State, id: SenderId)
    ensures SenderStep(s, Wake(s, id))
  {}

  lemma StepKeepsCreations(s: State, a: Action)
    requires CreationsOk(s)
    ensures CreationsOk(Apply(s, a)) && CreationsGrow(s, Apply(s, a))
  {
    hide CreationsOk, Begin, Wake, StartCreation, Resume, Finalize;
    match a {
      case EnsureStarted(source, t) => StartKeepsCreations(s, source, t);
      case CreationResumes(t, result) => ResumeKeepsCreations(s, t, result);
      case FinalizeTask(t) => FinalizeKeepsCreations(s, t);
      case BeginSend(id, source, isFinal, t) =>
        BeginKeepsCreations(s, id, source, isFinal, t);
        StartKeepsCreations(s, source, t);
        if SenderStep(s, Apply(s, a)) {
          SenderStepKeepsCreations(s, Apply(s, a));
        } else {
          SenderStepKeepsCreations(StartCreation(s, source, t), Apply(s, a));
        }
      case WakeSender(id) =>
        WakeIsSenderStep(s, id);
        SenderStepKeepsCreations(s, Apply(s, a));
      case PatchReturns(_, _) => SenderStepKeepsCreations(s, Apply(s, a));
      case ReplyReturns(_, _) => SenderStepKeepsCreations(s, Apply(s, a));
    }
  }

  lemma BeginKeepsSender(s: State, id: SenderId, source: Source, isFinal: bool, t: TaskId)
    requires id !in s.senders
    requires source in s.tasks ==> s.tasks[source] in s.creations && s.creations[s.tasks[source]].source == source
    ensures var s' := Begin(s, id, source, isFinal, t); id in s'.senders ==> SenderOk(s'.creations, s'.senders[id])
  {
  }

  lemma TaskStepKeepsSenders(s: State, a: Action)
    requires a.EnsureStarted? || a.CreationResumes? || a.FinalizeTask?
    ensures Apply(s, a).senders == s.senders
  {}

  lemma WakeKeepsSender(s: State, woken: SenderId, id: SenderId)
    requires id in s.senders ==> SenderOk(s.creations, s.senders[id])
    ensures Wake(s, woken).creations == s.creations && Wake(s, woken).senders.Keys == s.senders.Keys
    ensures id in s.senders ==> SenderOk(s.creations, Wake(s, woken).senders[id])
  {}

  lemma StepKeepsSender(s: State, a: Action, id: SenderId)
    requires CreationsOk(s) && id in Apply(s, a).senders
    requires id in s.senders ==> SenderOk(s.creations, s.senders[id])
    ensures SenderOk(Apply(s, a).creations, Apply(s, a).senders[id])
  {
    hide CreationsOk, Begin, Wake, StartCreation, Resume, Finalize;
    StepKeepsCreations(s, a);
    if a.EnsureStarted? || a.CreationResumes? || a.FinalizeTask? {
      TaskStepKeepsSenders(s, a);
    } else if a.WakeSender? {
      WakeKeepsSender(s, a.id, id);
    } else if a.BeginSend? {
      BeginChangesOne(s, a.id, a.source, a.isFinal, a.task, id);
      if id !in s.senders {
        TasksKnown(s, a.source);
        BeginKeepsSender(s, id, a.source, a.isFinal, a.task);
      }
    }
  }

  lemma TasksKnown(s: State, source: Source)
    requires CreationsOk(s)
    ensures source in s.tasks ==> s.tasks[source] in s.creations && s.creations[s.tasks[source]].source == source
  {
  }

  lemma BeginChangesOne(s: State, id: SenderId, source: Source, isFinal: bool, t: TaskId, other: SenderId)
    ensures other in s.senders ==>
      var senders := Begin(s, id, source, isFinal, t).senders;
      other in senders && senders[other] == s.senders[other]
    ensures other !in s.senders && other in Begin(s, id, source, isFinal, t).senders ==> other == id
  {
  }

  lemma {:induction false} RunKeeps(actions: seq<Action>)
    ensures CreationsOk(Run(actions)) && SendersOk(Run(actions))
  {
    if actions != [] {
      var before := actions[..|actions| - 1];
      hide Apply, CreationsOk, SenderOk;
      RunKeeps(before);
      StepKeepsCreations(Run(before), actions[|actions| - 1]);
      forall id | id in Run(actions).senders ensures SenderOk(Run(actions).creations, Run(actions).senders[id]) {
        StepKeepsSender(Run(before), actions[|actions| - 1], id);
      }
    }
  }

  /** At most one creation is in flight per source message, and only while no card is recorded. */
  lemma OneCreationInFlight(actions: seq<Action>, t: TaskId, u: TaskId)
    ensures
      var s := Run(actions);
      t in s.creations && u in s.creations && s.creations[t].phase.InFlight? && s.creations[u].phase.InFlight?
      && s.creations[t].source == s.creations[u].source
      ==> t == u && s.creations[t].source !in s.cards
  {
    RunKeeps(actions);
  }

  /** A step starts a creation only for a source with neither a recorded card nor a creation in flight. */
  lemma CreationStartsOnlyWhenIdle(actions: seq<Action>, a: Action, t: TaskId)
    requires t !in Run(actions).creations && t in Apply(Run(actions), a).creations
    ensures
      var s, source := Run(actions), Apply(Run(actions), a).creations[t].source;
      source !in s.cards && !Creating(s, source) && (a.EnsureStarted? || (a.BeginSend? && !a.isFinal))
  {
    RunKeeps(actions);
    var s := Run(actions);
    hide Run, Wake;
    if a.WakeSender? { WakeIsSenderStep(s, a.id); }
  }

  /******* Recorded cards *******/

  /** The step puts a card id on record for the source. */
  predicate Records(s: State, a: Action, source: Source) {
    && a.CreationResumes? && a.task in s.creations && s.creations[a.task] == Creation(source, InFlight)
    && a.result.Finished? && a.result.card.Some? && a.result.card.value != ""
  }

  /** The step is a final message going through. */
  predicate Clears(s: State, a: Action, source: Source) {
    && ((a.PatchReturns? && a.id in s.senders && s.senders[a.id].pc.Patches?)
        || (a.ReplyReturns? && a.id in s.senders && s.senders[a.id].pc.Replies?))
    && a.ok && s.senders[a.id].isFinal && s.senders[a.id].source == source
  }

  /** The record of a source changes exactly at these two kinds of step. */
  lemma RecordChangesIff(s: State, a: Action, source: Source)
    requires CreationsOk(s)
    ensures source in Apply(s, a).cards <==> (source in s.cards && !Clears(s, a, source)) || Records(s, a, source)
    ensures source in s.cards && source in Apply(s, a).cards ==> Apply(s, a).cards[source] == s.cards[source]
    ensures Records(s, a, source) ==> source !in s.cards && Apply(s, a).cards[source] == a.result.card.value
  {
    if a.EnsureStarted? || a.FinalizeTask? || a.BeginSend? || a.WakeSender? {
      QuietKeepsCards(s, a);
    } else {
      hide Begin, Wake, StartCreation, Finalize;
    }
  }

  lemma QuietKeepsCards(s: State, a: Action)
    requires a.EnsureStarted? || a.FinalizeTask? || a.BeginSend? || a.WakeSender?
    ensures Apply(s, a).cards == s.cards
  {}

  lemma {:induction false} RecordStays(actions: seq<Action>, lo: nat, hi: nat, source: Source)
    requires lo <= hi <= |actions| && source in Run(actions[..lo]).cards
    requires forall k :: lo <= k < hi ==> !Clears(Run(actions[..k]), actions[k], source)
    ensures source in Run(actions[..hi]).cards
    decreases hi
  {
    hide Apply, Records, Clears, CreationsOk, SendersOk;
    if lo < hi {
      RecordStays(actions, lo, hi - 1, source);
      RunKeeps(actions[..hi - 1]);
      assert actions[..hi][..hi - 1] == actions[..hi - 1];
      RecordChangesIff(Run(actions[..hi - 1]), actions[hi - 1], source);
    }
  }

  /** Between two recordings for one source message, a final message of that source went through. */
  lemma OneCardBetweenFinals(actions: seq<Action>, i: nat, j: nat, source: Source)
    requires i < j < |actions|
    requires Records(Run(actions[..i]), actions[i], source) && Records(Run(actions[..j]), actions[j], source)
    ensures exists k :: i < k < j && Clears(Run(actions[..k]), actions[k], source)
  {
    RunKeeps(actions[..i]);
    RunKeeps(actions[..j]);
    RecordChangesIff(Run(actions[..i]), actions[i], source);
    RecordChangesIff(Run(actions[..j]), actions[j], source);
    assert actions[..i + 1][..i] == actions[..i];
    if forall k :: i < k < j ==> !Clears(Run(actions[..k]), actions[k], source) {
      RecordStays(actions, i + 1, j, source);
      assert false;
    }
  }

  /******* How a send ends *******/

  /** The platform accepted the text of sender `id`, as a patch of its card or as a reply of its own. */
  predicate Sends(s: State, a: Action, id: SenderId) {
    && (a.PatchReturns? || a.ReplyReturns?) && a.id == id && a.ok && id in s.senders
    && (if a.PatchReturns? then s.senders[id].pc.Patches? else s.senders[id].pc.Replies?)
  }

  predicate NoCard(phase: Phase) {
    phase.Finished? && (phase.card.None? || phase.card.value == "")
  }

  /** How far the creation is that the sender waits for. */
  function Awaited(s: State, id: SenderId): Option<Phase> {
    if id in s.senders && (s.senders[id].pc.AwaitsCreation? || s.senders[id].pc.AwaitsOwnCard?)
       && s.senders[id].pc.task in s.creations
    then Some(s.creations[s.senders[id].pc.task].phase)
    else None
  }

  /**
   The call returns: its text was accepted, or it is an update whose own card was created with that text,
   or an update that waited for a creation without a card and is skipped.
   */
  predicate Finishes(s: State, a: Action, id: SenderId) {
    || Sends(s, a, id)
    || (a == WakeSender(id) && Awaited(s, id).Some? && !s.senders[id].isFinal
        && Awaited(s, id).value.Finished? && (s.senders[id].pc.AwaitsOwnCard? || NoCard(Awaited(s, id).value)))
  }

  /** The call raises: the awaited creation did, or an update could not be patched, or a reply could not be sent. */
  predicate Breaks(s: State, a: Action, id: SenderId) {
    || (a == WakeSender(id) && Awaited(s, id) == Some(Raised))
    || (a == PatchReturns(id, false) && id in s.senders && s.senders[id].pc.Patches? && !s.senders[id].isFinal)
    || (a == ReplyReturns(id, false) && id in s.senders && s.senders[id].pc.Replies?)
  }

  predicate IsDone(s: State, id: SenderId) {
    id in s.senders && s.senders[id].pc.Done?
  }

  predicate IsFailed(s: State, id: SenderId) {
    id in s.senders && s.senders[id].pc.Failed?
  }

  /** Who sends what to whom does not change. */
  predicate SameSend(s: State, s': State, id: SenderId) {
    id in s.senders ==>
      && id in s'.senders
      && s'.senders[id].source == s.senders[id].source
      && s'.senders[id].isFinal == s.senders[id].isFinal
  }

  lemma BeginEndsNothing(s: State, a: Action, id: SenderId)
    requires a.BeginSend?
    ensures SameSend(s, Apply(s, a), id)
    ensures IsDone(Apply(s, a), id) == IsDone(s, id) && IsFailed(Apply(s, a), id) == IsFailed(s, id)
  {
    BeginChangesOne(s, a.id, a.source, a.isFinal, a.task, id);
  }

  lemma WakeEnds(s: State, woken: SenderId, id: SenderId)
    requires id in s.senders ==> SenderOk(s.creations, s.senders[id])
    ensures SameSend(s, Wake(s, woken), id)
    ensures IsDone(Wake(s, woken), id) <==> IsDone(s, id) || Finishes(s, WakeSender(woken), id)
    ensures IsFailed(Wake(s, woken), id) <==> IsFailed(s, id) || Breaks(s, WakeSender(woken), id)
  {
  }

  /** A call ends by these steps and no others, and an ended call stays ended. */
  lemma EndsIff(s: State, a: Action, id: SenderId)
    requires id in s.senders ==> SenderOk(s.creations, s.senders[id])
    ensures SameSend(s, Apply(s, a), id)
    ensures IsDone(Apply(s, a), id) <==> IsDone(s, id) || Finishes(s, a, id)
    ensures IsFailed(Apply(s, a), id) <==> IsFailed(s, id) || Breaks(s, a, id)
  {
    hide Begin, Wake, StartCreation, Resume, Finalize;
    if a.WakeSender? {
      WakeEnds(s, a.id, id);
    } else if a.BeginSend? {
      BeginEndsNothing(s, a, id);
    } else if a.EnsureStarted? || a.CreationResumes? || a.FinalizeTask? {
      TaskStepKeepsSenders(s, a);
    }
  }

  /** Over every run: a call that returned did so by one of these steps. */
  lemma {:induction false} DoneWasFinished(actions: seq<Action>, id: SenderId)
    requires IsDone(Run(actions), id)
    ensures exists k :: 0 <= k < |actions| && Finishes(Run(actions[..k]), actions[k], id)
                        && SameSend(Run(actions[..k]), Run(actions), id)
  {
    hide Apply, Finishes, CreationsOk, SenderOk;
    var n := |actions| - 1;
    RunKeeps(actions[..n]);
    EndsIff(Run(actions[..n]), actions[n], id);
    if !Finishes(Run(actions[..n]), actions[n], id) {
      DoneWasFinished(actions[..n], id);
      var k :| 0 <= k < n && Finishes(Run(actions[..n][..k]), actions[k], id)
               && SameSend(Run(actions[..n][..k]), Run(actions[..n]), id);
      assert actions[..n][..k] == actions[..k];
      FinishesKnown(Run(actions[..k]), actions[k], id);
    }
  }

  lemma FinishesKnown(s: State, a: Action, id: SenderId)
    requires Finishes(s, a, id)
    ensures id in s.senders
  {
  }

  /** Over every run: a final message whose call returned was sent, by a patch or a reply of that very call. */
  lemma FinalIsSent(actions: seq<Action>, id: SenderId)
    requires IsDone(Run(actions), id) && Run(actions).senders[id].isFinal
    ensures exists k :: 0 <= k < |actions| && Sends(Run(actions[..k]), actions[k], id)
                        && Clears(Run(actions[..k]), actions[k], Run(actions).senders[id].source)
  {
    hide Run;
    DoneWasFinished(actions, id);
    var k :| 0 <= k < |actions| && Finishes(Run(actions[..k]), actions[k], id)
             && SameSend(Run(actions[..k]), Run(actions), id);
    assert Sends(Run(actions[..k]), actions[k], id);
  }

  /** The failures of a final message: the creation it waited for raised, or its own reply was refused. */
  lemma {:induction false} FinalFailsByItself(actions: seq<Action>, id: SenderId)
    requires IsFailed(Run(actions), id) && Run(actions).senders[id].isFinal
    ensures exists k :: 0 <= k < |actions| && id in Run(actions[..k]).senders
                        && ((actions[k] == WakeSender(id) && Awaited(Run(actions[..k]), id) == Some(Raised))
                            || (actions[k] == ReplyReturns(id, false) && Run(actions[..k]).senders[id].pc.Replies?))
  {
    hide Apply, CreationsOk, SenderOk, Awaited;
    var n := |actions| - 1;
    RunKeeps(actions[..n]);
    EndsIff(Run(actions[..n]), actions[n], id);
    if Breaks(Run(actions[..n]), actions[n], id) {
      BreaksKnown(Run(actions[..n]), actions[n], id);
    } else {
      hide Breaks;
      FinalFailsByItself(actions[..n], id);
      assert forall k :: 0 <= k < n ==> actions[..n][..k] == actions[..k];
    }
  }

  lemma BreaksKnown(s: State, a: Action, id: SenderId)
    requires Breaks(s, a, id)
    ensures id in s.senders
  {
  }

  lemma {:induction false} DoneStays(actions: seq<Action>, lo: nat, hi: nat, id: SenderId)
    requires lo <= hi <= |actions| && IsDone(Run(actions[..lo]), id)
    ensures IsDone(Run(actions[..hi]), id)
    decreases hi
  {
    hide Apply, Finishes, CreationsOk, SenderOk;
    if lo < hi {
      DoneStays(actions, lo, hi - 1, id);
      RunKeeps(actions[..hi - 1]);
      assert actions[..hi][..hi - 1] == actions[..hi - 1];
      EndsIff(Run(actions[..hi - 1]), actions[hi - 1], id);
    }
  }

  /** Over every run: the platform accepts the text of one call at most once. */
  lemma SentOnce(actions: seq<Action>, i: nat, j: nat, id: SenderId)
    requires i < |actions| && j < |actions|
    requires Sends(Run(actions[..i]), actions[i], id) && Sends(Run(actions[..j]), actions[j], id)
    ensures i == j
  {
    if i < j { SentNotLater(actions, i, j, id); } else if j < i { SentNotLater(actions, j, i, id); }
  }

  lemma SentNotLater(actions: seq<Action>, i: nat, j: nat, id: SenderId)
    requires i < j < |actions| && Sends(Run(actions[..i]), actions[i], id)
    ensures !Sends(Run(actions[..j]), actions[j], id)
  {
    hide Apply, CreationsOk, SenderOk;
    RunKeeps(actions[..i]);
    assert actions[..i + 1][..i] == actions[..i];
    EndsIff(Run(actions[..i]), actions[i], id);
    hide Run;
    DoneStays(actions, i + 1, j, id);
  }

  /** The call creates its card itself, or did so and is over. */
  predicate ShowsByCreating(s: State, id: SenderId) {
    id in s.senders && (s.senders[id].pc.AwaitsOwnCard? || s.senders[id].pc.Done? || s.senders[id].pc.Failed?)
  }

  lemma CreatorStep(s: State, a: Action, id: SenderId)
    requires ShowsByCreating(s, id)
    ensures ShowsByCreating(Apply(s, a), id)
  {
    hide StartCreation, Resume, Finalize;
    if a.BeginSend? { BeginChangesOne(s, a.id, a.source, a.isFinal, a.task, id); }
    if a.EnsureStarted? || a.CreationResumes? || a.FinalizeTask? { TaskStepKeepsSenders(s, a); }
  }

  /** The call starts a creation of its own. */
  predicate StartsOwn(s: State, a: Action, id: SenderId) {
    a.BeginSend? && a.id == id && id !in s.senders && a.task !in s.creations && a.task in Apply(s, a).creations
  }

  lemma CreatorBegins(s: State, a: Action, id: SenderId)
    requires StartsOwn(s, a, id)
    ensures ShowsByCreating(Apply(s, a), id)
  {
    hide Wake, Resume, Finalize;
  }

  lemma {:induction false} CreatorStays(actions: seq<Action>, i: nat, j: nat, id: SenderId)
    requires i < j <= |actions| && StartsOwn(Run(actions[..i]), actions[i], id)
    ensures ShowsByCreating(Run(actions[..j]), id)
    decreases j
  {
    hide Apply, ShowsByCreating, StartsOwn;
    assert actions[..j][..j - 1] == actions[..j - 1];
    if i < j - 1 {
      CreatorStays(actions, i, j - 1, id);
      CreatorStep(Run(actions[..j - 1]), actions[j - 1], id);
    } else {
      CreatorBegins(Run(actions[..i]), actions[i], id);
    }
  }

  /** Over every run: an update whose text became the card is not patched or replied as well. */
  lemma CreatorSendsNothingElse(actions: seq<Action>, i: nat, j: nat, id: SenderId)
    requires i < |actions| && j < |actions| && StartsOwn(Run(actions[..i]), actions[i], id)
    ensures !Sends(Run(actions[..j]), actions[j], id)
  {
    hide Apply, Run;
    if i < j {
      CreatorStays(actions, i, j, id);
    } else {
      UnknownBefore(actions, j, i, id);
    }
  }

  lemma {:induction false} UnknownBefore(actions: seq<Action>, j: nat, i: nat, id: SenderId)
    requires j <= i <= |actions| && id !in Run(actions[..i]).senders
    ensures id !in Run(actions[..j]).senders
    decreases i
  {
    if j < i {
      hide Apply, CreationsOk, SenderOk;
      assert actions[..i][..i - 1] == actions[..i - 1];
      RunKeeps(actions[..i - 1]);
      EndsIff(Run(actions[..i - 1]), actions[i - 1], id);
      UnknownBefore(actions, j, i - 1, id);
    }
  }

  /** Whoever asks for a running card gets one that is recorded, or one that is under way. */
  lemma AskedIsServed(s: State, a: Action)
    requires (a.EnsureStarted? || (a.BeginSend? && !a.isFinal && a.id !in s.senders)) && a.task !in s.creations
    ensures a.source in Apply(s, a).cards || a.source in Apply(s, a).tasks
    ensures a.source !in s.cards && a.source !in s.tasks ==> Creating(Apply(s, a), a.source)
  {
    if a.source !in s.cards && a.source !in s.tasks {
      assert Apply(s, a).creations[a.task] == Creation(a.source, InFlight);
    }
  }

  /** The done callback of creation `t` runs after the creation ended. */
  predicate Finalizes(s: State, a: Action, t: TaskId) {
    a == FinalizeTask(t) && t in s.creations && !s.creations[t].phase.InFlight?
  }

  predicate Forgotten(s: State, t: TaskId) {
    t in s.creations && forall source :: source in s.tasks ==> s.tasks[source] != t
  }

  lemma ForgottenStays(s: State, a: Action, t: TaskId)
    requires Forgotten(s, t)
    ensures Forgotten(Apply(s, a), t)
  {
    hide Wake;
    if a.WakeSender? { WakeIsSenderStep(s, a.id); }
  }

  lemma FinalizeForgets(s: State, t: TaskId)
    requires CreationsOk(s) && t in s.creations && !s.creations[t].phase.InFlight?
    ensures Forgotten(Finalize(s, t), t)
  {
  }

  /** Over every run: once its done callback ran, a creation is never waited for again. */
  lemma {:induction false} FinalizedIsForgotten(actions: seq<Action>, i: nat, j: nat, t: TaskId)
    requires i < j <= |actions| && Finalizes(Run(actions[..i]), actions[i], t)
    ensures Forgotten(Run(actions[..j]), t)
    decreases j
  {
    hide Apply, Forgotten, CreationsOk, SenderOk;
    assert actions[..j][..j - 1] == actions[..j - 1];
    if i < j - 1 {
      hide Finalizes;
      FinalizedIsForgotten(actions, i, j - 1, t);
      ForgottenStays(Run(actions[..j - 1]), actions[j - 1], t);
    } else {
      RunKeeps(actions[..i]);
      FinalizeForgets(Run(actions[..i]), t);
      FinalizeApplies(Run(actions[..i]), t);
    }
  }

  lemma FinalizeApplies(s: State, t: TaskId)
    ensures Apply(s, FinalizeTask(t)) == Finalize(s, t)
  {
  }

  /******* Which card is patched *******/

  /** A creation for this very message returned this card. */
  predicate Made(s: State, source: Source, card: CardId) {
    card != "" && exists t :: t in s.creations && s.creations[t] == Creation(source, Finished(Some(card)))
  }

  ghost predicate CardsMade(s: State) {
    && (forall source :: source in s.cards ==> Made(s, source, s.cards[source]))
    && (forall id :: id in s.senders && s.senders[id].pc.Patches? ==>
          Made(s, s.senders[id].source, s.senders[id].pc.card))
  }

  lemma MadeStays(s: State, a: Action, source: Source, card: CardId)
    requires Made(s, source, card)
    ensures Made(Apply(s, a), source, card)
  {
    var t :| t in s.creations && s.creations[t] == Creation(source, Finished(Some(card)));
    assert Apply(s, a).creations[t] == s.creations[t];
  }

  lemma StepRecordsMade(s: State, a: Action, source: Source)
    requires CreationsOk(s) && source in Apply(s, a).cards
    requires source in s.cards ==> Made(s, source, s.cards[source])
    ensures Made(Apply(s, a), source, Apply(s, a).cards[source])
  {
    RecordChangesIff(s, a, source);
    if source in s.cards && Apply(s, a).cards[source] == s.cards[source] {
      hide Made, CreationsOk, Apply;
      MadeStays(s, a, source, s.cards[source]);
    } else {
      hide CreationsOk, Begin, Wake, StartCreation, Finalize;
      assert Apply(s, a).creations[a.task] == Creation(source, Finished(Some(Apply(s, a).cards[source])));
    }
  }

  /** The card a sender turns to was on record for its source, or made by the creation it waited for. */
  lemma PatchBeginsMade(s: State, a: Action, id: SenderId)
    requires id in Apply(s, a).senders && Apply(s, a).senders[id].pc.Patches?
    requires id in s.senders ==> SenderOk(s.creations, s.senders[id])
    requires forall source :: source in s.cards ==> Made(s, source, s.cards[source])
    requires id in s.senders && s.senders[id].pc.Patches? ==> Made(s, s.senders[id].source, s.senders[id].pc.card)
    ensures Made(s, Apply(s, a).senders[id].source, Apply(s, a).senders[id].pc.card)
  {
    hide Begin, Wake, StartCreation, Resume, Finalize, Made;
    if a.EnsureStarted? || a.CreationResumes? || a.FinalizeTask? {
      TaskStepKeepsSenders(s, a);
    } else if a.BeginSend? {
      BeginChangesOne(s, a.id, a.source, a.isFinal, a.task, id);
      if id !in s.senders { BeginPatches(s, id, a.source, a.isFinal, a.task); }
    } else if a.WakeSender? {
      WakePatches(s, a.id, id);
    }
  }

  /** A call turns to the recorded card, else to the creation under way; only without either does it speak itself. */
  lemma TurnsToItsCard(s: State, id: SenderId, source: Source, isFinal: bool, t: TaskId)
    requires id !in s.senders && t !in s.creations
    ensures
      var senders := Begin(s, id, source, isFinal, t).senders;
      && id in senders && senders[id].source == source && senders[id].isFinal == isFinal
      && (senders[id].pc.Patches? <==> source in s.cards)
      && (senders[id].pc.AwaitsCreation? <==> source !in s.cards && source in s.tasks)
      && (senders[id].pc.Replies? <==> source !in s.cards && source !in s.tasks && isFinal)
      && (senders[id].pc.Patches? ==> senders[id].pc.card == s.cards[source])
      && (senders[id].pc.AwaitsCreation? ==> senders[id].pc.task == s.tasks[source])
  {
  }

  lemma BeginPatches(s: State, id: SenderId, source: Source, isFinal: bool, t: TaskId)
    requires id !in s.senders
    ensures
      var senders := Begin(s, id, source, isFinal, t).senders;
      && (source in s.cards ==> id in senders && senders[id] == Sender(source, isFinal, Patches(s.cards[source])))
      && (id in senders ==> senders[id].source == source && (senders[id].pc.Patches? ==> source in s.cards))
  {
  }

  lemma WakePatches(s: State, woken: SenderId, id: SenderId)
    requires id in Wake(s, woken).senders && Wake(s, woken).senders[id].pc.Patches?
    requires id in s.senders ==> SenderOk(s.creations, s.senders[id])
    ensures id in s.senders
    ensures
      || Wake(s, woken).senders[id] == s.senders[id]
      || Made(s, s.senders[id].source, Wake(s, woken).senders[id].pc.card)
    ensures Wake(s, woken).senders[id].source == s.senders[id].source
  {
  }

  /** Over every run: recorded cards and cards being patched were made for the message they stand under. */
  lemma {:induction false} PatchesOwnCard(actions: seq<Action>)
    ensures CardsMade(Run(actions))
  {
    if actions != [] {
      var before, a := actions[..|actions| - 1], actions[|actions| - 1];
      var s, s' := Run(before), Run(actions);
      hide Apply, Made, CreationsOk, SenderOk;
      PatchesOwnCard(before);
      RunKeeps(before);
      forall source | source in s'.cards ensures Made(s', source, s'.cards[source]) {
        StepRecordsMade(s, a, source);
      }
      forall id | id in s'.senders && s'.senders[id].pc.Patches?
        ensures Made(s', s'.senders[id].source, s'.senders[id].pc.card)
      {
        PatchBeginsMade(s, a, id);
        MadeStays(s, a, s'.senders[id].source, s'.senders[id].pc.card);
      }
    }
  }

  /** A sender that waited for a creation goes on with that creation's card. */
  lemma WakeUsesCreatedCard(actions: seq<Action>, id: SenderId)
    requires id in Run(actions).senders && Run(actions).senders[id].pc.AwaitsCreation?
    ensures
      var s, s' := Run(actions), Wake(Run(actions), id);
      && s.senders[id].pc.task in s.creations
      && var creation := s.creations[s.senders[id].pc.task];
      && creation.source == s.senders[id].source
      && (s'.senders[id].pc.Patches? <==>
          creation.phase.Finished? && creation.phase.card.Some? && creation.phase.card.value != "")
      && (s'.senders[id].pc.Patches? ==> Some(s'.senders[id].pc.card) == creation.phase.card)
      && (s'.senders[id].pc.AwaitsCreation? <==> creation.phase.InFlight?)
  {
    RunKeeps(actions);
  }

  /******* The adapter's dictionaries *******/

  class RunningCards {
    var cards: map<Source, CardId>
    var tasks: map<Source, TaskId>
    var creations: map<TaskId, Creation>
    var senders: map<SenderId, Sender>

    ghost function Now(): State
      reads this
    {
      State(cards, tasks, creations, senders)
    }

    method EnsureRunningCardStarted(source: Source, nextTask: TaskId) returns (task: Option<TaskId>)
      requires nextTask !in creations
      modifies this
      ensures Now() == Apply(old(Now()), EnsureStarted(source, nextTask))
      ensures task.None? <==> source in cards
      ensures task.Some? ==> source in tasks && tasks[source] == task.value
    {
      if source in cards { return None; }
      if source in tasks { return Some(tasks[source]); }
      tasks := tasks[source := nextTask];
      creations := creations[nextTask := Creation(source, InFlight)];
      return Some(nextTask);
    }

    method ResumeCreation(task: TaskId, result: Phase)
      requires task in creations && creations[task].phase.InFlight? && !result.InFlight?
      modifies this
      ensures Now() == Apply(old(Now()), CreationResumes(task, result))
    {
      var source := creations[task].source;
      if result.Finished? && result.card.Some? && result.card.value != "" {
        cards := cards[source := result.card.value];
      }
      creations := creations[task := Creation(source, result)];
    }

    method FinalizeRunningCardTask(task: TaskId)
      requires task in creations && !creations[task].phase.InFlight?
      modifies this
      ensures Now() == Apply(old(Now()), FinalizeTask(task))
    {
      var source := creations[task].source;
      if source in tasks && tasks[source] == task {
        tasks := tasks - {source};
      }
    }

    /** `_send_card_message` up to its first await. */
    method BeginSendCardMessage(id: SenderId, source: Source, isFinal: bool, nextTask: TaskId)
      requires id !in senders && nextTask !in creations
      modifies this
      ensures Now() == Apply(old(Now()), BeginSend(id, source, isFinal, nextTask))
    {
      var pc;
      if source in cards {
        pc := Patches(cards[source]);
      } else if source in tasks {
        pc := AwaitsCreation(tasks[source]);
      } else if isFinal {
        pc := Replies;
      } else {
        var task := EnsureRunningCardStarted(source, nextTask);
        pc := AwaitsOwnCard(nextTask);
      }
      senders := senders[id := Sender(source, isFinal, pc)];
    }

    /** The rest of `_send_card_message` once its patch or reply came back. */
    method FinishSendCardMessage(id: SenderId, ok: bool)
      requires id in senders && (senders[id].pc.Patches? || senders[id].pc.Replies?)
      modifies this
      ensures Now() ==
              Apply(old(Now()), if old(senders[id].pc.Patches?) then PatchReturns(id, ok) else ReplyReturns(id, ok))
      ensures ok && senders[id].isFinal ==> senders[id].source !in cards
    {
      var sender := senders[id];
      if ok {
        senders := senders[id := sender.(pc := Done)];
        if sender.isFinal { cards := cards - {sender.source}; }
      } else {
        senders := senders[id := sender.(pc := if sender.pc.Patches? && sender.isFinal then Replies else Failed)];
      }
    }
  }
}
