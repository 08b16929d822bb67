// The active-editor tracker of documentLanguage.ts. Each call of didChangeActiveTextEditor is a task
// that runs without interruption from one await to the next; the tasks, the debounce timer and the
// user's editor switches interleave at the awaits.
module EditorTracker {
  import opened Wrappers

  type Editor = nat

  datatype Switched = Switched(editor: Option<Editor>, gen: nat)

  datatype Reply = Data(fileType: string) | Error | Timeout

  datatype Pc =
    | Upgrading                                  // setTextDocumentLanguage
    | Notifying                                  // didFocusFile
    | Requesting                                 // getFileTypes
    | SettingContext(canThrow: bool, inCatch: bool, timedOut: bool)
    | BackingOff(thrown: bool)                   // `thrown`: an exception is on its way out

  // The editor is known from the first await on: a switch to no editor ends before it.
  datatype Task = Task(editor: Editor, gen: nat, pc: Pc)

  // How the request of a generation ended.
  datatype Ending = NoEditor | NotSent | Answered(editor: Editor, fileType: string) | RequestFailed

  // The closure's variables and its running tasks. `editors` and `endings` record, per generation,
  // the editor it stands for and how it ended.
  datatype State = State(
    generation: nat,
    latestType: string,
    inFlight: bool,
    pending: Option<Switched>,
    timer: Option<Switched>,
    lastFocus: Option<Editor>,
    graphContext: Option<bool>,
    tasks: map<nat, Task>,
    editors: map<nat, Option<Editor>>,
    endings: map<nat, Ending>)

  datatype Event =
    | Switch(editor: Option<Editor>)
    | TimerFires(id: nat)
    | Classify(editor: Option<Editor>, id: nat)
    | UpgradeDone(id: nat, ok: bool, isScript: bool)
    | NotifyDone(id: nat, ok: bool)
    | Replied(id: nat, reply: Reply)
    | ContextDone(id: nat, ok: bool, cancelled: bool)
    | BackoffDone(id: nat)

  const INITIAL := State(0, "", false, None, None, None, None, map[], map[], map[])

  // ------------------------------------------------------------------ the segments of a call

  function End(s: State, id: nat): State { s.(tasks := s.tasks - {id}) }

  function Record(s: State, gen: nat, ending: Ending): State { s.(endings := s.endings[gen := ending]) }

  // From the call to the first await.
  function Enter(s: State, id: nat, next: Switched): State
    requires id !in s.tasks
  {
    if next.gen != s.generation then s
    else
      var s := s.(latestType := "");
      match next.editor
      case None => Record(s, next.gen, NoEditor)
      case Some(editor) => s.(tasks := s.tasks[id := Task(editor, next.gen, Upgrading)])
  }

  function AfterUpgrade(s: State, id: nat, isScript: bool): State
    requires id in s.tasks
  {
    var task := s.tasks[id];
    if task.gen != s.generation then End(s, id)
    else if isScript && s.lastFocus != Some(task.editor) then s.(tasks := s.tasks[id := task.(pc := Notifying)])
    else Request(s, id)
  }

  // One request at a time: a switch that finds one in flight is parked and this call ends.
  function Request(s: State, id: nat): State
    requires id in s.tasks
  {
    var task := s.tasks[id];
    if task.gen != s.generation then End(s, id)
    else if s.inFlight then End(s.(pending := Some(Switched(Some(task.editor), task.gen))), id)
    else s.(inFlight := true, tasks := s.tasks[id := task.(pc := Requesting)])
  }

  // setGraphFile does nothing, and cannot fail, when the context already has the value.
  function SetGraphFile(s: State, id: nat, value: bool, inCatch: bool, timedOut: bool): State
    requires id in s.tasks
  {
    var canThrow := s.graphContext != Some(value);
    s.(graphContext := Some(value),
       tasks := s.tasks[id := s.tasks[id].(pc := SettingContext(canThrow, inCatch, timedOut))])
  }

  function AfterReply(s: State, id: nat, reply: Reply): State
    requires id in s.tasks
  {
    var task := s.tasks[id];
    match reply
    case Data(fileType) =>
      if task.gen != s.generation then Finally(s, id, false, false)
      else
        var s := Record(s, task.gen, Answered(task.editor, fileType));
        if fileType != "" then SetGraphFile(s.(latestType := fileType), id, true, false, false)
        else SetGraphFile(s, id, false, false, false)
    case _ => Catch(s, id, reply == Timeout)
  }

  function Catch(s: State, id: nat, timedOut: bool): State
    requires id in s.tasks
  {
    var task := s.tasks[id];
    if task.gen != s.generation then Finally(s, id, timedOut, false)
    else
      var s := if task.gen in s.endings then s else Record(s, task.gen, RequestFailed);
      SetGraphFile(s, id, false, true, timedOut)
  }

  // A failed update is caught like a failed request; thrown from the catch block itself, it leaves
  // through `finally`.
  function AfterContext(s: State, id: nat, ok: bool, cancelled: bool): State
    requires id in s.tasks && s.tasks[id].pc.SettingContext?
  {
    var pc := s.tasks[id].pc;
    if ok then Finally(s, id, pc.timedOut, false)
    else if pc.inCatch then Finally(s, id, pc.timedOut, true)
    else Catch(s, id, cancelled)
  }

  function Finally(s: State, id: nat, timedOut: bool, thrown: bool): State
    requires id in s.tasks
  {
    if timedOut then s.(tasks := s.tasks[id := s.tasks[id].(pc := BackingOff(thrown))])
    else Release(s, id, thrown)
  }

  // The guard is released. The call goes on as the parked switch, if there is one; an exception
  // skips that.
  function Release(s: State, id: nat, thrown: bool): State {
    var s := End(s.(inFlight := false), id);
    match s.pending
    case Some(next) => if thrown then s else Enter(s.(pending := None), id, next)
    case None => s
  }

  // ------------------------------------------------------------------ the machine

  predicate At(s: State, id: nat, pc: Pc) { id in s.tasks && s.tasks[id].pc == pc }

  // Updating the graph-file context only fails where `contextMayThrow` says it can.
  predicate Enabled(contextMayThrow: bool, s: State, e: Event) {
    match e
    case Switch(_) => true
    case TimerFires(id) => s.timer.Some? && id !in s.tasks
    case Classify(_, id) => id !in s.tasks
    case UpgradeDone(id, _, _) => At(s, id, Upgrading)
    case NotifyDone(id, _) => At(s, id, Notifying)
    case Replied(id, _) => At(s, id, Requesting)
    case ContextDone(id, ok, _) =>
      id in s.tasks && s.tasks[id].pc.SettingContext? && (!ok ==> contextMayThrow && s.tasks[id].pc.canThrow)
    case BackoffDone(id) => id in s.tasks && s.tasks[id].pc.BackingOff?
  }

  function NextGeneration(s: State, editor: Option<Editor>): State {
    s.(generation := s.generation + 1, editors := s.editors[s.generation + 1 := editor])
  }

  function Apply(s: State, e: Event): State
    requires Enabled(true, s, e)
  {
    match e
    case Switch(editor) =>
      var s := NextGeneration(s, editor);
      s.(latestType := "", graphContext := Some(false), timer := Some(Switched(editor, s.generation)))
    case TimerFires(id) => Enter(s.(timer := None), id, s.timer.value)
    case Classify(editor, id) =>
      var s := NextGeneration(s, editor);
      Enter(s, id, Switched(editor, s.generation))
    case UpgradeDone(id, ok, isScript) =>
      if ok then AfterUpgrade(s, id, isScript) else End(Record(s, s.tasks[id].gen, NotSent), id)
    case NotifyDone(id, ok) =>
      if ok then Request(s.(lastFocus := Some(s.tasks[id].editor)), id)
      else End(Record(s, s.tasks[id].gen, NotSent), id)
    case Replied(id, reply) => AfterReply(s, id, reply)
    case ContextDone(id, ok, cancelled) => AfterContext(s, id, ok, cancelled)
    case BackoffDone(id) => Release(s, id, s.tasks[id].pc.thrown)
  }

  ghost predicate Reaches(contextMayThrow: bool, s: State, events: seq<Event>, t: State)
    decreases |events|
  {
    if events == [] then s == t
    else Enabled(contextMayThrow, s, events[0]) && Reaches(contextMayThrow, Apply(s, events[0]), events[1..], t)
  }

  ghost predicate Reachable(contextMayThrow: bool, t: State) {
    exists events :: Reaches(contextMayThrow, INITIAL, events, t)
  }

  // ------------------------------------------------------------------ what every step keeps

  // A task holds the in-flight guard from its request until it has backed off.
  predicate Holds(pc: Pc) { pc.Requesting? || pc.SettingContext? || pc.BackingOff? }

  predicate OneHolder(s: State) {
    && (forall i, j | i in s.tasks && j in s.tasks && Holds(s.tasks[i].pc) && Holds(s.tasks[j].pc) :: i == j)
    && ((exists i :: i in s.tasks && Holds(s.tasks[i].pc)) <==> s.inFlight)
  }

  predicate Known(s: State, gen: nat, editor: Option<Editor>) {
    gen in s.editors && s.editors[gen] == editor
  }

  // Every generation anywhere in the tracker goes with the editor it was started for.
  predicate Consistent(s: State) {
    && (forall g | g in s.editors :: g <= s.generation)
    && (forall i | i in s.tasks :: Known(s, s.tasks[i].gen, Some(s.tasks[i].editor)))
    && (s.pending.Some? ==> Known(s, s.pending.value.gen, s.pending.value.editor))
    && (s.timer.Some? ==> Known(s, s.timer.value.gen, s.timer.value.editor))
    && (forall g | g in s.endings :: g in s.editors &&
          (s.endings[g].Answered? ==> s.editors[g] == Some(s.endings[g].editor)))
  }

  // Someone is still going to act for the current generation, or it has ended.
  predicate Accounted(s: State) {
    || s.generation == 0
    || s.generation in s.endings
    || (s.timer.Some? && s.timer.value.gen == s.generation)
    || (s.pending.Some? && s.pending.value.gen == s.generation)
    || (exists i :: i in s.tasks && s.tasks[i].gen == s.generation)
  }

  // What is to be shown: the answer for the current generation once there is one.
  function Shown(s: State): string {
    if s.generation in s.endings && s.endings[s.generation].Answered? then s.endings[s.generation].fileType else ""
  }

  predicate LatestIsCurrent(s: State) { s.latestType == Shown(s) }

  // A generation is in one place at a time: waiting for the timer, parked, or run by one task, which
  // has heard back by the time the generation has an ending.
  predicate OnePlace(s: State) {
    && (forall i, j | i in s.tasks && j in s.tasks && s.tasks[i].gen == s.tasks[j].gen :: i == j)
    && (s.timer.Some? ==> Unstarted(s, s.timer.value.gen))
    && (s.pending.Some? ==> Unstarted(s, s.pending.value.gen))
    && (s.timer.Some? && s.pending.Some? ==> s.timer.value.gen != s.pending.value.gen)
    && (forall i | i in s.tasks && s.tasks[i].gen in s.endings ::
          s.tasks[i].pc.SettingContext? || s.tasks[i].pc.BackingOff?)
  }

  predicate Unstarted(s: State, gen: nat) {
    gen !in s.endings && forall i | i in s.tasks :: s.tasks[i].gen != gen
  }

  predicate Safe(s: State) { OnePlace(s) && OneHolder(s) && Consistent(s) && LatestIsCurrent(s) }

  // The current generation is accounted for, and has its ending once its task is past the reply.
  predicate Traced(s: State) {
    && Accounted(s)
    && (forall i | i in s.tasks && s.tasks[i].gen == s.generation &&
                   (s.tasks[i].pc.SettingContext? || s.tasks[i].pc.BackingOff?) ::
          s.generation in s.endings)
  }

  // A parked switch waits behind a request, and no exception is on its way past it.
  predicate NothingStuck(s: State) {
    && (s.pending.Some? ==> s.inFlight)
    && (forall i | i in s.tasks && s.tasks[i].pc.BackingOff? :: !s.tasks[i].pc.thrown)
  }

  predicate NothingLost(s: State) { Traced(s) && NothingStuck(s) }

  lemma StartKeepsHolder(s: State, id: nat, task: Task)
    requires OneHolder(s) && id !in s.tasks && !Holds(task.pc)
    ensures OneHolder(s.(tasks := s.tasks[id := task]))
  {
    var t := s.(tasks := s.tasks[id := task]);
    if s.inFlight {
      var h :| h in s.tasks && Holds(s.tasks[h].pc);
      assert h in t.tasks && Holds(t.tasks[h].pc);
    }
  }

  lemma StartIsSafe(s: State, id: nat, editor: Editor, gen: nat)
    requires Safe(s) && s.latestType == "" && id !in s.tasks
    requires Known(s, gen, Some(editor)) && Unstarted(s, gen)
    requires s.timer.Some? ==> s.timer.value.gen != gen
    requires s.pending.Some? ==> s.pending.value.gen != gen
    ensures Safe(s.(tasks := s.tasks[id := Task(editor, gen, Upgrading)]))
  {
    var t := s.(tasks := s.tasks[id := Task(editor, gen, Upgrading)]);
    StartKeepsHolder(s, id, Task(editor, gen, Upgrading));
    assert forall i | i in t.tasks && i != id :: i in s.tasks && t.tasks[i] == s.tasks[i];
    assert OnePlace(t);
  }

  // An ending for a generation nobody is running.
  lemma RecordIsSafe(s: State, gen: nat, ending: Ending)
    requires Safe(s) && s.latestType == "" && !ending.Answered?
    requires gen in s.editors && Unstarted(s, gen)
    requires s.timer.Some? ==> s.timer.value.gen != gen
    requires s.pending.Some? ==> s.pending.value.gen != gen
    ensures Safe(Record(s, gen, ending))
  {
    var t := Record(s, gen, ending);
    assert t.tasks == s.tasks;
  }

  lemma EnterIsSafe(s: State, id: nat, next: Switched)
    requires Safe(s) && id !in s.tasks
    requires Known(s, next.gen, next.editor) && Unstarted(s, next.gen)
    requires s.timer.Some? ==> s.timer.value.gen != next.gen
    requires s.pending.Some? ==> s.pending.value.gen != next.gen
    ensures Safe(Enter(s, id, next))
  {
    if next.gen == s.generation {
      var cleared := s.(latestType := "");
      assert Safe(cleared);
      match next.editor {
        case None => RecordIsSafe(cleared, next.gen, NoEditor);
        case Some(editor) => StartIsSafe(cleared, id, editor, next.gen);
      }
    }
  }

  lemma EndIsSafe(s: State, id: nat)
    requires Safe(s) && id in s.tasks && !Holds(s.tasks[id].pc)
    ensures Safe(End(s, id))
  {
    var t := End(s, id);
    if s.inFlight {
      var h :| h in s.tasks && Holds(s.tasks[h].pc);
      assert h in t.tasks && Holds(t.tasks[h].pc);
    }
  }

  lemma ReleaseIsSafe(s: State, id: nat, thrown: bool)
    requires Safe(s) && id in s.tasks && Holds(s.tasks[id].pc)
    ensures Safe(Release(s, id, thrown))
  {
    var t := End(s.(inFlight := false), id);
    assert forall i | i in t.tasks :: i in s.tasks && i != id;
    assert Safe(t);
    if t.pending.Some? && !thrown {
      EnterIsSafe(t.(pending := None), id, t.pending.value);
    }
  }

  // A holder that moves on to another holding point.
  lemma HolderIsSafe(s: State, id: nat, pc: Pc)
    requires Safe(s) && id in s.tasks && Holds(s.tasks[id].pc)
    requires pc.SettingContext? || pc.BackingOff?
    ensures Safe(s.(tasks := s.tasks[id := s.tasks[id].(pc := pc)]))
  {
    var t := s.(tasks := s.tasks[id := s.tasks[id].(pc := pc)]);
    assert id in t.tasks && Holds(t.tasks[id].pc);
  }

  lemma FinallyIsSafe(s: State, id: nat, timedOut: bool, thrown: bool)
    requires Safe(s) && id in s.tasks && Holds(s.tasks[id].pc)
    ensures Safe(Finally(s, id, timedOut, thrown))
  {
    if timedOut {
      HolderIsSafe(s, id, BackingOff(thrown));
    } else {
      ReleaseIsSafe(s, id, thrown);
    }
  }

  // What a task learns about its generation is recorded together with its next holding point.
  lemma EndingIsSafe(s: State, id: nat, ending: Ending, latestType: string, pc: Pc, graph: Option<bool>)
    requires Safe(s) && id in s.tasks && Holds(s.tasks[id].pc) && s.tasks[id].gen == s.generation
    requires ending.Answered? ==> ending.editor == s.tasks[id].editor
    requires latestType == if ending.Answered? then ending.fileType else ""
    requires pc.SettingContext?
    ensures Safe(s.(endings := s.endings[s.generation := ending], latestType := latestType, graphContext := graph,
                    tasks := s.tasks[id := s.tasks[id].(pc := pc)]))
  {
    var t := s.(endings := s.endings[s.generation := ending], latestType := latestType, graphContext := graph,
                tasks := s.tasks[id := s.tasks[id].(pc := pc)]);
    assert id in t.tasks && Holds(t.tasks[id].pc);
  }

  lemma RequestIsSafe(s: State, id: nat)
    requires Safe(s) && id in s.tasks && !Holds(s.tasks[id].pc)
    ensures Safe(Request(s, id))
  {
    var t := Request(s, id);
    EndIsSafe(s, id);
    if t.inFlight && !s.inFlight {
      assert id in t.tasks && Holds(t.tasks[id].pc);
    }
  }

  lemma NextGenerationIsSafe(s: State, editor: Option<Editor>)
    requires Safe(s)
    ensures Safe(NextGeneration(s, editor).(latestType := ""))
    ensures var t := NextGeneration(s, editor).(latestType := "");
            && Known(t, t.generation, editor) && Unstarted(t, t.generation)
            && (t.timer.Some? ==> t.timer.value.gen != t.generation)
            && (t.pending.Some? ==> t.pending.value.gen != t.generation)
  {
  }

  lemma NotSentIsSafe(s: State, id: nat)
    requires Safe(s) && id in s.tasks && !Holds(s.tasks[id].pc)
    ensures Safe(End(Record(s, s.tasks[id].gen, NotSent), id))
  {
    EndIsSafe(s, id);
    var t := End(s, id);
    var gen := s.tasks[id].gen;
    assert Known(s, gen, Some(s.tasks[id].editor));
    if t.latestType != "" {
      assert gen != s.generation;
    }
    var u := Record(t, gen, NotSent);
    assert u.tasks == t.tasks;
    assert u == End(Record(s, gen, NotSent), id);
  }

  lemma CatchIsSafe(s: State, id: nat, timedOut: bool)
    requires Safe(s) && id in s.tasks && (s.tasks[id].pc.Requesting? || s.tasks[id].pc.SettingContext?)
    ensures Safe(Catch(s, id, timedOut))
  {
    var task := s.tasks[id];
    if task.gen != s.generation {
      FinallyIsSafe(s, id, timedOut, false);
    } else {
      var pc := SettingContext(s.graphContext != Some(false), true, timedOut);
      if task.gen in s.endings {
        HolderIsSafe(s, id, pc);
        var t := s.(tasks := s.tasks[id := task.(pc := pc)]);
        assert Safe(t.(graphContext := Some(false)));
      } else {
        EndingIsSafe(s, id, RequestFailed, "", pc, Some(false));
      }
    }
  }

  lemma ReplyIsSafe(s: State, id: nat, reply: Reply)
    requires Safe(s) && At(s, id, Requesting)
    ensures Safe(AfterReply(s, id, reply))
  {
    var task := s.tasks[id];
    match reply {
      case Data(fileType) =>
        if task.gen != s.generation {
          FinallyIsSafe(s, id, false, false);
        } else {
          var value := fileType != "";
          var pc := SettingContext(s.graphContext != Some(value), false, false);
          EndingIsSafe(s, id, Answered(task.editor, fileType), fileType, pc, Some(value));
        }
      case Error => CatchIsSafe(s, id, false);
      case Timeout => CatchIsSafe(s, id, true);
    }
  }

  lemma TimerIsSafe(s: State, id: nat)
    requires Safe(s) && Enabled(true, s, TimerFires(id))
    ensures Safe(Apply(s, TimerFires(id)))
  {
    EnterIsSafe(s.(timer := None), id, s.timer.value);
  }

  lemma ClassifyIsSafe(s: State, editor: Option<Editor>, id: nat)
    requires Safe(s) && Enabled(true, s, Classify(editor, id))
    ensures Safe(Apply(s, Classify(editor, id)))
  {
    NextGenerationIsSafe(s, editor);
    var t := NextGeneration(s, editor).(latestType := "");
    EnterIsSafe(t, id, Switched(editor, t.generation));
  }

  lemma SwitchIsSafe(s: State, e: Event)
    requires Safe(s) && Enabled(true, s, e) && (e.Switch? || e.TimerFires? || e.Classify?)
    ensures Safe(Apply(s, e))
  {
    match e {
      case Switch(editor) => NextGenerationIsSafe(s, editor);
      case TimerFires(id) => TimerIsSafe(s, id);
      case Classify(editor, id) => ClassifyIsSafe(s, editor, id);
    }
  }

  lemma ContextIsSafe(s: State, id: nat, ok: bool, cancelled: bool)
    requires Safe(s) && id in s.tasks && s.tasks[id].pc.SettingContext?
    ensures Safe(AfterContext(s, id, ok, cancelled))
  {
    var pc := s.tasks[id].pc;
    if ok || pc.inCatch {
      FinallyIsSafe(s, id, pc.timedOut, !ok);
    } else {
      CatchIsSafe(s, id, cancelled);
    }
  }

  lemma NotifyIsSafe(s: State, id: nat, ok: bool)
    requires Safe(s) && At(s, id, Notifying)
    ensures Safe(Apply(s, NotifyDone(id, ok)))
  {
    if ok {
      RequestIsSafe(s.(lastFocus := Some(s.tasks[id].editor)), id);
    } else {
      NotSentIsSafe(s, id);
    }
  }

  // No event breaks the single-request rule or lets an old reply through, even where updating the
  // graph-file context may fail.
  lemma StepIsSafe(s: State, e: Event)
    requires Safe(s) && Enabled(true, s, e)
    ensures Safe(Apply(s, e))
  {
    match e {
      case UpgradeDone(id, ok, isScript) =>
        if ok { UpgradeIsSafe(s, id, isScript); } else { NotSentIsSafe(s, id); }
      case NotifyDone(id, ok) => NotifyIsSafe(s, id, ok);
      case Replied(id, reply) => ReplyIsSafe(s, id, reply);
      case ContextDone(id, ok, cancelled) => ContextIsSafe(s, id, ok, cancelled);
      case BackoffDone(id) => ReleaseIsSafe(s, id, s.tasks[id].pc.thrown);
      case _ => SwitchIsSafe(s, e);
    }
  }

  lemma UpgradeIsSafe(s: State, id: nat, isScript: bool)
    requires Safe(s) && At(s, id, Upgrading)
    ensures Safe(AfterUpgrade(s, id, isScript))
  {
    var task := s.tasks[id];
    if task.gen != s.generation {
      EndIsSafe(s, id);
    } else if isScript && s.lastFocus != Some(task.editor) {
      var t := s.(tasks := s.tasks[id := task.(pc := Notifying)]);
      if s.inFlight {
        var h :| h in s.tasks && Holds(s.tasks[h].pc);
        assert h in t.tasks && Holds(t.tasks[h].pc);
      }
    } else {
      RequestIsSafe(s, id);
    }
  }

  // ------------------------------------------------------------------ nothing is lost

  // A step of task `id` keeps the current generation accounted for if it does so for what was that
  // task's or the parked switch's business.
  lemma StillAccounted(s: State, t: State, id: nat)
    requires Accounted(s) && t.generation == s.generation && s.endings.Keys <= t.endings.Keys
    requires s.timer == t.timer || (s.timer.Some? && s.timer.value.gen == s.generation ==> Accounted(t))
    requires forall i | i in s.tasks && i != id :: i in t.tasks && t.tasks[i].gen == s.tasks[i].gen
    requires id in s.tasks && s.tasks[id].gen == s.generation ==> Accounted(t)
    requires s.pending == t.pending || (s.pending.Some? && s.pending.value.gen == s.generation ==> Accounted(t))
    ensures Accounted(t)
  {
    if i :| i in s.tasks && s.tasks[i].gen == s.generation && i != id {
      assert i in t.tasks && t.tasks[i].gen == t.generation;
    }
  }

  lemma ReleaseStaysTraced(s: State, id: nat, thrown: bool)
    requires Safe(s) && Traced(s) && id in s.tasks && Holds(s.tasks[id].pc)
    requires s.tasks[id].gen == s.generation ==> s.generation in s.endings
    ensures Traced(Release(s, id, thrown))
  {
    var freed := End(s.(inFlight := false), id);
    StillAccounted(s, freed, id);
    if s.pending.Some? && !thrown {
      EnterStaysTraced(freed, id, s.pending.value);
    }
  }

  // Taking the parked switch up: it was all that was left of its generation.
  lemma EnterStaysTraced(s: State, id: nat, next: Switched)
    requires Traced(s) && id !in s.tasks && s.pending == Some(next)
    ensures Traced(Enter(s.(pending := None), id, next))
  {
    var t := Enter(s.(pending := None), id, next);
    if next.gen == s.generation {
      if next.editor.Some? {
        assert id in t.tasks && t.tasks[id].gen == t.generation;
      }
    } else if i :| i in s.tasks && s.tasks[i].gen == s.generation {
      assert i in t.tasks && t.tasks[i].gen == t.generation;
    }
  }

  lemma FinallyStaysTraced(s: State, id: nat, timedOut: bool, thrown: bool)
    requires Safe(s) && Traced(s) && id in s.tasks && Holds(s.tasks[id].pc)
    requires s.tasks[id].gen == s.generation ==> s.generation in s.endings
    ensures Traced(Finally(s, id, timedOut, thrown))
  {
    if timedOut {
      StillAccounted(s, Finally(s, id, timedOut, thrown), id);
    } else {
      ReleaseStaysTraced(s, id, thrown);
    }
  }

  lemma RequestStaysTraced(s: State, id: nat)
    requires Safe(s) && Traced(s) && id in s.tasks && !Holds(s.tasks[id].pc)
    ensures Traced(Request(s, id))
  {
    var t := Request(s, id);
    if s.tasks[id].gen == s.generation && !s.inFlight {
      assert id in t.tasks && t.tasks[id].gen == t.generation;
    }
    StillAccounted(s, t, id);
  }

  lemma UpgradeStaysTraced(s: State, id: nat, isScript: bool)
    requires Safe(s) && Traced(s) && At(s, id, Upgrading)
    ensures Traced(AfterUpgrade(s, id, isScript))
  {
    var task := s.tasks[id];
    var t := AfterUpgrade(s, id, isScript);
    if task.gen != s.generation {
      StillAccounted(s, t, id);
    } else if isScript && s.lastFocus != Some(task.editor) {
      assert id in t.tasks && t.tasks[id].gen == t.generation;
    } else {
      RequestStaysTraced(s, id);
    }
  }

  lemma NotSentStaysTraced(s: State, id: nat)
    requires Safe(s) && Traced(s) && id in s.tasks && !Holds(s.tasks[id].pc)
    ensures Traced(End(Record(s, s.tasks[id].gen, NotSent), id))
  {
    StillAccounted(s, End(Record(s, s.tasks[id].gen, NotSent), id), id);
  }

  lemma NotifyStaysTraced(s: State, id: nat, ok: bool)
    requires Safe(s) && Traced(s) && At(s, id, Notifying)
    ensures Traced(Apply(s, NotifyDone(id, ok)))
  {
    if ok {
      RequestStaysTraced(s.(lastFocus := Some(s.tasks[id].editor)), id);
    } else {
      NotSentStaysTraced(s, id);
    }
  }

  lemma CatchStaysTraced(s: State, id: nat, timedOut: bool)
    requires Safe(s) && Traced(s) && id in s.tasks && (s.tasks[id].pc.Requesting? || s.tasks[id].pc.SettingContext?)
    ensures Traced(Catch(s, id, timedOut))
  {
    if s.tasks[id].gen != s.generation {
      FinallyStaysTraced(s, id, timedOut, false);
    }
  }

  lemma ReplyStaysTraced(s: State, id: nat, reply: Reply)
    requires Safe(s) && Traced(s) && At(s, id, Requesting)
    ensures Traced(AfterReply(s, id, reply))
  {
    if !reply.Data? {
      CatchStaysTraced(s, id, reply == Timeout);
    } else if s.tasks[id].gen != s.generation {
      FinallyStaysTraced(s, id, false, false);
    }
  }

  lemma ContextStaysTraced(s: State, id: nat, ok: bool, cancelled: bool)
    requires Safe(s) && Traced(s) && id in s.tasks && s.tasks[id].pc.SettingContext?
    ensures Traced(AfterContext(s, id, ok, cancelled))
  {
    var pc := s.tasks[id].pc;
    if ok || pc.inCatch {
      FinallyStaysTraced(s, id, pc.timedOut, !ok);
    } else {
      CatchStaysTraced(s, id, cancelled);
    }
  }

  lemma SwitchStaysTraced(s: State, e: Event)
    requires Safe(s) && Traced(s) && Enabled(true, s, e) && (e.Switch? || e.TimerFires? || e.Classify?)
    ensures Traced(Apply(s, e))
  {
    var t := Apply(s, e);
    match e {
      case Switch(_) =>
      case TimerFires(id) =>
        if s.timer.value.gen == s.generation && s.timer.value.editor.Some? {
          assert id in t.tasks && t.tasks[id].gen == t.generation;
        }
        StillAccounted(s, t, id);
      case Classify(editor, id) =>
        if editor.Some? {
          assert id in t.tasks && t.tasks[id].gen == t.generation;
        }
    }
  }

  // Whatever throws, the current generation stays accounted for.
  lemma StepStaysTraced(s: State, e: Event)
    requires Safe(s) && Traced(s) && Enabled(true, s, e)
    ensures Traced(Apply(s, e))
  {
    match e {
      case UpgradeDone(id, ok, isScript) =>
        if ok { UpgradeStaysTraced(s, id, isScript); } else { NotSentStaysTraced(s, id); }
      case NotifyDone(id, ok) => NotifyStaysTraced(s, id, ok);
      case Replied(id, reply) => ReplyStaysTraced(s, id, reply);
      case ContextDone(id, ok, cancelled) => ContextStaysTraced(s, id, ok, cancelled);
      case BackoffDone(id) => ReleaseStaysTraced(s, id, s.tasks[id].pc.thrown);
      case _ => SwitchStaysTraced(s, e);
    }
  }

  lemma FinallyStaysUnstuck(s: State, id: nat, timedOut: bool)
    requires Safe(s) && NothingStuck(s) && id in s.tasks && Holds(s.tasks[id].pc)
    ensures NothingStuck(Finally(s, id, timedOut, false))
  {
  }

  lemma CatchStaysUnstuck(s: State, id: nat, timedOut: bool)
    requires Safe(s) && NothingStuck(s) && id in s.tasks && Holds(s.tasks[id].pc)
    ensures NothingStuck(Catch(s, id, timedOut))
  {
    if s.tasks[id].gen != s.generation {
      FinallyStaysUnstuck(s, id, timedOut);
    }
  }

  lemma ReplyStaysUnstuck(s: State, id: nat, reply: Reply)
    requires Safe(s) && NothingStuck(s) && At(s, id, Requesting)
    ensures NothingStuck(AfterReply(s, id, reply))
  {
    if !reply.Data? {
      CatchStaysUnstuck(s, id, reply == Timeout);
    } else if s.tasks[id].gen != s.generation {
      FinallyStaysUnstuck(s, id, false);
    }
  }

  lemma ContextStaysUnstuck(s: State, id: nat, ok: bool, cancelled: bool)
    requires Safe(s) && NothingStuck(s) && Enabled(false, s, ContextDone(id, ok, cancelled))
    ensures NothingStuck(AfterContext(s, id, ok, cancelled))
  {
    FinallyStaysUnstuck(s, id, s.tasks[id].pc.timedOut);
  }

  lemma BeforeRequestStaysUnstuck(s: State, e: Event)
    requires Safe(s) && NothingStuck(s) && Enabled(false, s, e) && (e.UpgradeDone? || e.NotifyDone?)
    ensures NothingStuck(Apply(s, e))
  {
  }

  lemma StepStaysUnstuck(s: State, e: Event)
    requires Safe(s) && NothingStuck(s) && Enabled(false, s, e)
    ensures NothingStuck(Apply(s, e))
  {
    match e {
      case Switch(_) =>
      case TimerFires(_) =>
      case Classify(_, _) =>
      case Replied(id, reply) => ReplyStaysUnstuck(s, id, reply);
      case ContextDone(id, ok, cancelled) => ContextStaysUnstuck(s, id, ok, cancelled);
      case BackoffDone(id) => FinallyStaysUnstuck(s, id, false);
      case _ => BeforeRequestStaysUnstuck(s, e);
    }
  }

  lemma StepLosesNothing(s: State, e: Event)
    requires Safe(s) && NothingLost(s) && Enabled(false, s, e)
    ensures NothingLost(Apply(s, e))
  {
    StepStaysTraced(s, e);
    StepStaysUnstuck(s, e);
  }

  // ------------------------------------------------------------------ what is lost, and when

  // The freshest switch is parked.
  predicate FreshlyParked(s: State) { s.pending.Some? && s.pending.value.gen == s.generation }

  // It is parked behind nothing, so nobody will ever take it up.
  predicate Stranded(s: State) { FreshlyParked(s) && !s.inFlight }

  // The step releases the guard with an exception out of the catch block on its way.
  predicate ThrowsPastPending(s: State, e: Event) {
    match e
    case ContextDone(id, ok, _) =>
      id in s.tasks && s.tasks[id].pc.SettingContext? && !ok && s.tasks[id].pc.inCatch && !s.tasks[id].pc.timedOut
    case BackoffDone(id) => id in s.tasks && s.tasks[id].pc.BackingOff? && s.tasks[id].pc.thrown
    case _ => false
  }

  lemma ReleaseStrands(s: State, id: nat, thrown: bool)
    requires Safe(s)
    ensures Stranded(Release(s, id, thrown)) <==> FreshlyParked(s) && thrown
  {
  }

  lemma EndingStrands(s: State, e: Event)
    requires Safe(s) && Enabled(true, s, e) && !Stranded(s) && (e.ContextDone? || e.BackoffDone? || e.Replied?)
    ensures Stranded(Apply(s, e)) <==> FreshlyParked(s) && ThrowsPastPending(s, e)
  {
    ReleaseStrands(s, e.id, false);
    ReleaseStrands(s, e.id, true);
  }

  lemma StartingStrandsNothing(s: State, e: Event)
    requires Safe(s) && Enabled(true, s, e) && !Stranded(s) && !e.ContextDone? && !e.BackoffDone? && !e.Replied?
    ensures !Stranded(Apply(s, e))
  {
  }

  // A step strands the freshest switch exactly when that switch is parked and the step is such a throw:
  // a throw inside the `try`, or one with nothing parked, loses nothing.
  lemma StrandsExactly(s: State, e: Event)
    requires Safe(s) && Enabled(true, s, e) && !Stranded(s)
    ensures Stranded(Apply(s, e)) <==> FreshlyParked(s) && ThrowsPastPending(s, e)
  {
    if e.ContextDone? || e.BackoffDone? || e.Replied? {
      EndingStrands(s, e);
    } else {
      StartingStrandsNothing(s, e);
    }
  }

  // ------------------------------------------------------------------ every run

  lemma {:induction false} RunIsSafe(contextMayThrow: bool, s: State, events: seq<Event>, t: State)
    requires Safe(s) && Reaches(contextMayThrow, s, events, t)
    ensures Safe(t)
    ensures Traced(s) ==> Traced(t)
    ensures !contextMayThrow && NothingLost(s) ==> NothingLost(t)
    decreases |events|
  {
    if events != [] {
      StepIsSafe(s, events[0]);
      if Traced(s) {
        StepStaysTraced(s, events[0]);
      }
      if !contextMayThrow && NothingLost(s) {
        StepLosesNothing(s, events[0]);
      }
      RunIsSafe(contextMayThrow, Apply(s, events[0]), events[1..], t);
    }
  }

  // In every interleaving at most one request is under way, and what is shown is the reply for the editor
  // the current generation stands for as soon as there is one, and nothing before.
  lemma TrackerIsSafe(contextMayThrow: bool, t: State)
    requires Reachable(contextMayThrow, t)
    ensures forall i, j | At(t, i, Requesting) && At(t, j, Requesting) :: i == j
    ensures var answered := t.generation in t.endings && t.endings[t.generation].Answered?;
            && (answered ==> t.latestType == t.endings[t.generation].fileType)
            && (answered ==> Known(t, t.generation, Some(t.endings[t.generation].editor)))
            && (!answered ==> t.latestType == "")
  {
    var events :| Reaches(contextMayThrow, INITIAL, events, t);
    RunIsSafe(contextMayThrow, INITIAL, events, t);
  }

  // The request of the current generation is answered or fails.
  predicate EndsCurrent(s: State, e: Event) {
    e.Replied? && e.id in s.tasks && s.tasks[e.id].gen == s.generation
  }

  // Nothing the user sees changes.
  predicate SameView(s: State, t: State) {
    && t.generation == s.generation && t.latestType == s.latestType
    && t.graphContext == s.graphContext && t.lastFocus == s.lastFocus
  }

  // Taking up the parked switch clears nothing: it has no answer yet.
  lemma ReleaseKeepsView(s: State, id: nat, thrown: bool)
    requires Safe(s)
    ensures SameView(s, Release(s, id, thrown))
  {
    if s.pending.Some? && s.pending.value.gen == s.generation {
      assert Unstarted(s, s.generation);
    }
  }

  lemma FinallyKeepsView(s: State, id: nat, timedOut: bool, thrown: bool)
    requires Safe(s) && id in s.tasks
    ensures SameView(s, Finally(s, id, timedOut, thrown))
  {
    ReleaseKeepsView(s, id, thrown);
  }

  // A failure of the current generation withdraws the graph and nothing else.
  lemma CatchView(s: State, id: nat, timedOut: bool)
    requires Safe(s) && id in s.tasks
    ensures var failed := s.tasks[id].gen == s.generation;
            SameView(if failed then s.(graphContext := Some(false)) else s, Catch(s, id, timedOut))
  {
    FinallyKeepsView(s, id, timedOut, false);
  }

  // What a reply makes of the view.
  function ViewWithReply(s: State, reply: Reply): State {
    match reply
    case Data(fileType) => s.(latestType := fileType, graphContext := Some(fileType != ""))
    case _ => s.(graphContext := Some(false))
  }

  lemma ReplyView(s: State, id: nat, reply: Reply)
    requires Safe(s) && At(s, id, Requesting)
    ensures SameView(if s.tasks[id].gen == s.generation then ViewWithReply(s, reply) else s, AfterReply(s, id, reply))
  {
    if s.tasks[id].gen == s.generation {
      assert s.latestType == "";
    }
    FinallyKeepsView(s, id, false, false);
    CatchView(s, id, reply == Timeout);
  }

  lemma ContextView(s: State, id: nat, ok: bool, cancelled: bool)
    requires Safe(s) && id in s.tasks && s.tasks[id].pc.SettingContext?
    ensures var failed := !ok && !s.tasks[id].pc.inCatch && s.tasks[id].gen == s.generation;
            SameView(if failed then s.(graphContext := Some(false)) else s, AfterContext(s, id, ok, cancelled))
  {
    FinallyKeepsView(s, id, s.tasks[id].pc.timedOut, !ok);
    CatchView(s, id, cancelled);
  }

  lemma TimerView(s: State, id: nat)
    requires Safe(s) && Enabled(true, s, TimerFires(id))
    ensures SameView(s, Apply(s, TimerFires(id)))
  {
    if s.timer.value.gen == s.generation {
      assert Unstarted(s, s.generation);
    }
  }

  lemma BeforeRequestView(s: State, e: Event)
    requires Safe(s) && Enabled(true, s, e) && (e.UpgradeDone? || e.NotifyDone?)
    ensures SameView(if e.NotifyDone? && e.ok then s.(lastFocus := Some(s.tasks[e.id].editor)) else s, Apply(s, e))
  {
  }

  // What each event makes of the view.
  function ViewAfter(s: State, e: Event): State
    requires Enabled(true, s, e)
  {
    match e
    case Switch(_) => s.(generation := s.generation + 1, latestType := "", graphContext := Some(false))
    case Classify(_, _) => s.(generation := s.generation + 1, latestType := "")
    case Replied(_, reply) => if EndsCurrent(s, e) then ViewWithReply(s, reply) else s
    case ContextDone(id, ok, _) =>
      if !ok && !s.tasks[id].pc.inCatch && s.tasks[id].gen == s.generation then s.(graphContext := Some(false)) else s
    case NotifyDone(id, ok) => if ok then s.(lastFocus := Some(s.tasks[id].editor)) else s
    case _ => s
  }

  lemma StepView(s: State, e: Event)
    requires Safe(s) && Enabled(true, s, e)
    ensures SameView(ViewAfter(s, e), Apply(s, e))
  {
    match e {
      case Switch(_) =>
      case Classify(_, _) =>
      case TimerFires(id) => TimerView(s, id);
      case Replied(id, reply) => ReplyView(s, id, reply);
      case ContextDone(id, ok, cancelled) => ContextView(s, id, ok, cancelled);
      case BackoffDone(id) => ReleaseKeepsView(s, id, s.tasks[id].pc.thrown);
      case _ => BeforeRequestView(s, e);
    }
  }

  // Over any step the shown type changes only when a new generation clears it or the current one's answer
  // sets it.
  lemma ShownChangesExactly(s: State, e: Event)
    requires Safe(s) && Enabled(true, s, e)
    ensures Apply(s, e).latestType
         == if e.Switch? || e.Classify? then ""
            else if EndsCurrent(s, e) && e.reply.Data? then e.reply.fileType
            else s.latestType
  {
    StepView(s, e);
  }

  // ------------------------------------------------------------------ the graph-file context

  // The graph is offered exactly while a file type is shown.
  predicate InStep(s: State) { s.graphContext == Some(s.latestType != "") }

  // A switch and the end of the current request bring the context in step, whatever it was before.
  lemma SwitchesAndRepliesBringInStep(s: State, e: Event)
    requires Safe(s) && Enabled(true, s, e) && (e.Switch? || EndsCurrent(s, e))
    ensures InStep(Apply(s, e))
  {
    StepView(s, e);
  }

  // The step starts a generation that leaves the context as it is while a type is shown, or an update that
  // was to offer the graph throws.
  predicate PutsOutOfStep(s: State, e: Event) {
    && s.latestType != ""
    && match e
       case Classify(_, _) => true
       case ContextDone(id, ok, _) =>
         && id in s.tasks && s.tasks[id].gen == s.generation
         && s.tasks[id].pc.SettingContext? && !s.tasks[id].pc.inCatch && !ok
       case _ => false
  }

  lemma StepsOutExactly(s: State, e: Event)
    requires Safe(s) && InStep(s) && Enabled(true, s, e)
    ensures InStep(Apply(s, e)) <==> !PutsOutOfStep(s, e)
  {
    StepView(s, e);
  }

  ghost predicate StaysInStep(s: State, events: seq<Event>)
    decreases |events|
  {
    events != [] && Enabled(true, s, events[0]) ==>
      !PutsOutOfStep(s, events[0]) && StaysInStep(Apply(s, events[0]), events[1..])
  }

  lemma {:induction false} RunStaysInStep(s: State, events: seq<Event>, t: State)
    requires Safe(s) && InStep(s) && Reaches(true, s, events, t) && StaysInStep(s, events)
    ensures InStep(t)
    decreases |events|
  {
    if events != [] {
      StepIsSafe(s, events[0]);
      StepsOutExactly(s, events[0]);
      RunStaysInStep(Apply(s, events[0]), events[1..], t);
    }
  }

  lemma {:induction false} SwitchingStaysInStep(s: State, events: seq<Event>, t: State)
    requires Reaches(false, s, events, t) && forall e | e in events :: !e.Classify?
    ensures Reaches(true, s, events, t) && StaysInStep(s, events)
    decreases |events|
  {
    if events != [] {
      assert !events[0].Classify?;
      SwitchingStaysInStep(Apply(s, events[0]), events[1..], t);
    }
  }

  // Where updates do not throw, the context follows what is shown from any switch, answer or failure on, up
  // to the next call of classifyActiveEditor.
  lemma ContextFollowsType(s: State, e: Event, events: seq<Event>, t: State)
    requires Reachable(true, s) && Enabled(true, s, e) && (e.Switch? || EndsCurrent(s, e))
    requires Reaches(false, Apply(s, e), events, t) && forall e' | e' in events :: !e'.Classify?
    ensures InStep(t)
  {
    var before :| Reaches(true, INITIAL, before, s);
    RunIsSafe(true, INITIAL, before, s);
    StepIsSafe(s, e);
    SwitchesAndRepliesBringInStep(s, e);
    SwitchingStaysInStep(Apply(s, e), events, t);
    RunStaysInStep(Apply(s, e), events, t);
  }

  // Updating the context can throw only where it changes something; so while it is in step the failure of a
  // request leads to no throw, and an answer to one exactly when it names a type.
  lemma UpdateThrowsExactly(s: State, id: nat, reply: Reply)
    requires Safe(s) && InStep(s) && Enabled(true, s, Replied(id, reply)) && s.tasks[id].gen == s.generation
    ensures var t := Apply(s, Replied(id, reply));
            && At(t, id, SettingContext(reply.Data? && reply.fileType != "", !reply.Data?, reply == Timeout))
            && (Enabled(true, t, ContextDone(id, false, false)) <==> t.graphContext != s.graphContext)
  {
    assert s.latestType == "";
  }

  // ------------------------------------------------------------------ sparing the server

  // The task's request timed out and its back-off is not over.
  predicate Cooling(s: State, id: nat) {
    && id in s.tasks
    && match s.tasks[id].pc
       case BackingOff(_) => true
       case SettingContext(_, inCatch, timedOut) => inCatch && timedOut
       case _ => false
  }

  lemma RequestsKeepCooling(s: State, e: Event, id: nat)
    requires Safe(s) && Cooling(s, id) && Enabled(true, s, e) && (e.UpgradeDone? || e.NotifyDone?)
    ensures Cooling(Apply(s, e), id)
  {
  }

  lemma StepKeepsCooling(s: State, e: Event, id: nat)
    requires Safe(s) && Cooling(s, id) && Enabled(true, s, e) && e != BackoffDone(id)
    ensures Cooling(Apply(s, e), id)
  {
    if e.UpgradeDone? || e.NotifyDone? {
      RequestsKeepCooling(s, e, id);
    }
  }

  lemma {:induction false} RunKeepsCooling(s: State, events: seq<Event>, t: State, id: nat)
    requires Safe(s) && Cooling(s, id) && Reaches(true, s, events, t) && BackoffDone(id) !in events
    ensures Cooling(t, id) && Safe(t)
    decreases |events|
  {
    if events != [] {
      StepIsSafe(s, events[0]);
      StepKeepsCooling(s, events[0], id);
      RunKeepsCooling(Apply(s, events[0]), events[1..], t, id);
    }
  }

  // After a timeout no request goes out before the back-off is over.
  lemma TimeoutCools(s: State, id: nat)
    requires Safe(s) && Enabled(true, s, Replied(id, Timeout))
    ensures Cooling(Apply(s, Replied(id, Timeout)), id)
  {
  }

  lemma CoolingHolds(t: State, id: nat)
    requires Safe(t) && Cooling(t, id)
    ensures t.inFlight && forall i :: !At(t, i, Requesting)
  {
  }

  lemma TimeoutHoldsRequests(s: State, id: nat, events: seq<Event>, t: State)
    requires Reachable(true, s) && Enabled(true, s, Replied(id, Timeout))
    requires Reaches(true, Apply(s, Replied(id, Timeout)), events, t) && BackoffDone(id) !in events
    ensures t.inFlight && forall i :: !At(t, i, Requesting)
  {
    var before :| Reaches(true, INITIAL, before, s);
    RunIsSafe(true, INITIAL, before, s);
    var next := Apply(s, Replied(id, Timeout));
    StepIsSafe(s, Replied(id, Timeout));
    TimeoutCools(s, id);
    RunKeepsCooling(next, events, t, id);
    CoolingHolds(t, id);
  }

  // An answer lets the next request out as soon as the context is updated, and a stale one at once.
  lemma AnswerReleasesGuard(s: State, e: Event)
    requires Safe(s) && Enabled(true, s, e)
    requires match e
             case Replied(id, reply) => s.tasks[id].gen != s.generation && reply != Timeout
             case ContextDone(id, ok, _) => ok && !s.tasks[id].pc.timedOut
             case BackoffDone(_) => true
             case _ => false
    ensures !Apply(s, e).inFlight
  {
  }

  // didFocusFile goes out exactly when a script of the current generation is upgraded and is not the file
  // that was notified last.
  lemma NotifiesExactly(s: State, e: Event, id: nat)
    requires Safe(s) && Enabled(true, s, e) && !At(s, id, Notifying)
    ensures At(Apply(s, e), id, Notifying) <==>
              && e == UpgradeDone(id, true, true)
              && s.tasks[id].gen == s.generation && s.lastFocus != Some(s.tasks[id].editor)
  {
    if e.UpgradeDone? {
      UpgradeNotifies(s, e, id);
    } else if e.ContextDone? || e.BackoffDone? || e.Replied? {
      if At(Apply(s, e), id, Notifying) {
        EndingNotifiesNobody(s, e, id);
      }
    } else {
      StartingNotifies(s, e, id);
    }
  }

  lemma ReleaseNotifiesNobody(s: State, id: nat, thrown: bool, i: nat)
    requires At(Release(s, id, thrown), i, Notifying)
    ensures At(s, i, Notifying) && i != id
  {
  }

  lemma FinallyNotifiesNobody(s: State, id: nat, timedOut: bool, thrown: bool, i: nat)
    requires id in s.tasks && At(Finally(s, id, timedOut, thrown), i, Notifying)
    ensures At(s, i, Notifying) && i != id
  {
    if !timedOut {
      ReleaseNotifiesNobody(s, id, thrown, i);
    }
  }

  lemma CatchNotifiesNobody(s: State, id: nat, timedOut: bool, i: nat)
    requires id in s.tasks && At(Catch(s, id, timedOut), i, Notifying)
    ensures At(s, i, Notifying) && i != id
  {
    if s.tasks[id].gen != s.generation {
      FinallyNotifiesNobody(s, id, timedOut, false, i);
    }
  }

  lemma EndingNotifiesNobody(s: State, e: Event, i: nat)
    requires Enabled(true, s, e) && (e.ContextDone? || e.BackoffDone? || e.Replied?)
    requires At(Apply(s, e), i, Notifying)
    ensures At(s, i, Notifying)
  {
    match e {
      case BackoffDone(id) => ReleaseNotifiesNobody(s, id, s.tasks[id].pc.thrown, i);
      case Replied(id, reply) =>
        if !reply.Data? {
          CatchNotifiesNobody(s, id, reply == Timeout, i);
        } else if s.tasks[id].gen != s.generation {
          FinallyNotifiesNobody(s, id, false, false, i);
        }
      case ContextDone(id, ok, cancelled) =>
        if ok || s.tasks[id].pc.inCatch {
          FinallyNotifiesNobody(s, id, s.tasks[id].pc.timedOut, !ok, i);
        } else {
          CatchNotifiesNobody(s, id, cancelled, i);
        }
    }
  }

  lemma StartingNotifies(s: State, e: Event, id: nat)
    requires Enabled(true, s, e) && !At(s, id, Notifying)
    requires e.Switch? || e.TimerFires? || e.Classify? || e.NotifyDone?
    ensures !At(Apply(s, e), id, Notifying)
  {
  }

  lemma UpgradeNotifies(s: State, e: Event, id: nat)
    requires Enabled(true, s, e) && !At(s, id, Notifying) && e.UpgradeDone?
    ensures At(Apply(s, e), id, Notifying) <==>
              && e == UpgradeDone(id, true, true)
              && s.tasks[id].gen == s.generation && s.lastFocus != Some(s.tasks[id].editor)
  {
  }

  // The file notified last is the one of the last notification that went through.
  lemma FocusChangesExactly(s: State, e: Event)
    requires Safe(s) && Enabled(true, s, e)
    ensures Apply(s, e).lastFocus == if e.NotifyDone? && e.ok then Some(s.tasks[e.id].editor) else s.lastFocus
  {
    StepView(s, e);
  }

  // No timer is running and no call is under way.
  predicate Quiet(t: State) { t.tasks == map[] && t.timer.None? }

  predicate Settled(t: State) { t.generation == 0 || t.generation in t.endings }

  lemma {:induction false} RunExtends(contextMayThrow: bool, s: State, events: seq<Event>, t: State, e: Event)
    requires Reaches(contextMayThrow, s, events, t) && Enabled(contextMayThrow, t, e)
    ensures Reaches(contextMayThrow, s, events + [e], Apply(t, e))
    decreases |events|
  {
    if events == [] {
      assert (events + [e])[1..] == [];
    } else {
      RunExtends(contextMayThrow, Apply(s, events[0]), events[1..], t, e);
      assert (events + [e])[1..] == events[1..] + [e];
    }
  }

  lemma Go(s: State, e: Event) returns (t: State)
    requires Reachable(true, s) && Enabled(true, s, e)
    ensures Reachable(true, t) && t == Apply(s, e)
  {
    var events :| Reaches(true, INITIAL, events, s);
    RunExtends(true, INITIAL, events, s, e);
    t := Apply(s, e);
  }

  // The first editor's request is out.
  lemma FirstRequest() returns (t: State)
    ensures Reachable(true, t)
    ensures t == INITIAL.(generation := 1, inFlight := true, editors := map[1 := Some(0)],
                          tasks := map[0 := Task(0, 1, Requesting)])
  {
    assert Reaches(true, INITIAL, [], INITIAL);
    var s1 := Go(INITIAL, Classify(Some(0), 0));
    assert At(s1, 0, Upgrading);
    t := Go(s1, UpgradeDone(0, true, false));
  }

  // It failed, and the catch block is about to update the context.
  lemma RequestInCatch() returns (t: State)
    ensures Reachable(true, t)
    ensures t.tasks == map[0 := Task(0, 1, SettingContext(true, true, false))]
    ensures t.generation == 1 && t.inFlight && t.pending.None? && t.timer.None? && 2 !in t.endings
  {
    var s := FirstRequest();
    t := Go(s, Replied(0, Error));
    assert At(t, 0, SettingContext(true, true, false));
  }

  // A request fails, the update of the context in its catch block is under way, a switch is parked
  // behind it, and then that update throws: nothing ever runs the parked switch.
  lemma ThrowLosesParkedSwitch() returns (t: State)
    ensures Reachable(true, t) && Quiet(t) && !Settled(t)
    ensures t.pending == Some(Switched(Some(1), 2)) && t.generation == 2
  {
    var s := RequestInCatch();
    var s1 := Go(s, Switch(Some(1)));
    var s2 := Go(s1, TimerFires(1));
    assert At(s2, 1, Upgrading) && s2.inFlight;
    var s3 := Go(s2, UpgradeDone(1, true, false));
    assert s3.pending == Some(Switched(Some(1), 2));
    t := Go(s3, ContextDone(0, false, false));
    assert t.tasks == map[];
  }

  // Once nothing is running, the current generation's request has been answered or has failed, unless
  // its switch is the one left behind in the parking slot. This holds in every interleaving, whatever
  // throws.
  lemma QuietSettlesExactly(t: State)
    requires Reachable(true, t) && Quiet(t)
    ensures Settled(t) <==> t.generation == 0 || !FreshlyParked(t)
  {
    var events :| Reaches(true, INITIAL, events, t);
    RunIsSafe(true, INITIAL, events, t);
  }

  // No step of the run throws past the freshest switch.
  ghost predicate NothingThrownPast(s: State, events: seq<Event>)
    decreases |events|
  {
    events != [] && Enabled(true, s, events[0]) ==>
      && !(FreshlyParked(s) && ThrowsPastPending(s, events[0]))
      && NothingThrownPast(Apply(s, events[0]), events[1..])
  }

  lemma {:induction false} RunStrandsNothing(s: State, events: seq<Event>, t: State)
    requires Safe(s) && !Stranded(s) && Reaches(true, s, events, t) && NothingThrownPast(s, events)
    ensures !Stranded(t)
    decreases |events|
  {
    if events != [] {
      StepIsSafe(s, events[0]);
      StrandsExactly(s, events[0]);
      RunStrandsNothing(Apply(s, events[0]), events[1..], t);
    }
  }

  // A run that never throws out of the catch block past the freshest switch settles it.
  lemma CarefulRunSettles(events: seq<Event>, t: State)
    requires Reaches(true, INITIAL, events, t) && NothingThrownPast(INITIAL, events) && Quiet(t)
    ensures Settled(t)
  {
    RunIsSafe(true, INITIAL, events, t);
    RunStrandsNothing(INITIAL, events, t);
    QuietSettlesExactly(t);
  }

  // As a condition on the environment alone: settling can be relied on exactly when updating the
  // graph-file context cannot throw.
  lemma FreshestSwitchSettlesExactly(contextMayThrow: bool)
    ensures (forall t | Reachable(contextMayThrow, t) && Quiet(t) :: Settled(t)) <==> !contextMayThrow
  {
    if contextMayThrow {
      var t := ThrowLosesParkedSwitch();
    } else {
      forall t | Reachable(contextMayThrow, t) && Quiet(t)
        ensures Settled(t)
      {
        var events :| Reaches(contextMayThrow, INITIAL, events, t);
        RunIsSafe(contextMayThrow, INITIAL, events, t);
      }
    }
  }
}
