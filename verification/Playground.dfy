/**
  The asynchronous protocol of the web playground: a selection token, a table
  of worker requests with a timer each, and the callbacks that resolve later
  in any order. The transition functions describe one callback each; a run is
  any sequence of events, so every interleaving of uploads, example loads,
  candidate picks, resets, replies, timeouts and worker errors is covered.
 */
module Playground {
  import opened Outcomes

  /** A `File` object; the bytes read from it and the results computed from them carry its identity. */
  type File = nat

  datatype Example = UsOld | UsNew

  /** What the code does when a worker request settles. */
  datatype Purpose =
    | Ping
    | Inspect(file: File, gen: nat)
    | Diff(base: File, candidate: File, gen: nat)

  /** Asynchronous work in flight outside the worker. */
  datatype Task =
    | ReadBase(file: File, gen: nat)
    | ReadCandidate(file: File, gen: nat)
    | FetchExample(example: Example, gen: nat)
    | Settled(id: nat, purpose: Purpose, ok: bool)

  datatype Verdict = Verdict(base: File, candidate: File)

  datatype State = State(
    selection: nat,
    nextId: nat,
    pending: map<nat, Purpose>,
    timers: set<nat>,
    settled: seq<nat>,           // ids in the order their promises were settled
    tasks: set<Task>,
    currentFile: Option<File>,
    currentBytes: Option<File>,
    candidateFile: Option<File>,
    candidateBytes: Option<File>,
    inspected: bool,
    rendered: Option<File>,      // the file whose inspection the page shows
    verdict: Option<Verdict>     // the comparison the page shows
  )

  datatype Event =
    | PickFile(file: File)
    | PickExample(example: Example)
    | PickCandidate(choice: Option<File>)
    | PressReset
    | ReadDone(task: Task, ok: bool)
    | FetchDone(task: Task, ok: bool, file: File)
    | Continue(task: Task)
    | Reply(id: nat, ok: bool)
    | Boot(ok: bool)
    | Timeout(id: nat)
    | WorkerError

  // ----- One transition per callback --------------------------------------

  function Post(s: State, purpose: Purpose): State {
    s.(nextId := s.nextId + 1, pending := s.pending[s.nextId := purpose], timers := s.timers + {s.nextId})
  }

  /** A promise settles: its entry and timer go, its continuation becomes runnable. */
  function Settle(s: State, id: nat, ok: bool): State {
    if id !in s.pending then s else
    s.(pending := s.pending - {id}, timers := s.timers - {id}, settled := s.settled + [id],
       tasks := s.tasks + {Settled(id, s.pending[id], ok)})
  }

  /** Rejects the pending requests from `id` on, oldest first. */
  function RejectFrom(s: State, id: nat): State
    decreases s.nextId - id
  {
    if id >= s.nextId then s else RejectFrom(Settle(s, id, false), id + 1)
  }

  function BeginSelection(s: State): State {
    s.(selection := s.selection + 1)
  }

  function ShowError(s: State): State {
    s.(inspected := false)
  }

  function AcceptFile(s: State, file: File, gen: nat): State {
    s.(currentFile := Some(file), currentBytes := None, candidateFile := None, candidateBytes := None,
       inspected := false, tasks := s.tasks + {ReadBase(file, gen)})
  }

  function CompareFiles(s: State, gen: nat): State {
    if s.currentBytes.None? || s.candidateBytes.None? then s
    else Post(s, Diff(s.currentBytes.value, s.candidateBytes.value, gen))
  }

  function Done(s: State, task: Task): State {
    s.(tasks := s.tasks - {task})
  }

  function FailUnder(s: State, gen: nat): State {
    if gen == s.selection then ShowError(s) else s
  }

  function Render(s: State, file: File): State {
    s.(inspected := true, rendered := Some(file), verdict := None)
  }

  function OnRead(s: State, task: Task, ok: bool): State {
    match task
    case ReadBase(file, gen) =>
      if ok then Post(s.(currentBytes := Some(file)), Inspect(file, gen)) else FailUnder(s, gen)
    case ReadCandidate(file, gen) =>
      if !ok then FailUnder(s, gen)
      else if gen != s.selection then s
      else CompareFiles(s.(candidateBytes := Some(file)), gen)
    case _ => s
  }

  function OnFetched(s: State, example: Example, gen: nat, ok: bool, file: File): State {
    if !ok then FailUnder(s, gen)
    else if gen != s.selection then s
    else if example == UsNew && s.currentFile.Some? then
      CompareFiles(s.(candidateFile := Some(file), candidateBytes := Some(file)), gen)
    else AcceptFile(s, file, gen)
  }

  function OnSettled(s: State, purpose: Purpose, ok: bool): State {
    match purpose
    case Ping => s
    case Inspect(file, gen) =>
      if gen != s.selection then s
      else if ok then CompareFiles(Render(s, file), gen)
      else ShowError(s)
    case Diff(base, candidate, gen) =>
      if gen != s.selection then s
      else s.(verdict := if ok then Some(Verdict(base, candidate)) else None)
  }

  function Reset(s: State): State {
    BeginSelection(s).(currentFile := None, currentBytes := None, candidateFile := None, candidateBytes := None,
                       inspected := false)
  }

  function OnCandidate(s: State, choice: Option<File>): State {
    if s.currentFile.None? then ShowError(s)
    else if choice.None? then s
    else
      var t := BeginSelection(s).(candidateFile := choice);
      t.(tasks := t.tasks + {ReadCandidate(choice.value, t.selection)})
  }

  function OnExample(s: State, example: Example): State {
    var t := BeginSelection(s);
    t.(tasks := t.tasks + {FetchExample(example, t.selection)})
  }

  function Step(s: State, e: Event): State {
    match e
    case PickFile(file) => AcceptFile(BeginSelection(s), file, s.selection + 1)
    case PickExample(example) => OnExample(s, example)
    case PickCandidate(choice) => OnCandidate(s, choice)
    case PressReset => Reset(s)
    case ReadDone(task, ok) =>
      if task in s.tasks && (task.ReadBase? || task.ReadCandidate?) then OnRead(Done(s, task), task, ok) else s
    case FetchDone(task, ok, file) =>
      if task in s.tasks && task.FetchExample? then OnFetched(Done(s, task), task.example, task.gen, ok, file) else s
    case Continue(task) =>
      if task in s.tasks && task.Settled? then OnSettled(Done(s, task), task.purpose, task.ok) else s
    case Reply(id, ok) => Settle(s, id, ok)
    case Boot(ok) => if ok then s else ShowError(s)
    case Timeout(id) => if id in s.timers then Settle(s, id, false) else s
    case WorkerError => RejectFrom(s, 0)
  }

  /** The page after loading: the warm-up ping is under way. */
  function Init(): State {
    Post(State(0, 1, map[], {}, [], {}, None, None, None, None, false, None, None), Ping)
  }

  function Run(events: seq<Event>): State {
    if events == [] then Init() else Step(Run(events[..|events| - 1]), events[|events| - 1])
  }

  // ----- Requests: pending with a timer, or settled once -------------------

  ghost predicate RequestsSound(s: State) {
    && s.nextId >= 1
    && s.timers == s.pending.Keys
    && (forall id :: 1 <= id < s.nextId <==> id in s.pending || id in s.settled)
    && (forall id :: id in s.pending ==> id !in s.settled)
    && (forall i, j :: 0 <= i < j < |s.settled| ==> s.settled[i] != s.settled[j])
    && (forall t :: t in s.tasks && t.Settled? ==> t.id in s.settled)
  }

  /** Each continuation runs for the promise it was attached to: one per id. */
  ghost predicate OneContinuation(s: State) {
    forall t, u :: t in s.tasks && u in s.tasks && t.Settled? && u.Settled? && t.id == u.id ==> t == u
  }

  lemma SettleKeepsRequests(s: State, id: nat, ok: bool)
    requires RequestsSound(s) && OneContinuation(s)
    ensures RequestsSound(Settle(s, id, ok)) && OneContinuation(Settle(s, id, ok))
  {
  }

  lemma {:induction false} RejectFromKeepsRequests(s: State, id: nat)
    requires RequestsSound(s) && OneContinuation(s)
    ensures RequestsSound(RejectFrom(s, id)) && OneContinuation(RejectFrom(s, id))
    decreases s.nextId - id
  {
    if id < s.nextId {
      SettleKeepsRequests(s, id, false);
      RejectFromKeepsRequests(Settle(s, id, false), id + 1);
    }
  }

  lemma PostKeepsRequests(s: State, purpose: Purpose)
    requires RequestsSound(s) && OneContinuation(s)
    ensures RequestsSound(Post(s, purpose)) && OneContinuation(Post(s, purpose))
  {
  }

  /** A transition that leaves the request table alone and settles nothing keeps it sound. */
  lemma QuietKeepsRequests(s: State, t: State)
    requires RequestsSound(s) && OneContinuation(s)
    requires s.nextId == t.nextId && s.pending == t.pending && s.timers == t.timers && s.settled == t.settled
    requires forall x :: x in t.tasks && x.Settled? ==> x in s.tasks
    ensures RequestsSound(t) && OneContinuation(t)
  {
  }

  lemma CompareKeepsRequests(s: State, gen: nat)
    requires RequestsSound(s) && OneContinuation(s)
    ensures RequestsSound(CompareFiles(s, gen)) && OneContinuation(CompareFiles(s, gen))
  {
    if s.currentBytes.Some? && s.candidateBytes.Some? {
      PostKeepsRequests(s, Diff(s.currentBytes.value, s.candidateBytes.value, gen));
    }
  }

  lemma ReadKeepsRequests(s: State, task: Task, ok: bool)
    requires RequestsSound(s) && OneContinuation(s)
    ensures RequestsSound(OnRead(s, task, ok)) && OneContinuation(OnRead(s, task, ok))
  {
    match task
    case ReadBase(file, gen) =>
      var t := s.(currentBytes := Some(file));
      QuietKeepsRequests(s, t);
      PostKeepsRequests(t, Inspect(file, gen));
    case ReadCandidate(file, gen) =>
      var t := s.(candidateBytes := Some(file));
      QuietKeepsRequests(s, t);
      CompareKeepsRequests(t, gen);
    case _ =>
  }

  lemma FetchedKeepsRequests(s: State, example: Example, gen: nat, ok: bool, file: File)
    requires RequestsSound(s) && OneContinuation(s)
    ensures RequestsSound(OnFetched(s, example, gen, ok, file)) && OneContinuation(OnFetched(s, example, gen, ok, file))
  {
    var t := s.(candidateFile := Some(file), candidateBytes := Some(file));
    QuietKeepsRequests(s, t);
    CompareKeepsRequests(t, gen);
    QuietKeepsRequests(s, AcceptFile(s, file, gen));
    QuietKeepsRequests(s, FailUnder(s, gen));
  }

  lemma SettledKeepsRequests(s: State, purpose: Purpose, ok: bool)
    requires RequestsSound(s) && OneContinuation(s)
    ensures RequestsSound(OnSettled(s, purpose, ok)) && OneContinuation(OnSettled(s, purpose, ok))
  {
    if purpose.Inspect? {
      QuietKeepsRequests(s, Render(s, purpose.file));
      CompareKeepsRequests(Render(s, purpose.file), purpose.gen);
      QuietKeepsRequests(s, ShowError(s));
    } else {
      QuietKeepsRequests(s, OnSettled(s, purpose, ok));
    }
  }

  lemma StepKeepsRequests(s: State, e: Event)
    requires RequestsSound(s) && OneContinuation(s)
    ensures RequestsSound(Step(s, e)) && OneContinuation(Step(s, e))
  {
    match e
    case ReadDone(task, ok) =>
      QuietKeepsRequests(s, Done(s, task));
      ReadKeepsRequests(Done(s, task), task, ok);
    case FetchDone(task, ok, file) =>
      if task.FetchExample? {
        QuietKeepsRequests(s, Done(s, task));
        FetchedKeepsRequests(Done(s, task), task.example, task.gen, ok, file);
      }
    case Continue(task) =>
      if task.Settled? {
        QuietKeepsRequests(s, Done(s, task));
        SettledKeepsRequests(Done(s, task), task.purpose, task.ok);
      }
    case Reply(id, ok) => SettleKeepsRequests(s, id, ok);
    case Timeout(id) => SettleKeepsRequests(s, id, false);
    case WorkerError => RejectFromKeepsRequests(s, 0);
    case _ => QuietKeepsRequests(s, Step(s, e));
  }

  /** In every reachable state each issued request is pending with an armed timer or settled, never both and never twice. */
  lemma {:induction false} EveryRequestSettlesOnce(events: seq<Event>)
    ensures RequestsSound(Run(events)) && OneContinuation(Run(events))
  {
    if events != [] {
      EveryRequestSettlesOnce(events[..|events| - 1]);
      StepKeepsRequests(Run(events[..|events| - 1]), events[|events| - 1]);
    }
  }

  /** A reply or timer for a request that is no longer pending, whatever came before, changes nothing. */
  lemma LateRepliesIgnored(events: seq<Event>, id: nat, ok: bool)
    requires id in Run(events).settled || id >= Run(events).nextId || id == 0
    ensures Run(events + [Reply(id, ok)]) == Run(events)
    ensures Run(events + [Timeout(id)]) == Run(events)
  {
    EveryRequestSettlesOnce(events);
    RunAppend(events, Reply(id, ok));
    RunAppend(events, Timeout(id));
    LateReply(Run(events), id, ok);
  }

  lemma LateReply(s: State, id: nat, ok: bool)
    requires RequestsSound(s) && (id in s.settled || id >= s.nextId || id == 0)
    ensures Step(s, Reply(id, ok)) == s && Step(s, Timeout(id)) == s
  {
    assert id !in s.pending;
  }

  lemma {:induction false} RejectFromClears(s: State, id: nat)
    requires RequestsSound(s) && OneContinuation(s) && forall k :: k in s.pending ==> id <= k
    ensures RejectFrom(s, id).pending == map[]
    decreases s.nextId - id
  {
    if id < s.nextId {
      SettleKeepsRequests(s, id, false);
      RejectFromClears(Settle(s, id, false), id + 1);
    }
  }

  /** After a worker error nothing is left waiting, so no caller hangs on a broken worker. */
  lemma WorkerErrorLeavesNothingPending(events: seq<Event>)
    ensures Run(events + [WorkerError]).pending == map[] && Run(events + [WorkerError]).timers == {}
  {
    EveryRequestSettlesOnce(events);
    assert (events + [WorkerError])[..|events|] == events;
    RejectFromClears(Run(events), 0);
    EveryRequestSettlesOnce(events + [WorkerError]);
  }

  // ----- The page shows the inspection of the current file -----------------

  /** The file and token a piece of work will show an inspection for, if any. */
  datatype Aim = Aim(file: File, gen: nat)

  function PurposeAim(p: Purpose): Option<Aim> {
    if p.Inspect? then Some(Aim(p.file, p.gen)) else None
  }

  function TaskAim(t: Task): Option<Aim> {
    match t
    case ReadBase(file, gen) => Some(Aim(file, gen))
    case Settled(_, purpose, _) => PurposeAim(purpose)
    case _ => None
  }

  /** Work under the current token aims at the current file. */
  ghost predicate AimSound(s: State, a: Option<Aim>) {
    a.Some? ==> a.value.gen <= s.selection && (a.value.gen == s.selection ==> s.currentFile == Some(a.value.file))
  }

  ghost predicate AimStale(s: State, a: Option<Aim>) {
    a.Some? ==> a.value.gen < s.selection
  }

  /** No inspection is under way for the current token. */
  ghost predicate NothingInspected(s: State) {
    && (forall t :: t in s.tasks ==> AimStale(s, TaskAim(t)))
    && (forall id :: id in s.pending ==> AimStale(s, PurposeAim(s.pending[id])))
  }

  ghost predicate HoldsToken(s: State, t: Task) {
    t.FetchExample? && t.gen == s.selection
  }

  ghost predicate AimsSound(s: State) {
    && (forall t :: t in s.tasks ==> AimSound(s, TaskAim(t)))
    && (forall id :: id in s.pending ==> AimSound(s, PurposeAim(s.pending[id])))
  }

  /** A fetched example that still holds the token is alone with it. */
  ghost predicate FetchesSound(s: State) {
    && (forall t :: t in s.tasks && t.FetchExample? ==> t.gen <= s.selection)
    && (forall t :: t in s.tasks && HoldsToken(s, t) ==> NothingInspected(s))
    && (forall t, u :: t in s.tasks && u in s.tasks && HoldsToken(s, t) && HoldsToken(s, u) ==> t == u)
  }

  ghost predicate ShowsCurrentFile(s: State) {
    s.inspected ==> s.currentFile.Some? && s.rendered == s.currentFile
  }

  ghost predicate TokensSound(s: State) {
    AimsSound(s) && FetchesSound(s) && ShowsCurrentFile(s)
  }

  /** Transitions that change neither the token nor the file, and add no inspection work, keep all three. */
  lemma QuietKeepsTokens(s: State, t: State)
    requires TokensSound(s)
    requires s.selection == t.selection && s.currentFile == t.currentFile && (t.inspected ==> s.inspected && s.rendered == t.rendered)
    requires forall x :: x in t.tasks ==> x in s.tasks || (!x.FetchExample? && TaskAim(x).None?)
    requires forall id :: id in t.pending ==>
      t.pending[id].Diff? || t.pending[id].Ping? || (id in s.pending && s.pending[id] == t.pending[id])
    ensures TokensSound(t)
  {
  }

  lemma CompareKeepsTokens(s: State, gen: nat)
    requires TokensSound(s)
    ensures TokensSound(CompareFiles(s, gen))
  {
    QuietKeepsTokens(s, CompareFiles(s, gen));
  }

  /** A fresh token makes all work under way stale. */
  lemma BeginMakesStale(s: State)
    requires TokensSound(s)
    ensures TokensSound(BeginSelection(s)) && NothingInspected(BeginSelection(s))
    ensures forall t :: t in s.tasks ==> !HoldsToken(BeginSelection(s), t)
  {
  }

  lemma AcceptKeepsTokens(s: State, file: File)
    requires TokensSound(s) && NothingInspected(s) && forall t :: t in s.tasks ==> !HoldsToken(s, t)
    ensures TokensSound(AcceptFile(s, file, s.selection))
  {
  }

  lemma SettleKeepsTokens(s: State, id: nat, ok: bool)
    requires TokensSound(s)
    ensures TokensSound(Settle(s, id, ok))
  {
    if id in s.pending {
      var t := Settle(s, id, ok);
      forall x | x in t.tasks ensures AimSound(t, TaskAim(x)) {
        assert x in s.tasks || TaskAim(x) == PurposeAim(s.pending[id]);
      }
    }
  }

  lemma {:induction false} RejectFromKeepsTokens(s: State, id: nat)
    requires TokensSound(s)
    ensures TokensSound(RejectFrom(s, id))
    decreases s.nextId - id
  {
    if id < s.nextId {
      SettleKeepsTokens(s, id, false);
      RejectFromKeepsTokens(Settle(s, id, false), id + 1);
    }
  }

  lemma ReadKeepsTokens(s: State, task: Task, ok: bool)
    requires TokensSound(s) && task in s.tasks && (task.ReadBase? || task.ReadCandidate?)
    ensures TokensSound(OnRead(Done(s, task), task, ok))
  {
    var d := Done(s, task);
    QuietKeepsTokens(s, d);
    if task.ReadBase? && ok {
      var t := OnRead(d, task, ok);
      assert AimSound(s, TaskAim(task));
      forall h | h in t.tasks && HoldsToken(t, h) ensures NothingInspected(t) {
        assert h in s.tasks && HoldsToken(s, h);
        assert AimStale(s, TaskAim(task));
      }
    } else {
      QuietKeepsTokens(d, OnRead(d, task, ok));
    }
  }

  lemma FetchedKeepsTokens(s: State, task: Task, ok: bool, file: File)
    requires TokensSound(s) && task in s.tasks && task.FetchExample?
    ensures TokensSound(OnFetched(Done(s, task), task.example, task.gen, ok, file))
  {
    var d := Done(s, task);
    QuietKeepsTokens(s, d);
    if ok && task.gen == s.selection {
      assert HoldsToken(s, task);
      if task.example == UsNew && s.currentFile.Some? {
        QuietKeepsTokens(d, OnFetched(d, task.example, task.gen, ok, file));
      } else {
        AcceptKeepsTokens(d, file);
      }
    }
  }

  lemma SettledKeepsTokens(s: State, task: Task)
    requires TokensSound(s) && task in s.tasks && task.Settled?
    ensures TokensSound(OnSettled(Done(s, task), task.purpose, task.ok))
  {
    var d := Done(s, task);
    QuietKeepsTokens(s, d);
    var p := task.purpose;
    if p.Inspect? && task.ok && p.gen == d.selection {
      assert AimSound(s, TaskAim(task));
      assert TokensSound(Render(d, p.file));
      CompareKeepsTokens(Render(d, p.file), p.gen);
    } else {
      QuietKeepsTokens(d, OnSettled(d, p, task.ok));
    }
  }

  lemma StepKeepsTokens(s: State, e: Event)
    requires TokensSound(s)
    ensures TokensSound(Step(s, e))
  {
    BeginMakesStale(s);
    match e
    case PickFile(file) => AcceptKeepsTokens(BeginSelection(s), file);
    case ReadDone(task, ok) =>
      if task in s.tasks && (task.ReadBase? || task.ReadCandidate?) {
        ReadKeepsTokens(s, task, ok);
      }
    case FetchDone(task, ok, file) =>
      if task in s.tasks && task.FetchExample? {
        FetchedKeepsTokens(s, task, ok, file);
      }
    case Continue(task) =>
      if task in s.tasks && task.Settled? {
        SettledKeepsTokens(s, task);
      }
    case Reply(id, ok) => SettleKeepsTokens(s, id, ok);
    case Timeout(id) => SettleKeepsTokens(s, id, false);
    case WorkerError => RejectFromKeepsTokens(s, 0);
    case _ =>
  }

  /** In every reachable state an inspection that is marked shown was computed from the file now selected. */
  lemma {:induction false} ShownInspectionIsOfCurrentFile(events: seq<Event>)
    ensures TokensSound(Run(events))
    ensures Run(events).inspected ==> Run(events).currentFile.Some? && Run(events).rendered == Run(events).currentFile
  {
    if events != [] {
      ShownInspectionIsOfCurrentFile(events[..|events| - 1]);
      StepKeepsTokens(Run(events[..|events| - 1]), events[|events| - 1]);
    }
  }

  // ----- Which bytes a comparison is made from ------------------------------

  /** The bytes kept for comparisons were read from the selected file. */
  ghost predicate BytesMatch(s: State) {
    s.currentBytes.Some? ==> s.currentBytes == s.currentFile
  }

  /** A base file that finishes reading in this event is still the selected one. */
  ghost predicate ReadsCurrent(s: State, e: Event) {
    e.ReadDone? && e.ok && e.task.ReadBase? && e.task in s.tasks ==> s.currentFile == Some(e.task.file)
  }

  lemma {:induction false} RejectFromKeepsFiles(s: State, id: nat)
    ensures RejectFrom(s, id).currentFile == s.currentFile && RejectFrom(s, id).currentBytes == s.currentBytes
    decreases s.nextId - id
  {
    if id < s.nextId {
      RejectFromKeepsFiles(Settle(s, id, false), id + 1);
    }
  }

  lemma StepMatchesIffReadsCurrent(s: State, e: Event)
    requires BytesMatch(s)
    ensures BytesMatch(Step(s, e)) <==> ReadsCurrent(s, e)
  {
    RejectFromKeepsFiles(s, 0);
  }

  /** The bytes match in every state the run passes through. */
  ghost predicate AlwaysMatch(events: seq<Event>) {
    BytesMatch(Run(events)) && (events == [] || AlwaysMatch(events[..|events| - 1]))
  }

  ghost predicate AllReadsCurrent(events: seq<Event>) {
    events == [] ||
    (AllReadsCurrent(events[..|events| - 1]) && ReadsCurrent(Run(events[..|events| - 1]), events[|events| - 1]))
  }

  /**
    The completed base read stores its bytes without checking the token, so the
    stored bytes belong to the selected file all along a run if and only if
    every base read of the run completes while its file is still selected.
   */
  lemma {:induction false} BytesMatchIffReadsCurrent(events: seq<Event>)
    ensures AlwaysMatch(events) <==> AllReadsCurrent(events)
  {
    if events != [] {
      var front := events[..|events| - 1];
      BytesMatchIffReadsCurrent(front);
      if BytesMatch(Run(front)) {
        StepMatchesIffReadsCurrent(Run(front), events[|events| - 1]);
      } else {
        assert !AlwaysMatch(front);
      }
    }
  }

  lemma RunAppend(events: seq<Event>, e: Event)
    ensures Run(events + [e]) == Step(Run(events), e)
  {
    assert (events + [e])[..|events|] == events;
  }

  // ----- When the shown verdict is right --------------------------------------

  /** The base file and token a piece of work will show a verdict for, if any. */
  function PurposeBase(p: Purpose): Option<Aim> {
    if p.Diff? then Some(Aim(p.base, p.gen)) else None
  }

  function TaskBase(t: Task): Option<Aim> {
    if t.Settled? then PurposeBase(t.purpose) else None
  }

  /** No comparison is under way, or about to be, for the current token. */
  ghost predicate NothingCompared(s: State) {
    && (forall t :: t in s.tasks ==> AimStale(s, TaskBase(t)) && (t.ReadCandidate? ==> t.gen < s.selection))
    && (forall id :: id in s.pending ==> AimStale(s, PurposeBase(s.pending[id])))
  }

  /** Comparisons under the current token start from the current file; a fetched example that holds the token is alone with it. */
  ghost predicate BasesSound(s: State) {
    && (forall t :: t in s.tasks ==> AimSound(s, TaskBase(t)) && (t.ReadCandidate? ==> t.gen <= s.selection))
    && (forall id :: id in s.pending ==> AimSound(s, PurposeBase(s.pending[id])))
    && (forall t :: t in s.tasks && HoldsToken(s, t) ==> NothingCompared(s))
  }

  ghost predicate VerdictMatches(s: State) {
    s.inspected && s.verdict.Some? ==> s.currentFile == Some(s.verdict.value.base)
  }

  ghost predicate VerdictsSound(s: State) {
    BasesSound(s) && VerdictMatches(s)
  }

  lemma QuietKeepsVerdicts(s: State, t: State)
    requires VerdictsSound(s)
    requires s.selection == t.selection && s.currentFile == t.currentFile
    requires t.inspected && t.verdict.Some? ==> s.inspected && s.verdict == t.verdict
    requires forall x :: x in t.tasks ==> x in s.tasks || (!x.FetchExample? && !x.ReadCandidate? && TaskBase(x).None?)
    requires forall id :: id in t.pending ==> !t.pending[id].Diff? || (id in s.pending && s.pending[id] == t.pending[id])
    ensures VerdictsSound(t)
  {
  }

  /** A comparison under the current token, when the stored bytes are those of the current file and no example holds the token. */
  lemma CompareKeepsVerdicts(s: State)
    requires VerdictsSound(s) && BytesMatch(s) && forall t :: t in s.tasks ==> !HoldsToken(s, t)
    ensures VerdictsSound(CompareFiles(s, s.selection))
  {
  }

  lemma BeginKeepsVerdicts(s: State)
    requires TokensSound(s) && VerdictsSound(s)
    ensures VerdictsSound(BeginSelection(s)) && NothingCompared(BeginSelection(s))
    ensures forall t :: t in s.tasks ==> !HoldsToken(BeginSelection(s), t)
  {
  }

  lemma AcceptKeepsVerdicts(s: State, file: File)
    requires VerdictsSound(s) && NothingCompared(s) && forall t :: t in s.tasks ==> !HoldsToken(s, t)
    ensures VerdictsSound(AcceptFile(s, file, s.selection))
  {
  }

  lemma SettleKeepsVerdicts(s: State, id: nat, ok: bool)
    requires VerdictsSound(s)
    ensures VerdictsSound(Settle(s, id, ok))
  {
    if id in s.pending {
      var t := Settle(s, id, ok);
      forall x | x in t.tasks ensures AimSound(t, TaskBase(x)) && (x.ReadCandidate? ==> x.gen <= t.selection) {
        assert x in s.tasks || TaskBase(x) == PurposeBase(s.pending[id]);
      }
    }
  }

  lemma {:induction false} RejectFromKeepsVerdicts(s: State, id: nat)
    requires VerdictsSound(s)
    ensures VerdictsSound(RejectFrom(s, id))
    decreases s.nextId - id
  {
    if id < s.nextId {
      SettleKeepsVerdicts(s, id, false);
      RejectFromKeepsVerdicts(Settle(s, id, false), id + 1);
    }
  }

  lemma ReadKeepsVerdicts(s: State, task: Task, ok: bool)
    requires VerdictsSound(s) && BytesMatch(s) && task in s.tasks && (task.ReadBase? || task.ReadCandidate?)
    ensures VerdictsSound(OnRead(Done(s, task), task, ok))
  {
    var d := Done(s, task);
    QuietKeepsVerdicts(s, d);
    if task.ReadCandidate? && ok && task.gen == s.selection {
      var c := d.(candidateBytes := Some(task.file));
      QuietKeepsVerdicts(d, c);
      forall t | t in c.tasks ensures !HoldsToken(c, t) {
        assert t in s.tasks;
      }
      CompareKeepsVerdicts(c);
    } else {
      QuietKeepsVerdicts(d, OnRead(d, task, ok));
    }
  }

  lemma FetchedKeepsVerdicts(s: State, task: Task, ok: bool, file: File)
    requires TokensSound(s) && VerdictsSound(s) && BytesMatch(s) && task in s.tasks && task.FetchExample?
    ensures VerdictsSound(OnFetched(Done(s, task), task.example, task.gen, ok, file))
  {
    var d := Done(s, task);
    QuietKeepsVerdicts(s, d);
    if ok && task.gen == s.selection {
      assert HoldsToken(s, task);
      assert forall t :: t in d.tasks ==> !HoldsToken(d, t);
      if task.example == UsNew && s.currentFile.Some? {
        var c := d.(candidateFile := Some(file), candidateBytes := Some(file));
        QuietKeepsVerdicts(d, c);
        CompareKeepsVerdicts(c);
      } else {
        assert NothingCompared(d);
        AcceptKeepsVerdicts(d, file);
      }
    } else {
      QuietKeepsVerdicts(d, OnFetched(d, task.example, task.gen, ok, file));
    }
  }

  lemma SettledKeepsVerdicts(s: State, task: Task)
    requires TokensSound(s) && VerdictsSound(s) && BytesMatch(s) && task in s.tasks && task.Settled?
    ensures VerdictsSound(OnSettled(Done(s, task), task.purpose, task.ok))
  {
    var d := Done(s, task);
    QuietKeepsVerdicts(s, d);
    var p := task.purpose;
    if p.Inspect? && task.ok && p.gen == s.selection {
      var c := Render(d, p.file);
      QuietKeepsVerdicts(d, c);
      assert !AimStale(s, TaskAim(task));
      forall t | t in c.tasks ensures !HoldsToken(c, t) {
        assert t in s.tasks;
      }
      CompareKeepsVerdicts(c);
    } else if p.Diff? && p.gen == s.selection {
      assert AimSound(s, TaskBase(task));
    } else {
      QuietKeepsVerdicts(d, OnSettled(d, p, task.ok));
    }
  }

  lemma StepKeepsVerdicts(s: State, e: Event)
    requires TokensSound(s) && VerdictsSound(s) && BytesMatch(s)
    ensures VerdictsSound(Step(s, e))
  {
    BeginKeepsVerdicts(s);
    match e
    case PickFile(file) => AcceptKeepsVerdicts(BeginSelection(s), file);
    case ReadDone(task, ok) =>
      if task in s.tasks && (task.ReadBase? || task.ReadCandidate?) {
        ReadKeepsVerdicts(s, task, ok);
      }
    case FetchDone(task, ok, file) =>
      if task in s.tasks && task.FetchExample? {
        FetchedKeepsVerdicts(s, task, ok, file);
      }
    case Continue(task) =>
      if task in s.tasks && task.Settled? {
        SettledKeepsVerdicts(s, task);
      }
    case Reply(id, ok) => SettleKeepsVerdicts(s, id, ok);
    case Timeout(id) => SettleKeepsVerdicts(s, id, false);
    case WorkerError => RejectFromKeepsVerdicts(s, 0);
    case _ =>
  }

  /** If every base read of a run completes while its file is selected, a verdict shown beside an inspection starts from the selected file. */
  lemma {:induction false} VerdictIsOfCurrentFile(events: seq<Event>)
    requires AllReadsCurrent(events)
    ensures VerdictsSound(Run(events))
    ensures var s := Run(events); s.inspected && s.verdict.Some? ==> s.currentFile == Some(s.verdict.value.base)
  {
    if events != [] {
      var front := events[..|events| - 1];
      VerdictIsOfCurrentFile(front);
      ShownInspectionIsOfCurrentFile(front);
      BytesMatchIffReadsCurrent(front);
      StepKeepsVerdicts(Run(front), events[|events| - 1]);
    }
  }

  /**
    The condition cannot be dropped at any step: whenever a base read of another
    file completes while a page is shown, choosing a candidate and comparing it
    shows a verdict on that other file beside the inspection of the selected one.
   */
  lemma ForeignReadMisleads(s: State, e: Event, candidate: File) returns (t: State)
    requires s.inspected && s.currentFile.Some? && !ReadsCurrent(s, e)
    ensures var read := Step(s, e);
      var gen := read.selection + 1;
      t == Step(Step(Step(Step(read, PickCandidate(Some(candidate))), ReadDone(ReadCandidate(candidate, gen), true)),
                     Reply(read.nextId, true)), Continue(Settled(read.nextId, Diff(e.task.file, candidate, gen), true)))
    ensures t.inspected && t.rendered == s.rendered && t.currentFile == s.currentFile
    ensures t.verdict == Some(Verdict(e.task.file, candidate)) && t.currentFile != Some(e.task.file)
  {
    var read := Step(s, e);
    assert read.inspected && read.currentFile == s.currentFile && read.currentBytes == Some(e.task.file);
    t := ComparedWith(read, candidate);
  }

  /** What a comparison with a new candidate shows: a verdict from the stored bytes, everything else on the page unchanged. */
  lemma ComparedWith(s: State, candidate: File) returns (t: State)
    requires s.currentFile.Some? && s.currentBytes.Some?
    ensures var gen := s.selection + 1;
      t == Step(Step(Step(Step(s, PickCandidate(Some(candidate))), ReadDone(ReadCandidate(candidate, gen), true)),
                     Reply(s.nextId, true)), Continue(Settled(s.nextId, Diff(s.currentBytes.value, candidate, gen), true)))
    ensures t.inspected == s.inspected && t.rendered == s.rendered && t.currentFile == s.currentFile
    ensures t.candidateFile == t.candidateBytes == Some(candidate)
    ensures t.verdict == Some(Verdict(s.currentBytes.value, candidate))
  {
    var gen := s.selection + 1;
    var chosen := Step(s, PickCandidate(Some(candidate)));
    var posted := Step(chosen, ReadDone(ReadCandidate(candidate, gen), true));
    assert posted.pending[s.nextId] == Diff(s.currentBytes.value, candidate, gen) && posted.selection == gen;
    var answered := Step(posted, Reply(s.nextId, true));
    var task := Settled(s.nextId, Diff(s.currentBytes.value, candidate, gen), true);
    assert task in answered.tasks && answered.selection == gen;
    t := Step(answered, Continue(task));
  }

  /** File 1 is replaced by file 2, which is read and inspected while file 1 is still being read. */
  lemma SecondFileIsShown() returns (events: seq<Event>)
    ensures var s := Run(events);
      s.inspected && s.rendered == s.currentFile == Some(2) && ReadBase(1, 1) in s.tasks
  {
    var e1 := [PickFile(1)];
    RunAppend([], PickFile(1));
    var e2 := e1 + [PickFile(2)];
    RunAppend(e1, PickFile(2));
    var e3 := e2 + [ReadDone(ReadBase(2, 2), true)];
    RunAppend(e2, ReadDone(ReadBase(2, 2), true));
    assert Run(e3).pending[2] == Inspect(2, 2) && Run(e3).selection == 2 && ReadBase(1, 1) in Run(e3).tasks;
    var e4 := e3 + [Reply(2, true)];
    RunAppend(e3, Reply(2, true));
    events := e4 + [Continue(Settled(2, Inspect(2, 2), true))];
    RunAppend(e4, Continue(Settled(2, Inspect(2, 2), true)));
  }

  /**
    A run that breaks it: the bytes of file 1 arrive late and are then compared
    with candidate 3. The page shows the inspection of file 2 beside the verdict on
    an upgrade from file 1.
   */
  lemma VerdictMayBeOfAnotherFile() returns (events: seq<Event>)
    ensures var s := Run(events);
      s.inspected && s.rendered == s.currentFile == Some(2) && s.verdict == Some(Verdict(1, 3))
  {
    var shown := SecondFileIsShown();
    var late := ReadDone(ReadBase(1, 1), true);
    var t := ForeignReadMisleads(Run(shown), late, 3);
    RunAppend(shown, late);
    var read := shown + [late];
    var id, gen := Run(read).nextId, Run(read).selection + 1;
    var chosen := read + [PickCandidate(Some(3))];
    RunAppend(read, PickCandidate(Some(3)));
    var posted := chosen + [ReadDone(ReadCandidate(3, gen), true)];
    RunAppend(chosen, ReadDone(ReadCandidate(3, gen), true));
    var answered := posted + [Reply(id, true)];
    RunAppend(posted, Reply(id, true));
    events := answered + [Continue(Settled(id, Diff(1, 3, gen), true))];
    RunAppend(answered, Continue(Settled(id, Diff(1, 3, gen), true)));
  }

  // ----- What a selection leads to ---------------------------------------------

  /** The state after more events. */
  function RunFrom(s: State, events: seq<Event>): State {
    if events == [] then s else Step(RunFrom(s, events[..|events| - 1]), events[|events| - 1])
  }

  lemma {:induction false} RunAppends(events: seq<Event>, more: seq<Event>)
    ensures Run(events + more) == RunFrom(Run(events), more)
  {
    if more == [] {
      assert events + more == events;
    } else {
      var last := |more| - 1;
      RunAppends(events, more[..last]);
      assert events + more == (events + more[..last]) + [more[last]];
      RunAppend(events + more[..last], more[last]);
    }
  }

  lemma FourSteps(s: State, a: Event, b: Event, c: Event, d: Event)
    ensures RunFrom(s, [a, b, c, d]) == Step(Step(Step(Step(s, a), b), c), d)
  {
    assert [a, b, c, d][..3] == [a, b, c] && [a, b, c][..2] == [a, b] && [a, b][..1] == [a] && [a][..0] == [];
    assert RunFrom(s, []) == s && RunFrom(s, [a]) == Step(s, a);
    assert RunFrom(s, [a, b]) == Step(Step(s, a), b);
    assert RunFrom(s, [a, b, c]) == Step(Step(Step(s, a), b), c);
  }

  /** The steps by which a request posted now gets its answer. */
  function Answered(s: State, id: nat, purpose: Purpose): State {
    Step(Step(s, Reply(id, true)), Continue(Settled(id, purpose, true)))
  }

  /** The comparison of the new upgrade example with the selected file, from the click to the verdict; the inspection stays. */
  lemma UpgradeExampleIsCompared(events: seq<Event>, file: File) returns (more: seq<Event>)
    requires Run(events).currentFile.Some? && Run(events).currentBytes.Some?
    ensures var s := Run(events);
      var token, base := s.selection + 1, s.currentBytes.value;
      more == [PickExample(UsNew), FetchDone(FetchExample(UsNew, token), true, file),
               Reply(s.nextId, true), Continue(Settled(s.nextId, Diff(base, file, token), true))]
    ensures var s, t := Run(events), Run(events + more);
      && t.currentFile == s.currentFile && t.currentBytes == s.currentBytes
      && t.inspected == s.inspected && t.rendered == s.rendered
      && t.candidateFile == t.candidateBytes == Some(file)
      && t.verdict == Some(Verdict(s.currentBytes.value, file))
  {
    var s := Run(events);
    var token, base := s.selection + 1, s.currentBytes.value;
    more := [PickExample(UsNew), FetchDone(FetchExample(UsNew, token), true, file),
             Reply(s.nextId, true), Continue(Settled(s.nextId, Diff(base, file, token), true))];
    RunAppends(events, more);
    FourSteps(s, more[0], more[1], more[2], more[3]);
    var picked := Step(s, more[0]);
    assert picked.selection == token && FetchExample(UsNew, token) in picked.tasks;
    var fetched := Step(picked, more[1]);
    UpgradeExampleBecomesCandidate(picked, file);
    DiffIsShown(fetched, s.nextId, base, file);
  }

  /** Under the current token and beside a selected file, the fetched upgrade example becomes the candidate and changes nothing else on the page. */
  lemma UpgradeExampleBecomesCandidate(s: State, file: File)
    requires FetchExample(UsNew, s.selection) in s.tasks && s.currentFile.Some?
    ensures var t := Step(s, FetchDone(FetchExample(UsNew, s.selection), true, file));
      && t.selection == s.selection && t.currentFile == s.currentFile && t.currentBytes == s.currentBytes
      && t.inspected == s.inspected && t.rendered == s.rendered && t.verdict == s.verdict
      && t.candidateFile == t.candidateBytes == Some(file)
      && t.pending == (if s.currentBytes.Some? then s.pending[s.nextId := Diff(s.currentBytes.value, file, s.selection)] else s.pending)
  {
  }

  /** The answer to a comparison under the current token shows its verdict and changes nothing else on the page. */
  lemma DiffIsShown(s: State, id: nat, base: File, candidate: File)
    requires id in s.pending && s.pending[id] == Diff(base, candidate, s.selection)
    ensures var t := Answered(s, id, Diff(base, candidate, s.selection));
      && t.verdict == Some(Verdict(base, candidate)) && t.inspected == s.inspected && t.rendered == s.rendered
      && t.currentFile == s.currentFile && t.currentBytes == s.currentBytes
      && t.candidateFile == s.candidateFile && t.candidateBytes == s.candidateBytes
  {
    assert Settled(id, Diff(base, candidate, s.selection), true) in Step(s, Reply(id, true)).tasks;
  }

  /** A file that has just become the selected one: nothing is shown, no candidate is left, and it is being read. */
  predicate IsSelected(s: State, file: File) {
    && s.currentFile == Some(file) && s.currentBytes.None? && !s.inspected
    && s.candidateFile.None? && s.candidateBytes.None? && ReadBase(file, s.selection) in s.tasks
  }

  /** A picked file becomes the selected one. */
  lemma FileIsSelected(s: State, file: File)
    ensures IsSelected(Step(s, PickFile(file)), file)
  {
  }

  /** The other example, or any example when no file is selected, becomes the selected file. */
  lemma ExampleIsSelected(s: State, example: Example, file: File)
    requires FetchExample(example, s.selection) in s.tasks && (example == UsOld || s.currentFile.None?)
    ensures IsSelected(Step(s, FetchDone(FetchExample(example, s.selection), true, file)), file)
  {
  }

  /** A selected file that is read and inspected without anything coming between is shown. */
  lemma SelectedFileIsShown(s: State, file: File) returns (t: State)
    requires IsSelected(s, file)
    ensures t == Answered(Step(s, ReadDone(ReadBase(file, s.selection), true)), s.nextId, Inspect(file, s.selection))
    ensures t.inspected && t.rendered == t.currentFile == t.currentBytes == Some(file) && t.verdict.None?
  {
    var read := Step(s, ReadDone(ReadBase(file, s.selection), true));
    assert read.pending[s.nextId] == Inspect(file, s.selection);
    var task := Settled(s.nextId, Inspect(file, s.selection), true);
    assert task in Step(read, Reply(s.nextId, true)).tasks;
    t := Answered(read, s.nextId, Inspect(file, s.selection));
  }

  // ----- Work whose token has passed ----------------------------------------------

  /** The token a piece of work was started under. */
  function TokenOf(t: Task): Option<nat> {
    match t
    case ReadBase(_, gen) => Some(gen)
    case ReadCandidate(_, gen) => Some(gen)
    case FetchExample(_, gen) => Some(gen)
    case Settled(_, Inspect(_, gen), _) => Some(gen)
    case Settled(_, Diff(_, _, gen), _) => Some(gen)
    case Settled(_, Ping, _) => None
  }

  /** What the user sees and has chosen. */
  datatype Screen = Screen(
    currentFile: Option<File>, candidateFile: Option<File>, candidateBytes: Option<File>,
    inspected: bool, rendered: Option<File>, verdict: Option<Verdict>)

  function ScreenOf(s: State): Screen {
    Screen(s.currentFile, s.candidateFile, s.candidateBytes, s.inspected, s.rendered, s.verdict)
  }

  /** Work that ends under another token than its own, well or badly, changes nothing on the screen. */
  lemma StaleWorkIsInvisible(s: State, e: Event)
    requires e.ReadDone? || e.FetchDone? || e.Continue?
    requires TokenOf(e.task) != Some(s.selection)
    ensures ScreenOf(Step(s, e)) == ScreenOf(s) && Step(s, e).selection == s.selection
  {
  }

  /** Work that fails under the current token takes the inspection down, or the verdict if it was a comparison, and nothing else. */
  lemma FailureIsShown(s: State, task: Task, file: File)
    requires task in s.tasks && TokenOf(task) == Some(s.selection) && (task.Settled? ==> !task.ok)
    ensures var e := if task.Settled? then Continue(task) else if task.FetchExample? then FetchDone(task, false, file) else ReadDone(task, false);
      ScreenOf(Step(s, e)) ==
        if task.Settled? && task.purpose.Diff? then ScreenOf(s).(verdict := None) else ScreenOf(s).(inspected := false)
  {
  }

  /** Nothing is selected or shown, and whatever is under way belongs to an earlier selection. */
  ghost predicate Idle(s: State) {
    && TokensSound(s) && s.currentFile.None? && !s.inspected && NothingInspected(s)
    && forall t :: t in s.tasks ==> !HoldsToken(s, t)
  }

  lemma IdleStays(s: State, e: Event)
    requires Idle(s) && !e.PickFile? && !e.PickExample?
    ensures Idle(Step(s, e))
  {
    StepKeepsTokens(s, e);
    match e
    case PressReset => BeginMakesStale(s);
    case Reply(id, ok) => SettleKeepsIdle(s, id, ok);
    case Timeout(id) => SettleKeepsIdle(s, id, false);
    case WorkerError => RejectFromKeepsIdle(s, 0);
    case ReadDone(task, ok) => assert task in s.tasks ==> AimStale(s, TaskAim(task));
    case Continue(task) => assert task in s.tasks ==> AimStale(s, TaskAim(task));
    case _ =>
  }

  lemma SettleKeepsIdle(s: State, id: nat, ok: bool)
    requires Idle(s)
    ensures Idle(Settle(s, id, ok))
  {
    SettleKeepsTokens(s, id, ok);
  }

  lemma {:induction false} RejectFromKeepsIdle(s: State, id: nat)
    requires Idle(s)
    ensures Idle(RejectFrom(s, id))
    decreases s.nextId - id
  {
    if id < s.nextId {
      SettleKeepsIdle(s, id, false);
      RejectFromKeepsIdle(Settle(s, id, false), id + 1);
    }
  }

  /** A reset forgets both files and takes the inspection down; choosing no candidate, or one without a file to compare, starts nothing. */
  lemma ResetForgets(s: State)
    ensures var t := Step(s, PressReset);
      && t.currentFile == t.currentBytes == t.candidateFile == t.candidateBytes == None && !t.inspected
      && t.pending == s.pending && t.tasks == s.tasks && t.selection == s.selection + 1
    ensures s.currentFile.Some? ==> Step(s, PickCandidate(None)) == s
    ensures s.currentFile.None? ==> forall choice :: Step(s, PickCandidate(choice)) == s.(inspected := false)
  {
  }

  /** After a reset nothing that was under way brings anything back: until a file or example is picked, nothing is selected or shown. */
  lemma {:induction false} ResetStays(events: seq<Event>, more: seq<Event>)
    requires forall e :: e in more ==> !e.PickFile? && !e.PickExample?
    ensures var s := Run(events + [PressReset] + more); Idle(s) && s.currentFile.None? && !s.inspected
  {
    if more == [] {
      ShownInspectionIsOfCurrentFile(events);
      BeginMakesStale(Run(events));
      RunAppend(events, PressReset);
      StepKeepsTokens(Run(events), PressReset);
      assert events + [PressReset] + [] == events + [PressReset];
    } else {
      var front, last := more[..|more| - 1], more[|more| - 1];
      ResetStays(events, front);
      assert events + [PressReset] + more == (events + [PressReset] + front) + [last];
      RunAppend(events + [PressReset] + front, last);
      IdleStays(Run(events + [PressReset] + front), last);
    }
  }

  /** While an upgrade example is being fetched for a file not yet inspected, no inspection of that file is on its way any more. */
  lemma EarlyExampleLosesInspection(events: seq<Event>, example: Example)
    requires FetchExample(example, Run(events).selection) in Run(events).tasks
    ensures NothingInspected(Run(events))
  {
    ShownInspectionIsOfCurrentFile(events);
    assert HoldsToken(Run(events), FetchExample(example, Run(events).selection));
  }

  // ----- The page script ----------------------------------------------------

  /** The script's variables; `timers`, `settled`, `tasks`, `rendered` and `verdict` stand for browser state. */
  class Page {
    var selection: nat
    var nextId: nat
    var pending: map<nat, Purpose>
    var timers: set<nat>
    var settled: seq<nat>
    var tasks: set<Task>
    var currentFile: Option<File>
    var currentBytes: Option<File>
    var candidateFile: Option<File>
    var candidateBytes: Option<File>
    var inspected: bool
    var rendered: Option<File>
    var verdict: Option<Verdict>

    ghost function Now(): State
      reads this
    {
      State(selection, nextId, pending, timers, settled, tasks, currentFile, currentBytes,
            candidateFile, candidateBytes, inspected, rendered, verdict)
    }

    constructor ()
      ensures Now() == Init()
    {
      selection, nextId, settled, tasks := 0, 2, [], {};
      pending, timers := map[1 := Ping], {1};
      currentFile, currentBytes, candidateFile, candidateBytes := None, None, None, None;
      inspected, rendered, verdict := false, None, None;
    }

    method Begin() returns (gen: nat)
      modifies this
      ensures Now() == BeginSelection(old(Now())) && gen == selection
    {
      selection := selection + 1;
      gen := selection;
    }

    method PostRequest(purpose: Purpose)
      modifies this
      ensures Now() == Post(old(Now()), purpose)
    {
      var id := nextId;
      nextId := nextId + 1;
      timers := timers + {id};
      pending := pending[id := purpose];
    }

    method Error()
      modifies this
      ensures Now() == ShowError(old(Now()))
    {
      inspected := false;
    }

    /** The wrapped `resolve` and `reject`: clean up, then settle the promise. */
    method SettleRequest(id: nat, ok: bool)
      requires id in pending
      modifies this
      ensures Now() == Settle(old(Now()), id, ok)
    {
      var purpose := pending[id];
      timers := timers - {id};
      pending := pending - {id};
      settled := settled + [id];
      tasks := tasks + {Settled(id, purpose, ok)};
    }

    method OnMessage(id: nat, ok: bool)
      modifies this
      ensures Now() == Step(old(Now()), Reply(id, ok))
    {
      if id !in pending {
        return;
      }
      SettleRequest(id, ok);
    }

    method OnTimeout(id: nat)
      requires RequestsSound(Now()) && id in timers
      modifies this
      ensures Now() == Step(old(Now()), Timeout(id))
    {
      SettleRequest(id, false);
    }

    /** Rejects the pending requests oldest first; the table is empty afterwards. */
    method OnError()
      requires RequestsSound(Now()) && OneContinuation(Now())
      modifies this
      ensures Now() == Step(old(Now()), WorkerError)
      ensures pending == map[]
    {
      RejectFromClears(Now(), 0);
      var id := 0;
      while id < nextId
        invariant id <= nextId && nextId == old(nextId)
        invariant RejectFrom(Now(), id) == RejectFrom(old(Now()), 0)
      {
        if id in pending {
          SettleRequest(id, false);
        }
        id := id + 1;
      }
    }

    method Accept(file: File, gen: nat)
      modifies this
      ensures Now() == AcceptFile(old(Now()), file, gen)
    {
      currentFile := Some(file);
      currentBytes := None;
      candidateFile := None;
      candidateBytes := None;
      inspected := false;
      tasks := tasks + {ReadBase(file, gen)};
    }

    method OnFile(file: File)
      modifies this
      ensures Now() == Step(old(Now()), PickFile(file))
    {
      var gen := Begin();
      Accept(file, gen);
    }

    method Compare(gen: nat)
      modifies this
      ensures Now() == CompareFiles(old(Now()), gen)
    {
      if currentBytes.None? || candidateBytes.None? {
        return;
      }
      PostRequest(Diff(currentBytes.value, candidateBytes.value, gen));
    }

    method OnBaseRead(file: File, gen: nat, ok: bool)
      requires ReadBase(file, gen) in tasks
      modifies this
      ensures Now() == Step(old(Now()), ReadDone(ReadBase(file, gen), ok))
    {
      tasks := tasks - {ReadBase(file, gen)};
      if ok {
        currentBytes := Some(file);
        PostRequest(Inspect(file, gen));
      } else if gen == selection {
        Error();
      }
    }

    method OnInspected(id: nat, file: File, gen: nat, ok: bool)
      requires Settled(id, Inspect(file, gen), ok) in tasks
      modifies this
      ensures Now() == Step(old(Now()), Continue(Settled(id, Inspect(file, gen), ok)))
    {
      tasks := tasks - {Settled(id, Inspect(file, gen), ok)};
      if gen != selection {
        return;
      }
      if ok {
        rendered, verdict, inspected := Some(file), None, true;
        Compare(gen);
      } else {
        Error();
      }
    }

    method OnCompared(id: nat, base: File, candidate: File, gen: nat, ok: bool)
      requires Settled(id, Diff(base, candidate, gen), ok) in tasks
      modifies this
      ensures Now() == Step(old(Now()), Continue(Settled(id, Diff(base, candidate, gen), ok)))
    {
      tasks := tasks - {Settled(id, Diff(base, candidate, gen), ok)};
      if gen != selection {
        return;
      }
      verdict := if ok then Some(Verdict(base, candidate)) else None;
    }

    method OnBoot(ok: bool)
      modifies this
      ensures Now() == Step(old(Now()), Boot(ok))
    {
      if !ok {
        Error();
      }
    }

    method OnExampleClick(example: Example)
      modifies this
      ensures Now() == Step(old(Now()), PickExample(example))
    {
      var gen := Begin();
      tasks := tasks + {FetchExample(example, gen)};
    }

    method OnExampleFetched(example: Example, gen: nat, ok: bool, file: File)
      requires FetchExample(example, gen) in tasks
      modifies this
      ensures Now() == Step(old(Now()), FetchDone(FetchExample(example, gen), ok, file))
    {
      tasks := tasks - {FetchExample(example, gen)};
      if !ok {
        if gen == selection {
          Error();
        }
        return;
      }
      if gen != selection {
        return;
      }
      if example == UsNew && currentFile.Some? {
        candidateFile := Some(file);
        candidateBytes := Some(file);
        Compare(gen);
      } else {
        Accept(file, gen);
      }
    }

    method OnCandidateChosen(choice: Option<File>)
      modifies this
      ensures Now() == Step(old(Now()), PickCandidate(choice))
    {
      if choice.None? || currentFile.None? {
        if currentFile.None? {
          Error();
        }
        return;
      }
      var gen := Begin();
      candidateFile := choice;
      tasks := tasks + {ReadCandidate(choice.value, gen)};
    }

    method OnCandidateRead(file: File, gen: nat, ok: bool)
      requires ReadCandidate(file, gen) in tasks
      modifies this
      ensures Now() == Step(old(Now()), ReadDone(ReadCandidate(file, gen), ok))
    {
      tasks := tasks - {ReadCandidate(file, gen)};
      if gen != selection {
        return;
      }
      if ok {
        candidateBytes := Some(file);
        Compare(gen);
      } else {
        Error();
      }
    }

    method OnReset()
      modifies this
      ensures Now() == Step(old(Now()), PressReset)
    {
      var _ := Begin();
      currentFile := None;
      currentBytes := None;
      candidateFile := None;
      candidateBytes := None;
      inspected := false;
    }

    /** What the invariants of the run say of the page. */
    ghost predicate Valid()
      reads this
    {
      RequestsSound(Now()) && OneContinuation(Now()) && TokensSound(Now())
    }

    /** The event loop: runs the callback an event belongs to; an event nothing waits for runs none. */
    method Dispatch(e: Event)
      requires Valid()
      modifies this
      ensures Now() == Step(old(Now()), e) && Valid()
    {
      StepKeepsRequests(Now(), e);
      StepKeepsTokens(Now(), e);
      match e
      case PickFile(file) => OnFile(file);
      case PickExample(example) => OnExampleClick(example);
      case PickCandidate(choice) => OnCandidateChosen(choice);
      case PressReset => OnReset();
      case ReadDone(task, ok) => DispatchRead(task, ok);
      case FetchDone(task, ok, file) =>
        if task in tasks && task.FetchExample? {
          OnExampleFetched(task.example, task.gen, ok, file);
        }
      case Continue(task) => DispatchSettled(task);
      case Reply(id, ok) => OnMessage(id, ok);
      case Boot(ok) => OnBoot(ok);
      case Timeout(id) =>
        if id in timers {
          OnTimeout(id);
        }
      case WorkerError => OnError();
    }

    method DispatchRead(task: Task, ok: bool)
      modifies this
      ensures Now() == Step(old(Now()), ReadDone(task, ok))
    {
      if task in tasks && task.ReadBase? {
        OnBaseRead(task.file, task.gen, ok);
      } else if task in tasks && task.ReadCandidate? {
        OnCandidateRead(task.file, task.gen, ok);
      }
    }

    method DispatchSettled(task: Task)
      modifies this
      ensures Now() == Step(old(Now()), Continue(task))
    {
      if task !in tasks || !task.Settled? {
        return;
      }
      match task.purpose
      case Ping => tasks := tasks - {task};
      case Inspect(file, gen) => OnInspected(task.id, file, gen, task.ok);
      case Diff(base, candidate, gen) => OnCompared(task.id, base, candidate, gen, task.ok);
    }
  }

  /**
    A page that has handled any events in any order: its state is that of the run,
    each of its requests is pending with an armed timer or settled once, and an
    inspection it shows is of the file it has selected.
   */
  method RunPage(events: seq<Event>) returns (page: Page)
    ensures fresh(page) && page.Now() == Run(events)
    ensures page.timers == page.pending.Keys
    ensures forall id :: 1 <= id < page.nextId <==> (id in page.pending) != (id in page.settled)
    ensures page.inspected ==> page.currentFile.Some? && page.rendered == page.currentFile
    ensures AllReadsCurrent(events) && page.inspected && page.verdict.Some? ==> page.currentFile == Some(page.verdict.value.base)
  {
    page := new Page();
    EveryRequestSettlesOnce([]);
    ShownInspectionIsOfCurrentFile([]);
    for i := 0 to |events|
      invariant fresh(page) && page.Valid() && page.Now() == Run(events[..i])
    {
      RunAppend(events[..i], events[i]);
      assert events[..i + 1] == events[..i] + [events[i]];
      page.Dispatch(events[i]);
    }
    assert events[..|events|] == events;
    if AllReadsCurrent(events) {
      VerdictIsOfCurrentFile(events);
    }
  }
}
