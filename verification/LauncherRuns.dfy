/** Every interleaving of the window's starts, stops and polls with the worker threads
    they leave behind, the children those spawn, and children dying on their own. */
module LauncherRuns {
  import opened Basics
  import opened Launcher

  /** Where a start worker is between two of its shared-state steps. */
  datatype Stage =
    | Created
    | Active
    | Announced
    | Holding(child: nat)
    | Watching
    | GivingUp
    | Finished

  /** Where the window thread is inside `start` or `stop`. */
  datatype Window = Idle | Activating(thenSpawn: bool) | Spawning | Closed

  /** Generations repeat after 2^64 - 1 starts and stops, so workers and messages also
      carry the `epoch` they belong to: the number of starts and stops so far. */
  datatype Message = Message(epoch: nat, event: LaunchEvent)

  datatype World = World(
    model: Model,
    epoch: nat,
    processes: Processes,
    slotEpoch: nat,
    workers: map<nat, Stage>,
    spawnedIn: map<nat, nat>,
    channel: seq<Message>,
    window: Window,
    opens: seq<nat>)

  datatype Action =
    | BeginStart
    | BeginStop
    | Activate
    | SpawnWorker
    | ApplyNext
    | CheckProcess
    | CloseWindow
    | WorkerChecks(epoch: nat)
    | WorkerRefuses(epoch: nat, message: string)
    | WorkerPrepares(epoch: nat, urls: WorkspaceUrls)
    | WorkerCannotSpawn(epoch: nat, message: string)
    | WorkerSpawns(epoch: nat, child: nat)
    | WorkerReplaces(epoch: nat)
    | WorkerProbes(epoch: nat)
    | WorkerSeesHealth(epoch: nat)
    | WorkerGivesUp(epoch: nat)
    | WorkerReports(epoch: nat, message: string)
    | OutputArrives(epoch: nat, text: string)
    | ChildDies(child: nat)

  function GenerationOf(epoch: nat): u64 {
    if epoch == 0 then 0 else (epoch - 1) % LAST_GENERATION + 1
  }

  predicate At(w: World, epoch: nat, stage: Stage) {
    epoch in w.workers && w.workers[epoch] == stage
  }

  predicate Enabled(w: World, a: Action) {
    match a
    case BeginStart => w.window == Idle
    case BeginStop => w.window == Idle
    case Activate => w.window.Activating?
    case SpawnWorker => w.window == Spawning
    case ApplyNext => w.window == Idle && w.channel != []
    case CheckProcess => w.window == Idle
    case CloseWindow => w.window == Idle
    case WorkerChecks(e) => At(w, e, Created)
    case WorkerRefuses(e, _) => At(w, e, Active)
    case WorkerPrepares(e, _) => At(w, e, Active)
    case WorkerCannotSpawn(e, _) => At(w, e, Announced)
    case WorkerSpawns(e, c) => At(w, e, Announced) && c !in w.spawnedIn
    case WorkerReplaces(e) => e in w.workers && w.workers[e].Holding?
    case WorkerProbes(e) => At(w, e, Watching)
    case WorkerSeesHealth(e) => At(w, e, Watching)
    case WorkerGivesUp(e) => At(w, e, Watching)
    case WorkerReports(e, _) => At(w, e, GivingUp)
    case OutputArrives(e, _) => e in w.workers
    case ChildDies(c) => c in w.processes.live
  }

  function Sent(w: World, epoch: nat, event: LaunchEvent, stage: Stage): World {
    w.(channel := w.channel + [Message(epoch, event)], workers := w.workers[epoch := stage])
  }

  /** Actions that are not enabled leave the world as it is. */
  function Step(w: World, a: Action): World {
    if !Enabled(w, a) then w
    else match a
      case BeginStart =>
        w.(model := BegunStart(w.model), epoch := w.epoch + 1, window := Activating(true))
      case BeginStop =>
        w.(model := StoppedModel(w.model), epoch := w.epoch + 1, window := Activating(false))
      case Activate =>
        w.(processes := Activated(w.processes, w.model.generation), slotEpoch := w.epoch,
           window := if w.window.thenSpawn then Spawning else Idle)
      case SpawnWorker =>
        w.(workers := w.workers[w.epoch := Created], window := Idle)
      case ApplyNext =>
        var m := w.channel[0];
        var (model, open) := Applied(w.model, GenerationOf(m.epoch), m.event);
        w.(model := model, channel := w.channel[1..],
           opens := if open.Some? then w.opens + [w.epoch] else w.opens)
      case CheckProcess =>
        var (model, processes) := Checked(w.model, w.processes);
        w.(model := model, processes := processes)
      case CloseWindow =>
        w.(processes := StoppedAll(w.processes), window := Closed)
      case WorkerChecks(e) =>
        w.(workers := w.workers[e := if w.processes.generation == GenerationOf(e) then Active else Finished])
      case WorkerRefuses(e, message) => Sent(w, e, FailedEvent(message), Finished)
      case WorkerPrepares(e, urls) => Sent(w, e, PreparedEvent(urls), Announced)
      case WorkerCannotSpawn(e, message) => Sent(w, e, FailedEvent(message), Finished)
      case WorkerSpawns(e, c) =>
        w.(workers := w.workers[e := Holding(c)], spawnedIn := w.spawnedIn[c := e],
           processes := w.processes.(live := w.processes.live + {c}))
      case WorkerReplaces(e) =>
        var (processes, installed) := Replaced(w.processes, GenerationOf(e), w.workers[e].child);
        var w' := w.(processes := processes);
        if installed then Sent(w', e, Note("opening"), Watching)
        else w'.(workers := w.workers[e := Finished])
      case WorkerProbes(e) => w.(processes := Probed(w.processes, GenerationOf(e)))
      case WorkerSeesHealth(e) => Sent(w, e, ReadyEvent, Finished)
      case WorkerGivesUp(e) =>
        w.(processes := StoppedFor(w.processes, GenerationOf(e)), workers := w.workers[e := GivingUp])
      case WorkerReports(e, message) => Sent(w, e, FailedEvent(message), Finished)
      case OutputArrives(e, text) => Sent(w, e, Note(text), w.workers[e])
      case ChildDies(c) => w.(processes := w.processes.(live := w.processes.live - {c}))
  }

  function Initial(openOnReady: bool): World {
    World(Model(Stopped, openOnReady, 0, None, None, false), 0, Processes(0, None, {}), 0,
          map[], map[], [], Idle, [])
  }

  function Run(openOnReady: bool, actions: seq<Action>): World {
    if actions == [] then Initial(openOnReady)
    else Step(Run(openOnReady, actions[..|actions| - 1]), actions[|actions| - 1])
  }

  // ---------- generations ----------

  lemma NextGenerationOf(epoch: nat)
    ensures NextGeneration(GenerationOf(epoch)) == GenerationOf(epoch + 1)
  {
    if epoch > 0 {
      var q, r := (epoch - 1) / LAST_GENERATION, (epoch - 1) % LAST_GENERATION;
      assert epoch == q * LAST_GENERATION + (r + 1);
      if r + 1 == LAST_GENERATION {
        assert epoch == (q + 1) * LAST_GENERATION;
      } else {
        RemainderIs(epoch, q, r + 1);
      }
    }
  }

  lemma RemainderIs(n: nat, q: nat, r: nat)
    requires n == q * LAST_GENERATION + r && r < LAST_GENERATION
    ensures n % LAST_GENERATION == r
  {
  }

  /** Two epochs share a generation exactly when they are a whole number of wraps apart. */
  lemma SameGeneration(a: nat, b: nat)
    requires 0 < a <= b
    ensures GenerationOf(a) == GenerationOf(b) <==> (b - a) % LAST_GENERATION == 0
  {
    SameRemainder(a - 1, b - 1, LAST_GENERATION);
  }

  lemma SameRemainder(a: nat, b: nat, m: nat)
    requires a <= b && 0 < m
    ensures a % m == b % m <==> (b - a) % m == 0
  {
    var k, qa, qb := (b - a) / m, a / m, b / m;
    assert a == m * qa + a % m && b == m * qb + b % m && b - a == m * k + (b - a) % m;
    assert m * (qb - qa - k) == m * qb - m * qa - m * k;
    MultiplesGrow(m, qb - qa - k);
  }

  lemma MultiplesGrow(m: int, k: int)
    requires 0 < m
    ensures k == 0 || m * k <= -m || m * k == m || m * k >= 2 * m
  {
    if k >= 2 {
      assert m * k >= m * 2;
    } else if k <= -1 {
      assert m * k <= m * -1;
    }
  }

  // ---------- the slot ----------

  /** A child between `spawn` and `replace_for_generation`. */
  predicate Held(w: World, child: nat) {
    child in w.spawnedIn && At(w, w.spawnedIn[child], Holding(child))
  }

  /** Where the window thread is, against the epochs of the slot and of the workers. */
  ghost predicate Numbered(w: World) {
    && w.slotEpoch <= w.epoch
    && (!w.window.Activating? ==> w.slotEpoch == w.epoch)
    && w.model.generation == GenerationOf(w.epoch)
    && w.processes.generation == GenerationOf(w.slotEpoch)
    && (forall e <- w.workers :: 0 < e <= w.slotEpoch)
    && (forall m <- w.channel :: m.epoch in w.workers)
    && (w.window.Activating? ==> w.slotEpoch < w.epoch)
    && (w.window == Spawning ==> 0 < w.epoch)
    && (w.window == Spawning || w.window == Activating(true) ==> w.model.status == Starting)
    && (w.window == Spawning || w.model.status == Stopped ==> w.epoch !in w.workers)
  }

  /** The slot only holds a child spawned for its generation, and every other live child
      is in the hands of the worker that spawned it. */
  ghost predicate Owned(w: World) {
    && (forall c <- w.spawnedIn :: w.spawnedIn[c] in w.workers)
    && (forall e <- w.workers :: w.workers[e].Holding? ==>
          w.workers[e].child in w.spawnedIn && w.spawnedIn[w.workers[e].child] == e)
    && (w.processes.child.Some? ==>
          var c := w.processes.child.value;
          c in w.spawnedIn && GenerationOf(w.spawnedIn[c]) == w.processes.generation && !Held(w, c))
    && (forall c <- w.processes.live ::
          c in w.spawnedIn && (w.processes.child == Some(c) || Held(w, c)))
  }

  lemma StepKeepsNumbered(w: World, a: Action)
    requires Numbered(w)
    ensures Numbered(Step(w, a))
  {
    hide GenerationOf;
    NextGenerationOf(w.epoch);
    if !IsWindowAction(a) {
      WorkerKeepsNumbered(w, a);
    }
  }

  lemma WorkerKeepsNumbered(w: World, a: Action)
    requires Numbered(w) && !IsWindowAction(a)
    ensures Numbered(Step(w, a))
  {
    hide GenerationOf;
  }

  predicate IsWindowAction(a: Action) {
    a.BeginStart? || a.BeginStop? || a.Activate? || a.SpawnWorker? || a.ApplyNext? || a.CheckProcess? || a.CloseWindow?
  }

  lemma WindowKeepsOwned(w: World, a: Action)
    requires Numbered(w) && Owned(w) && IsWindowAction(a)
    ensures Owned(Step(w, a))
  {
    hide GenerationOf, Applied, BegunStart, StoppedModel, Replaced, StoppedFor;
  }

  lemma WorkerKeepsOwned(w: World, a: Action)
    requires Numbered(w) && Owned(w) && !IsWindowAction(a) && !a.WorkerReplaces?
    ensures Owned(Step(w, a))
  {
    hide GenerationOf, Applied, BegunStart, StoppedModel, Activated, Checked, StoppedAll, Replaced;
    if a.WorkerSpawns? {
      SpawningKeepsOwned(w, a.epoch, a.child);
    }
  }

  lemma SpawningKeepsOwned(w: World, e: nat, c: nat)
    requires Numbered(w) && Owned(w)
    ensures Owned(Step(w, WorkerSpawns(e, c)))
  {
    hide GenerationOf;
  }

  lemma ReplacingKeepsOwned(w: World, e: nat)
    requires Numbered(w) && Owned(w)
    ensures Owned(Step(w, WorkerReplaces(e)))
  {
    hide GenerationOf;
  }

  lemma {:induction false} RunKeepsOwned(openOnReady: bool, actions: seq<Action>)
    ensures Numbered(Run(openOnReady, actions)) && Owned(Run(openOnReady, actions))
  {
    if actions != [] {
      hide Numbered, Owned, Step;
      var before, a := Run(openOnReady, actions[..|actions| - 1]), actions[|actions| - 1];
      RunKeepsOwned(openOnReady, actions[..|actions| - 1]);
      StepKeepsNumbered(before, a);
      if a.WorkerReplaces? {
        ReplacingKeepsOwned(before, a.epoch);
      } else if IsWindowAction(a) {
        WindowKeepsOwned(before, a);
      } else {
        WorkerKeepsOwned(before, a);
      }
    }
  }

  /** The slot only ever holds a child spawned for the active generation; every other live
      child sits between its spawn and its worker's `replace_for_generation`. */
  lemma SlotHoldsTheActiveGeneration(openOnReady: bool, actions: seq<Action>)
    ensures var w := Run(openOnReady, actions);
      && (w.processes.child.Some? ==>
            var c := w.processes.child.value;
            c in w.spawnedIn && GenerationOf(w.spawnedIn[c]) == w.processes.generation)
      && (forall c <- w.processes.live :: w.processes.child == Some(c) || Held(w, c))
  {
    hide Run, Step, GenerationOf, Held;
    RunKeepsOwned(openOnReady, actions);
  }

  /** Once no worker is between a spawn and its replace, at most one child is alive. */
  lemma AtMostOneChild(openOnReady: bool, actions: seq<Action>)
    ensures var w := Run(openOnReady, actions);
      (forall e <- w.workers :: !w.workers[e].Holding?) ==>
        w.processes.live <= (match w.processes.child case Some(c) => {c} case None => {})
  {
    hide Run, Step, GenerationOf;
    RunKeepsOwned(openOnReady, actions);
  }

  /** A worker installs its child exactly when a whole number of generation wraps, usually
      none, separates the slot's start or stop from its own. */
  lemma InstallsExactlyWhenCurrent(openOnReady: bool, actions: seq<Action>, e: nat)
    requires Enabled(Run(openOnReady, actions), WorkerReplaces(e))
    ensures var w := Run(openOnReady, actions);
      var c := w.workers[e].child;
      var after := Step(w, WorkerReplaces(e));
      && e <= w.slotEpoch
      && (after.processes.child == Some(c) <==> (w.slotEpoch - e) % LAST_GENERATION == 0)
      && ((w.slotEpoch - e) % LAST_GENERATION != 0 ==>
            after.processes == w.processes.(live := w.processes.live - {c}))
  {
    hide Run, GenerationOf;
    RunKeepsOwned(openOnReady, actions);
    var w := Run(openOnReady, actions);
    SameGeneration(e, w.slotEpoch);
  }

  /** A worker goes past its first check, and so sends or spawns anything at all, exactly
      when no start or stop came after its own, whole wraps aside. */
  lemma GoesOnExactlyWhenCurrent(openOnReady: bool, actions: seq<Action>, e: nat)
    requires Enabled(Run(openOnReady, actions), WorkerChecks(e))
    ensures var w := Run(openOnReady, actions);
      var after := Step(w, WorkerChecks(e));
      && e <= w.slotEpoch
      && (At(after, e, Active) <==> (w.slotEpoch - e) % LAST_GENERATION == 0)
      && (!At(after, e, Active) ==> At(after, e, Finished))
      && after.processes == w.processes && after.channel == w.channel
  {
    hide Run, GenerationOf;
    RunKeepsOwned(openOnReady, actions);
    SameGeneration(e, Run(openOnReady, actions).slotEpoch);
  }

  /** Short of a wrap, a stopped launcher's slot stays empty, whatever older workers do. */
  lemma StoppedSlotIsEmpty(openOnReady: bool, actions: seq<Action>)
    ensures var w := Run(openOnReady, actions);
      w.model.status == Stopped && !w.window.Activating? && w.epoch <= LAST_GENERATION ==>
        w.processes.child == None
  {
    hide Run, Step;
    RunKeepsOwned(openOnReady, actions);
  }

  /** Closing the window kills everything but the children workers are still holding:
      it leaves the generation alone, so those workers may yet install theirs. */
  lemma ClosingLeavesHeldChildren(openOnReady: bool, actions: seq<Action>)
    requires Run(openOnReady, actions).window == Idle
    ensures var w := Run(openOnReady, actions);
      var after := Step(w, CloseWindow);
      forall c :: c in after.processes.live <==> c in w.processes.live && Held(w, c)
  {
    hide Run, GenerationOf;
    RunKeepsOwned(openOnReady, actions);
  }

  /** After a check in any run, a ready workspace has a live server of its own generation; one
      that lost it has failed, shows no URLs and its slot holds no child that has exited; and
      nothing else changes. */
  lemma CheckFindsDeadServers(openOnReady: bool, actions: seq<Action>)
    requires Enabled(Run(openOnReady, actions), CheckProcess)
    ensures var w, w' := Run(openOnReady, actions), Run(openOnReady, actions + [CheckProcess]);
      && (w'.model.status == Ready ==> IsServing(w'.model, w'.processes))
      && IsCheckedPoll(w.model, w.processes, w'.model, w'.processes)
      && w' == w.(model := w'.model, processes := w'.processes)
  {
    hide Run, GenerationOf;
    RunExtends(openOnReady, actions, CheckProcess);
  }

  function Applies(n: nat): seq<Action> {
    if n == 0 then [] else Applies(n - 1) + [ApplyNext]
  }

  function Envelopes(channel: seq<Message>): seq<Envelope> {
    seq(|channel|, i requires 0 <= i < |channel| => Envelope(GenerationOf(channel[i].epoch), channel[i].event))
  }

  lemma {:induction false} DrainingIsApplying(openOnReady: bool, actions: seq<Action>, n: nat)
    requires var w := Run(openOnReady, actions); w.window == Idle && n <= |w.channel|
    ensures var w, w' := Run(openOnReady, actions), Run(openOnReady, actions + Applies(n));
      && w'.model == Drained(w.model, Envelopes(w.channel[..n])).0
      && w'.channel == w.channel[n..] && w'.window == Idle && w'.processes == w.processes
      && |w'.opens| == |w.opens| + |Drained(w.model, Envelopes(w.channel[..n])).1|
  {
    hide Run, GenerationOf, Applied;
    var w := Run(openOnReady, actions);
    if n == 0 {
      assert actions + Applies(0) == actions;
      assert Envelopes(w.channel[..0]) == [];
    } else {
      DrainingIsApplying(openOnReady, actions, n - 1);
      assert actions + Applies(n) == actions + Applies(n - 1) + [ApplyNext];
      RunExtends(openOnReady, actions + Applies(n - 1), ApplyNext);
      var m := w.channel[n - 1];
      assert Envelopes(w.channel[..n])[..n - 1] == Envelopes(w.channel[..n - 1]);
      assert Envelopes(w.channel[..n])[n - 1] == Envelope(GenerationOf(m.epoch), m.event);
    }
  }

  /** A poll is one step after the other: every waiting event is applied in order, each opening
      of the browser it asks for is counted once, and the process is checked at the end. */
  lemma PollIsItsSteps(openOnReady: bool, actions: seq<Action>)
    requires Run(openOnReady, actions).window == Idle
    ensures var w := Run(openOnReady, actions);
      var w' := Run(openOnReady, actions + Applies(|w.channel|) + [CheckProcess]);
      var (drained, urls) := Drained(w.model, Envelopes(w.channel));
      && (w'.model, w'.processes) == Checked(drained, w.processes)
      && w'.channel == [] && |w'.opens| == |w.opens| + |urls|
  {
    hide Run, GenerationOf, Applied, Checked, Drained;
    var w := Run(openOnReady, actions);
    DrainingIsApplying(openOnReady, actions, |w.channel|);
    assert w.channel[..|w.channel|] == w.channel;
    RunExtends(openOnReady, actions + Applies(|w.channel|), CheckProcess);
  }

  // ---------- what a start comes to ----------

  function Begun(w: World): World {
    Step(Step(Step(w, BeginStart), Activate), SpawnWorker)
  }

  function Installed(w: World, e: nat, urls: WorkspaceUrls, c: nat): World {
    Step(Step(Step(Step(w, WorkerChecks(e)), WorkerPrepares(e, urls)), WorkerSpawns(e, c)), WorkerReplaces(e))
  }

  function AppliedThree(w: World): World {
    Step(Step(Step(w, ApplyNext), ApplyNext), ApplyNext)
  }

  lemma BegunIs(w: World)
    requires Numbered(w) && Owned(w) && w.window == Idle && w.channel == []
    ensures var w' := Begun(w);
      && w'.window == Idle && w'.epoch == w'.slotEpoch == w.epoch + 1 && w'.channel == [] && w'.opens == w.opens
      && w'.model == Model(Starting, w.model.openOnReady, GenerationOf(w.epoch + 1), None, None, false)
      && w'.processes.generation == GenerationOf(w.epoch + 1) && w'.processes.child == None
      && w'.workers == w.workers[w.epoch + 1 := Created] && w'.spawnedIn == w.spawnedIn
  {
    hide GenerationOf, Owned;
    NextGenerationOf(w.epoch);
  }

  lemma InstalledIs(w: World, e: nat, urls: WorkspaceUrls, c: nat)
    requires At(w, e, Created) && w.channel == [] && c !in w.spawnedIn
    requires w.processes.generation == GenerationOf(e) && w.processes.child == None
    ensures var w' := Installed(w, e, urls, c);
      && w'.model == w.model && w'.window == w.window && w'.epoch == w.epoch && w'.opens == w.opens
      && w'.processes.generation == GenerationOf(e)
      && w'.processes.child == Some(c) && c in w'.processes.live && At(w', e, Watching)
      && w'.channel == [Message(e, PreparedEvent(urls))] + [Message(e, Note("opening"))]
  {
    hide GenerationOf;
    assert [] + [Message(e, PreparedEvent(urls))] == [Message(e, PreparedEvent(urls))];
  }

  lemma AppliedThreeIs(w: World, e: nat, urls: WorkspaceUrls, last: LaunchEvent)
    requires w.window == Idle && w.epoch == e && w.model.generation == GenerationOf(e) && !w.model.browserOpened
    requires w.channel == [Message(e, PreparedEvent(urls))] + [Message(e, Note("opening"))] + [Message(e, last)]
    ensures var w' := AppliedThree(w);
      && w' == w.(model := w'.model, channel := [], opens := w'.opens)
      && w'.model.generation == GenerationOf(e)
      && (last == ReadyEvent ==>
            && w'.model.status == Ready && w'.model.localUrl == Some(urls.local) && w'.model.lanUrl == urls.lan
            && w'.opens == if w.model.openOnReady then w.opens + [e] else w.opens)
      && (last.FailedEvent? ==>
            && w'.model.status == Failed(last.message) && w'.model.localUrl == None && w'.model.lanUrl == None
            && w'.opens == w.opens)
  {
    hide GenerationOf;
    var rest := [Message(e, Note("opening"))] + [Message(e, last)];
    assert w.channel[1..] == rest && rest[1..] == [Message(e, last)] && [Message(e, last)][1..] == [];
  }

  /** A start whose worker goes through ends ready: with the workspace's URLs, a live server of
      its own generation in the slot, and the browser asked for exactly when the launcher was
      told to; the check at the end of the poll leaves it so. */
  lemma StartReachesReady(openOnReady: bool, actions: seq<Action>, urls: WorkspaceUrls, c: nat)
    requires var w := Run(openOnReady, actions); w.window == Idle && w.channel == [] && c !in w.spawnedIn
    ensures var w := Run(openOnReady, actions);
      var e := w.epoch + 1;
      var w' := Step(AppliedThree(Step(Installed(Begun(w), e, urls, c), WorkerSeesHealth(e))), CheckProcess);
      && w'.model.status == Ready && w'.model.localUrl == Some(urls.local) && w'.model.lanUrl == urls.lan
      && w'.processes.child == Some(c) && c in w'.processes.live && w'.channel == []
      && w'.opens == if w.model.openOnReady then w.opens + [e] else w.opens
  {
    hide Run, GenerationOf, Begun, Installed, AppliedThree;
    RunKeepsOwned(openOnReady, actions);
    var w := Run(openOnReady, actions);
    var e := w.epoch + 1;
    BegunIs(w);
    InstalledIs(Begun(w), e, urls, c);
    var ready := Step(Installed(Begun(w), e, urls, c), WorkerSeesHealth(e));
    AppliedThreeIs(ready, e, urls, ReadyEvent);
  }

  /** A start whose server never answers ends failed, with its server killed and no URLs. */
  lemma StartGivesUp(openOnReady: bool, actions: seq<Action>, urls: WorkspaceUrls, c: nat, message: string)
    requires var w := Run(openOnReady, actions); w.window == Idle && w.channel == [] && c !in w.spawnedIn
    ensures var w := Run(openOnReady, actions);
      var e := w.epoch + 1;
      var given := Step(Step(Installed(Begun(w), e, urls, c), WorkerGivesUp(e)), WorkerReports(e, message));
      var w' := Step(AppliedThree(given), CheckProcess);
      && w'.model.status == Failed(message) && w'.model.localUrl == None && w'.model.lanUrl == None
      && w'.processes.child == None && c !in w'.processes.live && w'.opens == w.opens
  {
    hide Run, GenerationOf, Begun, Installed, AppliedThree;
    RunKeepsOwned(openOnReady, actions);
    var w := Run(openOnReady, actions);
    var e := w.epoch + 1;
    BegunIs(w);
    InstalledIs(Begun(w), e, urls, c);
    var installed := Installed(Begun(w), e, urls, c);
    GivenUpIs(installed, e, c, message);
    var given := Step(Step(installed, WorkerGivesUp(e)), WorkerReports(e, message));
    hide Step;
    AppliedThreeIs(given, e, urls, FailedEvent(message));
    FailedStaysFailed(AppliedThree(given), message);
  }

  lemma GivenUpIs(w: World, e: nat, c: nat, message: string)
    requires At(w, e, Watching) && w.processes.generation == GenerationOf(e) && w.processes.child == Some(c)
    ensures var w' := Step(Step(w, WorkerGivesUp(e)), WorkerReports(e, message));
      && w' == w.(processes := w'.processes, workers := w'.workers, channel := w'.channel)
      && w'.channel == w.channel + [Message(e, FailedEvent(message))]
      && w'.processes.child == None && c !in w'.processes.live
  {
    hide GenerationOf;
  }

  lemma FailedStaysFailed(w: World, message: string)
    requires w.model.status == Failed(message)
    ensures Step(w, CheckProcess) == w
  {
  }

  /** A stop leaves the launcher stopped, with its server killed and no URLs. */
  lemma StopStops(openOnReady: bool, actions: seq<Action>)
    requires Run(openOnReady, actions).window == Idle
    ensures var w := Run(openOnReady, actions);
      var w' := Step(Step(w, BeginStop), Activate);
      && w'.window == Idle && w'.model.status == Stopped && w'.model.localUrl == None && w'.model.lanUrl == None
      && w'.processes.child == None
      && (w.processes.child.Some? ==> w.processes.child.value !in w'.processes.live)
      && w'.model.generation == w'.processes.generation
  {
    hide Run, GenerationOf;
  }

  /** Left alone, a workspace whose server has died does not stay ready past the next check. */
  lemma DeadServerIsNoticed(openOnReady: bool, actions: seq<Action>, c: nat)
    requires var w := Run(openOnReady, actions);
      w.window == Idle && w.processes.child == Some(c) && c in w.processes.live && w.model.status == Ready
    ensures var w := Run(openOnReady, actions + [ChildDies(c)] + [CheckProcess]);
      w.model.status.Failed? && w.model.localUrl == None && w.model.lanUrl == None
  {
    hide Run, GenerationOf;
    RunExtends(openOnReady, actions, ChildDies(c));
    CheckFindsDeadServers(openOnReady, actions + [ChildDies(c)]);
  }

  // ---------- beyond a generation wrap ----------

  function Stops(n: nat): seq<Action> {
    if n == 0 then [] else Stops(n - 1) + [BeginStop] + [Activate]
  }

  lemma RunExtends(openOnReady: bool, actions: seq<Action>, a: Action)
    ensures Run(openOnReady, actions + [a]) == Step(Run(openOnReady, actions), a)
  {
    assert (actions + [a])[..|actions|] == actions;
  }

  lemma {:induction false} StopsOnlyMoveTheEpoch(openOnReady: bool, actions: seq<Action>, n: nat)
    requires Run(openOnReady, actions).window == Idle
    ensures var w, w' := Run(openOnReady, actions), Run(openOnReady, actions + Stops(n));
      && w'.window == Idle && w'.epoch == w.epoch + n
      && w'.workers == w.workers && w'.spawnedIn == w.spawnedIn
      && w'.channel == w.channel && w'.opens == w.opens
      && (n > 0 ==> w'.model.status == Stopped && w'.model.localUrl == None)
  {
    hide GenerationOf, Run, StoppedFor, Replaced, Checked, Applied;
    if n == 0 {
      assert actions + Stops(0) == actions;
    } else {
      StopsOnlyMoveTheEpoch(openOnReady, actions, n - 1);
      var before := actions + Stops(n - 1);
      assert actions + Stops(n) == before + [BeginStop] + [Activate];
      RunExtends(openOnReady, before, BeginStop);
      RunExtends(openOnReady, before + [BeginStop], Activate);
    }
  }

  /** After 2^64 - 1 stops a worker still holding a child from before them installs it
      into a stopped launcher, so the bound in `StoppedSlotIsEmpty` cannot be dropped. */
  lemma StoppedSlotFillsAfterAWrap(openOnReady: bool, actions: seq<Action>, e: nat)
    requires var w := Run(openOnReady, actions);
      w.window == Idle && w.epoch == e && e in w.workers && w.workers[e].Holding?
    ensures var w := Run(openOnReady, actions + Stops(LAST_GENERATION) + [WorkerReplaces(e)]);
      && w.model.status == Stopped && w.window == Idle
      && w.processes.child == Some(Run(openOnReady, actions).workers[e].child)
  {
    hide Run, GenerationOf, Stops, Applied, BegunStart, StoppedModel;
    StopsOnlyMoveTheEpoch(openOnReady, actions, LAST_GENERATION);
    RunKeepsOwned(openOnReady, actions + Stops(LAST_GENERATION));
    InstallsExactlyWhenCurrent(openOnReady, actions + Stops(LAST_GENERATION), e);
    RunExtends(openOnReady, actions + Stops(LAST_GENERATION), WorkerReplaces(e));
  }

  // ---------- the model against the events ----------

  datatype Kind = Prepares | BecomesReady | Fails

  function KindOf(e: LaunchEvent): Option<Kind> {
    match e
    case PreparedEvent(_) => Some(Prepares)
    case ReadyEvent => Some(BecomesReady)
    case FailedEvent(_) => Some(Fails)
    case Note(_) => None
  }

  /** The events of one epoch that still wait in the channel, notes aside. */
  function Waiting(channel: seq<Message>, epoch: nat): seq<Kind> {
    if channel == [] then []
    else if channel[0].epoch == epoch && KindOf(channel[0].event).Some? then
      [KindOf(channel[0].event).value] + Waiting(channel[1..], epoch)
    else Waiting(channel[1..], epoch)
  }

  lemma {:induction false} WaitingAppends(channel: seq<Message>, m: Message, epoch: nat)
    ensures Waiting(channel + [m], epoch) ==
      Waiting(channel, epoch) + (if m.epoch == epoch && KindOf(m.event).Some? then [KindOf(m.event).value] else [])
  {
    if channel == [] {
      assert channel + [m] == [m] && [m][1..] == [];
    } else {
      assert (channel + [m])[1..] == channel[1..] + [m];
      WaitingAppends(channel[1..], m, epoch);
    }
  }

  lemma {:induction false} NothingWaits(channel: seq<Message>, epoch: nat)
    requires forall m <- channel :: m.epoch != epoch
    ensures Waiting(channel, epoch) == []
  {
    if channel != [] {
      NothingWaits(channel[1..], epoch);
    }
  }

  /** What a worker has sent by each stage: nothing, a failure, or its URLs followed by
      at most one of ready and failed. */
  predicate HasSent(stage: Option<Stage>, kinds: seq<Kind>) {
    match stage
    case None => kinds == []
    case Some(Created) => kinds == []
    case Some(Active) => kinds == []
    case Some(Finished) =>
      || kinds == [] || kinds == [Fails] || kinds == [Prepares]
      || kinds == [Prepares, Fails] || kinds == [Prepares, BecomesReady]
    case _ => kinds == [Prepares]
  }

  function StageOf(w: World, epoch: nat): Option<Stage> {
    if epoch in w.workers then Some(w.workers[epoch]) else None
  }

  /** How the status and the URLs stand to what the epoch's worker sent and what waits. */
  ghost predicate Follows(m: Model, stage: Option<Stage>, waiting: seq<Kind>) {
    match m.status
    case Stopped => m.localUrl.None? && m.lanUrl.None? && waiting == [] && stage.None?
    case Starting =>
      && !m.browserOpened
      && (if m.localUrl.None? then m.lanUrl.None? && HasSent(stage, waiting) else HasSent(stage, [Prepares] + waiting))
    case Failed(_) => m.localUrl.None? && m.lanUrl.None? && waiting == [] && stage == Some(Finished)
    case Ready => m.localUrl.Some? && waiting == [] && stage == Some(Finished)
  }

  ghost predicate Distinct(s: seq<nat>) {
    forall i, j :: 0 <= i < j < |s| ==> s[i] != s[j]
  }

  /** No start or stop has opened the browser twice, or without having become ready. */
  ghost predicate OpenedOnce(w: World) {
    && Distinct(w.opens)
    && (forall e <- w.opens :: e <= w.epoch)
    && (w.model.status.Stopped? || w.model.status.Starting? ==> w.epoch !in w.opens)
    && (w.epoch in w.opens ==> w.model.browserOpened)
  }

  ghost predicate Opened(w: World) {
    && OpenedOnce(w)
    && (w.model.status.Ready? ==> (w.epoch in w.opens <==> w.model.openOnReady))
  }

  lemma StepKeepsOpenedOnce(w: World, a: Action)
    requires OpenedOnce(w)
    ensures OpenedOnce(Step(w, a))
  {
    hide GenerationOf, Activated, Replaced, Probed, StoppedFor, StoppedAll;
  }

  lemma {:induction false} RunOpensOnce(openOnReady: bool, actions: seq<Action>)
    ensures OpenedOnce(Run(openOnReady, actions))
  {
    if actions != [] {
      hide OpenedOnce, Step;
      RunOpensOnce(openOnReady, actions[..|actions| - 1]);
      StepKeepsOpenedOnce(Run(openOnReady, actions[..|actions| - 1]), actions[|actions| - 1]);
    }
  }

  ghost predicate Orderly(w: World) {
    && Follows(w.model, StageOf(w, w.epoch), Waiting(w.channel, w.epoch))
    && Opened(w)
  }

  lemma {:induction false} AppliedKeepsOrder(w: World)
    requires Numbered(w) && Orderly(w) && w.epoch <= LAST_GENERATION && Enabled(w, ApplyNext)
    ensures Orderly(Step(w, ApplyNext))
  {
    var m, rest := w.channel[0], Waiting(w.channel[1..], w.epoch);
    assert m in w.channel;
    assert GenerationOf(m.epoch) == m.epoch && GenerationOf(w.epoch) == w.epoch;
    hide GenerationOf;
    if m.epoch == w.epoch && KindOf(m.event).Some? {
      var kind := KindOf(m.event).value;
      assert Waiting(w.channel, w.epoch) == [kind] + rest && w.model.status == Starting;
      SentInOrder(StageOf(w, w.epoch), w.model.localUrl.Some?, kind, rest);
    }
  }

  /** The head of what still waits is what the events so far allow next. */
  lemma SentInOrder(stage: Option<Stage>, prepared: bool, kind: Kind, rest: seq<Kind>)
    requires HasSent(stage, if prepared then [Prepares] + ([kind] + rest) else [kind] + rest)
    ensures if prepared then kind != Prepares else kind != BecomesReady
    ensures kind != Prepares ==> rest == [] && stage == Some(Finished)
  {
    var all := if prepared then [Prepares] + ([kind] + rest) else [kind] + rest;
    assert if prepared then |all| == |rest| + 2 && all[1] == kind else |all| == |rest| + 1 && all[0] == kind;
  }

  lemma SendingKeepsOrder(w: World, e: nat, event: LaunchEvent, stage: Stage)
    requires Orderly(w) && e in w.workers
    requires e == w.epoch ==> forall sent :: HasSent(Some(w.workers[e]), sent) ==>
      HasSent(Some(stage), sent + (if KindOf(event).Some? then [KindOf(event).value] else []))
    requires w.workers[e] == Finished ==> stage == Finished && KindOf(event).None?
    ensures Orderly(Sent(w, e, event, stage))
  {
    hide HasSent, Waiting;
    var m := Message(e, event);
    WaitingAppends(w.channel, m, w.epoch);
    var w', waiting := Sent(w, e, event, stage), Waiting(w.channel, w.epoch);
    var more := if KindOf(event).Some? then [KindOf(event).value] else [];
    assert forall m' <- w'.channel :: m' in w.channel || m' == m;
    assert waiting + [] == waiting;
    if e == w.epoch {
      assert Waiting(w'.channel, w.epoch) == waiting + more;
      assert [Prepares] + (waiting + more) == ([Prepares] + waiting) + more;
    }
  }

  /** Beginning a start or a stop opens an epoch nobody has sent anything for. */
  lemma BeginningKeepsOrder(w: World, a: Action)
    requires Numbered(w) && Orderly(w) && (a.BeginStart? || a.BeginStop?)
    ensures Orderly(Step(w, a))
  {
    hide GenerationOf;
    NothingWaits(w.channel, w.epoch + 1);
  }

  lemma MovingKeepsOrder(w: World, w': World, e: nat, stage: Stage)
    requires Orderly(w) && e in w.workers && w.workers[e] != Finished
    requires forall sent :: HasSent(Some(w.workers[e]), sent) ==> HasSent(Some(stage), sent)
    requires w'.model == w.model && w'.epoch == w.epoch && w'.channel == w.channel && w'.opens == w.opens
    requires w'.workers == w.workers[e := stage]
    ensures Orderly(w')
  {
    hide HasSent, Waiting;
  }

  predicate IsWorkerAction(a: Action) {
    !IsWindowAction(a) && !a.ChildDies?
  }

  lemma WorkerKeepsOrder(w: World, a: Action)
    requires Orderly(w) && Enabled(w, a) && IsWorkerAction(a)
    ensures Orderly(Step(w, a))
  {
    hide Orderly, Waiting, GenerationOf;
    var e, w' := a.epoch, Step(w, a);
    if a.WorkerRefuses? || a.WorkerCannotSpawn? || a.WorkerReports? {
      SendingKeepsOrder(w, e, FailedEvent(a.message), Finished);
    } else if a.WorkerPrepares? {
      SendingKeepsOrder(w, e, PreparedEvent(a.urls), Announced);
    } else if a.WorkerSeesHealth? {
      SendingKeepsOrder(w, e, ReadyEvent, Finished);
    } else if a.OutputArrives? {
      SendingKeepsOrder(w, e, Note(a.text), w.workers[e]);
    } else if a.WorkerReplaces? {
      ReplacingKeepsOrder(w, e);
    } else if a.WorkerProbes? {
      FrameKeepsOrder(w, w');
    } else {
      MovingKeepsOrder(w, w', e, w'.workers[e]);
    }
  }

  lemma ReplacingKeepsOrder(w: World, e: nat)
    requires Orderly(w) && Enabled(w, WorkerReplaces(e))
    ensures Orderly(Step(w, WorkerReplaces(e)))
  {
    hide Orderly, Waiting, GenerationOf;
    var (processes, installed) := Replaced(w.processes, GenerationOf(e), w.workers[e].child);
    var w' := w.(processes := processes);
    if installed {
      FrameKeepsOrder(w, w');
      SendingKeepsOrder(w', e, Note("opening"), Watching);
    } else {
      MovingKeepsOrder(w, w'.(workers := w.workers[e := Finished]), e, Finished);
    }
  }

  lemma FrameKeepsOrder(w: World, w': World)
    requires Orderly(w)
    requires w'.model == w.model && w'.epoch == w.epoch && w'.channel == w.channel && w'.opens == w.opens
    requires w'.workers == w.workers
    ensures Orderly(w')
  {
    hide HasSent, Waiting;
  }

  lemma WindowKeepsOrder(w: World, a: Action)
    requires Numbered(w) && Orderly(w) && w.epoch <= LAST_GENERATION && IsWindowAction(a)
    ensures Orderly(Step(w, a))
  {
    hide Waiting, GenerationOf;
    if a.BeginStart? || a.BeginStop? {
      BeginningKeepsOrder(w, a);
    } else if a.ApplyNext? && Enabled(w, a) {
      AppliedKeepsOrder(w);
    }
  }

  lemma {:induction false} RunIsOrderly(openOnReady: bool, actions: seq<Action>)
    requires Run(openOnReady, actions).epoch <= LAST_GENERATION
    ensures Orderly(Run(openOnReady, actions))
  {
    if actions != [] {
      var before, a := Run(openOnReady, actions[..|actions| - 1]), actions[|actions| - 1];
      EpochsGrow(before, a);
      RunIsOrderly(openOnReady, actions[..|actions| - 1]);
      RunKeepsOwned(openOnReady, actions[..|actions| - 1]);
      KeepsOrder(before, a);
    }
  }

  lemma EpochsGrow(w: World, a: Action)
    ensures Step(w, a).epoch >= w.epoch
  {
    hide GenerationOf, Applied, Checked, Replaced;
  }

  lemma KeepsOrder(w: World, a: Action)
    requires Numbered(w) && Orderly(w) && w.epoch <= LAST_GENERATION
    ensures Orderly(Step(w, a))
  {
    hide Numbered, Orderly, GenerationOf, Applied, Checked, Replaced;
    if Enabled(w, a) {
      if IsWindowAction(a) {
        WindowKeepsOrder(w, a);
      } else if IsWorkerAction(a) {
        WorkerKeepsOrder(w, a);
      } else {
        FrameKeepsOrder(w, Step(w, a));
      }
    }
  }

  /** URLs are shown only for a start under way or ready, and a ready one has one. */
  lemma UrlsFollowStatus(openOnReady: bool, actions: seq<Action>)
    requires Run(openOnReady, actions).epoch <= LAST_GENERATION
    ensures var m := Run(openOnReady, actions).model;
      && (m.status.Stopped? || m.status.Failed? ==> m.localUrl.None? && m.lanUrl.None?)
      && (m.status.Ready? ==> m.localUrl.Some?)
  {
    hide Run, Waiting, HasSent, Opened;
    RunIsOrderly(openOnReady, actions);
  }

  /** No start opens the browser twice and one that is not ready yet has not opened it, in
      any run; short of a wrap, a ready one has opened it exactly when the launcher was told to. */
  lemma BrowserOpensOncePerStart(openOnReady: bool, actions: seq<Action>)
    ensures var w := Run(openOnReady, actions);
      && Distinct(w.opens)
      && (w.model.status.Stopped? || w.model.status.Starting? ==> w.epoch !in w.opens)
      && (w.model.status.Ready? && w.epoch <= LAST_GENERATION ==> (w.epoch in w.opens <==> openOnReady))
  {
    hide Run, Waiting, HasSent, Follows;
    RunOpensOnce(openOnReady, actions);
    if Run(openOnReady, actions).epoch <= LAST_GENERATION {
      RunIsOrderly(openOnReady, actions);
      OpenOnReadyStays(openOnReady, actions);
    }
  }

  /** After 2^64 - 1 stops an event still waiting from before them is taken for the stopped
      launcher's own: URLs appear on it, or it becomes ready without any and without opening
      the browser. So the bounds in `UrlsFollowStatus` and `BrowserOpensOncePerStart` cannot
      be dropped. */
  lemma WaitingEventAppliesAfterAWrap(openOnReady: bool, actions: seq<Action>)
    requires var w := Run(openOnReady, actions);
      w.window == Idle && w.channel != [] && w.channel[0].epoch == w.epoch
    ensures var event := Run(openOnReady, actions).channel[0].event;
      var w := Run(openOnReady, actions + Stops(LAST_GENERATION) + [ApplyNext]);
      match event
      case PreparedEvent(urls) => w.model.status == Stopped && w.model.localUrl == Some(urls.local)
      case ReadyEvent => w.model.status == Ready && w.model.localUrl == None && w.epoch !in w.opens
      case _ => true
  {
    hide Run, GenerationOf, Stops, BegunStart, StoppedModel, OpenedOnce, Owned;
    var w, stops := Run(openOnReady, actions), actions + Stops(LAST_GENERATION);
    var w' := Run(openOnReady, stops);
    StopsOnlyMoveTheEpoch(openOnReady, actions, LAST_GENERATION);
    RunKeepsOwned(openOnReady, actions);
    RunKeepsOwned(openOnReady, stops);
    assert w.channel[0] in w.channel;
    SameGeneration(w.epoch, w'.epoch);
    RunOpensOnce(openOnReady, stops);
    NotReadyNotOpened(w');
    RunExtends(openOnReady, stops, ApplyNext);
  }

  lemma NotReadyNotOpened(w: World)
    requires OpenedOnce(w) && w.model.status == Stopped
    ensures w.epoch !in w.opens
  {
  }

  lemma {:induction false} OpenOnReadyStays(openOnReady: bool, actions: seq<Action>)
    ensures Run(openOnReady, actions).model.openOnReady == openOnReady
  {
    if actions != [] {
      hide Step;
      OpenOnReadyStays(openOnReady, actions[..|actions| - 1]);
      StepKeepsOpenOnReady(Run(openOnReady, actions[..|actions| - 1]), actions[|actions| - 1]);
    }
  }

  lemma StepKeepsOpenOnReady(w: World, a: Action)
    ensures Step(w, a).model.openOnReady == w.model.openOnReady
  {
    hide GenerationOf, Replaced, NextGeneration;
  }

  /** An event of another epoch leaves the model alone unless a whole number of generation
      wraps lies between the two. */
  lemma StaleEventsChangeNothing(openOnReady: bool, actions: seq<Action>)
    requires Enabled(Run(openOnReady, actions), ApplyNext)
    ensures var w := Run(openOnReady, actions);
      0 < w.channel[0].epoch <= w.epoch &&
      ((w.epoch - w.channel[0].epoch) % LAST_GENERATION != 0 ==>
        Step(w, ApplyNext) == w.(channel := w.channel[1..]))
  {
    hide Run, GenerationOf;
    RunKeepsOwned(openOnReady, actions);
    var w := Run(openOnReady, actions);
    assert w.channel[0] in w.channel;
    SameGeneration(w.channel[0].epoch, w.epoch);
  }
}
