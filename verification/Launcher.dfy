/** The launcher's state: the mutex-protected process slot, the launch model, and the
    code of both as it changes them. */
module Launcher {
  import opened Basics

  const LAST_GENERATION: int := U64_LIMIT - 1

  /** `wrapping_add(1).max(1)`. */
  function NextGeneration(g: u64): u64 {
    if g == LAST_GENERATION then 1 else g + 1
  }

  // ---------- the process slot ----------

  /** Children are numbered; `live` holds the ones whose process still runs. */
  datatype Processes = Processes(generation: u64, child: Option<nat>, live: set<nat>)

  function Killed(child: Option<nat>, live: set<nat>): set<nat> {
    match child
    case None => live
    case Some(c) => live - {c}
  }

  function Activated(p: Processes, g: u64): Processes {
    Processes(g, None, Killed(p.child, p.live))
  }

  function Replaced(p: Processes, g: u64, child: nat): (Processes, bool) {
    if p.generation != g then (p.(live := p.live - {child}), false)
    else (p.(child := Some(child), live := Killed(p.child, p.live)), true)
  }

  function StoppedFor(p: Processes, g: u64): Processes {
    if p.generation == g then p.(child := None, live := Killed(p.child, p.live)) else p
  }

  function StoppedAll(p: Processes): Processes {
    p.(child := None, live := Killed(p.child, p.live))
  }

  predicate RunningFor(p: Processes, g: u64) {
    p.generation == g && p.child.Some? && p.child.value in p.live
  }

  /** Probing a slot forgets a child that has exited. */
  function Probed(p: Processes, g: u64): Processes {
    if p.generation == g && !RunningFor(p, g) then p.(child := None) else p
  }

  class ProcessSlot {
    var generation: u64
    var child: Option<nat>
    var live: set<nat>

    function View(): Processes
      reads this
    {
      Processes(generation, child, live)
    }

    constructor ()
      ensures View() == Processes(0, None, {})
    {
      generation, child, live := 0, None, {};
    }

    method TerminateChild(c: nat)
      modifies this`live
      ensures live == old(live) - {c}
    {
      live := live - {c};
    }

    method StopChild()
      modifies this`child, this`live
      ensures child == None && live == Killed(old(child), old(live))
    {
      if child.Some? {
        TerminateChild(child.value);
        child := None;
      }
    }

    method Activate(g: u64)
      modifies this
      ensures View() == Activated(old(View()), g)
      ensures generation == g && child == None
      ensures live == old(live) - (if old(child).Some? then {old(child).value} else {})
    {
      StopChild();
      generation := g;
    }

    method ReplaceForGeneration(g: u64, c: nat) returns (installed: bool)
      modifies this
      ensures (View(), installed) == Replaced(old(View()), g, c)
      ensures installed <==> old(generation) == g
      ensures installed ==>
        child == Some(c) && live == old(live) - (if old(child).Some? then {old(child).value} else {})
      ensures !installed ==> child == old(child) && live == old(live) - {c}
    {
      if generation != g {
        TerminateChild(c);
        return false;
      }
      StopChild();
      child := Some(c);
      return true;
    }

    method StopForGeneration(g: u64)
      modifies this
      ensures View() == StoppedFor(old(View()), g)
      ensures old(generation) == g ==>
        child == None && live == old(live) - (if old(child).Some? then {old(child).value} else {})
      ensures old(generation) != g ==> View() == old(View())
    {
      if generation == g {
        StopChild();
      }
    }

    method StopAll()
      modifies this
      ensures View() == StoppedAll(old(View()))
      ensures generation == old(generation) && child == None
      ensures live == old(live) - (if old(child).Some? then {old(child).value} else {})
    {
      StopChild();
    }

    method IsRunningForGeneration(g: u64) returns (running: bool)
      modifies this
      ensures running == RunningFor(old(View()), g)
      ensures View() == Probed(old(View()), g)
      ensures running <==> old(generation) == g && old(child).Some? && old(child).value in old(live)
      ensures generation == old(generation) && live == old(live)
      ensures child == if old(generation) == g && !running then None else old(child)
    {
      if generation != g || child.None? {
        return false;
      }
      if child.value in live {
        return true;
      }
      child := None;
      return false;
    }
  }

  // ---------- the launch model ----------

  datatype LaunchStatus = Starting | Ready | Failed(message: string) | Stopped

  datatype WorkspaceUrls = WorkspaceUrls(local: string, lan: Option<string>)

  /** `Note` stands for the progress, phase and output events, which only change texts. */
  datatype LaunchEvent =
    | PreparedEvent(urls: WorkspaceUrls)
    | Note(text: string)
    | ReadyEvent
    | FailedEvent(message: string)

  datatype Model = Model(
    status: LaunchStatus,
    openOnReady: bool,
    generation: u64,
    localUrl: Option<string>,
    lanUrl: Option<string>,
    browserOpened: bool)

  function BegunStart(m: Model): Model {
    m.(generation := NextGeneration(m.generation), status := Starting,
       localUrl := None, lanUrl := None, browserOpened := false)
  }

  function StoppedModel(m: Model): Model {
    m.(generation := NextGeneration(m.generation), status := Stopped, localUrl := None, lanUrl := None)
  }

  /** The model after an event, and the URL to open when it asks for the browser. */
  function Applied(m: Model, g: u64, e: LaunchEvent): (Model, Option<string>) {
    if g != m.generation then (m, None)
    else match e
      case PreparedEvent(urls) => (m.(localUrl := Some(urls.local), lanUrl := urls.lan), None)
      case Note(_) => (m, None)
      case ReadyEvent =>
        var ready := m.(status := Ready);
        if m.openOnReady && !m.browserOpened && m.localUrl.Some?
        then (ready.(browserOpened := true), m.localUrl)
        else (ready, None)
      case FailedEvent(message) => (m.(status := Failed(message), localUrl := None, lanUrl := None), None)
  }

  const SERVER_STOPPED := "stopped"

  /** The check at the end of a poll: a ready workspace whose process is gone has failed. */
  function Checked(m: Model, p: Processes): (Model, Processes) {
    if m.status != Ready then (m, p)
    else (if RunningFor(p, m.generation) then m
          else Applied(m, m.generation, FailedEvent(SERVER_STOPPED)).0, Probed(p, m.generation))
  }

  /** The slot holds a live child of the model's generation. */
  predicate IsServing(m: Model, p: Processes) {
    p.generation == m.generation && p.child.Some? && p.child.value in p.live
  }

  /** A ready workspace without its server fails: its URLs go, and the slot forgets a child of
      that generation. Otherwise a check changes nothing. */
  predicate IsCheckedPoll(m: Model, p: Processes, m': Model, p': Processes) {
    if m.status == Ready && !IsServing(m, p) then
      && m'.status.Failed? && m'.localUrl == None && m'.lanUrl == None
      && m'.generation == m.generation && m'.openOnReady == m.openOnReady && m'.browserOpened == m.browserOpened
      && p'.generation == p.generation && p'.live == p.live
      && p'.child == if p.generation == m.generation then None else p.child
    else m' == m && p' == p
  }

  datatype Envelope = Envelope(generation: u64, event: LaunchEvent)

  /** A drained channel: the events are applied in order; `urls` are the opens asked for. */
  function Drained(m: Model, channel: seq<Envelope>): (Model, seq<string>) {
    if channel == [] then (m, [])
    else
      var (before, urls) := Drained(m, channel[..|channel| - 1]);
      var last := channel[|channel| - 1];
      var (after, open) := Applied(before, last.generation, last.event);
      (after, urls + (if open.Some? then [open.value] else []))
  }

  class LauncherModel {
    var status: LaunchStatus
    var openOnReady: bool
    var generation: u64
    var localUrl: Option<string>
    var lanUrl: Option<string>
    var browserOpened: bool

    function View(): Model
      reads this
    {
      Model(status, openOnReady, generation, localUrl, lanUrl, browserOpened)
    }

    constructor (openOnReady: bool)
      ensures View() == Model(Stopped, openOnReady, 0, None, None, false)
    {
      status, this.openOnReady, generation := Stopped, openOnReady, 0;
      localUrl, lanUrl, browserOpened := None, None, false;
    }

    method BeginStart() returns (g: u64)
      modifies this
      ensures View() == BegunStart(old(View())) && g == generation
      ensures generation != 0 && generation == (if old(generation) == LAST_GENERATION then 1 else old(generation) + 1)
      ensures status == Starting && localUrl == None && lanUrl == None && !browserOpened
      ensures openOnReady == old(openOnReady)
    {
      generation := if generation == LAST_GENERATION then 1 else generation + 1;
      status := Starting;
      localUrl := None;
      lanUrl := None;
      browserOpened := false;
      return generation;
    }

    method Stop() returns (g: u64)
      modifies this
      ensures View() == StoppedModel(old(View())) && g == generation
      ensures generation != 0 && generation == (if old(generation) == LAST_GENERATION then 1 else old(generation) + 1)
      ensures status == Stopped && localUrl == None && lanUrl == None
      ensures openOnReady == old(openOnReady) && browserOpened == old(browserOpened)
    {
      generation := if generation == LAST_GENERATION then 1 else generation + 1;
      status := Stopped;
      localUrl := None;
      lanUrl := None;
      return generation;
    }

    method Apply(g: u64, event: LaunchEvent) returns (open: Option<string>)
      modifies this
      ensures (View(), open) == Applied(old(View()), g, event)
      ensures generation == old(generation) && openOnReady == old(openOnReady)
      ensures g != old(generation) || event.Note? ==> View() == old(View()) && open == None
      ensures g == old(generation) && event.PreparedEvent? ==>
        View() == old(View()).(localUrl := Some(event.urls.local), lanUrl := event.urls.lan) && open == None
      ensures g == old(generation) && event.FailedEvent? ==>
        status == Failed(event.message) && localUrl == None && lanUrl == None && open == None
      ensures g == old(generation) && event.ReadyEvent? ==>
        status == Ready && localUrl == old(localUrl) && lanUrl == old(lanUrl)
      // The browser is asked for exactly once, when the launcher becomes ready with a URL.
      ensures open.Some? <==>
        g == old(generation) && event.ReadyEvent? && openOnReady && !old(browserOpened) && old(localUrl).Some?
      ensures open.Some? ==> open == localUrl
      ensures browserOpened == (old(browserOpened) || open.Some?)
    {
      open := None;
      if g != generation {
        return;
      }
      match event
      case PreparedEvent(urls) =>
        localUrl := Some(urls.local);
        lanUrl := urls.lan;
      case Note(_) =>
      case ReadyEvent =>
        status := Ready;
        if openOnReady && !browserOpened && localUrl.Some? {
          browserOpened := true;
          open := localUrl;
        }
      case FailedEvent(message) =>
        status := Failed(message);
        localUrl := None;
        lanUrl := None;
    }
  }

  class LauncherController {
    const model: LauncherModel
    const process: ProcessSlot
    var channel: seq<Envelope>
    var opens: seq<string>

    constructor (openOnReady: bool)
      ensures fresh(model) && fresh(process) && channel == [] && opens == []
      ensures model.View() == Model(Stopped, openOnReady, 0, None, None, false)
      ensures process.View() == Processes(0, None, {})
    {
      model := new LauncherModel(openOnReady);
      process := new ProcessSlot();
      channel, opens := [], [];
    }

    /** Start up to the point where the worker thread is spawned for `g`. */
    method Start() returns (g: u64)
      modifies this, model, process
      ensures model.View() == BegunStart(old(model.View())) && g == model.generation
      ensures process.View() == Activated(old(process.View()), g)
      ensures channel == old(channel) && opens == old(opens)
    {
      g := model.BeginStart();
      process.Activate(g);
    }

    method Stop()
      modifies this, model, process
      ensures model.View() == StoppedModel(old(model.View()))
      ensures process.View() == Activated(old(process.View()), model.generation)
      ensures channel == old(channel) && opens == old(opens)
    {
      var g := model.Stop();
      process.Activate(g);
    }

    method Restart() returns (g: u64)
      modifies this, model, process
      ensures model.View() == BegunStart(StoppedModel(old(model.View()))) && g == model.generation
      ensures process.View() == Activated(old(process.View()), g)
      ensures channel == old(channel) && opens == old(opens)
    {
      Stop();
      g := Start();
    }

    /** Closing the window stops the child and leaves the generation as it is. */
    method Drop()
      modifies process
      ensures process.View() == StoppedAll(old(process.View()))
      ensures process.View().generation == old(process.View().generation)
    {
      process.StopAll();
    }

    /** Drains the channel, then checks the process. */
    method Poll()
      modifies this, model, process
      ensures channel == []
      ensures var (drained, urls) := Drained(old(model.View()), old(channel));
              && opens == old(opens) + urls
              && (model.View(), process.View()) == Checked(drained, old(process.View()))
      ensures model.status == Ready ==> IsServing(model.View(), process.View())
      ensures var (drained, _) := Drained(old(model.View()), old(channel));
              IsCheckedPoll(drained, old(process.View()), model.View(), process.View())
    {
      ghost var all := channel;
      ghost var applied := 0;
      while channel != []
        invariant 0 <= applied <= |all| && channel == all[applied..]
        invariant model.View() == Drained(old(model.View()), all[..applied]).0
        invariant opens == old(opens) + Drained(old(model.View()), all[..applied]).1
        invariant process.View() == old(process.View())
        decreases |channel|
      {
        var envelope := channel[0];
        assert all[..applied + 1][..applied] == all[..applied] && all[..applied + 1][applied] == envelope;
        channel := channel[1..];
        if envelope.generation == model.generation {
          var open := model.Apply(envelope.generation, envelope.event);
          if open.Some? {
            opens := opens + [open.value];
          }
        }
        applied := applied + 1;
      }
      assert all[..applied] == all;
      if model.status == Ready {
        var running := process.IsRunningForGeneration(model.generation);
        if !running {
          var _ := model.Apply(model.generation, FailedEvent(SERVER_STOPPED));
        }
      }
    }
  }
}
