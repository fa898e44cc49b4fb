/** The search-count thread: a one-entry cache in front of the direct count, and a
    receive loop that drains the channel so that only the newest request is answered.

    The thread races with the application, which changes the database and sends
    requests at any moment. Database states are numbered by a version; `direct(v, q)`
    is the count of query `q` in version `v`, or `None` when counting fails. */
module CountWorker {
  import opened Basics

  /** A message, stamped with the database version current when it was sent and, for a count,
      with its epoch: the number of clears sent before it. */
  datatype Request<Q> =
    | Count(query: Q, generation: u64, sent: nat, epoch: nat)
    | ClearCache(sent: nat)

  datatype Reply<Q> = Reply(query: Q, generation: u64, sent: nat, answered: nat, total: Option<nat>)

  // ---------- the thread's own code ----------

  ghost predicate HasClear<Q>(batch: seq<Request<Q>>) {
    exists i :: 0 <= i < |batch| && batch[i].ClearCache?
  }

  /** The request a drained batch leaves: a clear cancels every count before it and a
      count replaces every count before it, so only the newest message decides. */
  function Newest<Q>(batch: seq<Request<Q>>): Option<Request<Q>>
    requires batch != []
  {
    if batch[|batch| - 1].Count? then Some(batch[|batch| - 1]) else None
  }

  /** The answer to a query and the cache it leaves. Failures are not cached. */
  function Answer<Q(==)>(cache: Option<(Q, nat)>, q: Q, counted: Option<nat>): (Option<(Q, nat)>, Option<nat>) {
    if cache.Some? && cache.value.0 == q then (cache, Some(cache.value.1))
    else match counted
      case Some(total) => (Some((q, total)), Some(total))
      case None => (cache, None)
  }

  class SearchCountWorker<Q(==)> {
    var cache: Option<(Q, nat)>

    constructor ()
      ensures cache == None
    {
      cache := None;
    }

    /** One blocking receive followed by the drain of whatever else is queued. */
    method Drain(batch: seq<Request<Q>>) returns (request: Option<Request<Q>>)
      requires batch != []
      modifies this
      ensures request == Newest(batch)
      ensures cache == if HasClear(batch) then None else old(cache)
    {
      if batch[0].Count? {
        request := Some(batch[0]);
      } else {
        cache := None;
        request := None;
      }
      var next := 1;
      while next < |batch|
        invariant 1 <= next <= |batch|
        invariant request == Newest(batch[..next])
        invariant cache == if HasClear(batch[..next]) then None else old(cache)
      {
        assert batch[..next + 1] == batch[..next] + [batch[next]];
        assert HasClear(batch[..next]) ==> HasClear(batch[..next + 1]) by {
          if i :| 0 <= i < next && batch[..next][i].ClearCache? {
            assert batch[..next + 1][i].ClearCache?;
          }
        }
        if batch[next].Count? {
          request := Some(batch[next]);
        } else {
          cache := None;
          request := None;
          assert batch[..next + 1][next].ClearCache?;
        }
        next := next + 1;
      }
      assert batch[..next] == batch;
    }

    /** Answers one request from the cache, or from the database it is handed. */
    method Respond(q: Q, counted: Option<nat>) returns (total: Option<nat>)
      modifies this
      ensures (cache, total) == Answer(old(cache), q, counted)
    {
      if cache.Some? && cache.value.0 == q {
        total := Some(cache.value.1);
      } else {
        total := counted;
        if counted.Some? {
          cache := Some((q, counted.value));
        }
      }
    }
  }

  // ---------- every interleaving with the application ----------

  /** `clears` clears have been sent, the last in version `lastClear`; the thread has processed
      `epoch` of them, the last of which is stamped `processed`. `counted` is the version its
      cached total was counted in. */
  datatype World<Q> = World(
    version: nat,
    lastClear: nat,
    clears: nat,
    channel: seq<Request<Q>>,
    pending: Option<Request<Q>>,
    cache: Option<(Q, nat)>,
    processed: nat,
    epoch: nat,
    counted: nat,
    replies: seq<Reply<Q>>)

  datatype Action<Q> =
    | ChangeDatabase
    | SendCount(query: Q, generation: u64)
    | SendClear
    | DrainBatch(size: nat)
    | AnswerPending

  type Counter<!Q> = (nat, Q) -> Option<nat>

  function Initial<Q>(): World<Q> {
    World(0, 0, 0, [], None, None, 0, 0, 0, [])
  }

  /** The stamp of the last clear in a batch, or the one before it. */
  function Stamp<Q>(batch: seq<Request<Q>>, before: nat): nat {
    if batch == [] then before
    else Stamp(batch[1..], if batch[0].ClearCache? then batch[0].sent else before)
  }

  /** How many clears a batch holds. */
  function ClearsIn<Q>(batch: seq<Request<Q>>): nat {
    if batch == [] then 0 else (if batch[0].ClearCache? then 1 else 0) + ClearsIn(batch[1..])
  }

  /** Actions that are not enabled leave the world as it is. */
  ghost function Step<Q>(direct: Counter<Q>, w: World<Q>, a: Action<Q>): World<Q> {
    match a
    case ChangeDatabase => w.(version := w.version + 1)
    case SendCount(q, g) => w.(channel := w.channel + [Count(q, g, w.version, w.clears)])
    case SendClear => w.(lastClear := w.version, clears := w.clears + 1,
                           channel := w.channel + [ClearCache(w.version)])
    case DrainBatch(size) =>
      if w.pending.Some? || size == 0 || size > |w.channel| then w
      else
        var batch := w.channel[..size];
        w.(channel := w.channel[size..],
           pending := Newest(batch),
           cache := if HasClear(batch) then None else w.cache,
           processed := Stamp(batch, w.processed),
           epoch := w.epoch + ClearsIn(batch))
    case AnswerPending =>
      if w.pending.None? || !w.pending.value.Count? then w
      else
        var r := w.pending.value;
        var hit := w.cache.Some? && w.cache.value.0 == r.query;
        var (cache, total) := Answer(w.cache, r.query, direct(w.version, r.query));
        w.(pending := None,
           cache := cache,
           counted := if !hit && total.Some? then w.version else w.counted,
           replies := w.replies + [Reply(r.query, r.generation, r.sent, w.version, total)])
  }

  ghost function Run<Q>(direct: Counter<Q>, actions: seq<Action<Q>>): World<Q> {
    if actions == [] then Initial()
    else Step(direct, Run(direct, actions[..|actions| - 1]), actions[|actions| - 1])
  }

  /** The application's side of the bargain: after changing the database it sends a
      clear before the next count. */
  ghost predicate Disciplined<Q>(direct: Counter<Q>, actions: seq<Action<Q>>) {
    forall i :: 0 <= i < |actions| && actions[i].SendCount? ==>
      var w := Run(direct, actions[..i]); w.version == w.lastClear
  }

  /** What the cache holds was counted for that query, after the last processed clear. */
  ghost predicate CacheIsSound<Q>(direct: Counter<Q>, w: World<Q>) {
    && w.processed <= w.version && w.lastClear <= w.version
    && (w.cache.Some? ==>
          && w.processed <= w.counted <= w.version
          && direct(w.counted, w.cache.value.0) == Some(w.cache.value.1))
    && (w.pending.Some? ==> w.pending.value.Count? && w.pending.value.sent <= w.version)
    && forall i :: 0 <= i < |w.channel| ==> w.channel[i].sent <= w.version
  }

  /** No reply is older than its request: it is a direct count of that query in some
      version between the one the request was sent in and the one it was answered in. */
  ghost predicate Fresh<Q>(direct: Counter<Q>, r: Reply<Q>) {
    match r.total
    case None => direct(r.answered, r.query) == None
    case Some(total) =>
      exists v: nat :: r.sent <= v <= r.answered && direct(v, r.query) == Some(total)
  }

  lemma {:induction false} StampIsBounded<Q>(batch: seq<Request<Q>>, before: nat, bound: nat)
    requires before <= bound
    requires forall i :: 0 <= i < |batch| ==> batch[i].sent <= bound
    ensures Stamp(batch, before) <= bound
    ensures !HasClear(batch) ==> Stamp(batch, before) == before
  {
    if batch != [] {
      StampIsBounded(batch[1..], if batch[0].ClearCache? then batch[0].sent else before, bound);
      assert !HasClear(batch) ==> !batch[0].ClearCache?;
      if HasClear(batch[1..]) {
        var i :| 0 <= i < |batch[1..]| && batch[1..][i].ClearCache?;
        assert batch[i + 1].ClearCache?;
      }
    }
  }

  lemma {:induction false} StampOfSplit<Q>(a: seq<Request<Q>>, b: seq<Request<Q>>, before: nat)
    ensures Stamp(a + b, before) == Stamp(b, Stamp(a, before))
  {
    if a == [] {
      assert a + b == b;
    } else {
      assert (a + b)[1..] == a[1..] + b;
      StampOfSplit(a[1..], b, if a[0].ClearCache? then a[0].sent else before);
    }
  }

  lemma StampOfOne<Q>(r: Request<Q>, before: nat)
    ensures Stamp([r], before) == if r.ClearCache? then r.sent else before
  {
    assert [r][1..] == [];
  }

  lemma StampStays<Q>(direct: Counter<Q>, w: World<Q>, a: Action<Q>)
    requires w.lastClear == Stamp(w.channel, w.processed)
    ensures var w' := Step(direct, w, a); w'.lastClear == Stamp(w'.channel, w'.processed)
  {
    if a.DrainBatch? && w.pending.None? && 0 < a.size <= |w.channel| {
      StampOfSplit(w.channel[..a.size], w.channel[a.size..], w.processed);
      assert w.channel[..a.size] + w.channel[a.size..] == w.channel;
    } else if a.SendCount? || a.SendClear? {
      var r := if a.SendCount? then Count(a.query, a.generation, w.version, w.clears) else ClearCache(w.version);
      StampOfSplit(w.channel, [r], w.processed);
      StampOfOne(r, w.lastClear);
    }
  }

  /** In every run the clears the thread has processed and the queued ones lead to the last one
      sent, so `processed` is the stamp of the last processed clear. */
  lemma {:induction false} StampsAreKept<Q>(direct: Counter<Q>, actions: seq<Action<Q>>)
    ensures var w := Run(direct, actions); w.lastClear == Stamp(w.channel, w.processed)
  {
    if actions != [] {
      hide Step, Stamp;
      StampsAreKept(direct, actions[..|actions| - 1]);
      StampStays(direct, Run(direct, actions[..|actions| - 1]), actions[|actions| - 1]);
    } else {
      NoStamp<Q>();
    }
  }

  lemma NoStamp<Q>()
    ensures Stamp<Q>([], 0) == 0
  {
  }

  /** The cache is sound in every run, disciplined or not. */
  lemma {:induction false} CacheStaysSound<Q>(direct: Counter<Q>, actions: seq<Action<Q>>)
    ensures CacheIsSound(direct, Run(direct, actions))
  {
    if actions != [] {
      var before, a := actions[..|actions| - 1], actions[|actions| - 1];
      CacheStaysSound(direct, before);
      var w := Run(direct, before);
      if a.DrainBatch? && w.pending.None? && 0 < a.size <= |w.channel| {
        StampIsBounded(w.channel[..a.size], w.processed, w.version);
      }
    }
  }

  // ---------- what the application does ----------

  /** What the application did in a run; draining and answering are the thread's. */
  function AppOf<Q>(run: seq<Action<Q>>): seq<Action<Q>> {
    if run == [] then []
    else
      var a := run[|run| - 1];
      AppOf(run[..|run| - 1]) + (if a.DrainBatch? || a.AnswerPending? then [] else [a])
  }

  /** A script of the application alone. */
  ghost predicate IsScript<Q>(s: seq<Action<Q>>) {
    forall a <- s :: !a.DrainBatch? && !a.AnswerPending?
  }

  function Changes<Q>(s: seq<Action<Q>>): nat {
    if s == [] then 0 else Changes(s[..|s| - 1]) + (if s[|s| - 1].ChangeDatabase? then 1 else 0)
  }

  function Clears<Q>(s: seq<Action<Q>>): nat {
    if s == [] then 0 else Clears(s[..|s| - 1]) + (if s[|s| - 1].SendClear? then 1 else 0)
  }

  predicate SameQuery<Q(==)>(a: Action<Q>, b: Action<Q>) {
    a.SendCount? && b.SendCount? && a.query == b.query
  }

  /** Between two counts of one query the database never changes without a clear. */
  predicate IsSafe<Q(==)>(s: seq<Action<Q>>) {
    forall i, j :: 0 <= i < j < |s| && SameQuery(s[i], s[j]) && Clears(s[..i]) == Clears(s[..j]) ==>
      Changes(s[..i]) == Changes(s[..j])
  }

  ghost predicate AllFresh<Q>(direct: Counter<Q>, run: seq<Action<Q>>) {
    forall i :: 0 <= i < |Run(direct, run).replies| ==> Fresh(direct, Run(direct, run).replies[i])
  }

  // ---------- a safe script never gets a stale reply ----------

  /** The script sends a count of `q` after that many changes and clears. */
  ghost predicate SentAt<Q>(s: seq<Action<Q>>, q: Q, changes: nat, clears: nat) {
    exists i :: 0 <= i < |s| && s[i].SendCount? && s[i].query == q
      && Changes(s[..i]) == changes && Clears(s[..i]) == clears
  }

  ghost predicate IsSent<Q>(s: seq<Action<Q>>, r: Request<Q>) {
    r.Count? ==> SentAt(s, r.query, r.sent, r.epoch)
  }

  /** Every queued count carries the epoch that the clears before it bring the thread to. */
  ghost predicate InEpochs<Q>(channel: seq<Request<Q>>, epoch: nat) {
    channel == [] ||
    (if channel[0].ClearCache? then InEpochs(channel[1..], epoch + 1)
     else channel[0].epoch == epoch && InEpochs(channel[1..], epoch))
  }

  /** Where the queued and the pending counts and the cached total come from. */
  ghost predicate IsTraced<Q>(w: World<Q>, s: seq<Action<Q>>) {
    && w.version == Changes(s) && w.clears == Clears(s) == w.epoch + ClearsIn(w.channel)
    && InEpochs(w.channel, w.epoch)
    && (forall r <- w.channel :: IsSent(s, r))
    && (w.pending.Some? && w.pending.value.Count? ==> IsSent(s, w.pending.value) && w.pending.value.epoch == w.epoch)
    && (w.cache.Some? ==>
          exists changes: nat :: SentAt(s, w.cache.value.0, changes, w.epoch) && changes <= w.counted)
  }

  lemma SentStays<Q>(s: seq<Action<Q>>, a: Action<Q>, q: Q, changes: nat, clears: nat)
    requires SentAt(s, q, changes, clears)
    ensures SentAt(s + [a], q, changes, clears)
  {
    var i :| 0 <= i < |s| && s[i].SendCount? && s[i].query == q
      && Changes(s[..i]) == changes && Clears(s[..i]) == clears;
    assert (s + [a])[..i] == s[..i] && (s + [a])[i] == s[i];
  }

  lemma NowSent<Q>(s: seq<Action<Q>>, q: Q, g: u64)
    ensures SentAt(s + [SendCount(q, g)], q, Changes(s), Clears(s))
  {
    var all := s + [SendCount(q, g)];
    assert all[..|s|] == s && all[|s|] == SendCount(q, g);
  }

  lemma CountsOf<Q>(s: seq<Action<Q>>, a: Action<Q>)
    ensures Changes(s + [a]) == Changes(s) + (if a.ChangeDatabase? then 1 else 0)
    ensures Clears(s + [a]) == Clears(s) + (if a.SendClear? then 1 else 0)
  {
    assert (s + [a])[..|s|] == s;
  }

  /** Two counts of one query in one epoch of a safe script find the same database. */
  lemma SafeSends<Q>(s: seq<Action<Q>>, q: Q, a: nat, b: nat, clears: nat)
    requires IsSafe(s) && SentAt(s, q, a, clears) && SentAt(s, q, b, clears)
    ensures a == b
  {
    var i :| 0 <= i < |s| && s[i].SendCount? && s[i].query == q && Changes(s[..i]) == a && Clears(s[..i]) == clears;
    var j :| 0 <= j < |s| && s[j].SendCount? && s[j].query == q && Changes(s[..j]) == b && Clears(s[..j]) == clears;
    if i < j {
      assert SameQuery(s[i], s[j]);
    } else if j < i {
      assert SameQuery(s[j], s[i]);
    }
  }

  lemma {:induction false} EpochsOfSplit<Q>(channel: seq<Request<Q>>, size: nat, epoch: nat)
    requires InEpochs(channel, epoch) && size <= |channel|
    ensures ClearsIn(channel) == ClearsIn(channel[..size]) + ClearsIn(channel[size..])
    ensures InEpochs(channel[size..], epoch + ClearsIn(channel[..size]))
    ensures size > 0 && channel[size - 1].Count? ==> channel[size - 1].epoch == epoch + ClearsIn(channel[..size])
    ensures !HasClear(channel[..size]) ==> ClearsIn(channel[..size]) == 0
  {
    if size == 0 {
      assert channel[0..] == channel;
    } else {
      var rest, head := channel[1..], channel[0];
      EpochsOfSplit(rest, size - 1, if head.ClearCache? then epoch + 1 else epoch);
      assert channel[..size][1..] == rest[..size - 1] && rest[size - 1..] == channel[size..];
      assert channel[..size][0] == head;
      if size > 1 {
        assert rest[size - 2] == channel[size - 1];
      } else {
        assert rest[..0] == [];
      }
      if HasClear(rest[..size - 1]) {
        var i :| 0 <= i < size - 1 && rest[..size - 1][i].ClearCache?;
        assert channel[..size][i + 1].ClearCache?;
      }
    }
  }

  lemma {:induction false} EpochsAppend<Q>(channel: seq<Request<Q>>, r: Request<Q>, epoch: nat)
    requires InEpochs(channel, epoch) && (r.Count? ==> r.epoch == epoch + ClearsIn(channel))
    ensures InEpochs(channel + [r], epoch)
    ensures ClearsIn(channel + [r]) == ClearsIn(channel) + (if r.ClearCache? then 1 else 0)
  {
    var all := channel + [r];
    if channel == [] {
      assert all == [r] && all[1..] == [];
    } else {
      assert all[1..] == channel[1..] + [r];
      EpochsAppend(channel[1..], r, if channel[0].ClearCache? then epoch + 1 else epoch);
    }
  }

  /** The application's actions keep the trace: they only add to the channel. */
  lemma AppKeepsTrace<Q>(direct: Counter<Q>, w: World<Q>, s: seq<Action<Q>>, a: Action<Q>)
    requires IsTraced(w, s) && !a.DrainBatch? && !a.AnswerPending?
    ensures IsTraced(Step(direct, w, a), s + [a])
  {
    hide SentAt, InEpochs, Changes, Clears, ClearsIn;
    CountsOf(s, a);
    var w' := Step(direct, w, a);
    forall r | IsSent(s, r) ensures IsSent(s + [a], r) {
      if r.Count? {
        SentStays(s, a, r.query, r.sent, r.epoch);
      }
    }
    if a.SendCount? {
      NowSent(s, a.query, a.generation);
      EpochsAppend(w.channel, Count(a.query, a.generation, w.version, w.clears), w.epoch);
    } else if a.SendClear? {
      EpochsAppend(w.channel, ClearCache(w.version), w.epoch);
    }
    if w.cache.Some? {
      var changes: nat :| SentAt(s, w.cache.value.0, changes, w.epoch) && changes <= w.counted;
      SentStays(s, a, w.cache.value.0, changes, w.epoch);
    }
  }

  lemma DrainKeepsTrace<Q>(direct: Counter<Q>, w: World<Q>, s: seq<Action<Q>>, size: nat)
    requires IsTraced(w, s)
    ensures IsTraced(Step(direct, w, DrainBatch(size)), s)
  {
    hide SentAt, InEpochs, Changes, Clears, ClearsIn, HasClear;
    if w.pending.None? && 0 < size <= |w.channel| {
      EpochsOfSplit(w.channel, size, w.epoch);
      assert w.channel[size - 1] in w.channel && w.channel[..size][size - 1] == w.channel[size - 1];
    }
  }

  /** Answering from the database caches a count of the pending query, which was sent in an
      older version or this one. */
  lemma AnswerKeepsTrace<Q>(direct: Counter<Q>, w: World<Q>, s: seq<Action<Q>>)
    requires IsTraced(w, s) && CacheIsSound(direct, w)
    ensures IsTraced(Step(direct, w, AnswerPending), s)
  {
    hide SentAt, InEpochs, Changes, Clears, ClearsIn;
  }

  lemma {:induction false} RunIsTraced<Q>(direct: Counter<Q>, run: seq<Action<Q>>)
    ensures IsTraced(Run(direct, run), AppOf(run))
  {
    if run != [] {
      hide IsTraced, CacheIsSound, Step;
      var before, a := run[..|run| - 1], run[|run| - 1];
      var w, s := Run(direct, before), AppOf(before);
      RunIsTraced(direct, before);
      CacheStaysSound(direct, before);
      assert s + [] == s;
      match a
      case DrainBatch(size) => DrainKeepsTrace(direct, w, s, size);
      case AnswerPending => AnswerKeepsTrace(direct, w, s);
      case _ => AppKeepsTrace(direct, w, s, a);
    }
  }

  lemma SafePrefix<Q>(s: seq<Action<Q>>, more: seq<Action<Q>>)
    requires IsSafe(s + more)
    ensures IsSafe(s)
  {
    forall i, j | 0 <= i < j < |s| && SameQuery(s[i], s[j]) && Clears(s[..i]) == Clears(s[..j])
      ensures Changes(s[..i]) == Changes(s[..j])
    {
      assert (s + more)[..i] == s[..i] && (s + more)[..j] == s[..j];
      assert SameQuery((s + more)[i], (s + more)[j]);
    }
  }

  /** An answer from the cache was counted after the newest change its request knows of. */
  lemma AnswerIsFresh<Q>(direct: Counter<Q>, w: World<Q>, s: seq<Action<Q>>)
    requires IsTraced(w, s) && CacheIsSound(direct, w) && IsSafe(s) && w.pending.Some?
    ensures var replies := Step(direct, w, AnswerPending).replies;
      |replies| == |w.replies| + 1 && replies[..|w.replies|] == w.replies && Fresh(direct, replies[|w.replies|])
  {
    hide SentAt, InEpochs, IsSafe, ClearsIn, Changes, Clears;
    var r := w.pending.value;
    var reply := Step(direct, w, AnswerPending).replies[|w.replies|];
    if w.cache.Some? && w.cache.value.0 == r.query {
      var changes: nat :| SentAt(s, r.query, changes, w.epoch) && changes <= w.counted;
      SafeSends(s, r.query, changes, r.sent, w.epoch);
      assert r.sent <= w.counted <= w.version && direct(w.counted, r.query) == reply.total;
    } else if reply.total.Some? {
      assert r.sent <= w.version && direct(w.version, r.query) == reply.total;
    }
  }

  lemma {:induction false} SafeIsFresh<Q>(direct: Counter<Q>, run: seq<Action<Q>>)
    requires IsSafe(AppOf(run))
    ensures AllFresh(direct, run)
  {
    if run != [] {
      hide IsSafe, IsTraced, CacheIsSound, Fresh;
      var before, a := run[..|run| - 1], run[|run| - 1];
      var w := Run(direct, before);
      assert AppOf(before) + [] == AppOf(before);
      SafePrefix(AppOf(before), if a.DrainBatch? || a.AnswerPending? then [] else [a]);
      SafeIsFresh(direct, before);
      if a.AnswerPending? && w.pending.Some? {
        RunIsTraced(direct, before);
        CacheStaysSound(direct, before);
        AnswerIsFresh(direct, w, AppOf(before));
        var replies := Run(direct, run).replies;
        assert forall i :: 0 <= i < |w.replies| ==> replies[i] == w.replies[i];
      } else {
        assert Run(direct, run).replies == w.replies;
      }
    }
  }

  // ---------- any other script may get one ----------

  lemma RunExtends<Q>(direct: Counter<Q>, run: seq<Action<Q>>, a: Action<Q>)
    ensures Run(direct, run + [a]) == Step(direct, Run(direct, run), a)
    ensures AppOf(run + [a]) == AppOf(run) + (if a.DrainBatch? || a.AnswerPending? then [] else [a])
  {
    assert (run + [a])[..|run|] == run;
  }

  /** What a script leaves while the thread does nothing: its messages at the channel's end. */
  ghost predicate IsPiledUp<Q>(w: World<Q>, w': World<Q>, s: seq<Action<Q>>) {
    && w'.version == w.version + Changes(s)
    && w'.pending == w.pending && w'.cache == w.cache && w'.replies == w.replies
    && w.channel <= w'.channel
    && (Clears(s) == 0 && !HasClear(w.channel) ==> !HasClear(w'.channel))
    && (s != [] && s[|s| - 1].SendCount? ==>
          && |w.channel| < |w'.channel|
          && var r := w'.channel[|w'.channel| - 1];
             r.Count? && r.query == s[|s| - 1].query && r.sent == w'.version)
  }

  lemma OneMorePiledUp<Q>(direct: Counter<Q>, w: World<Q>, w': World<Q>, s: seq<Action<Q>>, a: Action<Q>)
    requires IsPiledUp(w, w', s) && !a.DrainBatch? && !a.AnswerPending?
    ensures IsPiledUp(w, Step(direct, w', a), s + [a])
  {
    hide Changes, Clears;
    CountsOf(s, a);
  }

  lemma {:induction false} ScriptPilesUp<Q>(direct: Counter<Q>, run: seq<Action<Q>>, s: seq<Action<Q>>)
    requires IsScript(s)
    ensures AppOf(run + s) == AppOf(run) + s && IsPiledUp(Run(direct, run), Run(direct, run + s), s)
  {
    hide Run, AppOf;
    if s == [] {
      assert run + s == run && AppOf(run) + [] == AppOf(run);
    } else {
      hide IsPiledUp, Step;
      var before, a := s[..|s| - 1], s[|s| - 1];
      assert s == before + [a];
      assert a in s && forall b <- before :: b in s;
      ScriptPilesUp(direct, run, before);
      assert run + s == (run + before) + [a];
      RunExtends(direct, run + before, a);
      OneMorePiledUp(direct, Run(direct, run), Run(direct, run + before), before, a);
      assert AppOf(run) + s == (AppOf(run) + before) + [a];
    }
  }

  lemma ScriptRuns<Q>(direct: Counter<Q>, run: seq<Action<Q>>, s: seq<Action<Q>>)
    requires IsScript(s)
    ensures var w, w' := Run(direct, run), Run(direct, run + s);
      && AppOf(run + s) == AppOf(run) + s
      && w'.version == w.version + Changes(s)
      && w'.pending == w.pending && w'.cache == w.cache && w'.replies == w.replies
      && w.channel <= w'.channel
      && (Clears(s) == 0 && !HasClear(w.channel) ==> !HasClear(w'.channel))
      && (s != [] && s[|s| - 1].SendCount? ==>
            && |w.channel| < |w'.channel|
            && var r := w'.channel[|w'.channel| - 1];
               r.Count? && r.query == s[|s| - 1].query && r.sent == w'.version)
  {
    hide Run, AppOf, Changes, Clears, HasClear;
    ScriptPilesUp(direct, run, s);
  }

  /** The thread drains all there is and answers its newest count. */
  lemma ServedAtOnce<Q>(direct: Counter<Q>, run: seq<Action<Q>>) returns (served: seq<Action<Q>>)
    requires var w := Run(direct, run);
      w.pending.None? && w.channel != [] && w.channel[|w.channel| - 1].Count?
    ensures AppOf(served) == AppOf(run)
    ensures var w, w' := Run(direct, run), Run(direct, served);
      var r := w.channel[|w.channel| - 1];
      var (cache, total) := Answer(if HasClear(w.channel) then None else w.cache, r.query, direct(w.version, r.query));
      && w'.version == w.version && w'.channel == [] && w'.pending == None && w'.cache == cache
      && w'.replies == w.replies + [Reply(r.query, r.generation, r.sent, w.version, total)]
  {
    var w := Run(direct, run);
    var drain := DrainBatch(|w.channel|);
    RunExtends(direct, run, drain);
    assert w.channel[..|w.channel|] == w.channel;
    RunExtends(direct, run + [drain], AnswerPending);
    served := run + [drain] + [AnswerPending];
    assert AppOf(run) + [] == AppOf(run);
  }

  lemma {:induction false} CountsGrow<Q>(a: seq<Action<Q>>, b: seq<Action<Q>>)
    ensures Changes(a + b) == Changes(a) + Changes(b) && Clears(a + b) == Clears(a) + Clears(b)
  {
    if b == [] {
      assert a + b == a;
    } else {
      var before, last := b[..|b| - 1], b[|b| - 1];
      CountsGrow(a, before);
      assert a + b == (a + before) + [last];
      CountsOf(a + before, last);
    }
  }

  /** A change without a clear between two counts of one query: when the thread answers the
      first at once and reads nothing more until the second is there, it answers that one with
      the total of a version older than the request. */
  lemma StaleWithoutClear<Q>(s: seq<Action<Q>>, i: nat, j: nat) returns (direct: Counter<Q>, run: seq<Action<Q>>)
    requires IsScript(s) && i < j < |s| && SameQuery(s[i], s[j])
    requires Clears(s[..i]) == Clears(s[..j]) && Changes(s[..i]) != Changes(s[..j])
    ensures AppOf(run) == s
    ensures |Run(direct, run).replies| == 2 && !Fresh(direct, Run(direct, run).replies[1])
  {
    hide Changes, Clears, HasClear, Fresh, Run, AppOf, Step, IsPiledUp, IsScript;
    direct := (v: nat, q: Q) => Some(v);
    var first, between, rest := s[..i + 1], s[i + 1..j + 1], s[j + 1..];
    PartsAreScripts(s, i + 1, j + 1);
    BetweenCounts(s, i, j);
    FreshStart(direct);
    ScriptRuns(direct, [], first);
    assert [] + first == first;
    var run1 := ServedAtOnce(direct, first);
    ScriptRuns(direct, run1, between);
    NoClearInNothing<Q>();
    var run2 := ServedAtOnce(direct, run1 + between);
    ScriptRuns(direct, run2, rest);
    run := run2 + rest;
    assert s == first + between + rest;
    StaleReply(direct, Run(direct, run).replies[1]);
  }

  lemma PartsAreScripts<Q>(s: seq<Action<Q>>, i: nat, j: nat)
    requires IsScript(s) && i <= j <= |s|
    ensures IsScript(s[..i]) && IsScript(s[i..j]) && IsScript(s[j..])
  {
  }

  lemma BetweenCounts<Q>(s: seq<Action<Q>>, i: nat, j: nat)
    requires i < j < |s| && s[i].SendCount? && s[j].SendCount?
    ensures Clears(s[..j]) == Clears(s[..i]) + Clears(s[i + 1..j + 1])
    ensures Changes(s[..j]) == Changes(s[..i]) + Changes(s[i + 1..j + 1])
    ensures Changes(s[..i + 1]) == Changes(s[..i])
  {
    hide Changes, Clears;
    assert s[..i + 1] == s[..i] + [s[i]] && s[..j + 1] == s[..j] + [s[j]];
    CountsOf(s[..i], s[i]);
    CountsOf(s[..j], s[j]);
    assert s[..j + 1] == s[..i + 1] + s[i + 1..j + 1];
    CountsGrow(s[..i + 1], s[i + 1..j + 1]);
  }

  lemma FreshStart<Q>(direct: Counter<Q>)
    ensures Run(direct, []) == Initial() && AppOf<Q>([]) == []
  {
  }

  lemma NoClearInNothing<Q>()
    ensures !HasClear<Q>([])
  {
  }

  lemma StaleReply<Q>(direct: Counter<Q>, r: Reply<Q>)
    requires r.total.Some? && r.total.value < r.sent && forall v: nat, q :: direct(v, q) == Some(v)
    ensures !Fresh(direct, r)
  {
  }

  /** The replies to an application's script are fresh in every interleaving and for every
      database if and only if, between two counts of one query, it never changes the database
      without clearing the cache. */
  lemma FreshExactly<Q(!new)>(s: seq<Action<Q>>)
    requires IsScript(s)
    ensures IsSafe(s) <==> forall direct: Counter<Q>, run :: AppOf(run) == s ==> AllFresh(direct, run)
  {
    if IsSafe(s) {
      forall direct: Counter<Q>, run | AppOf(run) == s ensures AllFresh(direct, run) {
        SafeIsFresh(direct, run);
      }
    } else {
      var i, j :| 0 <= i < j < |s| && SameQuery(s[i], s[j]) && Clears(s[..i]) == Clears(s[..j])
        && Changes(s[..i]) != Changes(s[..j]);
      var direct, run := StaleWithoutClear(s, i, j);
      assert !AllFresh(direct, run);
    }
  }

  // ---------- an application that clears before it counts ----------

  /** Every count since the last clear found the database of that clear. */
  predicate CountsFollowClears<Q>(w: World<Q>, s: seq<Action<Q>>) {
    forall i :: 0 <= i < |s| && s[i].SendCount? ==>
      Clears(s[..i]) <= w.clears && (Clears(s[..i]) == w.clears ==> Changes(s[..i]) == w.lastClear)
  }

  lemma AppKeepsDiscipline<Q>(direct: Counter<Q>, w: World<Q>, s: seq<Action<Q>>, a: Action<Q>)
    requires IsSafe(s) && CountsFollowClears(w, s) && w.version == Changes(s) && w.clears == Clears(s)
    requires !a.DrainBatch? && !a.AnswerPending? && (a.SendCount? ==> w.version == w.lastClear)
    ensures IsSafe(s + [a]) && CountsFollowClears(Step(direct, w, a), s + [a])
  {
    hide Changes, Clears;
    var all := s + [a];
    assert s[..|s|] == s;
    assert forall i :: 0 <= i < |all| ==> all[..i] == s[..i];
    forall i, j | 0 <= i < j < |all| && SameQuery(all[i], all[j]) && Clears(all[..i]) == Clears(all[..j])
      ensures Changes(all[..i]) == Changes(all[..j])
    {
      assert all[i] == s[i];
      assert j < |s| ==> SameQuery(s[i], s[j]);
    }
  }

  lemma {:induction false} DisciplinedIsSafe<Q>(direct: Counter<Q>, run: seq<Action<Q>>)
    requires Disciplined(direct, run)
    ensures IsSafe(AppOf(run)) && CountsFollowClears(Run(direct, run), AppOf(run))
  {
    if run != [] {
      hide IsSafe, CountsFollowClears, IsTraced;
      var before, a := run[..|run| - 1], run[|run| - 1];
      var w, s := Run(direct, before), AppOf(before);
      forall i | 0 <= i < |before| && before[i].SendCount?
        ensures var w := Run(direct, before[..i]); w.version == w.lastClear
      {
        assert before[..i] == run[..i];
        assert run[i].SendCount?;
      }
      DisciplinedIsSafe(direct, before);
      RunIsTraced(direct, before);
      TraceCounts(w, s);
      assert s + [] == s;
      if a.DrainBatch? || a.AnswerPending? {
        ThreadKeepsDiscipline(direct, w, s, a);
      } else {
        AppKeepsDiscipline(direct, w, s, a);
      }
    }
  }

  lemma ThreadKeepsDiscipline<Q>(direct: Counter<Q>, w: World<Q>, s: seq<Action<Q>>, a: Action<Q>)
    requires CountsFollowClears(w, s) && (a.DrainBatch? || a.AnswerPending?)
    ensures CountsFollowClears(Step(direct, w, a), s)
  {
  }

  lemma TraceCounts<Q>(w: World<Q>, s: seq<Action<Q>>)
    requires IsTraced(w, s)
    ensures w.version == Changes(s) && w.clears == Clears(s)
  {
  }

  /** Cache coherence: in every disciplined run every reply is fresh. */
  lemma RepliesAreFresh<Q>(direct: Counter<Q>, actions: seq<Action<Q>>)
    requires Disciplined(direct, actions)
    ensures forall i :: 0 <= i < |Run(direct, actions).replies| ==> Fresh(direct, Run(direct, actions).replies[i])
  {
    hide IsSafe, Fresh, Run;
    DisciplinedIsSafe(direct, actions);
    SafeIsFresh(direct, actions);
  }
}
