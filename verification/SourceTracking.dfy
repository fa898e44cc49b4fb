/** When may a projection be trusted? The tracking table (generation, dirty mark), its
    triggers, the builds that read the source and the files they install, under every
    interleaving with record writes, schema edits, migrations and failures.

    `R` is the content of the records table and `P` the rows of a projection. */
module SourceTracking {
  import opened Basics
  import opened Fingerprint

  /** The singleton row of the tracking table. */
  datatype Tracking = Tracking(generation: Bytes, dirty: bool, compatible: bool)

  /** What a projection file says about the source it was built from. */
  datatype Projection<+P> = Projection(rows: P, generation: Bytes, fingerprint: Bytes, compatible: bool)

  /** `drawn` holds every random generation so far. */
  datatype World<R, P> = World(
    records: R,
    schema: SchemaState,
    tracking: Option<Tracking>,
    triggers: bool,
    temps: map<nat, Projection<P>>,
    installed: Option<Projection<P>>,
    drawn: set<Bytes>)

  /** `project(r, s)` is the projection of records `r` read under schema state `s`, and
      `known` says of the text of the records table whether it names every column this
      program knows. */
  datatype Rules<!R, !P> = Rules(project: (R, SchemaState) -> P, known: Bytes -> bool)

  datatype Action<R, P> =
    /** Any insert, update or delete on the records table. */
    | WriteRecords(records: R, draw: Bytes)
    /** Any change of the hashed schema state. No statement drops a column of the records
        table, and the trigger texts are constants. */
    | EditSchema(schema: SchemaState)
    /** The migration of a records table without all known columns: the table is copied
        into one that has them, and its triggers are dropped with it. */
    | RebuildRecords(records: R, schema: SchemaState)
    /** Another program version leaves its own tracking row. */
    | ForeignTracking
    | InstallTracking(draw: Bytes)
    /** One build transaction that commits and leaves a temporary projection. */
    | BuildTemp(temp: nat, draw: Bytes)
    /** The check between build and swap: a temporary projection that is not current goes. */
    | CheckTemp(temp: nat)
    | DiscardTemp(temp: nat)
    /** The swap succeeds, or fails and leaves the destination as given. */
    | Install(temp: nat)
    | InstallFails(temp: nat, restored: bool)
    /** A projection from another program version appears at the destination. */
    | ForeignProjection(projection: Projection<P>)

  // ---------- the code ----------

  /** `install_source_tracking`, with the trigger reinstall as one step. */
  function AfterInstall(tracking: Option<Tracking>, draw: Bytes): Tracking {
    match tracking
    case None => Tracking(draw, true, true)
    case Some(t) => if t.compatible then t else Tracking(draw, true, true)
  }

  /** `prepare_source_generation`: a dirty source gets a new generation, a clean one
      keeps its own. */
  function Prepared(t: Tracking, draw: Bytes): Tracking {
    Tracking(if t.dirty then draw else t.generation, false, t.compatible)
  }

  /** The triggers: the first change after a clean generation draws a new one. */
  function Touched(t: Tracking, draw: Bytes): Tracking {
    if t.dirty then t else Tracking(draw, true, t.compatible)
  }

  /** `source_contract` answers only when the tracking row is compatible and the
      triggers are in place. */
  ghost function SourceContract<R, P>(w: World<R, P>): Option<(Bytes, Bytes)>
    requires w.schema.Valid()
  {
    if w.tracking.None? || !w.tracking.value.compatible || !w.triggers then None
    else
      var t := w.tracking.value;
      Some((t.generation, FingerprintOf(w.schema, t.generation, t.dirty)))
  }

  /** `projection_is_current`. */
  ghost predicate IsCurrent<R, P>(w: World<R, P>, p: Projection<P>)
    requires w.schema.Valid()
  {
    && p.compatible
    && SourceContract(w).Some?
    && SourceContract(w).value == (p.generation, p.fingerprint)
  }

  // ---------- the transition system ----------

  predicate SameTriggers(s: SchemaState, s': SchemaState) {
    s'.deleteTrigger == s.deleteTrigger && s'.insertTrigger == s.insertTrigger && s'.updateTrigger == s.updateTrigger
  }

  predicate IsKnown<R, P>(rules: Rules<R, P>, s: SchemaState) {
    rules.known(s.recordsSchema)
  }

  ghost predicate Enabled<R, P>(rules: Rules<R, P>, w: World<R, P>, a: Action<R, P>) {
    match a
    case WriteRecords(_, draw) => draw !in w.drawn && Fits(draw)
    case EditSchema(s) => s.Valid() && SameTriggers(w.schema, s) && (IsKnown(rules, w.schema) ==> IsKnown(rules, s))
    case RebuildRecords(_, s) =>
      s.Valid() && SameTriggers(w.schema, s) && !IsKnown(rules, w.schema) && IsKnown(rules, s)
    case ForeignTracking => true
    case InstallTracking(draw) => draw !in w.drawn && Fits(draw)
    case BuildTemp(temp, draw) =>
      && temp !in w.temps && draw !in w.drawn && Fits(draw)
      && w.tracking.Some? && w.tracking.value.compatible && w.triggers
    case CheckTemp(temp) => temp in w.temps
    case DiscardTemp(temp) => temp in w.temps
    case Install(temp) => temp in w.temps
    case InstallFails(temp, _) => temp in w.temps
    case ForeignProjection(p) => !p.compatible
  }

  /** Actions that are not enabled leave the world as it is. */
  ghost function Step<R, P>(rules: Rules<R, P>, w: World<R, P>, a: Action<R, P>): (w': World<R, P>)
    requires w.schema.Valid()
    ensures w'.schema.Valid()
  {
    if !Enabled(rules, w, a) then w
    else match a
      case WriteRecords(records, draw) =>
        if w.tracking.Some? && w.triggers then
          w.(records := records, drawn := w.drawn + {draw},
             tracking := Some(Touched(w.tracking.value, draw)))
        else w.(records := records)
      case EditSchema(s) => w.(schema := s)
      case RebuildRecords(records, s) => w.(records := records, schema := s, triggers := false)
      case ForeignTracking =>
        if w.tracking.None? then w
        else w.(tracking := Some(w.tracking.value.(compatible := false)))
      case InstallTracking(draw) =>
        w.(tracking := Some(AfterInstall(w.tracking, draw)), triggers := true, drawn := w.drawn + {draw})
      case BuildTemp(temp, draw) =>
        var t := Prepared(w.tracking.value, draw);
        w.(tracking := Some(t),
           drawn := w.drawn + {draw},
           temps := w.temps[temp := Projection(rules.project(w.records, w.schema), t.generation,
                                               FingerprintOf(w.schema, t.generation, t.dirty), true)])
      case CheckTemp(temp) => if IsCurrent(w, w.temps[temp]) then w else w.(temps := w.temps - {temp})
      case DiscardTemp(temp) => w.(temps := w.temps - {temp})
      case Install(temp) => w.(installed := Some(w.temps[temp]), temps := w.temps - {temp})
      case InstallFails(temp, restored) =>
        w.(installed := if restored then w.installed else None, temps := w.temps - {temp})
      case ForeignProjection(p) => w.(installed := Some(p))
  }

  ghost function Initial<R, P>(records: R, schema: SchemaState): World<R, P> {
    World(records, schema, None, false, map[], None, {})
  }

  ghost function Run<R, P>(rules: Rules<R, P>, start: World<R, P>, actions: seq<Action<R, P>>): (w: World<R, P>)
    requires start.schema.Valid()
    ensures w.schema.Valid()
  {
    if actions == [] then start
    else
      var w := Run(rules, start, actions[..|actions| - 1]);
      Step(rules, w, actions[|actions| - 1])
  }

  // ---------- what every run keeps ----------

  /** A clean generation equal to the projection's, under a records table as known as the
      one it was built from: then the records are still those it was built from. */
  ghost predicate StillNames<R, P>(rules: Rules<R, P>, w: World<R, P>, p: Projection<P>, r: R, s: SchemaState) {
    (&& w.tracking.Some? && !w.tracking.value.dirty && w.tracking.value.generation == p.generation
     && IsKnown(rules, w.schema) == IsKnown(rules, s)) ==> r == w.records && w.triggers
  }

  /** The records `r` and schema state `s` a projection was built from. */
  ghost predicate BuiltFrom<R, P>(rules: Rules<R, P>, w: World<R, P>, p: Projection<P>, r: R, s: SchemaState) {
    && s.Valid() && Fits(p.generation) && p.generation in w.drawn
    && p.fingerprint == FingerprintOf(s, p.generation, false) && p.rows == rules.project(r, s)
    && (IsKnown(rules, s) ==> IsKnown(rules, w.schema))
    && StillNames(rules, w, p, r, s)
  }

  /** A projection of this program version was built from some records and schema state. */
  ghost predicate Sound<R(!new), P>(rules: Rules<R, P>, w: World<R, P>, p: Projection<P>) {
    p.compatible ==> exists r, s :: BuiltFrom(rules, w, p, r, s)
  }

  ghost predicate TrackingInv<R, P>(w: World<R, P>) {
    && w.schema.Valid()
    && (w.tracking.Some? ==> Fits(w.tracking.value.generation) && w.tracking.value.generation in w.drawn)
  }

  ghost predicate Inv<R(!new), P>(rules: Rules<R, P>, w: World<R, P>) {
    && TrackingInv(w)
    && (forall k <- w.temps :: Sound(rules, w, w.temps[k]))
    && (w.installed.Some? ==> Sound(rules, w, w.installed.value))
  }

  lemma StepKeepsTracking<R, P>(rules: Rules<R, P>, w: World<R, P>, a: Action<R, P>)
    requires TrackingInv(w)
    ensures TrackingInv(Step(rules, w, a))
  {
    hide FingerprintOf, IsCurrent;
  }

  /** Every step keeps what a projection was built from, and that a clean generation still
      names those records: a write draws a new generation while the triggers are in place,
      and the only step that drops them changes what the records table is known by. */
  lemma StepKeepsBuiltFrom<R, P>(rules: Rules<R, P>, w: World<R, P>, a: Action<R, P>, p: Projection<P>, r: R,
                                 s: SchemaState)
    requires TrackingInv(w) && BuiltFrom(rules, w, p, r, s)
    ensures BuiltFrom(rules, Step(rules, w, a), p, r, s)
  {
    hide FingerprintOf, IsCurrent;
  }

  lemma SoundStays<R(!new), P>(rules: Rules<R, P>, w: World<R, P>, a: Action<R, P>, p: Projection<P>)
    requires TrackingInv(w) && Sound(rules, w, p)
    ensures Sound(rules, Step(rules, w, a), p)
  {
    hide BuiltFrom, Step;
    if p.compatible {
      var r, s :| BuiltFrom(rules, w, p, r, s);
      StepKeepsBuiltFrom(rules, w, a, p, r, s);
    }
  }

  lemma BuildIsSound<R(!new), P>(rules: Rules<R, P>, w: World<R, P>, temp: nat, draw: Bytes)
    requires TrackingInv(w) && Enabled(rules, w, BuildTemp(temp, draw))
    ensures var w' := Step(rules, w, BuildTemp(temp, draw)); Sound(rules, w', w'.temps[temp])
  {
    hide FingerprintOf;
    var w' := Step(rules, w, BuildTemp(temp, draw));
    assert BuiltFrom(rules, w', w'.temps[temp], w.records, w.schema);
  }

  lemma StepKeepsInv<R(!new), P>(rules: Rules<R, P>, w: World<R, P>, a: Action<R, P>)
    requires Inv(rules, w)
    ensures Inv(rules, Step(rules, w, a))
  {
    hide FingerprintOf, IsCurrent, BuiltFrom;
    var w' := Step(rules, w, a);
    StepKeepsTracking(rules, w, a);
    forall k | k in w'.temps
      ensures Sound(rules, w', w'.temps[k])
    {
      if k in w.temps {
        SoundStays(rules, w, a, w.temps[k]);
      } else {
        BuildIsSound(rules, w, a.temp, a.draw);
      }
    }
    if w'.installed.Some? {
      if w.installed == w'.installed {
        SoundStays(rules, w, a, w'.installed.value);
      } else if a.Install? {
        SoundStays(rules, w, a, w.temps[a.temp]);
      }
    }
  }

  lemma {:induction false} RunKeepsInv<R(!new), P>(rules: Rules<R, P>, start: World<R, P>, actions: seq<Action<R, P>>)
    requires Inv(rules, start)
    ensures Inv(rules, Run(rules, start, actions))
  {
    hide Step;
    if actions != [] {
      var before := actions[..|actions| - 1];
      RunKeepsInv(rules, start, before);
      StepKeepsInv(rules, Run(rules, start, before), actions[|actions| - 1]);
    }
  }

  /** Whatever is current was built under exactly the present schema state, and is exactly
      the projection of the source as it is now. */
  lemma CurrentIsExact<R(!new), P>(rules: Rules<R, P>, w: World<R, P>, p: Projection<P>)
    requires TrackingInv(w) && Sound(rules, w, p) && IsCurrent(w, p)
    ensures p.rows == rules.project(w.records, w.schema)
    ensures w.triggers && !w.tracking.value.dirty && p.generation == w.tracking.value.generation
    ensures p.fingerprint == FingerprintOf(w.schema, p.generation, false)
  {
    hide FingerprintOf;
    var t := w.tracking.value;
    var r, s :| BuiltFrom(rules, w, p, r, s);
    FingerprintIsInjective(s, p.generation, false, w.schema, t.generation, t.dirty);
  }

  /** In every run, of writes, schema edits, migrations, builds, failures and swaps in any
      order, a projection that is current is exactly the projection of the source as it is:
      the installed one and every temporary one. */
  lemma CurrentIsNeverWrong<R(!new), P>(rules: Rules<R, P>, records: R, schema: SchemaState, actions: seq<Action<R, P>>)
    requires schema.Valid()
    ensures var w := Run(rules, Initial(records, schema), actions);
      && (w.installed.Some? && IsCurrent(w, w.installed.value) ==>
            w.installed.value.rows == rules.project(w.records, w.schema))
      && (forall k <- w.temps :: IsCurrent(w, w.temps[k]) ==> w.temps[k].rows == rules.project(w.records, w.schema))
  {
    hide FingerprintOf, IsCurrent, Run, Sound;
    var start: World<R, P> := Initial(records, schema);
    assert Inv(rules, start);
    RunKeepsInv(rules, start, actions);
    var w := Run(rules, start, actions);
    if w.installed.Some? && IsCurrent(w, w.installed.value) {
      CurrentIsExact(rules, w, w.installed.value);
    }
    forall k | k in w.temps && IsCurrent(w, w.temps[k])
      ensures w.temps[k].rows == rules.project(w.records, w.schema)
    {
      CurrentIsExact(rules, w, w.temps[k]);
    }
  }

  /** A build is current the moment it commits. */
  lemma BuildIsCurrent<R, P>(rules: Rules<R, P>, w: World<R, P>, temp: nat, draw: Bytes)
    requires w.schema.Valid() && Enabled(rules, w, BuildTemp(temp, draw))
    ensures var w' := Step(rules, w, BuildTemp(temp, draw)); IsCurrent(w', w'.temps[temp])
  {
    hide FingerprintOf;
  }

  /** It stays current exactly until the next record write or rebuild, and across schema
      edits exactly when the edit leaves the hashed state as it was. */
  lemma ChangesAreNoticed<R(!new), P>(rules: Rules<R, P>, w: World<R, P>, p: Projection<P>, a: Action<R, P>)
    requires TrackingInv(w) && Sound(rules, w, p) && IsCurrent(w, p) && Enabled(rules, w, a)
    ensures a.WriteRecords? || a.RebuildRecords? ==> !IsCurrent(Step(rules, w, a), p)
    ensures a.EditSchema? ==> (IsCurrent(Step(rules, w, a), p) <==> a.schema == w.schema)
  {
    hide FingerprintOf, Sound;
    var t := w.tracking.value;
    CurrentIsExact(rules, w, p);
    if a.EditSchema? && IsCurrent(Step(rules, w, a), p) {
      FingerprintIsInjective(a.schema, t.generation, t.dirty, w.schema, t.generation, t.dirty);
    }
  }

  /** Everything but a write, a rebuild, a foreign row and an edit of the hashed state. */
  predicate IsQuiet<R, P>(w: World<R, P>, a: Action<R, P>) {
    !a.WriteRecords? && !a.RebuildRecords? && !a.ForeignTracking? && (a.EditSchema? ==> a.schema == w.schema)
  }

  /** A sound current projection stays current across an enabled step if and only if the step
      is a quiet one. */
  lemma CurrentEndsExactly<R(!new), P>(rules: Rules<R, P>, w: World<R, P>, p: Projection<P>, a: Action<R, P>)
    requires TrackingInv(w) && Sound(rules, w, p) && IsCurrent(w, p) && Enabled(rules, w, a)
    ensures IsCurrent(Step(rules, w, a), p) <==> IsQuiet(w, a)
  {
    hide FingerprintOf, Sound;
    CurrentIsExact(rules, w, p);
    if IsQuiet(w, a) {
      QuietKeepsCurrent(rules, w, p, a);
    } else if !a.ForeignTracking? {
      ChangesAreNoticed(rules, w, p, a);
    }
  }

  /** The check keeps a temporary projection exactly when it is current. */
  lemma OnlyCurrentPassesTheCheck<R, P>(rules: Rules<R, P>, w: World<R, P>, temp: nat)
    requires w.schema.Valid() && temp in w.temps
    ensures var checked := Step(rules, w, CheckTemp(temp));
      && (temp in checked.temps <==> IsCurrent(w, w.temps[temp]))
      && (IsCurrent(w, w.temps[temp]) ==> checked == w)
      && checked == w.(temps := checked.temps)
  {
    hide FingerprintOf, IsCurrent;
  }

  /** So what is installed right after the check is current, and when it is not, or the swap
      fails, the installed one stays, unless restoring it fails too. */
  lemma OnlyCurrentIsInstalled<R, P>(rules: Rules<R, P>, w: World<R, P>, temp: nat, restored: bool)
    requires w.schema.Valid() && temp in w.temps
    ensures var checked := Step(rules, w, CheckTemp(temp));
      var swapped, failed := Step(rules, checked, Install(temp)), Step(rules, checked, InstallFails(temp, restored));
      if IsCurrent(w, w.temps[temp]) then
        && swapped.installed == Some(w.temps[temp]) && IsCurrent(swapped, w.temps[temp])
        && failed.installed == (if restored then w.installed else None)
      else swapped.installed == failed.installed == w.installed
  {
    hide Step, IsCurrent;
    OnlyCurrentPassesTheCheck(rules, w, temp);
    SwapIs(rules, Step(rules, w, CheckTemp(temp)), temp, restored);
    SwapIs(rules, w, temp, restored);
    SameSourceSameAnswer(w, Step(rules, w, Install(temp)), w.temps[temp]);
  }

  lemma SwapIs<R, P>(rules: Rules<R, P>, w: World<R, P>, temp: nat, restored: bool)
    requires w.schema.Valid()
    ensures Step(rules, w, Install(temp)) ==
      if temp in w.temps then w.(installed := Some(w.temps[temp]), temps := w.temps - {temp}) else w
    ensures Step(rules, w, InstallFails(temp, restored)) ==
      if temp in w.temps then w.(installed := if restored then w.installed else None, temps := w.temps - {temp}) else w
  {
    hide FingerprintOf, IsCurrent;
  }

  lemma SameSourceSameAnswer<R, P>(w: World<R, P>, w': World<R, P>, p: Projection<P>)
    requires w.schema.Valid()
    ensures w'.schema == w.schema && w'.tracking == w.tracking && w'.triggers == w.triggers ==>
      (IsCurrent(w, p) <==> IsCurrent(w', p))
  {
    hide FingerprintOf;
  }

  /** From a fresh database, tracking and one build lead to an installed current projection. */
  lemma FirstBuildIsInstalled<R, P>(rules: Rules<R, P>, records: R, schema: SchemaState, first: Bytes, second: Bytes)
    requires schema.Valid() && first != second && Fits(first) && Fits(second)
    ensures var w: World<R, P> :=
              Run(rules, Initial(records, schema),
                  [InstallTracking(first)] + [BuildTemp(0, second)] + [CheckTemp(0)] + [Install(0)]);
      && w.installed.Some? && IsCurrent(w, w.installed.value)
      && w.installed.value.rows == rules.project(records, schema)
  {
    hide FingerprintOf, Run, IsCurrent;
    var start: World<R, P> := Initial(records, schema);
    RunOfNone(rules, start);
    RunExtends(rules, start, [], InstallTracking(first));
    var install: seq<Action<R, P>> := [InstallTracking(first)];
    assert [] + install == install;
    RunExtends(rules, start, [InstallTracking(first)], BuildTemp(0, second));
    var tracked := Step(rules, start, InstallTracking(first));
    BuildIsCurrent(rules, tracked, 0, second);
    var built := Step(rules, tracked, BuildTemp(0, second));
    RunExtends(rules, start, [InstallTracking(first)] + [BuildTemp(0, second)], CheckTemp(0));
    RunExtends(rules, start, [InstallTracking(first)] + [BuildTemp(0, second)] + [CheckTemp(0)], Install(0));
    OnlyCurrentIsInstalled(rules, built, 0, true);
  }

  lemma RunOfNone<R, P>(rules: Rules<R, P>, start: World<R, P>)
    requires start.schema.Valid()
    ensures Run(rules, start, []) == start
  {
  }

  lemma RunExtends<R, P>(rules: Rules<R, P>, start: World<R, P>, actions: seq<Action<R, P>>, a: Action<R, P>)
    requires start.schema.Valid()
    ensures Run(rules, start, actions + [a]) == Step(rules, Run(rules, start, actions), a)
  {
    hide Step;
    assert (actions + [a])[..|actions|] == actions;
  }

  ghost predicate IsQuietRun<R, P>(rules: Rules<R, P>, w: World<R, P>, actions: seq<Action<R, P>>)
    requires w.schema.Valid()
  {
    actions == [] ||
    var before := actions[..|actions| - 1];
    IsQuietRun(rules, w, before) && IsQuiet(Run(rules, w, before), actions[|actions| - 1])
  }

  /** Current, in a source that has not changed since its generation. */
  ghost predicate IsCurrentAndClean<R, P>(w: World<R, P>, p: Projection<P>)
    requires w.schema.Valid()
  {
    IsCurrent(w, p) && w.tracking.Some? && !w.tracking.value.dirty
  }

  /** Reinstalling the tracking, building again, discarding and swapping leave a current
      projection current. */
  lemma QuietKeepsCurrent<R, P>(rules: Rules<R, P>, w: World<R, P>, p: Projection<P>, a: Action<R, P>)
    requires w.schema.Valid() && IsCurrentAndClean(w, p) && IsQuiet(w, a)
    ensures IsCurrentAndClean(Step(rules, w, a), p)
  {
    hide FingerprintOf;
  }

  /** A projection that is current stays so over every quiet run. */
  lemma {:induction false} CurrentStays<R(!new), P>(rules: Rules<R, P>, w: World<R, P>, p: Projection<P>,
                                                    actions: seq<Action<R, P>>)
    requires TrackingInv(w) && Sound(rules, w, p) && IsCurrent(w, p)
    requires IsQuietRun(rules, w, actions)
    ensures IsCurrent(Run(rules, w, actions), p)
  {
    hide Sound;
    CurrentIsExact(rules, w, p);
    CleanStays(rules, w, p, actions);
  }

  lemma {:induction false} CleanStays<R, P>(rules: Rules<R, P>, w: World<R, P>, p: Projection<P>,
                                            actions: seq<Action<R, P>>)
    requires w.schema.Valid() && IsCurrentAndClean(w, p)
    requires IsQuietRun(rules, w, actions)
    ensures IsCurrentAndClean(Run(rules, w, actions), p)
  {
    hide IsCurrentAndClean, IsQuiet, Step;
    if actions != [] {
      var before := actions[..|actions| - 1];
      CleanStays(rules, w, p, before);
      QuietKeepsCurrent(rules, Run(rules, w, before), p, actions[|actions| - 1]);
    }
  }

  // ---------- migrations ----------

  lemma {:induction false} KnownStays<R, P>(rules: Rules<R, P>, start: World<R, P>, actions: seq<Action<R, P>>)
    requires start.schema.Valid() && IsKnown(rules, start.schema)
    ensures IsKnown(rules, Run(rules, start, actions).schema)
  {
    if actions != [] {
      hide Step, IsKnown;
      var before := actions[..|actions| - 1];
      KnownStays(rules, start, before);
      StepKeepsKnown(rules, Run(rules, start, before), actions[|actions| - 1]);
    }
  }

  lemma StepKeepsKnown<R, P>(rules: Rules<R, P>, w: World<R, P>, a: Action<R, P>)
    requires w.schema.Valid() && IsKnown(rules, w.schema)
    ensures IsKnown(rules, Step(rules, w, a).schema)
  {
    hide FingerprintOf, IsCurrent;
  }

  /** A rebuild of the records table ends a projection for good: reinstalling the triggers
      leaves a clean generation clean, yet no later step makes the projection current again,
      because the table's new text can never turn back into the old one. */
  lemma RebuildIsFinal<R(!new), P>(rules: Rules<R, P>, w: World<R, P>, p: Projection<P>, a: Action<R, P>,
                                   later: seq<Action<R, P>>)
    requires TrackingInv(w) && Sound(rules, w, p) && IsCurrent(w, p)
    requires a.RebuildRecords? && Enabled(rules, w, a)
    ensures !IsCurrent(Run(rules, Step(rules, w, a), later), p)
  {
    hide FingerprintOf, Sound, Run;
    CurrentIsExact(rules, w, p);
    var rebuilt := Step(rules, w, a);
    KnownStays(rules, rebuilt, later);
    var w' := Run(rules, rebuilt, later);
    if IsCurrent(w', p) {
      var t := w'.tracking.value;
      FingerprintIsInjective(w.schema, p.generation, false, w'.schema, t.generation, t.dirty);
    }
  }

  ghost predicate TriggersInPlace<R, P>(w: World<R, P>) {
    w.tracking.Some? ==> w.triggers
  }

  /** Only such a rebuild ever takes the triggers away. */
  lemma {:induction false} NothingIsMissed<R, P>(rules: Rules<R, P>, start: World<R, P>, actions: seq<Action<R, P>>)
    requires start.schema.Valid() && TriggersInPlace(start)
    requires forall a <- actions :: !a.RebuildRecords?
    ensures TriggersInPlace(Run(rules, start, actions))
  {
    if actions != [] {
      hide Step, TriggersInPlace;
      var before := actions[..|actions| - 1];
      NothingIsMissed(rules, start, before);
      StepKeepsTriggers(rules, Run(rules, start, before), actions[|actions| - 1]);
    }
  }

  lemma StepKeepsTriggers<R, P>(rules: Rules<R, P>, w: World<R, P>, a: Action<R, P>)
    requires w.schema.Valid() && TriggersInPlace(w) && !a.RebuildRecords?
    ensures TriggersInPlace(Step(rules, w, a))
  {
    hide FingerprintOf, IsCurrent;
  }

  // ---------- the tracking row as the statements change it ----------

  /** The tracking row and its triggers in one SQLite connection. */
  class TrackingTable {
    var row: Option<Tracking>
    var triggers: bool

    constructor ()
      ensures row == None && !triggers
    {
      row, triggers := None, false;
    }

    method InstallSourceTracking(draw: Bytes)
      modifies this
      ensures row == Some(AfterInstall(old(row), draw)) && triggers
      ensures old(row).Some? && old(row).value.compatible ==> row == old(row)
      ensures old(row).None? || !old(row).value.compatible ==> row == Some(Tracking(draw, true, true))
    {
      if row.None? {
        row := Some(Tracking(draw, true, true));
      }
      if !row.value.compatible {
        row := Some(Tracking(draw, true, true));
      }
      triggers := true;
    }

    /** The body all three triggers share. */
    method OnRecordsChanged(draw: Bytes)
      modifies this
      ensures triggers == old(triggers)
      ensures row == match old(row)
                     case Some(t) => if triggers then Some(Touched(t, draw)) else old(row)
                     case None => None
      ensures old(row).None? || old(row).value.dirty || !triggers ==> row == old(row)
      ensures old(row).Some? && !old(row).value.dirty && triggers ==>
                row == Some(old(row).value.(generation := draw, dirty := true))
    {
      if triggers && row.Some? && !row.value.dirty {
        row := Some(Tracking(draw, true, row.value.compatible));
      }
    }

    method PrepareSourceGeneration(draw: Bytes) returns (ok: bool)
      modifies this
      ensures triggers == old(triggers)
      ensures ok <==> old(row).Some? && old(row).value.compatible
      ensures row == if ok then Some(Prepared(old(row).value, draw)) else old(row)
      ensures ok && old(row).value.dirty ==> row == Some(Tracking(draw, false, true))
      ensures ok && !old(row).value.dirty ==> row == old(row)
    {
      ok := row.Some? && row.value.compatible;
      if ok {
        var t := row.value;
        row := Some(Tracking(if t.dirty then draw else t.generation, false, t.compatible));
      }
    }
  }
}
