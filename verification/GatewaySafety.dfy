/** What every run of the gateway move keeps, whichever of its steps fail. */
module GatewaySafety {
  import opened Basics
  import opened GatewayBox
  import opened GatewayRun

  // ---- The plan ----

  /** The plan is a true reading of the box the run started from. */
  ghost predicate Planned(cfg: Config, b0: Box, plan: Plan) {
    HashedFound(cfg, b0) && MaskRead(b0, plan.masked) && plan == PlanOf(b0, plan.masked)
  }

  lemma PlanFacts(cfg: Config, b0: Box, plan: Plan)
    requires Planned(cfg, b0, plan)
    ensures plan.existed <==> !b0.canon.file.Absent?
    ensures !plan.owns && plan.existed ==>
              b0.canon == b0.canon.(persistent := false, runtime := false, running := false)
    ensures (plan.owns ==> plan.masked || plan.existed) && (plan.masked ==> plan.owns && Masked(b0))
    ensures plan.canonRan == (plan.existed && !plan.masked && b0.canon.running)
    ensures plan.wasActive == b0.hashed.running && plan.wasEnabled == (b0.hashed.persistent || b0.hashed.runtime)
    ensures plan.runtimeOnly == (b0.hashed.runtime && !b0.hashed.persistent)
  {}

  /** What is read is so, and only a failed probe refuses; the mask alone may be misread, where it
      is a runtime mask and its probe, the first, fails. */
  lemma ReadIsTrue(cfg: Config, f: Script, b: Box, t: nat)
    requires HashedFound(cfg, b)
    ensures var r := ReadOf(f, b, t);
            && r.tick > t && (AllDone(f, if b.canon.file.Absent? then t + 1 else t, r.tick) ==> r.plan.Some?)
            && (r.plan.Some? ==> Planned(cfg, b, r.plan.value))
            && (r.plan.Some? ==> (r.plan.value.masked <==> b.canon.file.MaskLink? || (RuntimeMasked(b) && f(t).Done?)))
  {}

  // ---- What is seen of a run ----

  /** What holds of the steps so far; `clean` and `told` speak of those since a mark. */
  datatype Seen = Seen(leaked: bool, lost: bool, fine: bool, kept: bool, wrote: bool, enabled: bool,
                       clean: bool, told: bool, linger: bool, noLinger: bool)

  const NOTHING_SEEN := Seen(false, false, true, true, false, false, true, false, true, false)

  ghost function Saw(v: Seen, b0: Box, e: Event): Seen {
    var lost := v.lost || (v.leaked && IsLostStop(e));
    Seen(v.leaked || IsLeak(e), lost, v.fine && Fine(b0, e.box, lost), v.kept && e.box.canon == b0.canon,
         v.wrote || (e.cmd.WriteCanon? && !e.fate.Failed?), v.enabled || (e.cmd.Enable? && e.cmd.unit.Canonical?),
         v.clean && e.fate.Done?, v.told || (!e.fate.Done? && Reported(b0, e.cmd, v.enabled)),
         v.linger && (e.cmd == Start(Canonical) && !BringsBack(b0) ==> e.box.linger || v.noLinger),
         v.noLinger || (e.cmd.Linger? && e.fate.Failed?))
  }

  /** Names a run to look at: the definitions below unfold for these only. */
  ghost predicate Look(t: Trace) { true }

  ghost predicate SeenIs(b0: Box, t: Trace, mark: nat, v: Seen) {
    forall x {:trigger Look(x)} | Look(x) && x == t ::
      && mark <= Length(x)
      && v.leaked == Leaked(x) && v.lost == LostStop(x) && v.fine == AllFine(b0, x) && v.kept == CanonKept(b0, x)
      && v.wrote == Overwritten(x) && v.enabled == EnableIssued(x)
      && v.clean == DoneSince(x, mark) && v.told == Told(b0, x, mark)
      && v.linger == LingerFirst(b0, x) && v.noLinger == LingerFailed(x)
  }

  lemma NothingSeen(b0: Box)
    ensures SeenIs(b0, Begin, 0, NOTHING_SEEN)
  {}

  /** One more step is one more thing seen. */
  lemma See(b0: Box, s: State, cmd: Cmd, f: Script, mark: nat, v: Seen) returns (w: Seen)
    requires SeenIs(b0, s.trace, mark, v)
    ensures SeenIs(b0, Try(cmd, f, s).trace, mark, w)
    ensures var e := Event(cmd, f(s.tick), Try(cmd, f, s).box);
            && w.leaked == (v.leaked || IsLeak(e)) && w.lost == (v.lost || (v.leaked && IsLostStop(e)))
            && w.fine == (v.fine && Fine(b0, e.box, w.lost)) && w.kept == (v.kept && e.box.canon == b0.canon)
            && w.wrote == (v.wrote || (cmd.WriteCanon? && !e.fate.Failed?))
            && w.enabled == (v.enabled || (cmd.Enable? && cmd.unit.Canonical?))
            && w.clean == (v.clean && e.fate.Done?)
            && w.told == (v.told || (!e.fate.Done? && Reported(b0, cmd, v.enabled)))
            && w.linger == (v.linger && (cmd == Start(Canonical) && !BringsBack(b0) ==> e.box.linger || v.noLinger))
            && w.noLinger == (v.noLinger || (cmd.Linger? && e.fate.Failed?))
  {
    var e := Event(cmd, f(s.tick), After(cmd, f(s.tick), s.box));
    SeeEvent(b0, s.trace, e, mark, v);
    w := Saw(v, b0, e);
  }

  lemma SeeEvent(b0: Box, t: Trace, e: Event, mark: nat, v: Seen)
    requires SeenIs(b0, t, mark, v)
    ensures SeenIs(b0, Then(t, e), mark, Saw(v, b0, e))
  {
    assert Look(t);
  }

  /** Steps that change nothing in the box. */
  predicate IsIdle(cmd: Cmd) { cmd.Render? || cmd.Reload? || cmd.ResetFailed? }

  lemma SeeIdle(b0: Box, s: State, cmd: Cmd, f: Script, mark: nat, v: Seen) returns (w: Seen)
    requires SeenIs(b0, s.trace, mark, v) && IsIdle(cmd)
    ensures SeenIs(b0, Try(cmd, f, s).trace, mark, w) && Try(cmd, f, s).box == s.box
    ensures w == v.(fine := v.fine && Fine(b0, s.box, v.lost), kept := v.kept && s.box.canon == b0.canon,
                    clean := v.clean && f(s.tick).Done?)
  {
    w := See(b0, s, cmd, f, mark, v);
  }

  /** A rollback is judged by its own steps. */
  lemma MarkHere(b0: Box, t: Trace, mark: nat, v: Seen)
    requires SeenIs(b0, t, mark, v)
    ensures SeenIs(b0, t, Length(t), v.(clean := true, told := false))
  {
    assert Look(t);
  }

  // ---- The handover ----

  /** The enablement a canonical unit has once the move has enabled it. */
  function Given(u: Unit, plan: Plan): Unit {
    if plan.runtimeOnly then u.(runtime := true) else u.(persistent := true)
  }

  /** The suffixed unit part of the way through: its file and runtime link are as they were. */
  ghost predicate HashedBetween(b0: Box, b: Box) {
    && b.hashed.file == b0.hashed.file && b.hashed.runtime == b0.hashed.runtime
    && (b.hashed.persistent ==> b0.hashed.persistent) && (b.hashed.running ==> b0.hashed.running)
  }

  function WrittenFile(cfg: Config, was: Path, wrote: bool): Path {
    if wrote then Regular(cfg.rendered, true) else was
  }

  /** The canonical unit part of the way through: every change is one the rollback knows of. */
  ghost predicate CanonBetween(cfg: Config, b0: Box, b: Box, plan: Plan, touched: Touched, leaked: bool, wrote: bool) {
    if plan.masked then b.canon == b0.canon
    else
      && b.canon.file == WrittenFile(cfg, b0.canon.file, wrote)
      && (var u := b.canon.(file := b0.canon.file, running := b0.canon.running);
          u == b0.canon || (touched.enabled && u == Given(b0.canon, plan)))
      && (b.canon.running != b0.canon.running ==>
            if plan.owns then b0.canon.running else touched.started && b.canon.running && leaked)
  }

  /** Every state so far is fine, a unit read as masked has not been touched, no stop was lost, and
      linger came first. */
  ghost predicate Sound(cfg: Config, b0: Box, plan: Plan, b: Box, v: Seen) {
    && IsUnitFile(b0.hashed.file) && v.fine && !v.lost && b.runMask == b0.runMask
    && (plan.masked ==> v.kept && b.canon == b0.canon && Masked(b0))
    && (plan.existed <==> !b0.canon.file.Absent?) && (cfg.hasLoginctl ==> v.linger)
  }

  /** A move that has failed. */
  ghost predicate Between(cfg: Config, b0: Box, plan: Plan, b: Box, touched: Touched, v: Seen) {
    && Sound(cfg, b0, plan, b, v) && HashedBetween(b0, b) && (BothRun(b) ==> BothRun(b0))
    && CanonBetween(cfg, b0, b, plan, touched, v.leaked, v.wrote)
    && touched.enabled == v.enabled
    && (touched.enabled ==> plan.wasEnabled) && (touched.enabled || touched.started ==> !plan.owns)
    && (v.leaked ==> touched.started && b.canon.running)
  }

  /** No step has yet turned anything on in the canonical unit. */
  ghost predicate Fresh(s: State, v: Seen) { !v.leaked && !v.enabled && s.touched == UNTOUCHED }

  /** The handover is complete; only the suffixed file is still there. */
  ghost predicate HandedOver(cfg: Config, b0: Box, b: Box, plan: Plan) {
    && b.hashed == b0.hashed.(persistent := false, running := false) && b.runMask == b0.runMask
    && (if plan.masked then b.canon == b0.canon
        else
          var written := b0.canon.(file := Regular(cfg.rendered, true));
          if plan.owns then b.canon == written
          else
            var on := if plan.wasEnabled then Given(written, plan) else written;
            b.canon == on.(running := on.running || plan.wasEnabled || plan.wasActive))
  }

  /** How a part of the handover ends: complete, or failed with only changes the rollback knows of. */
  ghost predicate Handled(cfg: Config, b0: Box, plan: Plan, s: State, v: Seen) {
    && SeenIs(b0, s.trace, 0, v) && Sound(cfg, b0, plan, s.box, v)
    && (if s.ok then HandedOver(cfg, b0, s.box, plan) else Between(cfg, b0, plan, s.box, s.touched, v))
  }

  /** Only the canonical file may have changed. */
  ghost predicate Written(cfg: Config, b0: Box, plan: Plan, s: State, v: Seen) {
    && SeenIs(b0, s.trace, 0, v) && Sound(cfg, b0, plan, s.box, v) && Fresh(s, v) && !plan.masked
    && s.box == b0.(canon := b0.canon.(file := WrittenFile(cfg, b0.canon.file, v.wrote)))
  }

  lemma IdleKeeps(cfg: Config, f: Script, b0: Box, plan: Plan, s: State, v: Seen, cmd: Cmd) returns (w: Seen)
    requires Written(cfg, b0, plan, s, v) && s.ok && IsIdle(cmd)
    ensures Written(cfg, b0, plan, Must(cmd, f, s), w) && w.wrote == v.wrote
  {
    w := SeeIdle(b0, s, cmd, f, 0, v);
  }

  lemma OverwriteKeeps(cfg: Config, f: Script, b0: Box, plan: Plan, s: State, v: Seen) returns (w: Seen)
    requires Written(cfg, b0, plan, s, v) && s.ok
    ensures var r := Must(WriteCanon(cfg.rendered), f, s);
            Written(cfg, b0, plan, r, w) && (r.ok ==> w.wrote)
  {
    w := See(b0, s, WriteCanon(cfg.rendered), f, 0, v);
  }

  /** Before the suffixed unit is touched only the canonical file changes. */
  lemma WriteKeeps(cfg: Config, f: Script, b0: Box, plan: Plan, s: State, v: Seen) returns (w: Seen)
    requires Written(cfg, b0, plan, s, v) && s.ok
    ensures var r := WriteOf(cfg, f, s); Written(cfg, b0, plan, r, w) && (r.ok ==> w.wrote)
  {
    w := IdleKeeps(cfg, f, b0, plan, s, v, Render);
    var a := Must(Render, f, s);
    if a.ok {
      w := OverwriteKeeps(cfg, f, b0, plan, a, w);
      var b := Must(WriteCanon(cfg.rendered), f, a);
      if b.ok { w := IdleKeeps(cfg, f, b0, plan, b, w, Reload); }
    }
  }

  /** While the suffixed unit stands down nothing else changes. */
  ghost predicate Standing(cfg: Config, b0: Box, plan: Plan, s: State, d: State, v: Seen) {
    && SeenIs(b0, d.trace, 0, v) && Sound(cfg, b0, plan, d.box, v) && Fresh(d, v)
    && d.box == s.box.(hashed := d.box.hashed) && HashedBetween(b0, d.box)
  }

  lemma StopKeeps(cfg: Config, f: Script, b0: Box, plan: Plan, s: State, v: Seen) returns (w: Seen)
    requires Standing(cfg, b0, plan, s, s, v) && s.ok && s.box.hashed == b0.hashed
               && s.box.canon.running == b0.canon.running
    requires SomeUnitFile(s.box)
    ensures var d := Must(Stop(Suffixed), f, s);
            && Standing(cfg, b0, plan, s, d, w) && w.wrote == v.wrote
            && (d.ok ==> d.box.hashed == b0.hashed.(running := false))
  {
    w := See(b0, s, Stop(Suffixed), f, 0, v);
  }

  lemma DisableKeeps(cfg: Config, f: Script, b0: Box, plan: Plan, s: State, v: Seen) returns (w: Seen)
    requires Standing(cfg, b0, plan, s, s, v) && s.ok && s.box.hashed == b0.hashed.(running := false)
    requires SomeUnitFile(s.box)
    ensures var d := Must(Disable(Suffixed, false, false), f, s);
            && Standing(cfg, b0, plan, s, d, w) && w.wrote == v.wrote
            && (d.ok ==> d.box.hashed == b0.hashed.(persistent := false, running := false))
  {
    w := See(b0, s, Disable(Suffixed, false, false), f, 0, v);
  }

  /** The suffixed unit is stopped before it is disabled, and its file and runtime link stay. */
  lemma StandDownKeeps(cfg: Config, f: Script, b0: Box, plan: Plan, s: State, v: Seen) returns (w: Seen)
    requires Standing(cfg, b0, plan, s, s, v) && s.ok && s.box.hashed == b0.hashed
               && s.box.canon.running == b0.canon.running
    ensures var d := StandDownOf(f, s);
            && Standing(cfg, b0, plan, s, d, w) && w.wrote == v.wrote
            && (d.ok ==> d.box.hashed == b0.hashed.(persistent := false, running := false))
  {
    w := StopKeeps(cfg, f, b0, plan, s, v);
    var a := Must(Stop(Suffixed), f, s);
    if a.ok { w := DisableKeeps(cfg, f, b0, plan, a, w); }
  }

  /** The suffixed unit is down, and the canonical one, written, is otherwise as it was. */
  ghost predicate StoodDown(cfg: Config, b0: Box, plan: Plan, s: State, v: Seen) {
    && SeenIs(b0, s.trace, 0, v) && Sound(cfg, b0, plan, s.box, v) && Fresh(s, v) && s.ok && v.wrote && !plan.masked
    && s.box.hashed == b0.hashed.(persistent := false, running := false)
    && s.box.canon == b0.canon.(file := Regular(cfg.rendered, true))
  }

  lemma LingerKeeps(cfg: Config, f: Script, b0: Box, plan: Plan, s: State, v: Seen) returns (w: Seen)
    requires StoodDown(cfg, b0, plan, s, v)
    ensures var l := LingerOf(cfg, f, s);
            StoodDown(cfg, b0, plan, l, w) && (cfg.hasLoginctl ==> l.box.linger || w.noLinger)
  {
    w := v;
    if !s.box.linger && cfg.hasLoginctl { w := See(b0, s, Linger, f, 0, v); }
  }

  /** The canonical unit is enabled as the suffixed one was, and not yet started. */
  ghost predicate ToStart(cfg: Config, b0: Box, plan: Plan, s: State, v: Seen) {
    && SeenIs(b0, s.trace, 0, v) && Sound(cfg, b0, plan, s.box, v) && s.ok && v.wrote && !v.leaked && !plan.masked
    && s.touched == Touched(plan.wasEnabled, false) && v.enabled == plan.wasEnabled
    && s.box.hashed == b0.hashed.(persistent := false, running := false)
    && (var written := b0.canon.(file := Regular(cfg.rendered, true));
        s.box.canon == if plan.wasEnabled then Given(written, plan) else written)
    && (cfg.hasLoginctl ==> s.box.linger || v.noLinger)
  }

  lemma EnableStep(cfg: Config, f: Script, b0: Box, plan: Plan, s: State, v: Seen) returns (w: Seen)
    requires StoodDown(cfg, b0, plan, s, v) && plan.wasEnabled
    ensures var e := EnableOf(f, plan, s);
            && SeenIs(b0, e.trace, 0, w) && Sound(cfg, b0, plan, e.box, w)
            && w.wrote && !w.leaked && w.enabled && w.noLinger == v.noLinger && e.touched == Touched(true, false)
            && e.box in {s.box, s.box.(canon := Given(s.box.canon, plan))}
            && (e.ok ==> e.box.canon == Given(s.box.canon, plan))
  {
    w := See(b0, s.(touched := s.touched.(enabled := true)), Enable(Canonical, plan.runtimeOnly), f, 0, v);
  }

  lemma EnableKeeps(cfg: Config, f: Script, b0: Box, plan: Plan, s: State, v: Seen) returns (w: Seen)
    requires StoodDown(cfg, b0, plan, s, v) && !plan.owns && (cfg.hasLoginctl ==> s.box.linger || v.noLinger)
    ensures var e := EnableOf(f, plan, s);
            if e.ok then ToStart(cfg, b0, plan, e, w) else Handled(cfg, b0, plan, e, w)
  {
    w := v;
    if plan.wasEnabled { w := EnableStep(cfg, f, b0, plan, s, v); }
  }

  lemma StartStep(cfg: Config, f: Script, b0: Box, plan: Plan, s: State, v: Seen) returns (w: Seen)
    requires ToStart(cfg, b0, plan, s, v)
    ensures var r := StartOf(f, s);
            && SeenIs(b0, r.trace, 0, w) && Sound(cfg, b0, plan, r.box, w)
            && w.wrote && w.enabled == v.enabled && w.leaked == f(s.tick).FailedAfter? && r.ok == f(s.tick).Done?
            && r.touched == Touched(plan.wasEnabled, true)
            && r.box == (if f(s.tick).Failed? then s.box else s.box.(canon := s.box.canon.(running := true)))
  {
    w := See(b0, s.(touched := s.touched.(started := true)), Start(Canonical), f, 0, v);
  }

  lemma StartKeeps(cfg: Config, f: Script, b0: Box, plan: Plan, s: State, v: Seen) returns (w: Seen)
    requires ToStart(cfg, b0, plan, s, v) && !plan.owns && (plan.wasEnabled || plan.wasActive)
    ensures Handled(cfg, b0, plan, StartOf(f, s), w)
  {
    w := StartStep(cfg, f, b0, plan, s, v);
  }

  /** Success hands the state over; a failure leaves only changes the rollback knows of. */
  lemma TakeOverKeeps(cfg: Config, f: Script, b0: Box, plan: Plan, s: State, v: Seen) returns (w: Seen)
    requires StoodDown(cfg, b0, plan, s, v) && !plan.owns
    ensures Handled(cfg, b0, plan, TakeOverOf(cfg, f, plan, s), w)
  {
    w := v;
    if plan.wasEnabled || plan.wasActive {
      w := LingerKeeps(cfg, f, b0, plan, s, v);
      var l := LingerOf(cfg, f, s);
      w := EnableKeeps(cfg, f, b0, plan, l, w);
      var e := EnableOf(f, plan, l);
      if e.ok { w := StartKeeps(cfg, f, b0, plan, e, w); }
    }
  }

  /** A canonical unit that runs on a stale text is restarted, and no other; a failed restart is one
      the rollback knows of. */
  lemma RestartKeeps(cfg: Config, f: Script, b0: Box, plan: Plan, s: State, v: Seen) returns (w: Seen)
    requires Planned(cfg, b0, plan) && StoodDown(cfg, b0, plan, s, v) && plan.owns
    ensures Handled(cfg, b0, plan, RestartOf(cfg, f, plan, s), w)
    ensures var r := RestartOf(cfg, f, plan, s);
            r.trace == if RunsStale(cfg, b0) && f(s.tick).Done?
                       then Then(s.trace, Event(RestartCanon, f(s.tick + 1), r.box)) else s.trace
  {
    w := v;
    if plan.oldText.Some? && cfg.stale(plan.oldText.value) && f(s.tick).Done? && s.box.canon.running {
      w := See(b0, s.(tick := s.tick + 1), RestartCanon, f, 0, v);
    }
  }

  lemma MaskedKeeps(cfg: Config, f: Script, b0: Box, plan: Plan, s: State, v: Seen) returns (w: Seen)
    requires SeenIs(b0, s.trace, 0, v) && Sound(cfg, b0, plan, s.box, v) && Fresh(s, v) && s.ok && s.box == b0
    requires plan.masked
    ensures Handled(cfg, b0, plan, StandDownOf(f, s), w)
  {
    w := StandDownKeeps(cfg, f, b0, plan, s, v);
  }

  /** Until the canonical unit takes over, only its file and the suffixed unit have changed. */
  lemma DownKeeps(cfg: Config, f: Script, b0: Box, plan: Plan, s: State, v: Seen) returns (w: Seen)
    requires Written(cfg, b0, plan, s, v) && s.ok
    ensures var d := StandDownOf(f, WriteOf(cfg, f, s));
            if d.ok then StoodDown(cfg, b0, plan, d, w) else Handled(cfg, b0, plan, d, w)
  {
    w := WriteKeeps(cfg, f, b0, plan, s, v);
    var r := WriteOf(cfg, f, s);
    if r.ok { w := StandDownKeeps(cfg, f, b0, plan, r, w); }
  }

  /** A handover is complete, or leaves only changes the rollback knows of. */
  lemma HandoverKeeps(cfg: Config, f: Script, b0: Box, plan: Plan, t: nat) returns (w: Seen)
    requires Planned(cfg, b0, plan)
    ensures Handled(cfg, b0, plan, HandoverOf(cfg, f, plan, AtStart(b0, t)), w)
  {
    PlanFacts(cfg, b0, plan);
    NothingSeen(b0);
    var s := AtStart(b0, t);
    if plan.masked {
      w := MaskedKeeps(cfg, f, b0, plan, s, NOTHING_SEEN);
    } else {
      w := DownKeeps(cfg, f, b0, plan, s, NOTHING_SEEN);
      var d := StandDownOf(f, WriteOf(cfg, f, s));
      if d.ok {
        if plan.owns { w := RestartKeeps(cfg, f, b0, plan, d, w); } else { w := TakeOverKeeps(cfg, f, b0, plan, d, w); }
      }
    }
  }

  // ---- The rollback ----

  /** The canonical unit after a rollback whose every step was done: turned off if the move made
      it; a plain file with its old text if that could be read; else as the move left it. */
  function RestoredUnit(cfg: Config, plan: Plan, was: Unit, wrote: bool): Unit {
    if plan.masked then was
    else if !plan.existed then
      (if plan.runtimeOnly then was.(runtime := false, running := false)
       else was.(persistent := false, running := false))
    else was.(file := RestoredFile(cfg, plan, was.file, wrote))
  }

  function RestoredFile(cfg: Config, plan: Plan, was: Path, wrote: bool): Path {
    if plan.oldText.Some? then Regular(plan.oldText.value, true) else WrittenFile(cfg, was, wrote)
  }

  /** The box after such a rollback, linger aside. */
  ghost predicate BackAsBefore(cfg: Config, b0: Box, b: Box, plan: Plan, wrote: bool) {
    b.hashed == b0.hashed && b.runMask == b0.runMask && b.canon == RestoredUnit(cfg, plan, b0.canon, wrote)
  }

  /** The rollback under way: it has told of what it could not undo, so far as it tells. */
  ghost predicate Undoing(cfg: Config, b0: Box, plan: Plan, mark: nat, s: State, v: Seen) {
    && SeenIs(b0, s.trace, mark, v) && IsUnitFile(b0.hashed.file) && v.fine && (cfg.hasLoginctl ==> v.linger)
    && s.box.runMask == b0.runMask && HashedBetween(b0, s.box)
    && (plan.masked ==> v.kept && s.box.canon == b0.canon)
    && (s.ok <==> !v.told) && s.touched.enabled == v.enabled && (plan.existed <==> !b0.canon.file.Absent?)
  }

  /** The canonical unit is as the move may have left it: `on` is what it may have turned on. */
  ghost predicate TurnedOn(b0: Box, plan: Plan, s: State, v: Seen) {
    && !plan.masked && !plan.owns && !v.lost && (BothRun(s.box) ==> BothRun(b0))
    && (v.leaked ==> s.touched.started && s.box.canon.running)
    && (s.box.canon.running != b0.canon.running ==> v.leaked)
    && (var u := s.box.canon.(file := b0.canon.file, running := b0.canon.running);
        u == b0.canon || (s.touched.enabled && u == Given(b0.canon, plan)))
  }

  /** A canonical unit that did not run is left running just when its stop was lost. */
  ghost predicate LeftAsLost(b0: Box, s: State, v: Seen) {
    (s.box.canon.running && !b0.canon.running ==> v.lost) && (v.lost ==> s.box.canon.running)
  }

  lemma TurnOffKeeps(cfg: Config, f: Script, b0: Box, plan: Plan, mark: nat, s: State, v: Seen) returns (w: Seen)
    requires Undoing(cfg, b0, plan, mark, s, v) && TurnedOn(b0, plan, s, v) && !plan.existed
    ensures var off := Disable(Canonical, plan.runtimeOnly, true);
            var a := if s.touched.enabled then Undo(off, f, s) else Try(off, f, s);
            && Undoing(cfg, b0, plan, mark, a, w) && LeftAsLost(b0, a, w) && (BothRun(a.box) ==> BothRun(b0) || w.lost)
            && a.box == s.box.(canon := a.box.canon)
            && (w.clean ==> v.clean && a.box.canon.(file := Absent) == RestoredUnit(cfg, plan, b0.canon, false))
  {
    w := See(b0, s, Disable(Canonical, plan.runtimeOnly, true), f, mark, v);
  }

  lemma RemoveKeeps(cfg: Config, f: Script, b0: Box, plan: Plan, mark: nat, s: State, v: Seen, cmd: Cmd)
    returns (w: Seen)
    requires Undoing(cfg, b0, plan, mark, s, v) && LeftAsLost(b0, s, v) && (BothRun(s.box) ==> BothRun(b0) || v.lost)
    requires cmd in {RemoveCanon, Reload} && !plan.masked
    ensures var a := Try(cmd, f, s);
            && Undoing(cfg, b0, plan, mark, a, w) && LeftAsLost(b0, a, w) && (BothRun(a.box) ==> BothRun(b0) || w.lost)
            && a.box == s.box.(canon := s.box.canon.(file := a.box.canon.file))
            && (w.clean ==> v.clean && a.box.canon.file == if cmd.RemoveCanon? then Absent else s.box.canon.file)
  {
    w := See(b0, s, cmd, f, mark, v);
  }

  /** A canonical unit the move made is turned off and removed. */
  lemma UndoNewKeeps(cfg: Config, f: Script, b0: Box, plan: Plan, mark: nat, s: State, v: Seen) returns (w: Seen)
    requires Undoing(cfg, b0, plan, mark, s, v) && TurnedOn(b0, plan, s, v) && !plan.existed
    ensures var c := UndoNewOf(f, plan, s);
            && Undoing(cfg, b0, plan, mark, c, w) && LeftAsLost(b0, c, w) && c.box == s.box.(canon := c.box.canon)
            && (w.clean ==> v.clean && c.box.canon == RestoredUnit(cfg, plan, b0.canon, false))
  {
    w := TurnOffKeeps(cfg, f, b0, plan, mark, s, v);
    var off := Disable(Canonical, plan.runtimeOnly, true);
    var a := if s.touched.enabled then Undo(off, f, s) else Try(off, f, s);
    w := RemoveKeeps(cfg, f, b0, plan, mark, a, w, RemoveCanon);
    w := RemoveKeeps(cfg, f, b0, plan, mark, Try(RemoveCanon, f, a), w, Reload);
  }

  /** Writing the old text back changes only the file. */
  ghost predicate FileUndone(cfg: Config, b0: Box, plan: Plan, mark: nat, s: State, v: Seen, c: State, w: Seen) {
    && Undoing(cfg, b0, plan, mark, c, w) && !w.lost && w.leaked == v.leaked && c.touched == s.touched
    && c.box == s.box.(canon := s.box.canon.(file := c.box.canon.file))
    && (plan.oldText.None? || plan.masked ==> w.wrote == v.wrote && c.box.canon == s.box.canon)
  }

  lemma RewriteKeeps(cfg: Config, f: Script, b0: Box, plan: Plan, mark: nat, s: State, v: Seen) returns (w: Seen)
    requires Undoing(cfg, b0, plan, mark, s, v) && !v.lost && (BothRun(s.box) ==> BothRun(b0))
    requires !plan.masked && plan.oldText.Some?
    ensures var c := Try(WriteCanon(plan.oldText.value), f, s);
            && FileUndone(cfg, b0, plan, mark, s, v, c, w)
            && (w.clean ==> v.clean && c.box.canon.file == Regular(plan.oldText.value, true))
  {
    w := See(b0, s, WriteCanon(plan.oldText.value), f, mark, v);
  }

  lemma ReloadKeeps(cfg: Config, f: Script, b0: Box, plan: Plan, mark: nat, s: State, v: Seen) returns (w: Seen)
    requires Undoing(cfg, b0, plan, mark, s, v) && !v.lost && (BothRun(s.box) ==> BothRun(b0))
    ensures var c := Try(Reload, f, s);
            && FileUndone(cfg, b0, plan, mark, s, v, c, w) && c.box == s.box && w.wrote == v.wrote
            && (w.clean ==> v.clean)
  {
    w := See(b0, s, Reload, f, mark, v);
  }

  /** One that was there gets its text back, if it could be read. */
  lemma UndoTextKeeps(cfg: Config, f: Script, b0: Box, plan: Plan, mark: nat, s: State, v: Seen) returns (w: Seen)
    requires Undoing(cfg, b0, plan, mark, s, v) && !v.lost && (BothRun(s.box) ==> BothRun(b0))
    ensures var c := UndoTextOf(f, plan, s);
            && FileUndone(cfg, b0, plan, mark, s, v, c, w)
            && (w.clean ==> v.clean)
            && (w.clean ==>
                  (plan.oldText.Some? && !plan.masked ==> c.box.canon.file == Regular(plan.oldText.value, true)))
  {
    w := v;
    var a := s;
    if !plan.masked && plan.oldText.Some? {
      w := RewriteKeeps(cfg, f, b0, plan, mark, s, v);
      a := Try(WriteCanon(plan.oldText.value), f, s);
    }
    w := ReloadKeeps(cfg, f, b0, plan, mark, a, w);
  }

  lemma DisableAgainKeeps(cfg: Config, f: Script, b0: Box, plan: Plan, mark: nat, s: State, v: Seen) returns (w: Seen)
    requires Undoing(cfg, b0, plan, mark, s, v) && TurnedOn(b0, plan, s, v) && plan.existed
    requires b0.canon == b0.canon.(persistent := false, runtime := false, running := false)
    ensures var c := DisableAgainOf(f, plan, s);
            && Undoing(cfg, b0, plan, mark, c, w) && TurnedOn(b0, plan, c, w) && c.touched == s.touched
            && c.box == s.box.(canon := c.box.canon) && c.box.canon.file == s.box.canon.file && w.wrote == v.wrote
            && (w.clean ==> v.clean && c.box.canon.(file := b0.canon.file, running := false) == b0.canon)
  {
    w := v;
    if s.touched.enabled { w := See(b0, s, Disable(Canonical, plan.runtimeOnly, false), f, mark, v); }
  }

  lemma StopAgainKeeps(cfg: Config, f: Script, b0: Box, plan: Plan, mark: nat, s: State, v: Seen) returns (w: Seen)
    requires Undoing(cfg, b0, plan, mark, s, v) && TurnedOn(b0, plan, s, v) && !b0.canon.running
    ensures var c := StopAgainOf(f, s);
            && Undoing(cfg, b0, plan, mark, c, w) && LeftAsLost(b0, c, w) && w.wrote == v.wrote
            && c.box == s.box.(canon := s.box.canon.(running := c.box.canon.running))
            && (w.clean ==> v.clean && !c.box.canon.running)
  {
    w := v;
    if s.touched.started { w := See(b0, s, Stop(Canonical), f, mark, v); }
  }

  /** What the rollback puts right in the canonical unit, but for bringing it back. */
  ghost predicate CanonUndone(cfg: Config, b0: Box, plan: Plan, mark: nat, s: State, v: Seen, c: State, w: Seen) {
    && Undoing(cfg, b0, plan, mark, c, w) && LeftAsLost(b0, c, w) && (w.lost ==> !plan.owns)
    && c.box == s.box.(canon := c.box.canon)
    && (plan.existed && plan.oldText.None? ==> w.wrote == v.wrote)
    && (w.clean ==>
          var u := RestoredUnit(cfg, plan, b0.canon, v.wrote);
          c.box.canon == (if plan.canonRan then u.(running := c.box.canon.running) else u))
  }

  ghost predicate TurnedBack(cfg: Config, b0: Box, plan: Plan, mark: nat, s: State, v: Seen, c: State, w: Seen) {
    && Undoing(cfg, b0, plan, mark, c, w) && LeftAsLost(b0, c, w) && w.wrote == v.wrote
    && c.box == s.box.(canon := c.box.canon)
    && (w.clean ==> v.clean && c.box.canon == b0.canon.(file := s.box.canon.file))
  }

  lemma TurnBackKeeps(cfg: Config, f: Script, b0: Box, plan: Plan, mark: nat, s: State, v: Seen) returns (w: Seen)
    requires Undoing(cfg, b0, plan, mark, s, v) && TurnedOn(b0, plan, s, v) && plan.existed
    requires b0.canon == b0.canon.(persistent := false, runtime := false, running := false)
    ensures TurnedBack(cfg, b0, plan, mark, s, v, StopAgainOf(f, DisableAgainOf(f, plan, s)), w)
  {
    w := DisableAgainKeeps(cfg, f, b0, plan, mark, s, v);
    w := StopAgainKeeps(cfg, f, b0, plan, mark, DisableAgainOf(f, plan, s), w);
  }

  lemma TextKeepsOn(cfg: Config, b0: Box, plan: Plan, mark: nat, s: State, v: Seen, c: State, w: Seen)
    requires FileUndone(cfg, b0, plan, mark, s, v, c, w) && TurnedOn(b0, plan, s, v)
    ensures TurnedOn(b0, plan, c, w)
  {
    var u := s.box.canon.(file := b0.canon.file, running := b0.canon.running);
    assert c.box.canon.(file := b0.canon.file, running := b0.canon.running) == u;
  }

  lemma StateUndone(cfg: Config, b0: Box, plan: Plan, mark: nat, s: State, v: Seen, t: State, w: Seen, c: State,
                    x: Seen)
    requires FileUndone(cfg, b0, plan, mark, s, v, t, w) && TurnedBack(cfg, b0, plan, mark, t, w, c, x)
    requires w.clean && plan.oldText.Some? ==> t.box.canon.file == Regular(plan.oldText.value, true)
    requires plan.existed && !plan.canonRan && !plan.masked && !plan.owns
    requires s.box.canon.file == WrittenFile(cfg, b0.canon.file, v.wrote)
    ensures CanonUndone(cfg, b0, plan, mark, s, v, c, x)
  {}

  lemma UndoStateKeeps(cfg: Config, f: Script, b0: Box, plan: Plan, mark: nat, s: State, v: Seen) returns (w: Seen)
    requires Undoing(cfg, b0, plan, mark, s, v) && TurnedOn(b0, plan, s, v) && plan.existed && !plan.canonRan
    requires b0.canon == b0.canon.(persistent := false, runtime := false, running := false)
    requires s.box.canon.file == WrittenFile(cfg, b0.canon.file, v.wrote)
    ensures CanonUndone(cfg, b0, plan, mark, s, v, StopAgainOf(f, DisableAgainOf(f, plan, UndoTextOf(f, plan, s))), w)
  {
    w := UndoTextKeeps(cfg, f, b0, plan, mark, s, v);
    var t := UndoTextOf(f, plan, s);
    TextKeepsOn(cfg, b0, plan, mark, s, v, t, w);
    var x := TurnBackKeeps(cfg, f, b0, plan, mark, t, w);
    StateUndone(cfg, b0, plan, mark, s, v, t, w, StopAgainOf(f, DisableAgainOf(f, plan, t)), x);
    w := x;
  }

  /** The canonical unit that owns the state: only its file and its process can have changed. */
  lemma UndoOwnerKeeps(cfg: Config, f: Script, b0: Box, plan: Plan, mark: nat, s: State, v: Seen) returns (w: Seen)
    requires Undoing(cfg, b0, plan, mark, s, v) && !v.lost && (BothRun(s.box) ==> BothRun(b0))
    requires plan.owns && (plan.existed || plan.masked) && !v.leaked
    requires plan.masked ==> s.box.canon == b0.canon
    requires !plan.masked ==>
               && s.box.canon == b0.canon.(file := WrittenFile(cfg, b0.canon.file, v.wrote),
                                           running := s.box.canon.running)
               && (s.box.canon.running != b0.canon.running ==> plan.canonRan && b0.canon.running)
    ensures CanonUndone(cfg, b0, plan, mark, s, v, UndoTextOf(f, plan, s), w)
  {
    w := UndoTextKeeps(cfg, f, b0, plan, mark, s, v);
  }

  /** The canonical unit is as the rollback leaves it. */
  ghost predicate CanonBack(cfg: Config, b0: Box, plan: Plan, mark: nat, s: State, v: Seen, wrote: bool) {
    && Undoing(cfg, b0, plan, mark, s, v) && LeftAsLost(b0, s, v)
    && (plan.existed && plan.oldText.None? ==> v.wrote == wrote)
    && (v.clean ==> s.box.canon == RestoredUnit(cfg, plan, b0.canon, wrote))
  }

  /** A canonical unit that ran is brought back; a restart may have stopped it. */
  lemma StartAgainKeeps(cfg: Config, f: Script, b0: Box, plan: Plan, mark: nat, s: State, v: Seen, wrote: bool)
    returns (w: Seen)
    requires Undoing(cfg, b0, plan, mark, s, v) && LeftAsLost(b0, s, v)
    requires plan.existed && plan.oldText.None? ==> v.wrote == wrote
    requires v.clean ==>
               var u := RestoredUnit(cfg, plan, b0.canon, wrote);
               s.box.canon == (if plan.canonRan then u.(running := s.box.canon.running) else u)
    requires plan.canonRan ==> plan.existed && !plan.masked && b0.canon.running
    ensures CanonBack(cfg, b0, plan, mark, StartAgainOf(f, plan, s), w, wrote)
  {
    w := v;
    if plan.canonRan { w := See(b0, s, Start(Canonical), f, mark, v); }
  }

  lemma EnableHashedKeeps(cfg: Config, f: Script, b0: Box, plan: Plan, mark: nat, s: State, v: Seen, wrote: bool)
    returns (w: Seen)
    requires Planned(cfg, b0, plan) && CanonBack(cfg, b0, plan, mark, s, v, wrote)
    ensures var c := EnableHashedOf(f, plan, s);
            && CanonBack(cfg, b0, plan, mark, c, w, wrote)
            && (w.clean ==> c.box.hashed == b0.hashed.(running := c.box.hashed.running))
  {
    w := v;
    if plan.wasEnabled { w := See(b0, s, Enable(Suffixed, plan.runtimeOnly), f, mark, v); }
  }

  lemma StartHashedKeeps(cfg: Config, f: Script, b0: Box, plan: Plan, mark: nat, s: State, v: Seen, wrote: bool)
    returns (w: Seen)
    requires Planned(cfg, b0, plan) && CanonBack(cfg, b0, plan, mark, s, v, wrote)
    requires v.clean ==> s.box.hashed == b0.hashed.(running := s.box.hashed.running)
    ensures var c := StartHashedOf(f, plan, s);
            && CanonBack(cfg, b0, plan, mark, c, w, wrote) && (w.clean ==> c.box.hashed == b0.hashed)
  {
    w := v;
    if plan.wasActive { w := See(b0, s, Start(Suffixed), f, mark, v); }
  }

  /** The rollback starts from what a failed handover leaves. */
  lemma UndoCanonKeeps(cfg: Config, f: Script, b0: Box, plan: Plan, mark: nat, s: State, v: Seen) returns (w: Seen)
    requires Planned(cfg, b0, plan) && Between(cfg, b0, plan, s.box, s.touched, v) && SeenIs(b0, s.trace, mark, v)
    requires s.ok && v.clean && !v.told
    ensures CanonUndone(cfg, b0, plan, mark, s, v, UndoCanonOf(f, plan, s), w)
  {
    PlanFacts(cfg, b0, plan);
    if !plan.existed && !plan.masked {
      w := UndoNewKeeps(cfg, f, b0, plan, mark, s, v);
    } else if plan.owns {
      w := UndoOwnerKeeps(cfg, f, b0, plan, mark, s, v);
    } else {
      w := UndoStateKeeps(cfg, f, b0, plan, mark, s, v);
    }
  }

  /** A rollback whose every step is done puts the box back; it tells of just the failures it
      reports, and leaves a canonical unit running only where the stop was lost. */
  lemma RollbackKeeps(cfg: Config, f: Script, b0: Box, plan: Plan, mark: nat, s: State, v: Seen) returns (w: Seen)
    requires Planned(cfg, b0, plan) && Between(cfg, b0, plan, s.box, s.touched, v) && SeenIs(b0, s.trace, mark, v)
    requires s.ok && v.clean && !v.told
    ensures var r := RollbackOf(f, plan, s);
            && CanonBack(cfg, b0, plan, mark, r, w, v.wrote)
            && (w.clean ==> BackAsBefore(cfg, b0, r.box, plan, w.wrote))
  {
    PlanFacts(cfg, b0, plan);
    w := UndoCanonKeeps(cfg, f, b0, plan, mark, s, v);
    var c := UndoCanonOf(f, plan, s);
    w := StartAgainKeeps(cfg, f, b0, plan, mark, c, w, v.wrote);
    var a := StartAgainOf(f, plan, c);
    w := EnableHashedKeeps(cfg, f, b0, plan, mark, a, w, v.wrote);
    w := StartHashedKeeps(cfg, f, b0, plan, mark, EnableHashedOf(f, plan, a), w, v.wrote);
  }

  // ---- After the handover ----

  /** Only the suffixed file may have gone. */
  ghost predicate Cleaned(cfg: Config, b0: Box, plan: Plan, mark: nat, b: Box, s: State, v: Seen) {
    && SeenIs(b0, s.trace, mark, v) && Sound(cfg, b0, plan, s.box, v)
    && s.box == b.(hashed := b.hashed.(file := s.box.hashed.file)) && s.box.hashed.file in {Absent, b.hashed.file}
  }

  lemma CleanIdleKeeps(cfg: Config, f: Script, b0: Box, plan: Plan, b: Box, s: State, v: Seen, cmd: Cmd)
    returns (w: Seen)
    requires HandedOver(cfg, b0, b, plan) && Cleaned(cfg, b0, plan, 0, b, s, v) && IsIdle(cmd)
    ensures Cleaned(cfg, b0, plan, 0, b, Try(cmd, f, s), w) && Try(cmd, f, s).box == s.box
  {
    w := SeeIdle(b0, s, cmd, f, 0, v);
  }

  lemma RemoveHashedKeeps(cfg: Config, f: Script, b0: Box, plan: Plan, b: Box, s: State, v: Seen) returns (w: Seen)
    requires HandedOver(cfg, b0, b, plan) && Cleaned(cfg, b0, plan, 0, b, s, v)
    ensures var r := Try(RemoveHashed, f, s);
            && Cleaned(cfg, b0, plan, 0, b, r, w)
            && r.box.hashed.file == (if f(s.tick).Failed? then s.box.hashed.file else Absent)
  {
    w := See(b0, s, RemoveHashed, f, 0, v);
  }

  /** Only the suffixed file goes, and a file left behind is reported as such. */
  lemma CleanUpKeeps(cfg: Config, f: Script, b0: Box, plan: Plan, s: State, v: Seen) returns (w: Seen)
    requires Handled(cfg, b0, plan, s, v) && s.ok
    ensures var e := CleanUpOf(f, s);
            && HasMoved(e.out) && SeenIs(b0, e.trace, 0, w) && Sound(cfg, b0, plan, e.box, w)
            && e.box == s.box.(hashed := s.box.hashed.(file := e.box.hashed.file))
            && e.box.hashed.file == (if f(s.tick).Failed? then s.box.hashed.file else Absent)
            && (e.out.LeftBehind? <==> !f(s.tick).Done?)
  {
    w := RemoveHashedKeeps(cfg, f, b0, plan, s.box, s, v);
    var removed := Try(RemoveHashed, f, s);
    w := CleanIdleKeeps(cfg, f, b0, plan, s.box, removed, w, Reload);
    var loaded := Try(Reload, f, removed);
    if !(f(s.tick).Done? && !f(removed.tick).Done?) && loaded.box.hashed.file.Absent? {
      w := CleanIdleKeeps(cfg, f, b0, plan, s.box, loaded, w, ResetFailed);
    }
  }
}
