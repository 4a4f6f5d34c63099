/** `migrate_hashed_units` as it is done: each part carries out the run that `GatewayRun` describes. */
module GatewayMove {
  import opened Basics
  import opened GatewayBox
  import opened GatewayRun
  import opened GatewaySafety
  import opened GatewayPromises
  import opened GatewaySteps

  /** The run as it stands. */
  ghost function Now(h: Host, ok: bool, touched: Touched): State
    reads h
  {
    State(h.box, h.tick, ok, touched, h.trace)
  }

  method ReadPlan(cfg: Config, h: Host) returns (plan: Option<Plan>)
    requires HashedFound(cfg, h.box)
    modifies h`tick
    ensures Read(plan, h.tick) == ReadOf(h.fate, h.box, old(h.tick))
  {
    var file := h.box.canon.file;
    var masked := file.MaskLink?;
    if file.Absent? {
      var word := h.EnabledState(Canonical);
      masked := Masks(word);
    }
    var own := !file.Absent? && !masked;
    var oldText := if own && IsUnitFile(file) && file.readable then Some(file.text) else None;
    var owns, canonRan := masked, false;
    if own {
      var state := h.EnabledState(Canonical);
      if state.Unknown? { return None; }
      var active := h.ActiveState(Canonical);
      if active.None? { return None; }
      canonRan := active.value;
      owns := CanonicalOwnsState(state, active);
    }
    var state := h.EnabledState(Suffixed);
    if state.Unknown? { return None; }
    var active := h.ActiveState(Suffixed);
    if active.None? { return None; }
    var runtimeOnly := state.EnabledRuntime?;
    if runtimeOnly {
      var again := h.EnabledState(Suffixed);
      runtimeOnly := !again.Enabled?;
    }
    plan := Some(Plan(!file.Absent?, masked, oldText, owns, canonRan, Enables(state), runtimeOnly, active.value));
  }

  method WriteAndLoad(cfg: Config, h: Host) returns (ok: bool)
    modifies h
    ensures Now(h, ok, UNTOUCHED) == WriteOf(cfg, h.fate, old(Now(h, true, UNTOUCHED)))
  {
    ok := h.Do(Render);
    if ok {
      ok := h.Do(WriteCanon(cfg.rendered));
      if ok { ok := h.Do(Reload); }
    }
  }

  method StandDown(h: Host) returns (ok: bool)
    modifies h
    ensures Now(h, ok, UNTOUCHED) == StandDownOf(h.fate, old(Now(h, true, UNTOUCHED)))
  {
    ok := h.Do(Stop(Suffixed));
    if ok { ok := h.Do(Disable(Suffixed, false, false)); }
  }

  method TakeOver(cfg: Config, h: Host, plan: Plan) returns (ok: bool, touched: Touched)
    modifies h
    ensures Now(h, ok, touched) == TakeOverOf(cfg, h.fate, plan, old(Now(h, true, UNTOUCHED)))
  {
    ok, touched := true, UNTOUCHED;
    var start := plan.wasEnabled || plan.wasActive;
    if start {
      if !h.box.linger && cfg.hasLoginctl { var lingers := h.Do(Linger); }
    }
    if plan.wasEnabled {
      touched := touched.(enabled := true);
      ok := h.Do(Enable(Canonical, plan.runtimeOnly));
    }
    if start && ok {
      touched := touched.(started := true);
      ok := h.Do(Start(Canonical));
    }
  }

  method RestartIfStale(cfg: Config, h: Host, plan: Plan) returns (ok: bool)
    modifies h
    ensures Now(h, ok, UNTOUCHED) == RestartOf(cfg, h.fate, plan, old(Now(h, true, UNTOUCHED)))
  {
    ok := true;
    if plan.oldText.Some? && cfg.stale(plan.oldText.value) {
      var active := h.ActiveState(Canonical);
      if active == Some(true) { ok := h.Do(RestartCanon); }
    }
  }

  method Handover(cfg: Config, h: Host, plan: Plan) returns (ok: bool, touched: Touched)
    modifies h
    ensures Now(h, ok, touched) == HandoverOf(cfg, h.fate, plan, old(Now(h, true, UNTOUCHED)))
  {
    ok, touched := true, UNTOUCHED;
    if !plan.masked { ok := WriteAndLoad(cfg, h); }
    if ok { ok := StandDown(h); }
    if ok && !plan.masked {
      if plan.owns {
        ok := RestartIfStale(cfg, h, plan);
      } else {
        ok, touched := TakeOver(cfg, h, plan);
      }
    }
  }

  method UndoNew(h: Host, plan: Plan, touched: Touched) returns (ok: bool)
    modifies h
    ensures Now(h, ok, touched) == UndoNewOf(h.fate, plan, old(Now(h, true, touched)))
  {
    var done := h.Do(Disable(Canonical, plan.runtimeOnly, true));
    ok := done || !touched.enabled;
    done := h.Do(RemoveCanon);
    done := h.Do(Reload);
  }

  method UndoText(h: Host, plan: Plan, ghost touched: Touched)
    modifies h
    ensures Now(h, true, touched) == UndoTextOf(h.fate, plan, old(Now(h, true, touched)))
  {
    if !plan.masked && plan.oldText.Some? {
      var done := h.Do(WriteCanon(plan.oldText.value));
    }
    var done := h.Do(Reload);
  }

  method UndoState(h: Host, plan: Plan, touched: Touched) returns (ok: bool)
    modifies h
    ensures Now(h, ok, touched) == StopAgainOf(h.fate, DisableAgainOf(h.fate, plan, old(Now(h, true, touched))))
  {
    ok := true;
    if touched.enabled { ok := h.Do(Disable(Canonical, plan.runtimeOnly, false)); }
    if touched.started {
      var done := h.Do(Stop(Canonical));
      ok := ok && done;
    }
  }

  method UndoCanon(h: Host, plan: Plan, touched: Touched) returns (ok: bool)
    modifies h
    ensures Now(h, ok, touched) == UndoCanonOf(h.fate, plan, old(Now(h, true, touched)))
  {
    ok := true;
    if !plan.existed && !plan.masked {
      ok := UndoNew(h, plan, touched);
    } else {
      UndoText(h, plan, touched);
      if !plan.owns { ok := UndoState(h, plan, touched); }
    }
  }

  method Rollback(h: Host, plan: Plan, touched: Touched) returns (problem: bool)
    modifies h
    ensures Now(h, !problem, touched) == RollbackOf(h.fate, plan, old(Now(h, true, touched)))
  {
    var ok := UndoCanon(h, plan, touched);
    if plan.canonRan {
      var done := h.Do(Start(Canonical));
      ok := ok && done;
    }
    if plan.wasEnabled { var done := h.Do(Enable(Suffixed, plan.runtimeOnly)); }
    if plan.wasActive { var done := h.Do(Start(Suffixed)); }
    problem := !ok;
  }

  method CleanUp(h: Host) returns (out: Outcome)
    modifies h
    ensures End(out, h.box, h.tick, h.trace, Length(h.trace)) == CleanUpOf(h.fate, old(Now(h, true, UNTOUCHED)))
  {
    var removed := h.Do(RemoveHashed);
    var loaded := h.Do(Reload);
    if removed && !loaded {
      out := ReloadFailed;
    } else {
      if h.box.hashed.file.Absent? { var cleared := h.Do(ResetFailed); }
      out := if removed then Moved else LeftBehind;
    }
  }

  method Carry(cfg: Config, h: Host, plan: Plan) returns (out: Outcome, ghost mark: nat)
    modifies h
    ensures End(out, h.box, h.tick, h.trace, mark) == CarryOf(cfg, h.fate, plan, old(Now(h, true, UNTOUCHED)))
  {
    var ok, touched := Handover(cfg, h, plan);
    if ok {
      out := CleanUp(h);
      mark := Length(h.trace);
    } else {
      mark := Length(h.trace);
      var problem := Rollback(h, plan, touched);
      out := RolledBack(problem);
    }
  }

  /** `migrate_hashed_units`, for every box and every script: `h.fate` decides how each step and
      probe ends. `end` is the run, and `plan` what it read of the box it found. */
  method Migrate(cfg: Config, h: Host) returns (out: Outcome, ghost end: End, ghost plan: Option<Plan>)
    modifies h
    ensures end == MigrateOf(cfg, h.fate, old(h.box), old(h.tick))
    ensures out == end.out && h.box == end.box && h.tick == end.tick && h.trace == end.trace
    ensures plan == ReadOf(h.fate, old(h.box), old(h.tick)).plan
    // It acts just when there is a suffixed unit and a systemctl, and gives up only for a failure.
    ensures out.Noop? <==> !HashedFound(cfg, old(h.box)) || !cfg.hasSystemctl
    ensures out.Noop? || out.Refused? ==> h.box == old(h.box) && h.trace == Begin
    ensures var from := if old(h.box).canon.file.Absent? then old(h.tick) + 1 else old(h.tick);
            !out.Noop? && AllDone(h.fate, from, h.tick) ==> out.Moved?
    ensures !out.Noop? && !out.Refused? ==> plan.Some? && Planned(cfg, old(h.box), plan.value)
    // Its steps, in order: the whole handover and the cleaning up, or the handover up to the step
    // that failed and its undoing; a canonical unit that runs on a stale text is restarted.
    ensures HasMoved(out) ==> MovedBy(cfg, h.fate, old(h.box), old(h.tick), out, Events(h.trace))
    ensures out.RolledBack? ==> RolledBackBy(cfg, h.fate, old(h.box), old(h.tick), end.mark, Events(h.trace))
    ensures RestartsStale(cfg, h.fate, old(h.box), old(h.tick), out, Events(h.trace))
    // In every state of the run, rollback included: never two pollers, never no unit; and linger
    // is on at every start of the canonical unit, unless turning it on failed.
    ensures AllFine(old(h.box), h.trace) && (cfg.hasLoginctl ==> LingerFirst(old(h.box), h.trace))
    // A mask is never written through, unless it is a runtime mask whose probe failed.
    ensures old(h.box).canon.file.MaskLink? || (RuntimeMasked(old(h.box)) && h.fate(old(h.tick)).Done?)
            ==> CanonKept(old(h.box), h.trace) && h.box.canon == old(h.box).canon
    ensures RuntimeMasked(old(h.box)) && !h.fate(old(h.tick)).Done? && HasMoved(out) ==>
              h.box.canon.file == Regular(cfg.rendered, true)
    // A failure before the removal, every rollback step done: the box is back just where it can be.
    ensures out.RolledBack? && DoneSince(h.trace, end.mark) ==>
              && BackAsBefore(cfg, old(h.box), h.box, plan.value, Overwritten(h.trace))
              && (h.box == old(h.box).(linger := h.box.linger)
                  <==> Restorable(old(h.box), plan.value.masked, Overwritten(h.trace)))
    // A rollback tells of a problem just when an undo that it reports failed, and leaves a canonical
    // unit running that did not run just when its stop was lost.
    ensures out.RolledBack? ==> (out.problem <==> Told(old(h.box), h.trace, end.mark))
    ensures out.RolledBack? ==>
              (h.box.canon.running && !old(h.box).canon.running <==> LostStop(h.trace) && !old(h.box).canon.running)
    // The move done: the canonical unit has taken over, and the suffixed file is gone or left.
    ensures HasMoved(out) ==> MoveKept(cfg, old(h.box), plan.value, end)
  {
    ghost var b, t := h.box, h.tick;
    h.trace := Begin;
    GivenUpForFailure(cfg, h.fate, b, t);
    RunTakes(cfg, h.fate, b, t);
    RestartLaw(cfg, h.fate, b, t);
    end, plan := MigrateOf(cfg, h.fate, b, t), ReadOf(h.fate, b, t).plan;
    if !HashedFound(cfg, h.box) || !cfg.hasSystemctl {
      out := Noop;
    } else {
      var read := ReadPlan(cfg, h);
      if read.None? {
        out := Refused;
      } else {
        RunKeeps(cfg, h.fate, b, t, read.value);
        ghost var mark;
        out, mark := Carry(cfg, h, read.value);
        if out.RolledBack? && DoneSince(h.trace, mark) {
          RestoredExactly(cfg, b, h.box, read.value, Overwritten(h.trace));
        }
      }
    }
  }

  /** The promise of a finished move, for every box and every script: the operator's choice carries
      over just where `ChoiceCarries` says; at most one unit runs; and the canonical unit runs as
      the unit whose state counted did, unless it ran without a file. */
  method MoveKeepsChoice(cfg: Config, h: Host) returns (out: Outcome)
    modifies h
    ensures var b := old(h.box);
            var masked := b.canon.file.MaskLink? || (RuntimeMasked(b) && h.fate(old(h.tick)).Done?);
            HasMoved(out) ==>
              && (EffectiveChoice(cfg, h.box) == EffectiveChoice(cfg, b) <==> ChoiceCarries(b, masked))
              && !BothRun(h.box)
              && (if GatewayStateUnit(cfg, b) == Some(Canonical) && (RuntimeMasked(b) ==> masked)
                  then h.box.canon == b.canon.(file := h.box.canon.file)
                  else
                    var on := b.hashed.persistent || b.hashed.runtime || b.hashed.running;
                    (h.box.canon.running <==> on) <==> (b.canon.file.Absent? && b.canon.running ==> on))
  {
    ghost var b, t := h.box, h.tick;
    ghost var end, plan;
    out, end, plan := Migrate(cfg, h);
    if HasMoved(out) {
      RunKeeps(cfg, h.fate, b, t, plan.value);
      ChoiceKept(cfg, b, h.box, plan.value);
      ProcessHandedOver(cfg, b, h.box, plan.value);
    }
  }
}
