/** What the gateway move promises, for every box and every script of step ends. */
module GatewayPromises {
  import opened Basics
  import opened GatewayBox
  import opened GatewayRun
  import opened GatewaySafety

  // ---- A move is given up only for a failure ----

  /** A part of a run that was well and in which all was done ends well. */
  ghost predicate EndsWell(f: Script, s: State, r: State) {
    s.tick <= r.tick && (s.ok && AllDone(f, s.tick, r.tick) ==> r.ok)
  }

  lemma WriteEndsWell(cfg: Config, f: Script, s: State)
    ensures EndsWell(f, s, WriteOf(cfg, f, s))
  {}

  lemma TakeOverEndsWell(cfg: Config, f: Script, plan: Plan, s: State)
    ensures EndsWell(f, s, TakeOverOf(cfg, f, plan, s))
  {}

  lemma HandoverEndsWell(cfg: Config, f: Script, plan: Plan, s: State)
    ensures EndsWell(f, s, HandoverOf(cfg, f, plan, s))
  {
    WriteEndsWell(cfg, f, s);
    var w := if plan.masked then s else WriteOf(cfg, f, s);
    var d := StandDownOf(f, w);
    assert EndsWell(f, w, d);
    if !plan.masked && !plan.owns { TakeOverEndsWell(cfg, f, plan, d); }
  }

  lemma RollbackTakesTime(f: Script, plan: Plan, s: State)
    ensures RollbackOf(f, plan, s).tick >= s.tick
  {}

  lemma CarryEndsWell(cfg: Config, f: Script, plan: Plan, s: State)
    requires s.ok
    ensures var e := CarryOf(cfg, f, plan, s);
            s.tick <= e.tick && (AllDone(f, s.tick, e.tick) ==> e.out.Moved?)
  {
    HandoverEndsWell(cfg, f, plan, s);
    var h := HandoverOf(cfg, f, plan, s);
    if !h.ok { RollbackTakesTime(f, plan, h.(ok := true)); }
  }

  /** The move acts just when there is a suffixed unit and a systemctl, refuses, having changed
      nothing, only for a failed probe, and is given up only for a failed step. */
  lemma GivenUpForFailure(cfg: Config, f: Script, b: Box, t: nat)
    ensures var e := MigrateOf(cfg, f, b, t);
            && (e.out.Noop? <==> !HashedFound(cfg, b) || !cfg.hasSystemctl)
            && (e.out.Noop? || e.out.Refused? ==> e.box == b && e.trace == Begin)
            && (!e.out.Noop? && AllDone(f, if b.canon.file.Absent? then t + 1 else t, e.tick) ==> e.out.Moved?)
  {
    if HashedFound(cfg, b) && cfg.hasSystemctl {
      ReadIsTrue(cfg, f, b, t);
      var r := ReadOf(f, b, t);
      if r.plan.Some? { CarryEndsWell(cfg, f, r.plan.value, AtStart(b, r.tick)); }
    }
  }

  // ---- Every run ----

  /** What any run keeps that has read the box. */
  ghost predicate RunKept(cfg: Config, b0: Box, plan: Plan, e: End) {
    && AllFine(b0, e.trace) && (cfg.hasLoginctl ==> LingerFirst(b0, e.trace))
    && (plan.masked ==> CanonKept(b0, e.trace) && e.box.canon == b0.canon)
    && (e.out.RolledBack? || HasMoved(e.out))
  }

  /** What a rollback keeps. */
  ghost predicate RollbackKept(cfg: Config, b0: Box, plan: Plan, e: End) {
    && (DoneSince(e.trace, e.mark) ==> BackAsBefore(cfg, b0, e.box, plan, Overwritten(e.trace)))
    && (e.out == RolledBack(true) <==> Told(b0, e.trace, e.mark))
    && (e.box.canon.running && !b0.canon.running <==> LostStop(e.trace) && !b0.canon.running)
  }

  /** What a finished move leaves. */
  ghost predicate MoveKept(cfg: Config, b0: Box, plan: Plan, e: End) {
    && HandedOver(cfg, b0, e.box.(hashed := e.box.hashed.(file := b0.hashed.file)), plan)
    && e.box.hashed.file in {Absent, b0.hashed.file} && (!e.out.LeftBehind? ==> e.box.hashed.file.Absent?)
    && !LostStop(e.trace)
  }

  lemma MovedKeeps(cfg: Config, f: Script, b0: Box, plan: Plan, t: nat)
    requires Planned(cfg, b0, plan) && HandoverOf(cfg, f, plan, AtStart(b0, t)).ok
    ensures var e := CarryOf(cfg, f, plan, AtStart(b0, t)); RunKept(cfg, b0, plan, e) && MoveKept(cfg, b0, plan, e)
  {
    var v := HandoverKeeps(cfg, f, b0, plan, t);
    var h := HandoverOf(cfg, f, plan, AtStart(b0, t));
    var s := h.(touched := UNTOUCHED);
    var w := CleanUpKeeps(cfg, f, b0, plan, s, v);
    assert Look(CleanUpOf(f, s).trace);
  }

  lemma RolledBackKeeps(cfg: Config, f: Script, b0: Box, plan: Plan, t: nat)
    requires Planned(cfg, b0, plan) && !HandoverOf(cfg, f, plan, AtStart(b0, t)).ok
    ensures var e := CarryOf(cfg, f, plan, AtStart(b0, t)); RunKept(cfg, b0, plan, e) && RollbackKept(cfg, b0, plan, e)
  {
    var v := HandoverKeeps(cfg, f, b0, plan, t);
    var h := HandoverOf(cfg, f, plan, AtStart(b0, t));
    var mark := Length(h.trace);
    MarkHere(b0, h.trace, 0, v);
    var w := RollbackKeeps(cfg, f, b0, plan, mark, h.(ok := true), v.(clean := true, told := false));
    assert Look(RollbackOf(f, plan, h.(ok := true)).trace);
  }

  /** All that holds of every run that acts: `plan` is what it read of the box it found. */
  lemma RunKeeps(cfg: Config, f: Script, b: Box, t: nat, plan: Plan)
    requires HashedFound(cfg, b) && cfg.hasSystemctl && ReadOf(f, b, t).plan == Some(plan)
    ensures var e := MigrateOf(cfg, f, b, t);
            && Planned(cfg, b, plan) && RunKept(cfg, b, plan, e)
            && (plan.masked <==> b.canon.file.MaskLink? || (RuntimeMasked(b) && f(t).Done?))
            && (e.out.RolledBack? ==> RollbackKept(cfg, b, plan, e))
            && (HasMoved(e.out) ==> MoveKept(cfg, b, plan, e))
  {
    ReadIsTrue(cfg, f, b, t);
    var r := ReadOf(f, b, t);
    if HandoverOf(cfg, f, plan, AtStart(b, r.tick)).ok {
      MovedKeeps(cfg, f, b, plan, r.tick);
    } else {
      RolledBackKeeps(cfg, f, b, plan, r.tick);
    }
  }

  // ---- What a finished rollback means ----

  /** What a rollback can put back: the canonical path was masked; or there was none, and the unit
      neither ran nor had the enablement that the rollback takes away; or there was a plain file,
      which could be read or was not overwritten; or a link, which could not be read and was not. */
  predicate Restorable(b0: Box, masked: bool, wrote: bool) {
    match b0.canon.file
    case MaskLink => true
    case Absent =>
      masked || (!b0.canon.running
                 && !(if b0.hashed.runtime && !b0.hashed.persistent then b0.canon.runtime else b0.canon.persistent))
    case Regular(_, readable) => readable || !wrote
    case Linked(_, readable) => !readable && !wrote
  }

  /** A rollback whose every step is done restores the box, linger aside, just where it can. */
  lemma RestoredExactly(cfg: Config, b0: Box, b: Box, plan: Plan, wrote: bool)
    requires Planned(cfg, b0, plan) && BackAsBefore(cfg, b0, b, plan, wrote)
    ensures b == b0.(linger := b.linger) <==> Restorable(b0, plan.masked, wrote)
  {
    PlanFacts(cfg, b0, plan);
  }

  // ---- What a finished move means ----

  /** Where the canonical unit has no file, a link that enables it is one of its own making: the
      move makes it count. With a mask unread the suffixed unit's choice counts too. */
  predicate ChoiceCarries(b0: Box, masked: bool) {
    b0.canon.file.Absent? && !masked ==>
      if b0.runMask then !b0.canon.persistent && !b0.canon.runtime && !b0.hashed.persistent && !b0.hashed.runtime
      else (b0.canon.persistent ==> b0.hashed.persistent)
             && (b0.canon.runtime ==> b0.hashed.persistent || b0.hashed.runtime)
  }

  /** A move keeps the operator's choice just where it carries over: the gateway is enabled for good,
      until the next boot or not at all, as before, whether the suffixed file is gone or left. */
  lemma ChoiceKept(cfg: Config, b0: Box, b: Box, plan: Plan)
    requires Planned(cfg, b0, plan)
    requires HandedOver(cfg, b0, b.(hashed := b.hashed.(file := b0.hashed.file)), plan)
    requires b.hashed.file in {Absent, b0.hashed.file}
    ensures EffectiveChoice(cfg, b) == EffectiveChoice(cfg, b0) <==> ChoiceCarries(b0, plan.masked)
  {
    PlanFacts(cfg, b0, plan);
    if plan.masked {
      assert WordOf(b, Canonical) == WordOf(b0, Canonical);
    } else if plan.owns {
      assert GatewayStateUnit(cfg, b0) == Some(Canonical);
      assert ChoiceOf(WordOf(b, Canonical)) == ChoiceOf(WordOf(b0, Canonical));
    } else {
      assert GatewayStateUnit(cfg, b0) == Some(if b0.canon.file.Absent? && b0.runMask then Canonical else Suffixed);
    }
  }

  /** Whose state it was decides whether the canonical unit runs. If its own, it is as enabled and
      running as before, unless a mask went unread; if the suffixed unit's, it runs if that one was
      enabled or running, and only then, unless it ran without a file. */
  lemma ProcessHandedOver(cfg: Config, b0: Box, b: Box, plan: Plan)
    requires Planned(cfg, b0, plan)
    requires HandedOver(cfg, b0, b.(hashed := b.hashed.(file := b0.hashed.file)), plan)
    ensures plan.owns <==> GatewayStateUnit(cfg, b0) == Some(Canonical) && (RuntimeMasked(b0) ==> plan.masked)
    ensures plan.owns ==> b.canon == b0.canon.(file := b.canon.file)
    ensures !plan.owns ==>
              var on := b0.hashed.persistent || b0.hashed.runtime || b0.hashed.running;
              (b.canon.running <==> on) <==> (b0.canon.file.Absent? && b0.canon.running ==> on)
    ensures !b.hashed.running && !BothRun(b)
  {
    PlanFacts(cfg, b0, plan);
  }

  /** A suffixed file left behind is disabled, except that a plain `disable` does not remove an
      enablement under /run. */
  lemma LeftBehindWord(cfg: Config, b0: Box, b: Box, plan: Plan)
    requires Planned(cfg, b0, plan) && HandedOver(cfg, b0, b, plan)
    ensures WordOf(b, Suffixed) == if b0.hashed.runtime then EnabledRuntime else Disabled
  {
    assert b.hashed.file.Regular?;
  }

  // ---- A second run ----

  /** After a finished rollback that could restore the box, a second run with every step done moves
      the gateway, and keeps the choice there was before the first one just where it carries over. */
  lemma RetryAfterRollback(cfg: Config, f: Script, b: Box, t: nat, g: Script, u: nat)
    requires MigrateOf(cfg, f, b, t).out.RolledBack?
    requires var e := MigrateOf(cfg, f, b, t);
             && DoneSince(e.trace, e.mark)
             && Restorable(b, b.canon.file.MaskLink? || (RuntimeMasked(b) && f(t).Done?), Overwritten(e.trace))
    requires AllDone(g, u, MigrateOf(cfg, g, MigrateOf(cfg, f, b, t).box, u).tick)
    ensures var r := MigrateOf(cfg, g, MigrateOf(cfg, f, b, t).box, u);
            r.out.Moved? && (EffectiveChoice(cfg, r.box) == EffectiveChoice(cfg, b) <==> ChoiceCarries(b, Masked(b)))
  {
    var e := MigrateOf(cfg, f, b, t);
    GivenUpForFailure(cfg, f, b, t);
    var plan := ReadOf(f, b, t).plan.value;
    RunKeeps(cfg, f, b, t, plan);
    RestoredExactly(cfg, b, e.box, plan, Overwritten(e.trace));
    SecondRun(cfg, g, e.box, u);
    LingerAside(cfg, b, e.box);
  }

  lemma LingerAside(cfg: Config, b: Box, c: Box)
    requires c == b.(linger := c.linger)
    ensures EffectiveChoice(cfg, c) == EffectiveChoice(cfg, b) && Masked(c) == Masked(b)
    ensures ChoiceCarries(c, Masked(c)) == ChoiceCarries(b, Masked(b)) && HashedFound(cfg, c) == HashedFound(cfg, b)
  {}

  /** A run with every step and probe done. */
  lemma SecondRun(cfg: Config, g: Script, b: Box, u: nat)
    requires HashedFound(cfg, b) && cfg.hasSystemctl && AllDone(g, u, MigrateOf(cfg, g, b, u).tick)
    ensures var r := MigrateOf(cfg, g, b, u);
            && r.out.Moved? && ReadOf(g, b, u).plan == Some(PlanOf(b, Masked(b)))
            && MoveKept(cfg, b, PlanOf(b, Masked(b)), r) && Planned(cfg, b, PlanOf(b, Masked(b)))
            && (EffectiveChoice(cfg, r.box) == EffectiveChoice(cfg, b) <==> ChoiceCarries(b, Masked(b)))
  {
    SecondRead(cfg, g, b, u);
    var plan := PlanOf(b, Masked(b));
    RunKeeps(cfg, g, b, u, plan);
    ChoiceKept(cfg, b, MigrateOf(cfg, g, b, u).box, plan);
  }

  /** It reads the box as it is, and moves. */
  lemma SecondRead(cfg: Config, g: Script, b: Box, u: nat)
    requires HashedFound(cfg, b) && cfg.hasSystemctl && AllDone(g, u, MigrateOf(cfg, g, b, u).tick)
    ensures MigrateOf(cfg, g, b, u).out.Moved? && ReadOf(g, b, u).plan == Some(PlanOf(b, Masked(b)))
  {
    GivenUpForFailure(cfg, g, b, u);
    ReadIsTrue(cfg, g, b, u);
    var read := ReadOf(g, b, u);
    CarryEndsWell(cfg, g, read.plan.value, AtStart(b, read.tick));
    assert g(u).Done?;
  }

  /** After a move that left the suffixed file behind, a second run with every step done removes it
      and changes nothing else, linger aside; if the file went after all, there is nothing to do. */
  lemma RetryAfterLeftBehind(cfg: Config, f: Script, b: Box, t: nat, g: Script, u: nat)
    requires MigrateOf(cfg, f, b, t).out.LeftBehind?
    requires AllDone(g, u, MigrateOf(cfg, g, MigrateOf(cfg, f, b, t).box, u).tick)
    ensures var e := MigrateOf(cfg, f, b, t);
            var r := MigrateOf(cfg, g, e.box, u);
            && (if e.box.hashed.file.Absent? then r.out.Noop? else r.out.Moved?)
            && r.box == e.box.(linger := r.box.linger, hashed := e.box.hashed.(file := Absent))
            && EffectiveChoice(cfg, r.box) == EffectiveChoice(cfg, e.box)
            && (EffectiveChoice(cfg, r.box) == EffectiveChoice(cfg, b)
                <==> ChoiceCarries(b, b.canon.file.MaskLink? || (RuntimeMasked(b) && f(t).Done?)))
  {
    var e := MigrateOf(cfg, f, b, t);
    GivenUpForFailure(cfg, f, b, t);
    var plan := ReadOf(f, b, t).plan.value;
    RunKeeps(cfg, f, b, t, plan);
    ChoiceKept(cfg, b, e.box, plan);
    if !e.box.hashed.file.Absent? {
      SecondRun(cfg, g, e.box, u);
      OnlyTheFile(cfg, b, plan, e.box, MigrateOf(cfg, g, e.box, u).box);
    }
  }

  /** A second handover has nothing to hand over. */
  lemma OnlyTheFile(cfg: Config, b: Box, plan: Plan, c: Box, r: Box)
    requires Planned(cfg, b, plan) && HandedOver(cfg, b, c, plan) && c.hashed.file == b.hashed.file
    requires var again := PlanOf(c, Masked(c));
             && Planned(cfg, c, again)
             && HandedOver(cfg, c, r.(hashed := r.hashed.(file := c.hashed.file)), again)
    ensures r == c.(linger := r.linger, hashed := c.hashed.(file := r.hashed.file))
    ensures ChoiceCarries(c, Masked(c))
  {
    PlanFacts(cfg, b, plan);
    PlanFacts(cfg, c, PlanOf(c, Masked(c)));
  }
}
