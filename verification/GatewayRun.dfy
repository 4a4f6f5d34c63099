/** The run of `migrate_hashed_units`, step by step, as a function of the box it finds and of how
    each of its steps and probes ends. */
module GatewayRun {
  import opened Basics
  import opened GatewayBox

  /** What the code is given besides the box: the text it renders, which texts are hal0's
      suffixed unit and which are stale, and which tools are installed. */
  datatype Config = Config(rendered: string, ours: string -> bool, stale: string -> bool,
                           hasSystemctl: bool, hasLoginctl: bool)

  /** `hal0_hashed_units` finds the suffixed unit. */
  predicate HashedFound(cfg: Config, b: Box) {
    b.hashed.file.Regular? && b.hashed.file.readable && cfg.ours(b.hashed.file.text)
  }

  /** The canonical unit runs on a text that is known to be stale. */
  predicate RunsStale(cfg: Config, b: Box) {
    var p := b.canon.file;
    b.canon.running && IsUnitFile(p) && p.readable && cfg.stale(p.text)
  }

  // ---- Whose on/off state counts ----

  datatype Choice = Off | UntilReboot | On

  function ChoiceOf(w: Word): Choice {
    match w case Enabled => On case EnabledRuntime => UntilReboot case _ => Off
  }

  /** `gateway_state_unit`, its probes answered. */
  function GatewayStateUnit(cfg: Config, b: Box): Option<Which> {
    var present := !b.canon.file.Absent?;
    if !HashedFound(cfg, b) then (if present then Some(Canonical) else None)
    else if !present then Some(if b.runMask then Canonical else Suffixed)
    else if CanonicalOwnsState(WordOf(b, Canonical), Some(b.canon.running)) then Some(Canonical)
    else Some(Suffixed)
  }

  /** The enablement `effective_gateway_state` reports. */
  function EffectiveChoice(cfg: Config, b: Box): Choice {
    var unit := GatewayStateUnit(cfg, b);
    if unit.None? then Off else ChoiceOf(WordOf(b, unit.value))
  }

  // ---- What the move reads first ----

  datatype Plan = Plan(existed: bool, masked: bool, oldText: Option<string>, owns: bool, canonRan: bool,
                       wasEnabled: bool, runtimeOnly: bool, wasActive: bool)

  /** The reading of a box; `masked` is what was read of the canonical unit's mask. */
  function PlanOf(b: Box, masked: bool): Plan {
    var p := b.canon.file;
    var own := !p.Absent? && !masked;
    Plan(!p.Absent?, masked,
         if own && IsUnitFile(p) && p.readable then Some(p.text) else None,
         masked || (own && CanonicalOwnsState(WordOf(b, Canonical), Some(b.canon.running))),
         own && b.canon.running,
         b.hashed.persistent || b.hashed.runtime,
         b.hashed.runtime && !b.hashed.persistent,
         b.hashed.running)
  }

  /** The mask was read as it is, but for a runtime mask whose probe failed. */
  ghost predicate MaskRead(b: Box, masked: bool) {
    if b.canon.file.Absent? then masked ==> b.runMask else masked <==> b.canon.file.MaskLink?
  }

  // ---- Steps of a run ----

  /** What this run turned on in the canonical unit (`canon_touched`). */
  datatype Touched = Touched(enabled: bool, started: bool)

  const UNTOUCHED := Touched(false, false)

  /** A run under way: the box, the next step's place in the script, whether all is well so far,
      and the steps taken. */
  datatype State = State(box: Box, tick: nat, ok: bool, touched: Touched, trace: Trace)

  /** A step whose failure is ignored. */
  function Try(cmd: Cmd, f: Script, s: State): State {
    var b := After(cmd, f(s.tick), s.box);
    s.(box := b, tick := s.tick + 1, trace := Then(s.trace, Event(cmd, f(s.tick), b)))
  }

  /** A step whose failure ends the move (`_check`). */
  function Must(cmd: Cmd, f: Script, s: State): State {
    if !s.ok then s else Try(cmd, f, s).(ok := f(s.tick).Done?)
  }

  /** A step of the rollback whose failure is reported (`undo`). */
  function Undo(cmd: Cmd, f: Script, s: State): State {
    Try(cmd, f, s).(ok := s.ok && f(s.tick).Done?)
  }

  // ---- Reading the box ----

  datatype Read = Read(plan: Option<Plan>, tick: nat)

  /** What is read, and how far the script is then. A probe that must not be guessed refuses. */
  function ReadOf(f: Script, b: Box, t: nat): (r: Read)
  {
    var file := b.canon.file;
    var masked := file.MaskLink? || (file.Absent? && b.runMask && f(t).Done?);
    var t1 := if file.Absent? then t + 1 else t;
    var own := !file.Absent? && !masked;
    if own && !f(t1).Done? then Read(None, t1 + 1)
    else if own && !f(t1 + 1).Done? then Read(None, t1 + 2)
    else
      var t2 := if own then t1 + 2 else t1;
      if !f(t2).Done? then Read(None, t2 + 1)
      else if !f(t2 + 1).Done? then Read(None, t2 + 2)
      else Read(Some(PlanOf(b, masked)), if WordOf(b, Suffixed).EnabledRuntime? then t2 + 3 else t2 + 2)
  }

  // ---- The handover ----

  /** Render, write and load the canonical unit. */
  function WriteOf(cfg: Config, f: Script, s: State): State {
    Must(Reload, f, Must(WriteCanon(cfg.rendered), f, Must(Render, f, s)))
  }

  /** Stop the suffixed unit and disable it. */
  function StandDownOf(f: Script, s: State): State {
    Must(Disable(Suffixed, false, false), f, Must(Stop(Suffixed), f, s))
  }

  /** `_ensure_linger`, whose failure is only noted. */
  function LingerOf(cfg: Config, f: Script, s: State): State {
    if !s.box.linger && cfg.hasLoginctl then Try(Linger, f, s) else s
  }

  function EnableOf(f: Script, plan: Plan, s: State): State {
    if plan.wasEnabled
    then Must(Enable(Canonical, plan.runtimeOnly), f, s.(touched := s.touched.(enabled := true)))
    else s
  }

  function StartOf(f: Script, s: State): State {
    if s.ok then Must(Start(Canonical), f, s.(touched := s.touched.(started := true))) else s
  }

  /** The canonical unit takes over the suffixed one's state. */
  function TakeOverOf(cfg: Config, f: Script, plan: Plan, s: State): State {
    if !s.ok || !(plan.wasEnabled || plan.wasActive) then s
    else StartOf(f, EnableOf(f, plan, LingerOf(cfg, f, s)))
  }

  /** A stale canonical unit that runs is restarted on its new text. */
  function RestartOf(cfg: Config, f: Script, plan: Plan, s: State): State {
    if !s.ok || plan.oldText.None? || !cfg.stale(plan.oldText.value) then s
    else if f(s.tick).Done? && s.box.canon.running then Must(RestartCanon, f, s.(tick := s.tick + 1))
    else s.(tick := s.tick + 1)
  }

  /** Everything before the suffixed file is removed. */
  function HandoverOf(cfg: Config, f: Script, plan: Plan, s: State): State {
    var down := StandDownOf(f, if plan.masked then s else WriteOf(cfg, f, s));
    if plan.masked then down
    else if plan.owns then RestartOf(cfg, f, plan, down)
    else TakeOverOf(cfg, f, plan, down)
  }

  // ---- The rollback ----

  /** A canonical unit the move made is turned off and removed. */
  function UndoNewOf(f: Script, plan: Plan, s: State): State {
    var off := Disable(Canonical, plan.runtimeOnly, true);
    Try(Reload, f, Try(RemoveCanon, f, if s.touched.enabled then Undo(off, f, s) else Try(off, f, s)))
  }

  /** One that was there gets its text back, if it could be read. */
  function UndoTextOf(f: Script, plan: Plan, s: State): State {
    Try(Reload, f, if !plan.masked && plan.oldText.Some? then Try(WriteCanon(plan.oldText.value), f, s) else s)
  }

  /** What the move turned on in a canonical unit that was off is turned off. */
  function DisableAgainOf(f: Script, plan: Plan, s: State): State {
    if s.touched.enabled then Undo(Disable(Canonical, plan.runtimeOnly, false), f, s) else s
  }

  function StopAgainOf(f: Script, s: State): State {
    if s.touched.started then Undo(Stop(Canonical), f, s) else s
  }

  /** What the rollback puts right in the canonical unit. */
  function UndoCanonOf(f: Script, plan: Plan, s: State): State {
    if !plan.existed && !plan.masked then UndoNewOf(f, plan, s)
    else if plan.owns then UndoTextOf(f, plan, s)
    else StopAgainOf(f, DisableAgainOf(f, plan, UndoTextOf(f, plan, s)))
  }

  /** A canonical unit that ran is brought back; a restart may have stopped it. */
  function StartAgainOf(f: Script, plan: Plan, s: State): State {
    if plan.canonRan then Undo(Start(Canonical), f, s) else s
  }

  /** The suffixed unit gets its enablement back... */
  function EnableHashedOf(f: Script, plan: Plan, s: State): State {
    if plan.wasEnabled then Try(Enable(Suffixed, plan.runtimeOnly), f, s) else s
  }

  /** ...and its process. */
  function StartHashedOf(f: Script, plan: Plan, s: State): State {
    if plan.wasActive then Try(Start(Suffixed), f, s) else s
  }

  /** The inner `rollback`. */
  function RollbackOf(f: Script, plan: Plan, s: State): State {
    StartHashedOf(f, plan, EnableHashedOf(f, plan, StartAgainOf(f, plan, UndoCanonOf(f, plan, s))))
  }

  // ---- The whole move ----

  /** How the move ends: nothing to do; refused before any change; rolled back, with or without
      a problem to report; moved; moved with the suffixed file left behind; or moved with the
      last reload failed. */
  datatype Outcome = Noop | Refused | RolledBack(problem: bool) | Moved | LeftBehind | ReloadFailed

  predicate HasMoved(out: Outcome) { out.Moved? || out.LeftBehind? || out.ReloadFailed? }

  /** A whole run; `mark` of its steps came before the rollback. */
  datatype End = End(out: Outcome, box: Box, tick: nat, trace: Trace, mark: nat)

  /** After the handover: remove the suffixed file, reload, and clear its failed state. */
  function CleanUpOf(f: Script, s: State): End {
    var removed := Try(RemoveHashed, f, s);
    var loaded := Try(Reload, f, removed);
    if f(s.tick).Done? && !f(removed.tick).Done?
    then End(ReloadFailed, loaded.box, loaded.tick, loaded.trace, Length(loaded.trace))
    else
      var tidy := if loaded.box.hashed.file.Absent? then Try(ResetFailed, f, loaded) else loaded;
      End(if f(s.tick).Done? then Moved else LeftBehind, tidy.box, tidy.tick, tidy.trace, Length(tidy.trace))
  }

  /** The move once the box is read. */
  function CarryOf(cfg: Config, f: Script, plan: Plan, s: State): End {
    var h := HandoverOf(cfg, f, plan, s);
    if h.ok then CleanUpOf(f, h.(touched := UNTOUCHED))
    else
      var r := RollbackOf(f, plan, h.(ok := true));
      End(RolledBack(!r.ok), r.box, r.tick, r.trace, Length(h.trace))
  }

  function AtStart(b: Box, t: nat): State { State(b, t, true, UNTOUCHED, Begin) }

  /** `migrate_hashed_units`, as a function of the box it finds and of how each step and probe ends. */
  function MigrateOf(cfg: Config, f: Script, b: Box, t: nat): End {
    if !HashedFound(cfg, b) || !cfg.hasSystemctl then End(Noop, b, t, Begin, 0)
    else
      var read := ReadOf(f, b, t);
      if read.plan.None? then End(Refused, b, read.tick, Begin, 0)
      else CarryOf(cfg, f, read.plan.value, AtStart(b, read.tick))
  }
}
