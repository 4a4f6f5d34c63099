/** The two gateway units of a box and what `systemctl` and file writes do to them. */
module GatewayBox {
  import opened Basics

  /** What stands at a unit's path in /etc: nothing, a mask (a link to /dev/null), a file, or a
      link to a real unit file, either of which may not be readable as text. */
  datatype Path = Absent | MaskLink | Regular(text: string, readable: bool) | Linked(text: string, readable: bool)

  /** `persistent` and `runtime` are the two enablement links, one under /etc and one under /run. */
  datatype Unit = Unit(file: Path, persistent: bool, runtime: bool, running: bool)

  /** `runMask` is a mask under /run, which only holds while /etc has no canonical file. */
  datatype Box = Box(canon: Unit, runMask: bool, hashed: Unit, linger: bool)

  datatype Which = Canonical | Suffixed

  datatype Word = Enabled | EnabledRuntime | Disabled | LinkedWord | MaskedWord | MaskedRuntime | NotFound | Unknown

  function UnitOf(b: Box, w: Which): Unit { if w.Canonical? then b.canon else b.hashed }

  function SetUnit(b: Box, w: Which, u: Unit): Box {
    if w.Canonical? then b.(canon := u) else b.(hashed := u)
  }

  predicate RuntimeMasked(b: Box) { b.canon.file.Absent? && b.runMask }
  predicate Masked(b: Box) { b.canon.file.MaskLink? || RuntimeMasked(b) }

  /** The word `systemctl is-enabled` prints when it can be read. */
  function WordOf(b: Box, w: Which): Word {
    var u := UnitOf(b, w);
    match u.file
    case MaskLink => MaskedWord
    case Absent => if w.Canonical? && b.runMask then MaskedRuntime else NotFound
    case _ =>
      if u.persistent then Enabled
      else if u.runtime then EnabledRuntime
      else if u.file.Linked? then LinkedWord
      else Disabled
  }

  predicate Enables(w: Word) { w.Enabled? || w.EnabledRuntime? }
  predicate Masks(w: Word) { w.MaskedWord? || w.MaskedRuntime? }

  /** `canonical_owns_state`. */
  predicate CanonicalOwnsState(state: Word, active: Option<bool>) {
    Enables(state) || Masks(state) || state.Unknown? || active != Some(false)
  }

  // ---- Commands ----

  datatype Cmd =
    | Render
    | WriteCanon(text: string)
    | RemoveCanon
    | Reload
    | Stop(unit: Which)
    | Start(unit: Which)
    | RestartCanon
    | Enable(unit: Which, runtime: bool)
    | Disable(unit: Which, runtime: bool, now: bool)
    | Linger
    | RemoveHashed
    | ResetFailed

  /** How each step and probe of a run ends, in order. */
  type Script = nat -> Fate

  function Effect(cmd: Cmd, b: Box): Box {
    match cmd
    case WriteCanon(text) => b.(canon := b.canon.(file := Regular(text, true)))
    case RemoveCanon => b.(canon := b.canon.(file := Absent))
    case Stop(w) => SetUnit(b, w, UnitOf(b, w).(running := false))
    case Start(w) => SetUnit(b, w, UnitOf(b, w).(running := true))
    case RestartCanon => b.(canon := b.canon.(running := true))
    case Enable(w, runtime) =>
      SetUnit(b, w, if runtime then UnitOf(b, w).(runtime := true) else UnitOf(b, w).(persistent := true))
    case Disable(w, runtime, now) =>
      var u := if runtime then UnitOf(b, w).(runtime := false) else UnitOf(b, w).(persistent := false);
      SetUnit(b, w, if now then u.(running := false) else u)
    case Linger => b.(linger := true)
    case RemoveHashed => b.(hashed := b.hashed.(file := Absent))
    case _ => b
  }

  /** A restart reported as failed after its effect has stopped the unit and not started it. */
  function After(cmd: Cmd, fate: Fate, b: Box): Box {
    match fate
    case Done => Effect(cmd, b)
    case Failed => b
    case FailedAfter => if cmd.RestartCanon? then b.(canon := b.canon.(running := false)) else Effect(cmd, b)
  }

  // ---- Runs ----

  /** One step of a run and the state it left. */
  datatype Event = Event(cmd: Cmd, fate: Fate, box: Box)

  /** A run, its last step outermost. */
  datatype Trace = Begin | Then(prior: Trace, last: Event)

  predicate BothRun(b: Box) { b.canon.running && b.hashed.running }

  predicate IsUnitFile(p: Path) { p.Regular? || p.Linked? }

  predicate SomeUnitFile(b: Box) { IsUnitFile(b.canon.file) || IsUnitFile(b.hashed.file) }

  predicate IsLeak(e: Event) { e.cmd == Start(Canonical) && e.fate.FailedAfter? }

  predicate IsLostStop(e: Event) {
    e.fate.Failed? && (e.cmd == Stop(Canonical) || (e.cmd.Disable? && e.cmd.unit.Canonical? && e.cmd.now))
  }

  ghost predicate Has(t: Trace, e: Event) {
    t.Then? && (t.last == e || Has(t.prior, e))
  }

  /** The canonical unit was started by a step reported as failed. */
  ghost predicate Leaked(t: Trace) {
    t.Then? && (Leaked(t.prior) || IsLeak(t.last))
  }

  /** And a later attempt to stop it had no effect. */
  ghost predicate LostStop(t: Trace) {
    t.Then? && (LostStop(t.prior) || (Leaked(t.prior) && IsLostStop(t.last)))
  }

  /** Never two pollers, and never no unit at all. */
  ghost predicate Fine(b0: Box, b: Box, lost: bool) {
    && (BothRun(b) ==> BothRun(b0) || lost)
    && (Masked(b0) || SomeUnitFile(b))
  }

  /** Every state of the run is fine. */
  ghost predicate AllFine(b0: Box, t: Trace) {
    t.Then? ==> AllFine(b0, t.prior) && Fine(b0, t.last.box, LostStop(t))
  }

  /** No step of the run touched the canonical unit. */
  ghost predicate CanonKept(b0: Box, t: Trace) {
    t.Then? ==> CanonKept(b0, t.prior) && t.last.box.canon == b0.canon
  }

  function Length(t: Trace): nat { if t.Begin? then 0 else Length(t.prior) + 1 }

  /** Every step after the first `n` was done. */
  ghost predicate DoneSince(t: Trace, n: nat) {
    Length(t) <= n || (DoneSince(t.prior, n) && t.last.fate.Done?)
  }

  /** The canonical file was overwritten. */
  ghost predicate Overwritten(t: Trace) {
    t.Then? && (Overwritten(t.prior) || (t.last.cmd.WriteCanon? && !t.last.fate.Failed?))
  }

  /** The run set out to enable the canonical unit. */
  ghost predicate EnableIssued(t: Trace) {
    t.Then? && (EnableIssued(t.prior) || (t.last.cmd.Enable? && t.last.cmd.unit.Canonical?))
  }

  /** An undo whose failure is reported: turning the canonical unit off where it was there before
      or the run enabled it, stopping it, and starting it again. */
  ghost predicate Reported(b0: Box, cmd: Cmd, enabled: bool) {
    || cmd == Start(Canonical) || cmd == Stop(Canonical)
    || (cmd.Disable? && cmd.unit.Canonical? && (!b0.canon.file.Absent? || enabled))
  }

  /** Of the steps after the first `n`, one whose failure is reported was not done. */
  ghost predicate Told(b0: Box, t: Trace, n: nat) {
    Length(t) > n
    && (Told(b0, t.prior, n) || (!t.last.fate.Done? && Reported(b0, t.last.cmd, EnableIssued(t.prior))))
  }

  /** Turning linger on failed. */
  ghost predicate LingerFailed(t: Trace) {
    t.Then? && (LingerFailed(t.prior) || (t.last.cmd.Linger? && t.last.fate.Failed?))
  }

  /** A start of the canonical unit that only brings back a unit that ran. */
  predicate BringsBack(b0: Box) { !b0.canon.file.Absent? && b0.canon.running }

  /** Linger is on at every start of the canonical unit, unless turning it on failed. */
  ghost predicate LingerFirst(b0: Box, t: Trace) {
    t.Then? ==>
      && LingerFirst(b0, t.prior)
      && (t.last.cmd == Start(Canonical) && !BringsBack(b0) ==> t.last.box.linger || LingerFailed(t.prior))
  }

  /** What a lost stop takes: a start that took effect though reported as failed, and a stop
      that failed with no effect. */
  lemma {:induction false} LostStopMeans(t: Trace) returns (leak: Event, stop: Event)
    requires LostStop(t)
    ensures Has(t, leak) && IsLeak(leak) && Has(t, stop) && IsLostStop(stop)
  {
    if LostStop(t.prior) {
      leak, stop := LostStopMeans(t.prior);
    } else {
      leak := LeakedMeans(t.prior);
      stop := t.last;
    }
  }

  lemma {:induction false} LeakedMeans(t: Trace) returns (leak: Event)
    requires Leaked(t)
    ensures Has(t, leak) && IsLeak(leak)
  {
    if IsLeak(t.last) { leak := t.last; } else { leak := LeakedMeans(t.prior); }
  }

  /** In every state of such a run, rollback included: unless the canonical unit is masked at
      least one unit file exists; and the two units never both run, unless both did from the
      beginning, or one step misreported its effect and another failed to undo it. */
  lemma {:induction false} EveryState(b0: Box, t: Trace, e: Event)
    requires AllFine(b0, t) && Has(t, e)
    ensures Masked(b0) || SomeUnitFile(e.box)
    ensures BothRun(e.box) ==> BothRun(b0) || LostStop(t)
  {
    if t.last != e { EveryState(b0, t.prior, e); }
  }

  /** A run in which no start of the canonical unit is misreported never has two pollers. */
  lemma NeverTwoPollers(b0: Box, t: Trace, e: Event)
    requires AllFine(b0, t) && Has(t, e) && !BothRun(b0)
    requires forall leak | Has(t, leak) :: !IsLeak(leak)
    ensures !BothRun(e.box)
  {
    EveryState(b0, t, e);
    if LostStop(t) {
      var leak, stop := LostStopMeans(t);
      assert false;
    }
  }

  /** Every step and probe from `a` up to `b` was done. */
  ghost predicate AllDone(fate: Script, a: nat, b: nat) {
    forall t: nat | a <= t < b :: fate(t).Done?
  }

  /** The systemd host a run acts on. `fate` decides how each step ends, for every run. */
  class Host {
    const fate: Script
    var box: Box
    var tick: nat
    ghost var trace: Trace

    constructor (b: Box, script: Script)
      ensures box == b && fate == script && tick == 0 && trace == Begin
    {
      box, fate, tick, trace := b, script, 0, Begin;
    }

    /** Run one step. */
    method Do(cmd: Cmd) returns (ok: bool)
      modifies this
      ensures box == After(cmd, fate(old(tick)), old(box)) && tick == old(tick) + 1
      ensures ok <==> fate(old(tick)).Done?
      ensures trace == Then(old(trace), Event(cmd, fate(old(tick)), box))
    {
      var f := fate(tick);
      tick := tick + 1;
      box := After(cmd, f, box);
      ok := f.Done?;
      trace := Then(trace, Event(cmd, f, box));
    }

    /** `_enabled_state`: a probe that fails reads as unknown. */
    method EnabledState(w: Which) returns (word: Word)
      modifies `tick
      ensures tick == old(tick) + 1
      ensures word == if fate(old(tick)).Done? then WordOf(box, w) else Unknown
    {
      word := if fate(tick).Done? then WordOf(box, w) else Unknown;
      tick := tick + 1;
    }

    /** `_active_state`: `None` when the probe fails. */
    method ActiveState(w: Which) returns (active: Option<bool>)
      modifies `tick
      ensures tick == old(tick) + 1
      ensures active == if fate(old(tick)).Done? then Some(UnitOf(box, w).running) else None
    {
      active := if fate(tick).Done? then Some(UnitOf(box, w).running) else None;
      tick := tick + 1;
    }
  }
}
