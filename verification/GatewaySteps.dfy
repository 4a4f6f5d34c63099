/** Which steps a run of the gateway move takes, in order, said of its trace and of the box it
    finds. */
module GatewaySteps {
  import opened Basics
  import opened GatewayBox
  import opened GatewayRun
  import opened GatewaySafety
  import opened GatewayPromises

  function Events(t: Trace): (es: seq<Event>)
    ensures |es| == Length(t)
  {
    if t.Begin? then [] else Events(t.prior) + [t.last]
  }

  // ---- The lists ----

  /** The suffixed unit's enablement is under /run only. */
  predicate RuntimeOnly(b: Box) { b.hashed.runtime && !b.hashed.persistent }

  predicate WasEnabled(b: Box) { b.hashed.runtime || b.hashed.persistent }

  /** The canonical unit is there with a state of its own. */
  predicate HasState(b: Box) {
    !b.canon.file.Absent? && (b.canon.persistent || b.canon.runtime || b.canon.running)
  }

  function When(c: bool, cmd: Cmd): seq<Cmd> { if c then [cmd] else [] }

  /** The steps of the handover: nothing is written through a mask; a canonical unit with a state of
      its own is restarted if `again`; one with none takes over the suffixed unit's. */
  function HandoverSteps(cfg: Config, b: Box, masked: bool, again: bool): seq<Cmd> {
    DownSteps(cfg, masked)
    + (if masked then [] else if HasState(b) then When(again, RestartCanon) else TakeOverSteps(cfg, b))
  }

  function WriteSteps(cfg: Config): seq<Cmd> { [Render, WriteCanon(cfg.rendered), Reload] }

  function DownSteps(cfg: Config, masked: bool): seq<Cmd> {
    (if masked then [] else WriteSteps(cfg)) + [Stop(Suffixed), Disable(Suffixed, false, false)]
  }

  function TakeOverSteps(cfg: Config, b: Box): seq<Cmd> {
    if !WasEnabled(b) && !b.hashed.running then []
    else
      When(!b.linger && cfg.hasLoginctl, Linger)
      + When(WasEnabled(b), Enable(Canonical, RuntimeOnly(b)))
      + [Start(Canonical)]
  }

  /** The steps of the rollback after the steps `done` of the handover. */
  function RollbackSteps(b: Box, masked: bool, done: seq<Cmd>): seq<Cmd> {
    UndoSteps(b, masked, done)
    + When(!b.canon.file.Absent? && !masked && b.canon.running, Start(Canonical))
    + When(WasEnabled(b), Enable(Suffixed, RuntimeOnly(b)))
    + When(b.hashed.running, Start(Suffixed))
  }

  /** A canonical unit the move made is turned off and removed; one that was there gets its text
      back, if it could be read, and what the move turned on is turned off. */
  function UndoSteps(b: Box, masked: bool, done: seq<Cmd>): seq<Cmd> {
    var p := b.canon.file;
    if p.Absent? && !masked then [Disable(Canonical, RuntimeOnly(b), true), RemoveCanon, Reload]
    else
      TextSteps(b, masked)
      + When(Enable(Canonical, RuntimeOnly(b)) in done, Disable(Canonical, RuntimeOnly(b), false))
      + When(Start(Canonical) in done, Stop(Canonical))
  }

  function TextSteps(b: Box, masked: bool): seq<Cmd> {
    var p := b.canon.file;
    (if !masked && IsUnitFile(p) && p.readable then [WriteCanon(p.text)] else []) + [Reload]
  }

  function CmdsOf(es: seq<Event>): seq<Cmd> {
    seq(|es|, i requires 0 <= i < |es| => es[i].cmd)
  }

  /** A step after which the handover goes on: one that was done, or turning linger on. */
  predicate GoesOn(e: Event) { e.fate.Done? || e.cmd.Linger? }

  /** The steps are those of the list, in order, each of which let the handover go on. */
  ghost predicate Issued(es: seq<Event>, list: seq<Cmd>) {
    CmdsOf(es) == list && forall i | 0 <= i < |es| :: GoesOn(es[i])
  }

  /** They are the first of the list, and only the last of them ended the handover. */
  ghost predicate Ended(es: seq<Event>, list: seq<Cmd>) {
    && 0 < |es| <= |list| && CmdsOf(es) == list[..|es|]
    && !GoesOn(es[|es| - 1]) && forall i | 0 <= i < |es| - 1 :: GoesOn(es[i])
  }

  ghost predicate Took(es: seq<Event>, list: seq<Cmd>, ok: bool) {
    if ok then Issued(es, list) else Ended(es, list)
  }

  // ---- One part after another ----

  lemma CmdsJoined(a: seq<Event>, b: seq<Event>)
    ensures CmdsOf(a + b) == CmdsOf(a) + CmdsOf(b)
  {}

  lemma TookMore(a: seq<Event>, l: seq<Cmd>, b: seq<Event>, m: seq<Cmd>, ok: bool)
    requires Issued(a, l) && Took(b, m, ok)
    ensures Took(a + b, l + m, ok)
  {
    CmdsJoined(a, b);
    forall i | 0 <= i < |a + b| && (ok || i < |a + b| - 1) ensures GoesOn((a + b)[i]) {
      if i >= |a| { assert GoesOn(b[i - |a|]); }
    }
    if !ok { assert (l + m)[..|a + b|] == l + m[..|b|]; }
  }

  lemma TookLess(a: seq<Event>, l: seq<Cmd>, m: seq<Cmd>)
    requires Ended(a, l)
    ensures Ended(a, l + m)
  {}

  /** From `s` to `r` the steps `es` were taken. */
  ghost predicate Adds(s: State, r: State, es: seq<Event>) {
    Events(r.trace) == Events(s.trace) + es
  }

  lemma AddsMore(s: State, a: State, r: State, es: seq<Event>, fs: seq<Event>)
    requires Adds(s, a, es) && Adds(a, r, fs)
    ensures Adds(s, r, es + fs)
  {
    assert Events(s.trace) + es + fs == Events(s.trace) + (es + fs);
  }

  lemma OneStep(cmd: Cmd, f: Script, s: State) returns (es: seq<Event>)
    ensures Adds(s, Try(cmd, f, s), es) && |es| == 1 && CmdsOf(es) == [cmd]
    ensures es[0].fate == f(s.tick) && es[0].cmd == cmd
  {
    es := [Event(cmd, f(s.tick), After(cmd, f(s.tick), s.box))];
  }

  lemma MustTakes(cmd: Cmd, f: Script, s: State) returns (es: seq<Event>)
    requires s.ok && !cmd.Linger?
    ensures var r := Must(cmd, f, s); Adds(s, r, es) && Took(es, [cmd], r.ok)
    ensures Must(cmd, f, s).ok ==> Must(cmd, f, s).tick == s.tick + 1
  {
    es := OneStep(cmd, f, s);
  }

  /** One more step of a list. */
  lemma MustAlso(s0: State, es: seq<Event>, l: seq<Cmd>, cmd: Cmd, f: Script, s: State) returns (fs: seq<Event>)
    requires Adds(s0, s, es) && Took(es, l, s.ok) && !cmd.Linger?
    ensures var r := Must(cmd, f, s); Adds(s0, r, fs) && Took(fs, l + [cmd], r.ok)
    ensures Must(cmd, f, s).ok ==> s.ok && Must(cmd, f, s).tick == s.tick + 1
    ensures !s.ok ==> fs == es
  {
    if s.ok {
      var gs := MustTakes(cmd, f, s);
      AddsMore(s0, s, Must(cmd, f, s), es, gs);
      TookMore(es, l, gs, [cmd], Must(cmd, f, s).ok);
      fs := es + gs;
    } else {
      TookLess(es, l, [cmd]);
      fs := es;
    }
  }

  // ---- The handover ----

  lemma WriteTakes(cfg: Config, f: Script, s: State) returns (es: seq<Event>)
    requires s.ok
    ensures var r := WriteOf(cfg, f, s);
            && Adds(s, r, es) && Took(es, WriteSteps(cfg), r.ok) && r.touched == s.touched
            && (r.ok ==> r.tick == s.tick + 3)
  {
    es := MustTakes(Render, f, s);
    var a := Must(Render, f, s);
    es := MustAlso(s, es, [Render], WriteCanon(cfg.rendered), f, a);
    var b := Must(WriteCanon(cfg.rendered), f, a);
    es := MustAlso(s, es, [Render] + [WriteCanon(cfg.rendered)], Reload, f, b);
    assert [Render] + [WriteCanon(cfg.rendered)] + [Reload] == WriteSteps(cfg);
  }

  lemma StandDownTakes(f: Script, s0: State, es0: seq<Event>, l: seq<Cmd>, s: State) returns (es: seq<Event>)
    requires Adds(s0, s, es0) && Took(es0, l, s.ok)
    ensures var r := StandDownOf(f, s);
            && Adds(s0, r, es) && Took(es, l + [Stop(Suffixed), Disable(Suffixed, false, false)], r.ok)
            && r.touched == s.touched && (r.ok ==> s.ok && r.tick == s.tick + 2)
  {
    es := MustAlso(s0, es0, l, Stop(Suffixed), f, s);
    var a := Must(Stop(Suffixed), f, s);
    es := MustAlso(s0, es, l + [Stop(Suffixed)], Disable(Suffixed, false, false), f, a);
    assert l + [Stop(Suffixed)] + [Disable(Suffixed, false, false)]
        == l + [Stop(Suffixed), Disable(Suffixed, false, false)];
  }

  lemma LingerTakes(cfg: Config, f: Script, s: State) returns (es: seq<Event>)
    requires s.ok
    ensures var r := LingerOf(cfg, f, s);
            && Adds(s, r, es) && Took(es, When(!s.box.linger && cfg.hasLoginctl, Linger), r.ok)
            && r.ok && r.touched == s.touched
  {
    if !s.box.linger && cfg.hasLoginctl { es := OneStep(Linger, f, s); } else { es := []; }
  }

  lemma EnableTakes(f: Script, plan: Plan, s0: State, es0: seq<Event>, l: seq<Cmd>, s: State)
    returns (es: seq<Event>)
    requires Adds(s0, s, es0) && Took(es0, l, s.ok)
    ensures var r := EnableOf(f, plan, s);
            && Adds(s0, r, es) && Took(es, l + When(plan.wasEnabled, Enable(Canonical, plan.runtimeOnly)), r.ok)
            && r.touched == s.touched.(enabled := s.touched.enabled || plan.wasEnabled)
            && (s.ok && plan.wasEnabled ==> |es| == |l| + 1)
  {
    if plan.wasEnabled {
      es := MustAlso(s0, es0, l, Enable(Canonical, plan.runtimeOnly), f, s.(touched := s.touched.(enabled := true)));
    } else {
      es := es0;
      assert l + [] == l;
    }
  }

  lemma StartTakes(f: Script, s0: State, es0: seq<Event>, l: seq<Cmd>, s: State) returns (es: seq<Event>)
    requires Adds(s0, s, es0) && Took(es0, l, s.ok)
    ensures var r := StartOf(f, s);
            && Adds(s0, r, es) && Took(es, l + [Start(Canonical)], r.ok)
            && r.touched == s.touched.(started := s.touched.started || s.ok)
            && (if s.ok then |es| == |l| + 1 else es == es0)
  {
    es := MustAlso(s0, es0, l, Start(Canonical), f, s.(touched := s.touched.(started := s.touched.started || s.ok)));
  }

  /** What the plan says of the box it was read of. */
  ghost predicate PlanFits(b: Box, plan: Plan) {
    && plan.wasEnabled == WasEnabled(b) && plan.runtimeOnly == RuntimeOnly(b) && plan.wasActive == b.hashed.running
    && plan.existed == !b.canon.file.Absent? && (plan.masked || plan.owns == HasState(b))
    && (plan.masked ==> plan.owns) && plan.canonRan == (plan.existed && !plan.masked && b.canon.running)
    && (plan.masked || plan.oldText == TextOf(b.canon.file))
  }

  function TextOf(p: Path): Option<string> {
    if IsUnitFile(p) && p.readable then Some(p.text) else None
  }

  lemma PlannedFits(cfg: Config, b: Box, plan: Plan)
    requires Planned(cfg, b, plan)
    ensures PlanFits(b, plan)
  {}

  lemma TakeOverTakes(cfg: Config, f: Script, b: Box, plan: Plan, s: State) returns (es: seq<Event>)
    requires s.ok && PlanFits(b, plan) && s.box.linger == b.linger && s.touched == UNTOUCHED
    ensures var r := TakeOverOf(cfg, f, plan, s);
            && Adds(s, r, es) && Took(es, TakeOverSteps(cfg, b), r.ok)
            && r.touched.enabled == (Enable(Canonical, plan.runtimeOnly) in CmdsOf(es))
            && r.touched.started == (Start(Canonical) in CmdsOf(es))
  {
    if !plan.wasEnabled && !plan.wasActive {
      es := [];
    } else {
      es := LingerTakes(cfg, f, s);
      var l := When(!s.box.linger && cfg.hasLoginctl, Linger);
      var a := LingerOf(cfg, f, s);
      es := EnableTakes(f, plan, s, es, l, a);
      var c := EnableOf(f, plan, a);
      var m := l + When(plan.wasEnabled, Enable(Canonical, plan.runtimeOnly));
      Touches(es, l, plan, c.ok, []);
      es := StartTakes(f, s, es, m, c);
      if c.ok { Touches(es, l, plan, StartOf(f, c).ok, [Start(Canonical)]); }
    }
  }

  /** Once linger is seen to, the canonical unit is enabled if it is to be, and then started. */
  lemma Touches(es: seq<Event>, l: seq<Cmd>, plan: Plan, ok: bool, last: seq<Cmd>)
    requires Took(es, l + When(plan.wasEnabled, Enable(Canonical, plan.runtimeOnly)) + last, ok)
    requires last in {[], [Start(Canonical)]} && l in {[], [Linger]}
    requires |es| >= |l| + (if plan.wasEnabled then 1 else 0) + |last|
    ensures plan.wasEnabled == (Enable(Canonical, plan.runtimeOnly) in CmdsOf(es))
    ensures (last != []) == (Start(Canonical) in CmdsOf(es))
  {
    var list := l + When(plan.wasEnabled, Enable(Canonical, plan.runtimeOnly)) + last;
    assert CmdsOf(es) == list;
    if plan.wasEnabled { assert list[|l|] == Enable(Canonical, plan.runtimeOnly); }
    if last != [] { assert list[|list| - 1] == Start(Canonical); }
  }

  /** Up to here the canonical unit runs, and linger is, as at first. */
  lemma DownBox(cfg: Config, f: Script, plan: Plan, b: Box, t: nat)
    ensures var d := StandDownOf(f, if plan.masked then AtStart(b, t) else WriteOf(cfg, f, AtStart(b, t)));
            d.box.canon.running == b.canon.running && d.box.linger == b.linger
  {
    WriteBox(cfg, f, AtStart(b, t));
    StandDownBox(f, if plan.masked then AtStart(b, t) else WriteOf(cfg, f, AtStart(b, t)));
  }

  lemma WriteBox(cfg: Config, f: Script, s: State)
    ensures var r := WriteOf(cfg, f, s); r.box.canon.running == s.box.canon.running && r.box.linger == s.box.linger
  {}

  lemma StandDownBox(f: Script, s: State)
    ensures var r := StandDownOf(f, s); r.box.canon.running == s.box.canon.running && r.box.linger == s.box.linger
  {}

  lemma RestartTakes(cfg: Config, f: Script, b: Box, plan: Plan, s0: State, es0: seq<Event>, l: seq<Cmd>, s: State)
    returns (es: seq<Event>)
    requires Adds(s0, s, es0) && Took(es0, l, s.ok) && s.ok && s.box.canon.running == b.canon.running
    requires PlanFits(b, plan) && !plan.masked
    ensures var r := RestartOf(cfg, f, plan, s);
            && Adds(s0, r, es) && Took(es, l + When(RunsStale(cfg, b) && f(s.tick).Done?, RestartCanon), r.ok)
            && r.touched == s.touched
  {
    if RunsStale(cfg, b) && f(s.tick).Done? {
      es := MustAlso(s0, es0, l, RestartCanon, f, s.(tick := s.tick + 1));
    } else {
      es := es0;
      assert l + [] == l;
    }
  }

  lemma DownTakes(cfg: Config, f: Script, plan: Plan, s: State) returns (es: seq<Event>)
    requires s.ok && s.touched == UNTOUCHED
    ensures var d := StandDownOf(f, if plan.masked then s else WriteOf(cfg, f, s));
            && Adds(s, d, es) && Took(es, DownSteps(cfg, plan.masked), d.ok) && d.touched == UNTOUCHED
            && (d.ok && !plan.masked ==> d.tick == s.tick + 5)
  {
    es := [];
    if !plan.masked { es := WriteTakes(cfg, f, s); }
    es := StandDownTakes(f, s, es, if plan.masked then [] else WriteSteps(cfg),
                         if plan.masked then s else WriteOf(cfg, f, s));
  }

  /** What the run turned on is what it set out to. */
  ghost predicate Touching(touched: Touched, plan: Plan, cmds: seq<Cmd>) {
    && touched.enabled == (Enable(Canonical, plan.runtimeOnly) in cmds)
    && touched.started == (Start(Canonical) in cmds)
  }

  /** Steps that turn on nothing in the canonical unit. */
  predicate TurnsNothingOn(cmd: Cmd) { !(cmd.Enable? && cmd.unit.Canonical?) && cmd != Start(Canonical) }

  lemma TouchesNothing(es: seq<Event>, list: seq<Cmd>, ok: bool, plan: Plan)
    requires Took(es, list, ok) && forall i | 0 <= i < |list| :: TurnsNothingOn(list[i])
    ensures Touching(UNTOUCHED, plan, CmdsOf(es))
  {
    forall i | 0 <= i < |es| ensures TurnsNothingOn(CmdsOf(es)[i]) { assert CmdsOf(es)[i] == list[i]; }
  }

  /** The takeover after the rest. */
  lemma TakeOverAfter(cfg: Config, f: Script, b: Box, plan: Plan, s: State, es0: seq<Event>, d: State)
    returns (es: seq<Event>)
    requires Adds(s, d, es0) && Issued(es0, DownSteps(cfg, false)) && d.ok && d.touched == UNTOUCHED
    requires PlanFits(b, plan) && d.box.linger == b.linger
    ensures var r := TakeOverOf(cfg, f, plan, d);
            && Adds(s, r, es) && Took(es, DownSteps(cfg, false) + TakeOverSteps(cfg, b), r.ok)
            && Touching(r.touched, plan, CmdsOf(es))
  {
    TouchesNothing(es0, DownSteps(cfg, false), true, plan);
    var more := TakeOverTakes(cfg, f, b, plan, d);
    AddsMore(s, d, TakeOverOf(cfg, f, plan, d), es0, more);
    TookMore(es0, DownSteps(cfg, false), more, TakeOverSteps(cfg, b), TakeOverOf(cfg, f, plan, d).ok);
    CmdsJoined(es0, more);
    es := es0 + more;
  }

  lemma RestartAfter(cfg: Config, f: Script, b: Box, plan: Plan, s: State, es0: seq<Event>, d: State)
    returns (es: seq<Event>)
    requires Adds(s, d, es0) && Issued(es0, DownSteps(cfg, false)) && d.ok && d.touched == UNTOUCHED
    requires PlanFits(b, plan) && d.box.canon.running == b.canon.running && !plan.masked
    ensures var r := RestartOf(cfg, f, plan, d);
            && Adds(s, r, es) && Touching(r.touched, plan, CmdsOf(es))
            && Took(es, DownSteps(cfg, false) + When(RunsStale(cfg, b) && f(d.tick).Done?, RestartCanon), r.ok)
  {
    es := RestartTakes(cfg, f, b, plan, s, es0, DownSteps(cfg, false), d);
    var list := DownSteps(cfg, false) + When(RunsStale(cfg, b) && f(d.tick).Done?, RestartCanon);
    TouchesNothing(es, list, RestartOf(cfg, f, plan, d).ok, plan);
  }

  /** The steps of a handover are those listed; a failure ends it there. */
  lemma HandoverTakes(cfg: Config, f: Script, b: Box, plan: Plan, t: nat) returns (es: seq<Event>)
    requires PlanFits(b, plan)
    ensures var h := HandoverOf(cfg, f, plan, AtStart(b, t));
            && Adds(AtStart(b, t), h, es) && Touching(h.touched, plan, CmdsOf(es))
            && (plan.owns ==> h.touched == UNTOUCHED)
            && Took(es, HandoverSteps(cfg, b, plan.masked, RunsStale(cfg, b) && f(t + 5).Done?), h.ok)
  {
    var s := AtStart(b, t);
    var d := StandDownOf(f, if plan.masked then s else WriteOf(cfg, f, s));
    es := DownTakes(cfg, f, plan, s);
    DownBox(cfg, f, plan, b, t);
    var l := DownSteps(cfg, plan.masked);
    TouchesNothing(es, l, d.ok, plan);
    if !d.ok {
      DownEnds(cfg, f, plan, s, d);
      TookLess(es, l, HandoverSteps(cfg, b, plan.masked, RunsStale(cfg, b) && f(t + 5).Done?)[|l|..]);
    } else if plan.masked {
      assert l + [] == l;
    } else if plan.owns {
      es := RestartAfter(cfg, f, b, plan, s, es, d);
    } else {
      es := TakeOverAfter(cfg, f, b, plan, s, es, d);
    }
  }

  lemma DownEnds(cfg: Config, f: Script, plan: Plan, s: State, d: State)
    requires d == StandDownOf(f, if plan.masked then s else WriteOf(cfg, f, s)) && !d.ok
    ensures HandoverOf(cfg, f, plan, s) == d
  {}

  // ---- The rollback ----

  lemma TryAlso(s0: State, es: seq<Event>, cmd: Cmd, f: Script, s: State) returns (fs: seq<Event>)
    requires Adds(s0, s, es)
    ensures Adds(s0, Try(cmd, f, s), fs) && CmdsOf(fs) == CmdsOf(es) + [cmd]
  {
    var gs := OneStep(cmd, f, s);
    AddsMore(s0, s, Try(cmd, f, s), es, gs);
    CmdsJoined(es, gs);
    fs := es + gs;
  }

  lemma UndoNewTakes(f: Script, plan: Plan, s: State) returns (es: seq<Event>)
    ensures Adds(s, UndoNewOf(f, plan, s), es)
    ensures CmdsOf(es) == [Disable(Canonical, plan.runtimeOnly, true), RemoveCanon, Reload]
  {
    var off := Disable(Canonical, plan.runtimeOnly, true);
    es := OneStep(off, f, s);
    var a := if s.touched.enabled then Undo(off, f, s) else Try(off, f, s);
    es := TryAlso(s, es, RemoveCanon, f, a);
    es := TryAlso(s, es, Reload, f, Try(RemoveCanon, f, a));
  }

  lemma UndoTextTakes(f: Script, b: Box, plan: Plan, s: State) returns (es: seq<Event>)
    requires PlanFits(b, plan)
    ensures Adds(s, UndoTextOf(f, plan, s), es) && CmdsOf(es) == TextSteps(b, plan.masked)
    ensures UndoTextOf(f, plan, s).touched == s.touched
  {
    if !plan.masked && plan.oldText.Some? {
      es := OneStep(WriteCanon(plan.oldText.value), f, s);
      es := TryAlso(s, es, Reload, f, Try(WriteCanon(plan.oldText.value), f, s));
    } else {
      es := OneStep(Reload, f, s);
    }
  }

  lemma UndoStateTakes(f: Script, plan: Plan, s0: State, es0: seq<Event>, s: State) returns (es: seq<Event>)
    requires Adds(s0, s, es0)
    ensures Adds(s0, StopAgainOf(f, DisableAgainOf(f, plan, s)), es)
    ensures CmdsOf(es) == CmdsOf(es0) + When(s.touched.enabled, Disable(Canonical, plan.runtimeOnly, false))
                          + When(s.touched.started, Stop(Canonical))
  {
    es := es0;
    if s.touched.enabled { es := TryAlso(s0, es, Disable(Canonical, plan.runtimeOnly, false), f, s); }
    if s.touched.started { es := TryAlso(s0, es, Stop(Canonical), f, DisableAgainOf(f, plan, s)); }
  }

  lemma UndoCanonTakes(f: Script, b: Box, plan: Plan, s: State, done: seq<Cmd>) returns (es: seq<Event>)
    requires PlanFits(b, plan) && Touching(s.touched, plan, done) && (plan.owns ==> s.touched == UNTOUCHED)
    ensures Adds(s, UndoCanonOf(f, plan, s), es) && CmdsOf(es) == UndoSteps(b, plan.masked, done)
  {
    if !plan.existed && !plan.masked {
      es := UndoNewTakes(f, plan, s);
    } else {
      es := UndoTextTakes(f, b, plan, s);
      if !plan.owns { es := UndoStateTakes(f, plan, s, es, UndoTextOf(f, plan, s)); }
    }
  }

  lemma RollbackTakes(f: Script, b: Box, plan: Plan, s: State, done: seq<Cmd>) returns (es: seq<Event>)
    requires PlanFits(b, plan) && Touching(s.touched, plan, done) && (plan.owns ==> s.touched == UNTOUCHED)
    ensures Adds(s, RollbackOf(f, plan, s), es) && CmdsOf(es) == RollbackSteps(b, plan.masked, done)
  {
    es := UndoCanonTakes(f, b, plan, s, done);
    var a := UndoCanonOf(f, plan, s);
    if plan.canonRan { es := TryAlso(s, es, Start(Canonical), f, a); }
    var c := StartAgainOf(f, plan, a);
    if plan.wasEnabled { es := TryAlso(s, es, Enable(Suffixed, plan.runtimeOnly), f, c); }
    var d := EnableHashedOf(f, plan, c);
    if plan.wasActive { es := TryAlso(s, es, Start(Suffixed), f, d); }
  }

  // ---- The whole run ----

  /** The canonical unit was read as masked: a runtime mask is, if its probe, the first, succeeds. */
  predicate ReadAsMasked(f: Script, b: Box, t: nat) {
    b.canon.file.MaskLink? || (RuntimeMasked(b) && f(t).Done?)
  }

  /** The canonical unit ran on a stale text, and the last probe, past the four or five that read the
      box and the five steps that write and stand down, still found it running. */
  predicate StillRunsStale(cfg: Config, f: Script, b: Box, t: nat) {
    RunsStale(cfg, b) && f(t + 9 + if RuntimeOnly(b) then 1 else 0).Done?
  }

  function StepsOf(cfg: Config, f: Script, b: Box, t: nat): seq<Cmd> {
    HandoverSteps(cfg, b, ReadAsMasked(f, b, t), StillRunsStale(cfg, f, b, t))
  }

  /** A finished move took the whole handover, removed the suffixed file, reloaded, and cleared the
      unit's failed state if the file was gone; how the two steps in between ended is how it ends. */
  ghost predicate MovedBy(cfg: Config, f: Script, b: Box, t: nat, out: Outcome, es: seq<Event>) {
    var list := StepsOf(cfg, f, b, t);
    var n := |list|;
    && n + 2 <= |es| && Issued(es[..n], list) && es[n].cmd == RemoveHashed && es[n + 1].cmd == Reload
    && (out.LeftBehind? <==> !es[n].fate.Done?)
    && (out.Moved? <==> es[n].fate.Done? && es[n + 1].fate.Done?)
    && CmdsOf(es[n + 2..]) == When(!out.ReloadFailed? && es[n + 1].box.hashed.file.Absent?, ResetFailed)
  }

  /** A rolled back one took the handover up to the step that failed, and undid it step by step. */
  ghost predicate RolledBackBy(cfg: Config, f: Script, b: Box, t: nat, mark: nat, es: seq<Event>) {
    && mark <= |es| && Ended(es[..mark], StepsOf(cfg, f, b, t))
    && CmdsOf(es[mark..]) == RollbackSteps(b, ReadAsMasked(f, b, t), CmdsOf(es[..mark]))
  }

  lemma ReadTakes(cfg: Config, f: Script, b: Box, t: nat)
    requires HashedFound(cfg, b) && ReadOf(f, b, t).plan.Some?
    ensures var r := ReadOf(f, b, t);
            && PlanFits(b, r.plan.value) && r.plan.value.masked == ReadAsMasked(f, b, t)
            && (RunsStale(cfg, b) ==> r.tick == t + 4 + if RuntimeOnly(b) then 1 else 0)
  {
    ReadIsTrue(cfg, f, b, t);
    PlannedFits(cfg, b, ReadOf(f, b, t).plan.value);
  }

  lemma CleanUpTakes(f: Script, s: State, list: seq<Cmd>, cfg: Config, b: Box, g: Script, t: nat)
    requires Issued(Events(s.trace), list) && list == StepsOf(cfg, g, b, t)
    ensures var e := CleanUpOf(f, s); MovedBy(cfg, g, b, t, e.out, Events(e.trace))
  {
    var removed := Try(RemoveHashed, f, s);
    var loaded := Try(Reload, f, removed);
    var before := Events(s.trace);
    var e := CleanUpOf(f, s);
    assert Events(loaded.trace) == before + [removed.trace.last] + [loaded.trace.last];
    assert |before| == |CmdsOf(before)|;
  }

  /** Every run takes these steps and no others. */
  lemma RunTakes(cfg: Config, f: Script, b: Box, t: nat)
    ensures var e := MigrateOf(cfg, f, b, t);
            && (HasMoved(e.out) ==> MovedBy(cfg, f, b, t, e.out, Events(e.trace)))
            && (e.out.RolledBack? ==> RolledBackBy(cfg, f, b, t, e.mark, Events(e.trace)))
  {
    if HashedFound(cfg, b) && cfg.hasSystemctl && ReadOf(f, b, t).plan.Some? {
      ReadTakes(cfg, f, b, t);
      var read := ReadOf(f, b, t);
      CarryTakes(cfg, f, b, read.plan.value, read.tick, t);
    }
  }

  lemma CarryTakes(cfg: Config, f: Script, b: Box, plan: Plan, at: nat, t: nat)
    requires PlanFits(b, plan) && plan.masked == ReadAsMasked(f, b, t)
    requires RunsStale(cfg, b) ==> at == t + 4 + if RuntimeOnly(b) then 1 else 0
    ensures var e := CarryOf(cfg, f, plan, AtStart(b, at));
            && (HasMoved(e.out) ==> MovedBy(cfg, f, b, t, e.out, Events(e.trace)))
            && (e.out.RolledBack? ==> RolledBackBy(cfg, f, b, t, e.mark, Events(e.trace)))
  {
    var h := HandoverOf(cfg, f, plan, AtStart(b, at));
    var es := WholeHandover(cfg, f, b, plan, at, t, StepsOf(cfg, f, b, t), h);
    if h.ok {
      CleanUpTakes(f, h.(touched := UNTOUCHED), StepsOf(cfg, f, b, t), cfg, b, f, t);
    } else {
      UndoneTakes(cfg, f, b, plan, t, es, h);
    }
  }

  lemma WholeHandover(cfg: Config, f: Script, b: Box, plan: Plan, at: nat, t: nat, list: seq<Cmd>, h: State)
    returns (es: seq<Event>)
    requires PlanFits(b, plan) && plan.masked == ReadAsMasked(f, b, t)
    requires RunsStale(cfg, b) ==> at == t + 4 + if RuntimeOnly(b) then 1 else 0
    requires list == StepsOf(cfg, f, b, t) && h == HandoverOf(cfg, f, plan, AtStart(b, at))
    ensures Events(h.trace) == es && Took(es, list, h.ok) && Touching(h.touched, plan, CmdsOf(es))
    ensures plan.owns ==> h.touched == UNTOUCHED
  {
    es := HandoverTakes(cfg, f, b, plan, at);
    assert (RunsStale(cfg, b) && f(at + 5).Done?) == StillRunsStale(cfg, f, b, t);
    assert Events(AtStart(b, at).trace) == [];
  }

  lemma UndoneTakes(cfg: Config, f: Script, b: Box, plan: Plan, t: nat, es: seq<Event>, h: State)
    requires PlanFits(b, plan) && plan.masked == ReadAsMasked(f, b, t)
    requires Events(h.trace) == es && Ended(es, StepsOf(cfg, f, b, t)) && Touching(h.touched, plan, CmdsOf(es))
    requires plan.owns ==> h.touched == UNTOUCHED
    ensures RolledBackBy(cfg, f, b, t, Length(h.trace), Events(RollbackOf(f, plan, h.(ok := true)).trace))
  {
    var more := RollbackTakes(f, b, plan, h.(ok := true), CmdsOf(es));
    var all := Events(RollbackOf(f, plan, h.(ok := true)).trace);
    assert all == es + more;
    assert all[..|es|] == es && all[|es|..] == more;
  }

  ghost predicate DoneAt(es: seq<Event>, i: nat, cmd: Cmd) { i < |es| && es[i].cmd == cmd && es[i].fate.Done? }

  /** A finished move restarts the canonical unit just when it ran, and still runs, on a stale text,
      and then after the new text was written and loaded; a run that is given up restarts no other. */
  ghost predicate RestartsStale(cfg: Config, f: Script, b: Box, t: nat, out: Outcome, es: seq<Event>) {
    && (RestartCanon in CmdsOf(es) ==> StillRunsStale(cfg, f, b, t))
    && (HasMoved(out) && StillRunsStale(cfg, f, b, t) ==>
          DoneAt(es, 1, WriteCanon(cfg.rendered)) && DoneAt(es, 2, Reload) && DoneAt(es, 5, RestartCanon))
  }

  lemma RestartLaw(cfg: Config, f: Script, b: Box, t: nat)
    ensures var e := MigrateOf(cfg, f, b, t); RestartsStale(cfg, f, b, t, e.out, Events(e.trace))
  {
    RunTakes(cfg, f, b, t);
    GivenUpForFailure(cfg, f, b, t);
    var e := MigrateOf(cfg, f, b, t);
    var es, list := Events(e.trace), StepsOf(cfg, f, b, t);
    if HasMoved(e.out) {
      MovedRestarts(cfg, f, b, t, e.out, es);
    } else if e.out.RolledBack? {
      RolledBackRestarts(cfg, f, b, t, e.mark, es);
    }
  }

  lemma NoOtherRestart(cfg: Config, f: Script, b: Box, t: nat)
    ensures RestartCanon in StepsOf(cfg, f, b, t) ==> StillRunsStale(cfg, f, b, t)
  {}

  lemma OnlyIn(es: seq<Event>, n: nat, list: seq<Cmd>, rest: seq<Cmd>, cmd: Cmd)
    requires n <= |es| && |CmdsOf(es[..n])| <= |list| && CmdsOf(es[..n]) == list[..|CmdsOf(es[..n])|]
    requires CmdsOf(es[n..]) == rest && cmd !in rest && cmd in CmdsOf(es)
    ensures cmd in list
  {
    assert es == es[..n] + es[n..];
    CmdsJoined(es[..n], es[n..]);
  }

  lemma DoneFirst(es: seq<Event>, n: nat, list: seq<Cmd>, i: nat)
    requires n <= |es| && Issued(es[..n], list) && i < |list| && !list[i].Linger?
    ensures DoneAt(es, i, list[i])
  {
    assert CmdsOf(es[..n])[i] == list[i] && GoesOn(es[..n][i]);
  }

  lemma StaleSteps(cfg: Config, f: Script, b: Box, t: nat)
    requires StillRunsStale(cfg, f, b, t)
    ensures var list := StepsOf(cfg, f, b, t);
            |list| == 6 && list[1] == WriteCanon(cfg.rendered) && list[2] == Reload && list[5] == RestartCanon
  {}

  lemma MovedRestarts(cfg: Config, f: Script, b: Box, t: nat, out: Outcome, es: seq<Event>)
    requires MovedBy(cfg, f, b, t, out, es)
    ensures RestartsStale(cfg, f, b, t, out, es)
  {
    var list := StepsOf(cfg, f, b, t);
    var n := |list|;
    var last := When(!out.ReloadFailed? && es[n + 1].box.hashed.file.Absent?, ResetFailed);
    if RestartCanon in CmdsOf(es) {
      AfterHandover(es, n, last);
      OnlyIn(es, n, list, [RemoveHashed, Reload] + last, RestartCanon);
      NoOtherRestart(cfg, f, b, t);
    }
    if StillRunsStale(cfg, f, b, t) {
      StaleSteps(cfg, f, b, t);
      DoneFirst(es, n, list, 1);
      DoneFirst(es, n, list, 2);
      DoneFirst(es, n, list, 5);
    }
  }

  lemma AfterHandover(es: seq<Event>, n: nat, last: seq<Cmd>)
    requires n + 2 <= |es| && es[n].cmd == RemoveHashed && es[n + 1].cmd == Reload && CmdsOf(es[n + 2..]) == last
    ensures CmdsOf(es[n..]) == [RemoveHashed, Reload] + last
  {
    CmdsJoined([es[n], es[n + 1]], es[n + 2..]);
    assert es[n..] == [es[n], es[n + 1]] + es[n + 2..];
  }

  lemma RolledBackRestarts(cfg: Config, f: Script, b: Box, t: nat, mark: nat, es: seq<Event>)
    requires RolledBackBy(cfg, f, b, t, mark, es)
    ensures RestartCanon in CmdsOf(es) ==> StillRunsStale(cfg, f, b, t)
  {
    if RestartCanon in CmdsOf(es) {
      UndoesNoRestart(b, ReadAsMasked(f, b, t), CmdsOf(es[..mark]));
      OnlyIn(es, mark, StepsOf(cfg, f, b, t), RollbackSteps(b, ReadAsMasked(f, b, t), CmdsOf(es[..mark])),
             RestartCanon);
      NoOtherRestart(cfg, f, b, t);
    }
  }

  lemma UndoesNoRestart(b: Box, masked: bool, done: seq<Cmd>)
    ensures RestartCanon !in RollbackSteps(b, masked, done)
  {}
}
