/** Boxes and scripts for which the gateway move does not do what its documentation says. */
module GatewayExamples {
  import opened Basics
  import opened GatewayBox
  import opened GatewayRun

  const CFG := Config("new", t => t == "ours", t => false, true, true)
  const NONE := Unit(Absent, false, false, false)
  const OURS := Regular("ours", true)

  /** Linger is on, and the canonical unit is not masked under /run. */
  function BoxOf(canon: Unit, hashed: Unit): Box { Box(canon, false, hashed, true) }

  function AllDoneScript(): Script { t => Done }

  /** The `m`th step or probe fails though it took effect, and the `n`th without. */
  function LateAndFailed(m: nat, n: nat): Script {
    t => if t == m then FailedAfter else if t == n then Failed else Done
  }

  /** The `m`th and the `n`th fail. */
  function BothFail(m: nat, n: nat): Script { t => if t == m || t == n then Failed else Done }

  /** Every step and probe is done but the `n`th. */
  function AllBut(n: nat): Script { t => if t == n then Failed else Done }

  // ---- Parts of such runs ----

  /** Five steps done: the canonical file written, the suffixed unit down. */
  lemma Down(f: Script, b: Box, t: nat)
    requires AllDone(f, t, t + 5)
    ensures var d := StandDownOf(f, WriteOf(CFG, f, AtStart(b, t)));
            && d.ok && d.tick == t + 5 && d.touched == UNTOUCHED
            && d.box == b.(canon := b.canon.(file := Regular("new", true)),
                           hashed := b.hashed.(persistent := false, running := false))
  {
    var a := Must(Render, f, AtStart(b, t));
    var w := Must(WriteCanon("new"), f, a);
    var r := Must(Reload, f, w);
    var d := Must(Stop(Suffixed), f, r);
    assert a.ok && a.tick == t + 1 && w.ok && w.tick == t + 2 && r.ok && r.tick == t + 3 && d.ok && d.tick == t + 4;
  }

  /** The very first step fails. */
  lemma NoRender(f: Script, b: Box, plan: Plan, t: nat)
    requires f(t).Failed? && !plan.masked
    ensures var h := HandoverOf(CFG, f, plan, AtStart(b, t));
            !h.ok && h.tick == t + 1 && h.touched == UNTOUCHED && h.box == b
  {
    var a := Must(Render, f, AtStart(b, t));
    assert !a.ok && WriteOf(CFG, f, AtStart(b, t)) == a && StandDownOf(f, a) == a;
  }

  /** The canonical file is written, and then the reload fails. */
  lemma NoReload(f: Script, b: Box, plan: Plan, t: nat)
    requires f(t).Done? && f(t + 1).Done? && f(t + 2).Failed? && !plan.masked
    ensures var h := HandoverOf(CFG, f, plan, AtStart(b, t));
            && !h.ok && h.tick == t + 3 && h.touched == UNTOUCHED
            && h.box == b.(canon := b.canon.(file := Regular("new", true)))
  {
    var a := Must(Render, f, AtStart(b, t));
    var w := Must(WriteCanon("new"), f, a);
    var r := Must(Reload, f, w);
    assert a.ok && a.tick == t + 1 && w.ok && w.tick == t + 2 && !r.ok;
    assert WriteOf(CFG, f, AtStart(b, t)) == r && StandDownOf(f, r) == r;
  }

  /** The suffixed unit ran without being enabled, and linger is on: the start is the next step. */
  lemma OnlyStart(f: Script, b: Box, plan: Plan, t: nat)
    requires AllDone(f, t, t + 5) && b.linger && !plan.masked && !plan.owns && !plan.wasEnabled && plan.wasActive
    ensures var h := HandoverOf(CFG, f, plan, AtStart(b, t));
            && h.ok == f(t + 5).Done? && h.tick == t + 6 && h.touched == Touched(false, true)
            && h.box == b.(canon := b.canon.(file := Regular("new", true),
                                             running := b.canon.running || !f(t + 5).Failed?),
                           hashed := b.hashed.(persistent := false, running := false))
  {
    Down(f, b, t);
    var d := StandDownOf(f, WriteOf(CFG, f, AtStart(b, t)));
    assert LingerOf(CFG, f, d) == d && EnableOf(f, plan, d) == d;
  }

  /** The suffixed unit was enabled, and linger is on: all seven steps are done. */
  lemma EnableStart(f: Script, b: Box, plan: Plan, t: nat)
    requires AllDone(f, t, t + 7) && b.linger && !plan.masked && !plan.owns && plan.wasEnabled
    ensures var h := HandoverOf(CFG, f, plan, AtStart(b, t));
            h.ok && h.tick == t + 7 && h.box.hashed == b.hashed.(persistent := false, running := false)
  {
    Down(f, b, t);
    var d := StandDownOf(f, WriteOf(CFG, f, AtStart(b, t)));
    var e := EnableOf(f, plan, d);
    assert LingerOf(CFG, f, d) == d && e.ok && e.tick == t + 6 && e.box.hashed == d.box.hashed;
  }

  /** The rollback of a move that had made the canonical unit and only started it, or had changed
      nothing: four steps, the last only if the suffixed unit ran. */
  lemma UndoMade(f: Script, plan: Plan, s: State)
    requires !plan.existed && !plan.masked && !plan.canonRan && !plan.wasEnabled && !plan.runtimeOnly
               && !s.touched.enabled && s.ok
    requires f(s.tick + 1).Done? && f(s.tick + 2).Done?
    ensures var r := RollbackOf(f, plan, s);
            && r.ok && (r.box.canon.running <==> s.box.canon.running && f(s.tick).Failed?)
            && (r.box.hashed.running <==> s.box.hashed.running || (plan.wasActive && !f(s.tick + 3).Failed?))
  {
    var a := Try(Disable(Canonical, false, true), f, s);
    var r := Try(RemoveCanon, f, a);
    var c := Try(Reload, f, r);
    assert a.ok && a.tick == s.tick + 1 && r.tick == s.tick + 2 && c.tick == s.tick + 3;
    assert r.box == a.box.(canon := a.box.canon.(file := Absent)) && c.box == r.box && c.ok;
    assert UndoCanonOf(f, plan, s) == c && StartAgainOf(f, plan, c) == c && EnableHashedOf(f, plan, c) == c;
  }

  /** The rollback of a canonical unit that owned the state and did not run: its old text, if that
      could be read, is written back. */
  lemma UndoOwner(f: Script, plan: Plan, s: State)
    requires plan.existed && !plan.masked && plan.owns && !plan.canonRan && s.ok && f(s.tick).Done?
    ensures var r := RollbackOf(f, plan, s);
            && r.ok
            && r.box.canon.file == match plan.oldText case None => s.box.canon.file case Some(t) => Regular(t, true)
  {
    var c := UndoTextOf(f, plan, s);
    assert c.ok && UndoCanonOf(f, plan, s) == c && StartAgainOf(f, plan, c) == c;
    var e := EnableHashedOf(f, plan, c);
    assert e.ok && e.box.canon == c.box.canon;
  }

  /** The clean-up: the suffixed file goes, or cannot be removed. */
  lemma Cleaned(f: Script, s: State)
    requires f(s.tick + 1).Done?
    ensures var e := CleanUpOf(f, s);
            && (f(s.tick).Done? ==> e.out.Moved? && e.box == s.box.(hashed := s.box.hashed.(file := Absent)))
            && (f(s.tick).Failed? && !s.box.hashed.file.Absent? ==> e.out.LeftBehind? && e.box == s.box)
  {
    var r := Try(RemoveHashed, f, s);
    var l := Try(Reload, f, r);
    assert l.box == r.box && r.tick == s.tick + 1;
  }

  /** A suffixed unit that ran, not enabled, with no canonical unit: the start fails, at the eighth step
      or probe, and all that the rollback does is done but, perhaps, stopping and starting. */
  lemma StartFails(f: Script, b: Box)
    requires AllDone(f, 0, 8) && !f(8).Done? && f(10).Done? && f(11).Done? && b == Ran()
    ensures var e := MigrateOf(CFG, f, b, 0);
            && e.out == RolledBack(false) && (e.box.hashed.running <==> !f(12).Failed?)
            && (e.box.canon.running <==> f(8).FailedAfter? && f(9).Failed?)
  {
    var plan := PlanOf(b, false);
    assert ReadOf(f, b, 0) == Read(Some(plan), 3);
    OnlyStart(f, b, plan, 3);
    var h := HandoverOf(CFG, f, plan, AtStart(b, 3));
    UndoMade(f, plan, h.(ok := true));
  }

  function Ran(): Box { BoxOf(NONE, Unit(OURS, false, false, true)) }

  // ---- The runs ----

  /** The rollback: a canonical unit that runs without a file is stopped for good, although the move
      had changed nothing and every step of the rollback is done. */
  lemma NotRestored()
    ensures var b := BoxOf(NONE.(running := true), Unit(OURS, false, false, false));
            var e := MigrateOf(CFG, AllBut(3), b, 0);
            e.out == RolledBack(false) && b.canon.running && !e.box.canon.running
  {
    var f, b := AllBut(3), BoxOf(NONE.(running := true), Unit(OURS, false, false, false));
    var plan := PlanOf(b, false);
    assert ReadOf(f, b, 0) == Read(Some(plan), 3);
    NoRender(f, b, plan, 3);
    UndoMade(f, plan, HandoverOf(CFG, f, plan, AtStart(b, 3)).(ok := true));
  }

  /** Two pollers, and nothing told: the start of the canonical unit is reported as failed after it
      took effect, and the `disable --now` that should stop it fails. */
  lemma SecondPoller()
    ensures var b := Ran();
            var e := MigrateOf(CFG, LateAndFailed(8, 9), b, 0);
            e.out == RolledBack(false) && BothRun(e.box) && !BothRun(b)
  {
    StartFails(LateAndFailed(8, 9), Ran());
  }

  /** No poller, and nothing told: the start of the canonical unit fails, and so does that of the
      suffixed unit, which ran. */
  lemma NoPoller()
    ensures var b := Ran();
            var e := MigrateOf(CFG, BothFail(8, 12), b, 0);
            e.out == RolledBack(false) && b.hashed.running && !e.box.hashed.running && !e.box.canon.running
  {
    StartFails(BothFail(8, 12), Ran());
  }

  /** The rollback: a link to a unit file becomes a plain file, although the move had changed nothing
      and every step of the rollback is done. */
  lemma LinkReplaced()
    ensures var b := BoxOf(Unit(Linked("old", true), true, false, false), Unit(OURS, true, false, true));
            var e := MigrateOf(CFG, AllBut(4), b, 0);
            e.out == RolledBack(false) && e.box.canon.file == Regular("old", true)
  {
    var f, b := AllBut(4), BoxOf(Unit(Linked("old", true), true, false, false), Unit(OURS, true, false, true));
    var plan := PlanOf(b, false);
    assert ReadOf(f, b, 0) == Read(Some(plan), 4);
    NoRender(f, b, plan, 4);
    UndoOwner(f, plan, HandoverOf(CFG, f, plan, AtStart(b, 4)).(ok := true));
  }

  /** The rollback: a canonical file that could not be read, and was overwritten, stays overwritten,
      although every step of the rollback is done. */
  lemma Overwrites()
    ensures var b := BoxOf(Unit(Regular("old", false), true, false, false), Unit(OURS, true, false, true));
            var e := MigrateOf(CFG, AllBut(6), b, 0);
            e.out == RolledBack(false) && e.box.canon.file == Regular("new", true)
  {
    var f, b := AllBut(6), BoxOf(Unit(Regular("old", false), true, false, false), Unit(OURS, true, false, true));
    var plan := PlanOf(b, false);
    assert ReadOf(f, b, 0) == Read(Some(plan), 4);
    NoReload(f, b, plan, 4);
    UndoOwner(f, plan, HandoverOf(CFG, f, plan, AtStart(b, 4)).(ok := true));
  }

  /** The mask: with a runtime mask whose probe fails the move writes the canonical file, which
      lifts the mask, and starts the unit. */
  lemma MaskWrittenThrough()
    ensures var b := BoxOf(NONE, Unit(OURS, false, false, true)).(runMask := true);
            var e := MigrateOf(CFG, AllBut(0), b, 0);
            e.out.Moved? && RuntimeMasked(b) && !Masked(e.box) && e.box.canon.running
  {
    var f, b := AllBut(0), BoxOf(NONE, Unit(OURS, false, false, true)).(runMask := true);
    var plan := PlanOf(b, false);
    assert ReadOf(f, b, 0) == Read(Some(plan), 3);
    OnlyStart(f, b, plan, 3);
    Cleaned(f, HandoverOf(CFG, f, plan, AtStart(b, 3)).(touched := UNTOUCHED));
  }

  /** The choice: a link that enables a canonical unit without a file counts once there is one, so
      a gateway that was off, and stopped, is on after a move whose every step is done. */
  lemma DanglingLink()
    ensures var b := BoxOf(NONE.(persistent := true), Unit(OURS, false, false, false));
            var e := MigrateOf(CFG, AllDoneScript(), b, 0);
            e.out.Moved? && EffectiveChoice(CFG, b) == Off && EffectiveChoice(CFG, e.box) == On
  {
    var f, b := AllDoneScript(), BoxOf(NONE.(persistent := true), Unit(OURS, false, false, false));
    var plan := PlanOf(b, false);
    assert ReadOf(f, b, 0) == Read(Some(plan), 3);
    Down(f, b, 3);
    var h := HandoverOf(CFG, f, plan, AtStart(b, 3));
    assert h == StandDownOf(f, WriteOf(CFG, f, AtStart(b, 3)));
    Cleaned(f, h);
  }

  /** A suffixed file that cannot be removed stays enabled until the next boot. */
  lemma LeftEnabled()
    ensures var b := BoxOf(NONE, Unit(OURS, false, true, true));
            var e := MigrateOf(CFG, AllBut(11), b, 0);
            e.out.LeftBehind? && WordOf(e.box, Suffixed) == EnabledRuntime
  {
    var f, b := AllBut(11), BoxOf(NONE, Unit(OURS, false, true, true));
    var plan := PlanOf(b, false);
    assert ReadOf(f, b, 0) == Read(Some(plan), 4);
    EnableStart(f, b, plan, 4);
    Cleaned(f, HandoverOf(CFG, f, plan, AtStart(b, 4)).(touched := UNTOUCHED));
  }
}
